# League of Legends key bindings on a keyboard — a Dafny model

The program draws a keyboard (`azerty` or `qwerty`) and colours every key after
the action bound to it in the game's persisted settings. Each binding record
has an action name (`evtCastSpell1`) and a raw value listing keys
(`[q],[Q]`). A key label is looked up in three forms: lower-cased,
capitalised and verbatim, each in brackets. A record binds the key when one
of those forms is exactly one of the comma-separated tokens of the value.

Within one section of the settings, the first record that binds a key
decides its colour. A later section that binds the key overwrites what an
earlier one set. A key no record binds keeps the neutral colour `#ddd`.

A fixed cascade of tests maps the binding record to one of thirteen colour
categories. Most tests read the action name; the last one also checks
whether the raw value mentions `Tab`. Keys are placed on a grid where wide
keys span several columns. The Assign Key menu lists the sections whose name
mentions `Events`. Each entry is the action name without its first three
characters, whatever they are, and also without the fourth when that one is
`t`; for `evtCastSpell1` this removes `evt`.

Modules, one file each:

- `Text` (`text.dfy`): Python's `lower`/`upper`, `in` on strings and
  `split(',')`, with `Join` as the inverse of `Split`.
- `Categories` (`categories.dfy`): the thirteen categories and the
  `color_code` table. Also `Classify`, the cascade of `display_keyboard`, and
  an independent first-match rule table equal to it.
- `Bindings` (`bindings.dfy`): settings records, the three candidate forms
  of a key and the binding test.
- `Layouts` (`layouts.dfy`): the layout catalogue, the `qwerty` fallback and
  the grid column of each key (`index + bonus_index`).
- `Engine` (`engine.dfy`): the colour decision for one key. It has recursive
  specifications and the imperative scans of `display_keyboard`:
  `ScanSection` (the inner loop, left by `break`), `ColorKey` (the outer loop
  over sections) and `LayRow` (the `bonus_index` accumulator).
- `Keyboard` (`keyboard.dfy`): the view object, whose `keyboard` field the
  source updates in place, and `display_keyboard` with its rebuild guard and
  its loop over rows (`Redraw`).
- `Menus` (`menus.dfy`): the Assign Key cascades.
- `Wrappers` (`wrappers.dfy`): `Option`.

Case mapping covers ASCII letters and the Latin-1 letters U+00C0–U+00DE /
U+00E0–U+00FE, without × and ÷. Every other character maps to itself. On
every label that occurs in the two layouts this agrees with Python.

## Model

| member | source | states |
|---|---|---|
| Text.LowerChar | main.py:230 | an upper-case letter becomes its lower-case partner, 32 code points up; every other character is unchanged; the result is never upper-case |
| Text.UpperChar | main.py:231 | a lower-case letter becomes its upper-case partner, 32 code points down; every other character is unchanged; the result is never lower-case |
| Text.LowerIsIdempotent | main.py:230 | lower-casing a lower-cased label changes nothing |
| Text.CapitalizeIgnoresCase | main.py:230-231 | the capitalised form differs from the label in case only: both lower-case to the same string |
| Text.Split | main.py:229 | `split(',')` yields at least one token (`""` gives `[""]`) and no token holds the separator |
| Text.JoinSplit | main.py:229 | gluing the tokens back with commas gives the original value |
| Text.SplitSeparatorFirst | main.py:229 | a leading comma splits off an empty first token |
| Text.SplitJoin | main.py:229 | splitting comma-free tokens glued with commas gives the same tokens back |
| Text.SplitAppend | main.py:229 | the tokens of `a,b` are the tokens of `a` followed by those of `b` |
| Text.SplitWithoutSeparator | main.py:229 | a value without a comma is a single token |
| Bindings.Candidates | main.py:230-232 | three bracketed forms of the label, each two longer than it; the third is the label verbatim |
| Bindings.BracketIsInjective | main.py:230-232 | two bracketed forms are equal iff the labels inside are equal |
| Bindings.EmptyValueNeverMatches | main.py:229 | a record with an empty value binds no key |
| Bindings.CommaKeyNeverMatches | main.py:229-232 | the `,` key is never bound: its only form `[,]` holds a comma, which no token can |
| Bindings.MatchesJoinedTokens | main.py:229-232 | a value made of comma-free tokens binds a key iff one token is one of its candidate forms |
| Bindings.MatchesEitherPart | main.py:229 | `a,b` binds a key iff `a` or `b` binds it |
| Bindings.LetterKeyIgnoresCase | main.py:230-232 | a one-letter key is bound iff the value lists that letter bracketed in lower or upper case |
| Bindings.UpperKeyFindsLowerToken | main.py:230 | an upper-case letter key is bound by its lower-case letter in brackets (`Q` by `[q]`) |
| Bindings.LowerKeyFindsUpperToken | main.py:231 | a lower-case letter key is bound by its upper-case letter in brackets (`a` by `[A]`) |
| Bindings.TwoTokenValue | main.py:229 | `W` is bound by `[w],[W]` |
| Bindings.KeyFindsOwnToken | main.py:232 | any comma-free label is bound by its own bracketed form |
| Bindings.OtherLetterNotFound | main.py:229-232 | a one-letter key is never bound by another letter, in either case |
| Bindings.OtherLetterTokens | main.py:230-232 | the bracketed forms of two different letters never coincide, in either case |
| Bindings.MultiLetterKeyIsNotCaseFolded | main.py:230-232 | `esc` is not bound by `[ESC]`: only the first letter is ever upper-cased |
| Categories.ButtonColor | main.py:84-98 | no category gives the neutral `#ddd`; a category gives its `color_code` entry |
| Categories.ColorCodeKeys | main.py:84-98 | the `color_code` keys are exactly the names of the thirteen categories |
| Categories.ButtonColorsDistinct | main.py:84-98 | two buttons show the same colour iff they have the same category or both have none |
| Categories.SummonerSpellRule | main.py:236-239 | a name holding `evtCastAvatarSpell` is a summoner spell, whatever its value |
| Categories.CameraNamesAreNotSpells | main.py:236-241 | neither camera name holds `evtCastSpell` |
| Categories.ChampionSpellRule | main.py:236-241 | a name holding `evtCastSpell` but not `evtCastAvatarSpell` is a champion spell |
| Categories.FirstSpellRule | main.py:240-241 | `evtCastSpell1` is a champion spell whatever its value |
| Categories.OpenShopRule | main.py:242-243 | `evtOpenShop` is the shop whatever its value |
| Categories.UseItemBoundary | main.py:252-261 | item slots 0–6 are items, slot 7 is `back`, slots 8–9 fall through to the scoreboard test and the default |
| Categories.VisionItemRule | main.py:256-257 | `evtUseVisionItem` is the ward category |
| Categories.ScoreboardByName | main.py:258-259 | `evtShowScoreBoard` is the scoreboard even without `Tab` in its value |
| Categories.TabNeverDefault | main.py:258-261 | a value mentioning `Tab` never leaves a record in the default category |
| Categories.ValueOnlyDecidesScoreboard | main.py:236-261 | changing only the value can move a record only between the scoreboard and the default category |
| Categories.TabValueIsScoreboard | main.py:236-261 | a name that no name test claims (with an empty value the cascade gives it the default category) is the scoreboard whenever its value mentions `Tab` |
| Categories.TabValueExample | main.py:236-259 | `evtSomethingElse` with the value `[Tab]` is the scoreboard |
| Categories.FirstRuleIsSomeRule | main.py:236-261 | a first-match rule table yields the default or the category of some rule at or after the start |
| Categories.UseItemSlots | main.py:252 | `evtUseItem{i}` for `i` in `range(7)` is exactly the seven names `evtUseItem0`..`evtUseItem6` |
| Categories.ItemSlotRules | main.py:252-253 | the seven item-slot rules of the table together give the item category exactly to `evtUseItem0`..`evtUseItem6` and pass every other name on |
| Categories.ClassifyIsFirstRule | main.py:236-261 | the cascade equals the first matching rule of the ordered rule table |
| Layouts.SelectLayout | main.py:217 | a catalogued name is kept; an unknown name or none gives `qwerty`; the result is always in the catalogue |
| Layouts.ColumnIsWidthBefore | main.py:224-277 | the column of a key is the total span of the keys before it in its row |
| Layouts.ColumnStep | main.py:265-277 | each key starts where the previous one ends |
| Layouts.FirstColumn | main.py:225 | the first key of a row is in column 0 |
| Layouts.CellsDoNotOverlap | main.py:265-277 | with positive spans, a key ends before any later key starts, so columns strictly increase |
| Layouts.LastCellEndsRow | main.py:265-277 | the last key ends at the row's total width |
| Layouts.CatalogLabelsNonEmpty | main.py:56-81 | every label in the catalogue is non-empty, so reading its first character is safe |
| Layouts.CatalogWellFormed | main.py:56-81 | each catalogued layout has positive spans, every spanned key on some row and no empty label |
| Layouts.WidthAppend | main.py:265-277 | the width of two concatenated rows is the sum of their widths |
| Layouts.WidthOfNarrowKeys | main.py:276-277 | keys that are neither spanned nor `space` take one column each |
| Layouts.SpanKeysAreLong | main.py:56-81 | every key of both span tables has a multi-character label |
| Layouts.CharsAreNarrow | main.py:60-75 | single-character labels take one column each |
| Layouts.TopRowWidth | main.py:59 | the function-key row is 14 columns wide |
| Layouts.DigitRowWidth | main.py:60 | the digit row is 14 columns wide, with `back` spanning 2 in azerty |
| Layouts.TabRowWidth | main.py:61 | the tab row is 14 columns wide |
| Layouts.FramedRowWidth | main.py:265-277 | a row of single characters between two named keys is as wide as the characters plus the two keys' spans |
| Layouts.FramingKeySpans | main.py:56-81 | enter and both shift keys span two columns and caps lock one, in both layouts |
| Layouts.HomeRowWidth | main.py:62 | the caps-lock row is 14 columns wide |
| Layouts.ShiftRowWidth | main.py:63 | the shift row is 14 columns wide |
| Layouts.ModifierKeysAreNarrow | main.py:64-65 | the three modifiers left of the space bar and the four right of it take one column each |
| Layouts.BottomRowWidth | main.py:64-65 | with either span table, the bottom row, with the 7-column space bar, is 14 columns wide |
| Layouts.RowsAreFourteenWide | main.py:56-81 | every row of every catalogued layout fills exactly 14 grid columns |
| Engine.FirstMatch | main.py:228-233 | a position found is a position of the section's records |
| Engine.FirstMatchIsFirst | main.py:228-233 | none iff no record binds the key; otherwise the position of a binding record with no binding record before it |
| Engine.SectionRecord | main.py:227-262 | a record given is one of the section's own records |
| Engine.SectionRecordBinds | main.py:227-262 | a section gives no record iff none of its records binds the key, else a record that binds it |
| Engine.SectionRecordUnbound | main.py:228-233 | a section none of whose records binds the key gives no record |
| Engine.LastSome | main.py:227-262 | none iff no entry is present; otherwise a present entry with nothing present after it |
| Engine.BoundRecord | main.py:227-262 | reference definition: a record given is the record some section gives |
| Engine.BoundRecordBinds | main.py:227-262 | no record iff no record of any section binds the key; any record given binds it |
| Engine.SectionRecordIsFirstBound | main.py:228-262 | within a section the first binding record wins, because the `break` ends the inner scan |
| Engine.BoundRecordAppend | main.py:227-262 | a section appended last decides the key when it binds it and changes nothing otherwise |
| Engine.KeyColorIsLastBoundSection | main.py:227-262 | the overwrite-as-you-go colour equals the category of the first binding record of the last binding section |
| Engine.KeyColorIsNone | main.py:220-262 | a key keeps the neutral colour iff no record of any section binds it |
| Engine.LaterSectionsOverride | main.py:227-262 | after sections `a` then `b`, a key has `b`'s category if `b` binds it, else `a`'s |
| Engine.KeyColorStep | main.py:227-262 | one more section changes the colour exactly when it gives a record, to that record's category |
| Engine.ScanSection | main.py:228-262 | the inner scan, ended by `break` at the first binding record, sets that record's category, and keeps the colour so far when no record binds |
| Engine.ColorKey | main.py:227-262 | the outer scan over sections, which never breaks, computes exactly the key's category |
| Engine.RowColors | main.py:224-262 | one colour per key of the row |
| Engine.RowColorsAt | main.py:224-262 | the colour of each key of the row is that key's own category |
| Engine.LayRow | main.py:224-277 | every key of a row gets its category and the column `index + bonus_index` |
| Engine.SecondRecordDecides | main.py:228-262 | in a two-record section whose first record does not bind the key and whose second does, the second decides |
| Engine.SpellRecordMisses | main.py:229-232 | the value `[q]` binds no upper-case letter key but `Q` |
| Engine.ShopRecordMisses | main.py:229-232 | the value `[w],[W]` binds no upper-case letter key but `W` |
| Engine.ExampleUnboundLetter | main.py:227-262 | in the example file every upper-case letter key but `Q` and `W` keeps the neutral colour |
| Engine.ExampleQIsChampionSpell | main.py:227-262 | with `evtCastSpell1 = [q]`, `Q` is a champion spell |
| Engine.ExampleWIsShop | main.py:227-262 | with `evtOpenShop = [w],[W]`, `W` is the shop |
| Engine.ExampleEIsUnbound | main.py:227-262 | `E` is bound by neither record and keeps the neutral colour |
| Engine.ExampleRIsUnbound | main.py:227-262 | `R` is bound by neither record and keeps the neutral colour |
| Engine.FirstRecordWins | main.py:228-262 | two records of one section bound to `[f]`: the first decides |
| Engine.LaterSectionWins | main.py:227-262 | two sections binding `[f]`: the later one decides |
| Keyboard.SkippedRebuildKeepsLayout | main.py:212-217 | skipping the rebuild loses nothing: the layout shown is the one a rebuild would select |
| Keyboard.RepeatedRequestRebuilds | main.py:212-217 | repeating a request rebuilds iff it named no catalogued layout |
| Keyboard.KeyboardView.constructor | main.py:116-126 | given settings whose Assign Key menu builds, the view starts on `qwerty` and is drawn |
| Keyboard.KeyboardView.DisplayKeyboard | main.py:211-217 | with no layout named or a different one, it shows the selected layout with every row drawn; otherwise nothing changes; a drawn view stays drawn |
| Keyboard.KeyboardView.Redraw | main.py:217-277 | after the row loop, the named layout is shown and every key of every row carries its category and its grid column |
| Menus.ItemLabel | main.py:170-172 | an entry exists iff the name has at least 4 characters; it is the name's suffix, 3 or 4 characters shorter |
| Menus.ItemLabelDropsPrefix | main.py:170-172 | after a three-letter prefix the entry is the rest of the name, less a leading `t` |
| Menus.CastSpellEntry | main.py:170-172 | `evtCastSpell1` is listed as `CastSpell1` |
| Menus.ItemLabels | main.py:169-174 | the entries fail iff some name is too short; otherwise one entry per action, in order |
| Menus.EventSections | main.py:175 | exactly the sections whose name contains `Events` |
| Menus.EventSectionsAppend | main.py:175-181 | the event sections of two lists joined are those of the first followed by those of the second, so the filter keeps document order and repeats |
| Menus.AssignKeyMenusFail | main.py:163-184 | the menu bar fails to build iff some event section has an action name too short to label |
| Menus.AssignKeyMenusMatchEventSections | main.py:163-184 | when the menus build, one menu per event section, in order, titled with its name and listing one entry per action |
| Menus.MenuPerEventSection | main.py:175-184 | every event section of the file has its cascade |
| Menus.EventFilterExamples | main.py:175 | `GameEvents` gets a cascade, `Quickbinds` does not |

## Left out

- Reading the settings: `find_file`, `read_file` and the JSON parsing (main.py:7-53) are file I/O. The binding sections come in as a parameter of the view.
- Menu sections: the menu comprehension walks every member of every file that holds dictionaries. `AssignKeyMenus` instead takes the list of sections directly.
- Widgets and geometry are not modelled: tkinter buttons, labels, menus, `ipadx`/`ipady`, window size, title, `move_window`, and the menus other than Assign Key (File, Edit, Option, Help).
- The Keyboard option menu is not modelled as a menu. It calls `load` with each catalogue name, and `SelectLayout` shows that any such name is kept.
- Widget removal is not modelled. On a rebuild the source destroys only the first `len(color_code)` children (main.py:214). `Keyboard.KeyboardView.DisplayKeyboard` describes the new drawing and ignores leftover widgets.
- `display_colors` (the colour legend) and `create_menu_bar`'s widget construction are layout and drawing only.
- `load` is not modelled as its own operation. It runs menu construction, `display_keyboard` and the legend in turn.
- Keyboard.KeyboardView.constructor: requires that the Assign Key menu builds (`AssignKeyMenus(sections).Some?`). Otherwise `load` raises `IndexError` in `create_menu_bar` (main.py:171) before `display_keyboard` runs, no view is created, and the model has no outcome for that case.
- Keyboard.KeyboardView.DisplayKeyboard: stores each button's colour category, with none standing for the neutral colour, rather than its colour string. `Categories.ButtonColor` gives the string, and `Categories.ButtonColorsDistinct` shows that nothing is lost.
- Text.LowerChar: case mapping covers ASCII and Latin-1 letters only, not full Unicode. That agrees with Python on every label of both layouts.
- Text.UpperChar: maps `ß`, `ÿ` and `µ` to themselves, where Python gives `SS`, `Ÿ` and `Μ`. No label of either layout contains them.
- Values in the settings file that are not strings, and malformed documents, are not modelled: records are pairs of strings.
