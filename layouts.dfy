/**
  The keyboard layout catalogue (rows of key labels and the keys that are
  wider than one grid cell), the choice of layout by name, and the grid
  column at which each key of a row is placed.
 */
module Layouts {
  import opened Wrappers

  /** Rows of key labels, top to bottom, and the column span of the wide keys. */
  datatype Layout = Layout(keys: seq<seq<string>>, spans: map<string, int>)

  /** `[c for c in s]`: one single-character label per character. */
  function Chars(s: string): (r: seq<string>)
    ensures |r| == |s|
    ensures forall i :: 0 <= i < |s| ==> r[i] == [s[i]]
  {
    seq(|s|, i requires 0 <= i < |s| => [s[i]])
  }

  /** `[f'F{i}' for i in range(1, 13)]`. */
  const FunctionKeys: seq<string> :=
    ["F1", "F2", "F3", "F4", "F5", "F6", "F7", "F8", "F9", "F10", "F11", "F12"]

  const BottomRow: seq<string> := ["lctrl", "super", "lalt", "space", "ralt", "fn", "menu", "rctrl"]

  /** The wide keys of the qwerty layout. */
  const QwertySpans: map<string, int> := map["enter" := 2, "lshift" := 2, "rshift" := 2]

  /** The wide keys of the azerty layout, whose backspace key is also two columns wide. */
  const AzertySpans: map<string, int> := map["enter" := 2, "lshift" := 2, "rshift" := 2, "back" := 2]

  const Azerty: Layout := Layout(
    [
      ["esc"] + FunctionKeys + ["del"],
      Chars("²&é\"'(-èçà)=") + ["back"],
      ["tab"] + Chars("AZERTYUIOP^$*"),
      ["capslk"] + Chars("QSDFGHJKLMù") + ["enter"],
      ["lshift"] + Chars("WXCVBN,;:!") + ["rshift"],
      BottomRow
    ],
    AzertySpans)

  const Qwerty: Layout := Layout(
    [
      ["esc"] + FunctionKeys + ["del"],
      Chars("`1234567890-=") + ["back"],
      ["tab"] + Chars("QWERTYUIOP[]\\"),
      ["capslk"] + Chars("ASDFGHJKL;'") + ["enter"],
      ["lshift"] + Chars("ZXCVBNM,./") + ["rshift"],
      BottomRow
    ],
    QwertySpans)

  /** The `keyboard_layout` table. */
  const Catalog: map<string, Layout> := map["azerty" := Azerty, "qwerty" := Qwerty]

  /** The layout shown at start-up and for any name the catalogue does not know. */
  const DefaultLayout: string := "qwerty"

  /**
    The layout name `display_keyboard` settles on: the requested one when the
    catalogue has it, otherwise (an unknown name, or no name at all) qwerty.
   */
  function SelectLayout(requested: Option<string>): (name: string)
    ensures name in Catalog
    ensures requested.Some? && requested.value in Catalog ==> name == requested.value
    ensures requested.None? || requested.value !in Catalog ==> name == DefaultLayout
  {
    if requested.Some? && requested.value in Catalog then requested.value else DefaultLayout
  }

  /**
    The number of grid columns a key occupies: its entry in `spans`, seven for
    the space bar, one for every other key.
   */
  function Span(spans: map<string, int>, key: string): int {
    if key in spans then spans[key] else if key == "space" then 7 else 1
  }

  /** `bonus_index` after the keys of `row`: the sum of `span - 1` over them. */
  function Bonus(row: seq<string>, spans: map<string, int>): int {
    if row == [] then 0
    else Bonus(row[..|row| - 1], spans) + Span(spans, row[|row| - 1]) - 1
  }

  /** The grid column of the key at `index` in its row: `index + bonus_index`. */
  function Column(row: seq<string>, spans: map<string, int>, index: nat): int
    requires index <= |row|
  {
    index + Bonus(row[..index], spans)
  }

  /** Independent reference: the total number of grid columns the keys of `row` occupy. */
  function Width(row: seq<string>, spans: map<string, int>): int {
    if row == [] then 0 else Width(row[..|row| - 1], spans) + Span(spans, row[|row| - 1])
  }

  /** Every span in the table covers at least one column. */
  predicate PositiveSpans(spans: map<string, int>) {
    forall k :: k in spans ==> spans[k] >= 1
  }

  /**
    A layout is well formed when every key of `spans` is a key of some row,
    every span is positive and every label is non-empty.
   */
  predicate WellFormed(layout: Layout) {
    && PositiveSpans(layout.spans)
    && (forall k :: k in layout.spans ==> exists r :: 0 <= r < |layout.keys| && k in layout.keys[r])
    && (forall r, i :: 0 <= r < |layout.keys| && 0 <= i < |layout.keys[r]| ==> |layout.keys[r][i]| > 0)
  }

  /** The column of a key is the width of all the keys before it in its row. */
  lemma {:induction false} ColumnIsWidthBefore(row: seq<string>, spans: map<string, int>, index: nat)
    requires index <= |row|
    ensures Column(row, spans, index) == Width(row[..index], spans)
    decreases index
  {
    if index > 0 {
      var pre := row[..index];
      assert pre[..index - 1] == row[..index - 1];
      ColumnIsWidthBefore(row, spans, index - 1);
    }
  }

  /** Each key starts where the previous one ends. */
  lemma ColumnStep(row: seq<string>, spans: map<string, int>, index: nat)
    requires index < |row|
    ensures Column(row, spans, index + 1) == Column(row, spans, index) + Span(spans, row[index])
  {
    assert row[..index + 1][..index] == row[..index];
  }

  /** The first key of a row is in column zero. */
  lemma FirstColumn(row: seq<string>, spans: map<string, int>)
    ensures Column(row, spans, 0) == 0
  {
  }

  /**
    With positive spans the cells of a row never overlap: a key ends at or
    before the column where any later key starts, so columns strictly increase.
   */
  lemma {:induction false} CellsDoNotOverlap(row: seq<string>, spans: map<string, int>, i: nat, j: nat)
    requires PositiveSpans(spans)
    requires i < j < |row|
    ensures Column(row, spans, i) + Span(spans, row[i]) <= Column(row, spans, j)
    ensures Column(row, spans, i) < Column(row, spans, j)
    decreases j - i
  {
    ColumnStep(row, spans, i);
    if i + 1 < j {
      CellsDoNotOverlap(row, spans, i + 1, j);
      ColumnStep(row, spans, i + 1);
    }
  }

  /** The last key of a row ends at the row's total width. */
  lemma LastCellEndsRow(row: seq<string>, spans: map<string, int>)
    requires |row| > 0
    ensures Column(row, spans, |row| - 1) + Span(spans, row[|row| - 1]) == Width(row, spans)
  {
    ColumnStep(row, spans, |row| - 1);
    ColumnIsWidthBefore(row, spans, |row|);
    assert row[..|row|] == row;
  }

  /** Every label of the catalogue is non-empty, so its first character can be read. */
  lemma CatalogLabelsNonEmpty(name: string, r: nat, i: nat)
    requires name in Catalog
    requires r < |Catalog[name].keys| && i < |Catalog[name].keys[r]|
    ensures |Catalog[name].keys[r][i]| > 0
  {
    var layout := Catalog[name];
    if r == 0 {
      assert layout.keys[0] == ["esc"] + FunctionKeys + ["del"];
      assert forall k :: 0 <= k < |FunctionKeys| ==> |FunctionKeys[k]| > 0;
    } else if r == 5 {
      assert layout.keys[5] == BottomRow;
      assert forall k :: 0 <= k < |BottomRow| ==> |BottomRow[k]| > 0;
    }
  }

  /** Both layouts are well formed: wide keys belong to the layout, spans are positive. */
  lemma CatalogWellFormed(name: string)
    requires name in Catalog
    ensures WellFormed(Catalog[name])
  {
    var layout := Catalog[name];
    forall r, i | 0 <= r < |layout.keys| && 0 <= i < |layout.keys[r]|
      ensures |layout.keys[r][i]| > 0
    {
      CatalogLabelsNonEmpty(name, r, i);
    }
    assert "enter" in layout.keys[3] by { assert layout.keys[3][|layout.keys[3]| - 1] == "enter"; }
    assert "lshift" in layout.keys[4] by { assert layout.keys[4][0] == "lshift"; }
    assert "rshift" in layout.keys[4] by { assert layout.keys[4][|layout.keys[4]| - 1] == "rshift"; }
    if name == "azerty" {
      assert "back" in layout.keys[1] by { assert layout.keys[1][|layout.keys[1]| - 1] == "back"; }
    }
  }

  /** The width of two pieces of a row is the sum of their widths. */
  lemma {:induction false} WidthAppend(a: seq<string>, b: seq<string>, spans: map<string, int>)
    ensures Width(a + b, spans) == Width(a, spans) + Width(b, spans)
    decreases |b|
  {
    if b == [] {
      assert a + b == a;
    } else {
      var b' := b[..|b| - 1];
      assert (a + b)[..|a + b| - 1] == a + b';
      assert (a + b)[|a + b| - 1] == b[|b| - 1];
      WidthAppend(a, b', spans);
    }
  }

  /** Keys that are neither in `spans` nor the space bar take one column each. */
  lemma {:induction false} WidthOfNarrowKeys(row: seq<string>, spans: map<string, int>)
    requires forall k :: 0 <= k < |row| ==> row[k] !in spans && row[k] != "space"
    ensures Width(row, spans) == |row|
    decreases |row|
  {
    if row != [] {
      WidthOfNarrowKeys(row[..|row| - 1], spans);
    }
  }

  /** The wide keys of both layouts have names longer than one character. */
  lemma SpanKeysAreLong(spans: map<string, int>)
    requires spans == AzertySpans || spans == QwertySpans
    ensures forall k :: k in spans ==> |k| > 1
  {
  }

  /** Single-character labels are never wide keys. */
  lemma CharsAreNarrow(s: string, spans: map<string, int>)
    requires forall k :: k in spans ==> |k| > 1
    ensures Width(Chars(s), spans) == |s|
  {
    WidthOfNarrowKeys(Chars(s), spans);
  }

  /** The function-key row: fourteen one-column keys. */
  lemma TopRowWidth(layout: Layout)
    requires layout == Azerty || layout == Qwerty
    ensures Width(layout.keys[0], layout.spans) == 14
  {
    WidthOfNarrowKeys(layout.keys[0], layout.spans);
  }

  /** The digit row: thirteen characters and the backspace key. */
  lemma DigitRowWidth(layout: Layout)
    requires layout == Azerty || layout == Qwerty
    ensures Width(layout.keys[1], layout.spans) == 14
  {
    var sp := layout.spans;
    var cs := if layout == Azerty then "²&é\"'(-èçà)=" else "`1234567890-=";
    assert layout.keys[1] == Chars(cs) + ["back"];
    WidthAppend(Chars(cs), ["back"], sp);
    SpanKeysAreLong(sp);
    CharsAreNarrow(cs, sp);
  }

  /** The tab row: the tab key and thirteen characters. */
  lemma TabRowWidth(layout: Layout)
    requires layout == Azerty || layout == Qwerty
    ensures Width(layout.keys[2], layout.spans) == 14
  {
    var sp := layout.spans;
    var cs := if layout == Azerty then "AZERTYUIOP^$*" else "QWERTYUIOP[]\\";
    assert layout.keys[2] == ["tab"] + Chars(cs);
    WidthAppend(["tab"], Chars(cs), sp);
    SpanKeysAreLong(sp);
    CharsAreNarrow(cs, sp);
  }

  /** A row of one-column characters between two named keys. */
  lemma FramedRowWidth(first: string, s: string, last: string, spans: map<string, int>)
    requires forall k :: k in spans ==> |k| > 1
    ensures Width([first] + Chars(s) + [last], spans) == Span(spans, first) + |s| + Span(spans, last)
  {
    WidthAppend([first] + Chars(s), [last], spans);
    WidthAppend([first], Chars(s), spans);
    CharsAreNarrow(s, spans);
    assert Width([first], spans) == Span(spans, first) by { assert [first][..0] == []; }
    assert Width([last], spans) == Span(spans, last) by { assert [last][..0] == []; }
  }

  /** Enter and both shift keys span two columns; caps lock spans one. */
  lemma FramingKeySpans(spans: map<string, int>)
    requires spans == AzertySpans || spans == QwertySpans
    ensures Span(spans, "enter") == 2 && Span(spans, "lshift") == 2 && Span(spans, "rshift") == 2
    ensures Span(spans, "capslk") == 1
  {
    assert "capslk" != "lshift" && "capslk" != "rshift" by { assert "capslk"[0] == 'c'; }
  }

  /** The home row: caps lock, eleven characters and the two-column enter key. */
  lemma HomeRowWidth(layout: Layout)
    requires layout == Azerty || layout == Qwerty
    ensures Width(layout.keys[3], layout.spans) == 14
  {
    var sp := layout.spans;
    var cs := if layout == Azerty then "QSDFGHJKLMù" else "ASDFGHJKL;'";
    assert layout.keys[3] == ["capslk"] + Chars(cs) + ["enter"];
    SpanKeysAreLong(sp);
    FramedRowWidth("capslk", cs, "enter", sp);
    FramingKeySpans(sp);
  }

  /** The shift row: ten characters between the two-column shift keys. */
  lemma ShiftRowWidth(layout: Layout)
    requires layout == Azerty || layout == Qwerty
    ensures Width(layout.keys[4], layout.spans) == 14
  {
    var sp := layout.spans;
    var cs := if layout == Azerty then "WXCVBN,;:!" else "ZXCVBNM,./";
    assert layout.keys[4] == ["lshift"] + Chars(cs) + ["rshift"];
    SpanKeysAreLong(sp);
    FramedRowWidth("lshift", cs, "rshift", sp);
    FramingKeySpans(sp);
  }

  /** The modifier keys of the bottom row are one column wide each. */
  lemma ModifierKeysAreNarrow(spans: map<string, int>)
    requires spans == AzertySpans || spans == QwertySpans
    ensures Width(["lctrl", "super", "lalt"], spans) == 3
    ensures Width(["ralt", "fn", "menu", "rctrl"], spans) == 4
  {
    WidthOfNarrowKeys(["lctrl", "super", "lalt"], spans);
    WidthOfNarrowKeys(["ralt", "fn", "menu", "rctrl"], spans);
  }

  /** The bottom row: seven one-column keys and the seven-column space bar. */
  lemma BottomRowWidth(spans: map<string, int>)
    requires spans == AzertySpans || spans == QwertySpans
    ensures Width(BottomRow, spans) == 14
  {
    var left, right := ["lctrl", "super", "lalt"], ["ralt", "fn", "menu", "rctrl"];
    assert BottomRow == left + ["space"] + right;
    ModifierKeysAreNarrow(spans);
    WidthAppend(left + ["space"], right, spans);
    WidthAppend(left, ["space"], spans);
  }

  /** Every row of both layouts spans exactly fourteen grid columns. */
  lemma RowsAreFourteenWide(name: string, r: nat)
    requires name in Catalog && r < |Catalog[name].keys|
    ensures Width(Catalog[name].keys[r], Catalog[name].spans) == 14
  {
    var layout := Catalog[name];
    if r == 0 { TopRowWidth(layout); }
    else if r == 1 { DigitRowWidth(layout); }
    else if r == 2 { TabRowWidth(layout); }
    else if r == 3 { HomeRowWidth(layout); }
    else if r == 4 { ShiftRowWidth(layout); }
    else { BottomRowWidth(layout.spans); }
  }
}
