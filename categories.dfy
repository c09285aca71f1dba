/**
  The colour categories of the keyboard view and the ordered if/elif cascade
  that maps a binding (its action name and its raw value) to one of them.
 */
module Categories {
  import opened Text
  import opened Wrappers

  /** The thirteen keys of the `color_code` table. */
  datatype Category =
    | AttackMove
    | Back
    | CameraSelectAlly
    | CameraSnapSelf
    | ChampionSpell
    | DefaultColor
    | EnemyVision
    | OpenShop
    | ShowCharacterMenu
    | SummonerSpell
    | ShowScoreboard
    | UseItem
    | Ward

  /** The name under which a category appears in `color_code`. */
  function Key(c: Category): string {
    match c
    case AttackMove => "attack_move"
    case Back => "back"
    case CameraSelectAlly => "camera_select_ally"
    case CameraSnapSelf => "camera_snap_self"
    case ChampionSpell => "champion_spell"
    case DefaultColor => "default_color"
    case EnemyVision => "enemy_vision"
    case OpenShop => "open_shop"
    case ShowCharacterMenu => "show_character_menu"
    case SummonerSpell => "summoner_spell"
    case ShowScoreboard => "show_scoreboard"
    case UseItem => "use_item"
    case Ward => "ward"
  }

  /** The `color_code` table: category name to Tk colour name. */
  const ColorCode: map<string, string> := map[
    "attack_move" := "gray",
    "back" := "aqua",
    "camera_select_ally" := "skyblue1",
    "camera_snap_self" := "lightsteelblue",
    "champion_spell" := "tomato",
    "default_color" := "lightgreen",
    "enemy_vision" := "chocolate3",
    "open_shop" := "orange",
    "show_character_menu" := "chartreuse2",
    "summoner_spell" := "yellow",
    "show_scoreboard" := "darkorchid1",
    "use_item" := "pink",
    "ward" := "gold"
  ]

  /** Background of a key button before any binding is found for it. */
  const Neutral: string := "#ddd"

  /**
    The background a key button ends with: the neutral colour when no binding
    matched, otherwise the `color_code` entry of the matched category.
   */
  function ButtonColor(bg: Option<Category>): (color: string)
    ensures bg.None? ==> color == Neutral
    ensures bg.Some? ==> Key(bg.value) in ColorCode && color == ColorCode[Key(bg.value)]
  {
    match bg
    case None => Neutral
    case Some(c) => ColorCode[Key(c)]
  }

  /** The keys of `color_code` are exactly the names of the thirteen categories. */
  lemma ColorCodeKeys()
    ensures forall k :: k in ColorCode <==> exists c :: Key(c) == k
  {
    forall k | k in ColorCode ensures exists c :: Key(c) == k {
      if k == "attack_move" { assert Key(AttackMove) == k; }
      else if k == "back" { assert Key(Back) == k; }
      else if k == "camera_select_ally" { assert Key(CameraSelectAlly) == k; }
      else if k == "camera_snap_self" { assert Key(CameraSnapSelf) == k; }
      else if k == "champion_spell" { assert Key(ChampionSpell) == k; }
      else if k == "default_color" { assert Key(DefaultColor) == k; }
      else if k == "enemy_vision" { assert Key(EnemyVision) == k; }
      else if k == "open_shop" { assert Key(OpenShop) == k; }
      else if k == "show_character_menu" { assert Key(ShowCharacterMenu) == k; }
      else if k == "summoner_spell" { assert Key(SummonerSpell) == k; }
      else if k == "show_scoreboard" { assert Key(ShowScoreboard) == k; }
      else if k == "use_item" { assert Key(UseItem) == k; }
      else { assert Key(Ward) == k; }
    }
    forall c: Category ensures Key(c) in ColorCode {
      assert ButtonColor(Some(c)) == ColorCode[Key(c)];
    }
  }

  /**
    Every state a key can end in is shown in its own colour: no two categories
    share a colour, and the neutral colour of an unbound key is none of them.
   */
  lemma ButtonColorsDistinct(x: Option<Category>, y: Option<Category>)
    ensures ButtonColor(x) == ButtonColor(y) <==> x == y
  {
  }

  /** The action name `f'evtUseItem{i}'` for a one-digit slot `i`. */
  function UseItemName(i: nat): (name: string)
    requires i < 10
    ensures |name| == 11
  {
    "evtUseItem" + [('0' as int + i) as char]
  }

  /** `any(f'evtUseItem{i}' == name for i in range(7))`. */
  predicate IsUseItemSlot(name: string) {
    exists i: nat :: i < 7 && name == UseItemName(i)
  }

  /**
    The cascade of `display_keyboard`, in source order: exact names, infix
    tests, the item slots 0..6, slot 7, the vision item, the scoreboard test
    (which alone looks at the raw value), then the default.
   */
  function Classify(name: string, value: string): Category {
    if name == "evtCameraSnap" || name == "evtSelectSelf" then CameraSnapSelf
    else if Contains(name, "evtCastAvatarSpell") then SummonerSpell
    else if Contains(name, "evtCastSpell") then ChampionSpell
    else if name == "evtOpenShop" then OpenShop
    else if Contains(name, "evtPlayerAttackMove") then AttackMove
    else if name == "evtPlayerPingAreaIsWarded" then EnemyVision
    else if Contains(name, "evtSelectAlly") then CameraSelectAlly
    else if name == "evtShowCharacterMenu" then ShowCharacterMenu
    else if IsUseItemSlot(name) then UseItem
    else if name == "evtUseItem7" then Back
    else if name == "evtUseVisionItem" then Ward
    else if Contains(value, "Tab") || name == "evtShowScoreBoard" then ShowScoreboard
    else DefaultColor
  }

  /**
    Any name holding `evtCastAvatarSpell` is a summoner spell, whatever its
    value: the only rule above it tests the two camera names, which are not
    such names.
   */
  lemma SummonerSpellRule(name: string, value: string)
    requires Contains(name, "evtCastAvatarSpell")
    ensures Classify(name, value) == SummonerSpell
  {
  }

  /** Neither camera name holds the champion-spell infix. */
  lemma CameraNamesAreNotSpells()
    ensures !Contains("evtCameraSnap", "evtCastSpell")
    ensures !Contains("evtSelectSelf", "evtCastSpell")
  {
    NotContainsByWindow("evtCameraSnap", "evtCastSpell", 5);
    NotContainsByWindow("evtSelectSelf", "evtCastSpell", 3);
  }

  /** A name holding `evtCastSpell` but not `evtCastAvatarSpell` is a champion spell. */
  lemma ChampionSpellRule(name: string, value: string)
    requires Contains(name, "evtCastSpell") && !Contains(name, "evtCastAvatarSpell")
    ensures Classify(name, value) == ChampionSpell
  {
    CameraNamesAreNotSpells();
  }

  /** The first champion-spell action is a champion spell whatever key it is bound to. */
  lemma FirstSpellRule(value: string)
    ensures Classify("evtCastSpell1", value) == ChampionSpell
  {
    assert OccursAt("evtCastSpell1", "evtCastSpell", 0);
    ChampionSpellRule("evtCastSpell1", value);
  }

  /** The shop action has its own category whatever key it is bound to. */
  lemma OpenShopRule(value: string)
    ensures Classify("evtOpenShop", value) == OpenShop
  {
  }

  /**
    The item-slot boundary: slots 0..6 are items, slot 7 is the recall (`back`)
    key, and slots 8 and 9 reach the scoreboard test and the default.
   */
  lemma UseItemBoundary(i: nat, value: string)
    requires i < 10
    ensures Classify(UseItemName(i), value) ==
      if i < 7 then UseItem
      else if i == 7 then Back
      else if Contains(value, "Tab") then ShowScoreboard
      else DefaultColor
  {
    var name := UseItemName(i);
    assert name[..3] == "evt" && name[3] == 'U';
    if i < 7 {
      assert IsUseItemSlot(name);
    } else {
      UseItemSlots(name);
      assert name[10] == ('0' as int + i) as char;
    }
  }

  /** The vision item has its own category. */
  lemma VisionItemRule(value: string)
    ensures Classify("evtUseVisionItem", value) == Ward
  {
    var name := "evtUseVisionItem";
    UseItemSlots(name);
    assert !Contains(name, "evtCastAvatarSpell") && !Contains(name, "evtPlayerAttackMove");
    assert !Contains(name, "evtCastSpell") by { NotContainsByWindow(name, "evtCastSpell", 3); }
    assert !Contains(name, "evtSelectAlly") by { NotContainsByWindow(name, "evtSelectAlly", 3); }
  }

  /** `evtShowScoreBoard` is the scoreboard even when its value does not mention Tab. */
  lemma ScoreboardByName(value: string)
    ensures Classify("evtShowScoreBoard", value) == ShowScoreboard
  {
    var name := "evtShowScoreBoard";
    UseItemSlots(name);
    assert !Contains(name, "evtCastAvatarSpell") && !Contains(name, "evtPlayerAttackMove");
    assert !Contains(name, "evtCastSpell") by { NotContainsByWindow(name, "evtCastSpell", 3); }
    assert !Contains(name, "evtSelectAlly") by { NotContainsByWindow(name, "evtSelectAlly", 4); }
  }

  /**
    A value mentioning Tab never leaves a binding in the default category: it is
    the scoreboard unless an earlier, name-based rule already decided.
   */
  lemma TabNeverDefault(name: string, value: string)
    requires Contains(value, "Tab")
    ensures Classify(name, value) != DefaultColor
    ensures Classify(name, value) == ShowScoreboard || Classify(name, value) == Classify(name, "")
  {
  }

  /** The raw value can only move a binding between the scoreboard and the default category. */
  lemma ValueOnlyDecidesScoreboard(name: string, v1: string, v2: string)
    requires Classify(name, v1) != Classify(name, v2)
    ensures Classify(name, v1) in {ShowScoreboard, DefaultColor}
    ensures Classify(name, v2) in {ShowScoreboard, DefaultColor}
  {
  }

  /**
    A name no earlier rule decides, the one the cascade leaves in the default
    category when its value is empty, is the scoreboard once its value
    mentions Tab.
   */
  lemma TabValueIsScoreboard(name: string, value: string)
    requires Classify(name, "") == DefaultColor && Contains(value, "Tab")
    ensures Classify(name, value) == ShowScoreboard
  {
    TabNeverDefault(name, value);
  }

  /** `evtSomethingElse` is such a name: with the value `[Tab]` it is the scoreboard. */
  lemma TabValueExample()
    ensures Classify("evtSomethingElse", "[Tab]") == ShowScoreboard
  {
    assert OccursAt("[Tab]", "Tab", 1);
    var other := "evtSomethingElse";
    UseItemSlots(other);
    assert !Contains(other, "evtCastAvatarSpell") && !Contains(other, "evtPlayerAttackMove");
    assert !Contains(other, "evtCastSpell") by { NotContainsByWindow(other, "evtCastSpell", 3); }
    assert !Contains(other, "evtSelectAlly") by { NotContainsByWindow(other, "evtSelectAlly", 9); }
  }

  /*
    An independent, declarative statement of the same precedence: an ordered
    table of (test, category) rules where the first rule whose test holds wins
    and the default category covers everything else.
   */

  datatype Test =
    | NameIs(name: string)    // the action name equals the string
    | NameHas(infix: string)  // the action name contains the string
    | ValueHas(infix: string) // the raw binding value contains the string

  datatype Rule = Rule(test: Test, category: Category)

  predicate Holds(t: Test, name: string, value: string) {
    match t
    case NameIs(s) => name == s
    case NameHas(s) => Contains(name, s)
    case ValueHas(s) => Contains(value, s)
  }

  const RuleTable: seq<Rule> := [
    Rule(NameIs("evtCameraSnap"), CameraSnapSelf),
    Rule(NameIs("evtSelectSelf"), CameraSnapSelf),
    Rule(NameHas("evtCastAvatarSpell"), SummonerSpell),
    Rule(NameHas("evtCastSpell"), ChampionSpell),
    Rule(NameIs("evtOpenShop"), OpenShop),
    Rule(NameHas("evtPlayerAttackMove"), AttackMove),
    Rule(NameIs("evtPlayerPingAreaIsWarded"), EnemyVision),
    Rule(NameHas("evtSelectAlly"), CameraSelectAlly),
    Rule(NameIs("evtShowCharacterMenu"), ShowCharacterMenu),
    Rule(NameIs("evtUseItem0"), UseItem),
    Rule(NameIs("evtUseItem1"), UseItem),
    Rule(NameIs("evtUseItem2"), UseItem),
    Rule(NameIs("evtUseItem3"), UseItem),
    Rule(NameIs("evtUseItem4"), UseItem),
    Rule(NameIs("evtUseItem5"), UseItem),
    Rule(NameIs("evtUseItem6"), UseItem),
    Rule(NameIs("evtUseItem7"), Back),
    Rule(NameIs("evtUseVisionItem"), Ward),
    Rule(ValueHas("Tab"), ShowScoreboard),
    Rule(NameIs("evtShowScoreBoard"), ShowScoreboard)
  ]

  /** The category of the first rule at or after `from` whose test holds, or the default category. */
  function FirstRule(rules: seq<Rule>, from: nat, name: string, value: string): (c: Category)
    decreases |rules| - from
  {
    if from >= |rules| then DefaultColor
    else if Holds(rules[from].test, name, value) then rules[from].category
    else FirstRule(rules, from + 1, name, value)
  }

  /** The seven item slots are exactly the names `evtUseItem0` .. `evtUseItem6`. */
  lemma UseItemSlots(name: string)
    ensures IsUseItemSlot(name) <==>
      name in {"evtUseItem0", "evtUseItem1", "evtUseItem2", "evtUseItem3",
               "evtUseItem4", "evtUseItem5", "evtUseItem6"}
  {
    assert UseItemName(0) == "evtUseItem0";
    assert UseItemName(1) == "evtUseItem1";
    assert UseItemName(2) == "evtUseItem2";
    assert UseItemName(3) == "evtUseItem3";
    assert UseItemName(4) == "evtUseItem4";
    assert UseItemName(5) == "evtUseItem5";
    assert UseItemName(6) == "evtUseItem6";
  }

  /** The table search yields the default category or the category of a rule at or after `from`. */
  lemma {:induction false} FirstRuleIsSomeRule(rules: seq<Rule>, from: nat, name: string, value: string)
    ensures var c := FirstRule(rules, from, name, value);
      c == DefaultColor || exists k :: from <= k < |rules| && rules[k].category == c
    decreases |rules| - from
  {
    if from < |rules| && !Holds(rules[from].test, name, value) {
      FirstRuleIsSomeRule(rules, from + 1, name, value);
    }
  }

  /** One step of the search through the rule table. */
  lemma RuleStep(k: nat, name: string, value: string)
    requires k < |RuleTable|
    ensures FirstRule(RuleTable, k, name, value) ==
      if Holds(RuleTable[k].test, name, value) then RuleTable[k].category
      else FirstRule(RuleTable, k + 1, name, value)
  {
  }

  /** The last four rules of the table: slot 7, the vision item and the two scoreboard tests. */
  lemma RuleTableFrom16(name: string, value: string)
    ensures FirstRule(RuleTable, 16, name, value) ==
      if name == "evtUseItem7" then Back
      else if name == "evtUseVisionItem" then Ward
      else if Contains(value, "Tab") || name == "evtShowScoreBoard" then ShowScoreboard
      else DefaultColor
  {
    RuleStep(16, name, value);
    assert RuleTable[16] == Rule(NameIs("evtUseItem7"), Back);
    RuleStep(17, name, value);
    assert RuleTable[17] == Rule(NameIs("evtUseVisionItem"), Ward);
    RuleStep(18, name, value);
    assert RuleTable[18] == Rule(ValueHas("Tab"), ShowScoreboard);
    RuleStep(19, name, value);
    assert RuleTable[19] == Rule(NameIs("evtShowScoreBoard"), ShowScoreboard);
  }

  /** The item-slot rules for slots 4 to 6. */
  lemma RuleTableFrom13(name: string, value: string)
    ensures FirstRule(RuleTable, 13, name, value) ==
      if name == "evtUseItem4" || name == "evtUseItem5" || name == "evtUseItem6" then UseItem
      else FirstRule(RuleTable, 16, name, value)
  {
    RuleStep(13, name, value);
    assert RuleTable[13] == Rule(NameIs("evtUseItem4"), UseItem);
    RuleStep(14, name, value);
    assert RuleTable[14] == Rule(NameIs("evtUseItem5"), UseItem);
    RuleStep(15, name, value);
    assert RuleTable[15] == Rule(NameIs("evtUseItem6"), UseItem);
  }

  /** The item-slot rules for slots 2 and 3. */
  lemma RuleTableFrom11(name: string, value: string)
    ensures FirstRule(RuleTable, 11, name, value) ==
      if name == "evtUseItem2" || name == "evtUseItem3" then UseItem
      else FirstRule(RuleTable, 13, name, value)
  {
    RuleStep(11, name, value);
    assert RuleTable[11] == Rule(NameIs("evtUseItem2"), UseItem);
    RuleStep(12, name, value);
    assert RuleTable[12] == Rule(NameIs("evtUseItem3"), UseItem);
  }

  /** The item-slot rules for slots 0 and 1. */
  lemma RuleTableFrom9(name: string, value: string)
    ensures FirstRule(RuleTable, 9, name, value) ==
      if name == "evtUseItem0" || name == "evtUseItem1" then UseItem
      else FirstRule(RuleTable, 11, name, value)
  {
    RuleStep(9, name, value);
    assert RuleTable[9] == Rule(NameIs("evtUseItem0"), UseItem);
    RuleStep(10, name, value);
    assert RuleTable[10] == Rule(NameIs("evtUseItem1"), UseItem);
  }

  /** The seven item-slot rules of the table are the item-slot test of the cascade. */
  lemma ItemSlotRules(name: string, value: string)
    ensures FirstRule(RuleTable, 9, name, value) ==
      if IsUseItemSlot(name) then UseItem else FirstRule(RuleTable, 16, name, value)
  {
    UseItemSlots(name);
    RuleTableFrom9(name, value);
    RuleTableFrom11(name, value);
    RuleTableFrom13(name, value);
  }

  /** Rules 7 and 8 of the table: ally selection and the character menu. */
  lemma RuleTableFrom7(name: string, value: string)
    ensures FirstRule(RuleTable, 7, name, value) ==
      if Contains(name, "evtSelectAlly") then CameraSelectAlly
      else if name == "evtShowCharacterMenu" then ShowCharacterMenu
      else FirstRule(RuleTable, 9, name, value)
  {
    RuleStep(7, name, value);
    assert RuleTable[7] == Rule(NameHas("evtSelectAlly"), CameraSelectAlly);
    RuleStep(8, name, value);
    assert RuleTable[8] == Rule(NameIs("evtShowCharacterMenu"), ShowCharacterMenu);
  }

  /** Rules 5 and 6 of the table: attack-move and enemy vision. */
  lemma RuleTableFrom5(name: string, value: string)
    ensures FirstRule(RuleTable, 5, name, value) ==
      if Contains(name, "evtPlayerAttackMove") then AttackMove
      else if name == "evtPlayerPingAreaIsWarded" then EnemyVision
      else FirstRule(RuleTable, 7, name, value)
  {
    RuleStep(5, name, value);
    assert RuleTable[5] == Rule(NameHas("evtPlayerAttackMove"), AttackMove);
    RuleStep(6, name, value);
    assert RuleTable[6] == Rule(NameIs("evtPlayerPingAreaIsWarded"), EnemyVision);
  }

  /** Rules 2 to 4 of the table: summoner spells, champion spells, the shop. */
  lemma RuleTableFrom2(name: string, value: string)
    ensures FirstRule(RuleTable, 2, name, value) ==
      if Contains(name, "evtCastAvatarSpell") then SummonerSpell
      else       if Contains(name, "evtCastSpell") then ChampionSpell
      else       if name == "evtOpenShop" then OpenShop
      else FirstRule(RuleTable, 5, name, value)
  {
    RuleStep(2, name, value);
    assert RuleTable[2] == Rule(NameHas("evtCastAvatarSpell"), SummonerSpell);
    RuleStep(3, name, value);
    assert RuleTable[3] == Rule(NameHas("evtCastSpell"), ChampionSpell);
    RuleStep(4, name, value);
    assert RuleTable[4] == Rule(NameIs("evtOpenShop"), OpenShop);
  }

  /** Rules 0 and 1 of the table: the two camera names. */
  lemma RuleTableFrom0(name: string, value: string)
    ensures FirstRule(RuleTable, 0, name, value) ==
      if name == "evtCameraSnap" || name == "evtSelectSelf" then CameraSnapSelf
      else FirstRule(RuleTable, 2, name, value)
  {
    RuleStep(0, name, value);
    assert RuleTable[0] == Rule(NameIs("evtCameraSnap"), CameraSnapSelf);
    RuleStep(1, name, value);
    assert RuleTable[1] == Rule(NameIs("evtSelectSelf"), CameraSnapSelf);
  }

  /** The cascade and the declarative rule table agree on every binding. */
  lemma ClassifyIsFirstRule(name: string, value: string)
    ensures Classify(name, value) == FirstRule(RuleTable, 0, name, value)
  {
    RuleTableFrom16(name, value);
    ItemSlotRules(name, value);
    RuleTableFrom7(name, value);
    RuleTableFrom5(name, value);
    RuleTableFrom2(name, value);
    RuleTableFrom0(name, value);
  }
}
