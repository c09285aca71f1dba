/**
  The colour decision of `display_keyboard`: for each key, the sections of the
  settings file are scanned in order and, inside a section, its records in
  order; the first bound record of a section sets the key's category and ends
  that section's scan, and a later section with a bound record overwrites it.
  Also the placement of the keys of a row on the grid.

  The functions below say where their results come from (a position of the
  section, a record of some section); which records bind the key is stated by
  the lemmas `FirstMatchIsFirst`, `SectionRecordBinds` and `BoundRecordBinds`.
 */
module Engine {
  import opened Wrappers
  import opened Text
  import opened Bindings
  import opened Categories
  import opened Layouts

  /** The position of the first record of `settings` bound to the key, if any. */
  function FirstMatch(symbol: string, settings: seq<Setting>): (r: Option<nat>)
    requires |symbol| > 0
    ensures r.Some? ==> r.value < |settings|
    decreases |settings|
  {
    if settings == [] then None
    else if Matches(symbol, settings[0].value) then Some(0)
    else
      match FirstMatch(symbol, settings[1..])
      case None => None
      case Some(j) => Some(j + 1)
  }

  /**
    `FirstMatch` finds nothing exactly when no record is bound to the key, and
    otherwise a bound record with no bound record before it.
   */
  lemma {:induction false} FirstMatchIsFirst(symbol: string, settings: seq<Setting>)
    requires |symbol| > 0
    ensures FirstMatch(symbol, settings).None? <==>
      forall j :: 0 <= j < |settings| ==> !Matches(symbol, settings[j].value)
    ensures FirstMatch(symbol, settings).Some? ==>
      var r := FirstMatch(symbol, settings).value;
      Matches(symbol, settings[r].value) && forall j :: 0 <= j < r ==> !Matches(symbol, settings[j].value)
    decreases |settings|
  {
    if settings != [] && !Matches(symbol, settings[0].value) {
      var rest := settings[1..];
      FirstMatchIsFirst(symbol, rest);
      assert forall j :: 1 <= j < |settings| ==> settings[j] == rest[j - 1];
    }
  }

  /** The record one section binds to the key: its first bound record. */
  function SectionRecord(symbol: string, section: Section): (r: Option<Setting>)
    requires |symbol| > 0
    ensures r.Some? ==> r.value in section.settings
  {
    match FirstMatch(symbol, section.settings)
    case None => None
    case Some(j) => Some(section.settings[j])
  }

  /** A section binds nothing exactly when none of its records is bound; what it binds is bound. */
  lemma SectionRecordBinds(symbol: string, section: Section)
    requires |symbol| > 0
    ensures SectionRecord(symbol, section).None? <==>
      forall j :: 0 <= j < |section.settings| ==> !Matches(symbol, section.settings[j].value)
    ensures SectionRecord(symbol, section).Some? ==> Matches(symbol, SectionRecord(symbol, section).value.value)
  {
    FirstMatchIsFirst(symbol, section.settings);
  }

  /** A section none of whose records is bound binds nothing. */
  lemma SectionRecordUnbound(symbol: string, section: Section)
    requires |symbol| > 0
    requires forall j :: 0 <= j < |section.settings| ==> !Matches(symbol, section.settings[j].value)
    ensures SectionRecord(symbol, section) == None
  {
    FirstMatchIsFirst(symbol, section.settings);
  }

  /** Within a section the first bound record wins: later bound records of that section are ignored. */
  lemma SectionRecordIsFirstBound(symbol: string, section: Section, j: nat)
    requires |symbol| > 0
    requires j < |section.settings| && Matches(symbol, section.settings[j].value)
    requires forall k :: 0 <= k < j ==> !Matches(symbol, section.settings[k].value)
    ensures SectionRecord(symbol, section) == Some(section.settings[j])
  {
    FirstMatchIsFirst(symbol, section.settings);
  }

  /**
    The colour category of a key after the scan over all sections: the last
    section that binds the key overwrites whatever earlier sections set, and
    a key no record binds is left without a category.
   */
  function KeyColor(symbol: string, sections: seq<Section>): Option<Category>
    requires |symbol| > 0
    decreases |sections|
  {
    if sections == [] then None
    else
      match SectionRecord(symbol, sections[|sections| - 1])
      case Some(s) => Some(Classify(s.name, s.value))
      case None => KeyColor(symbol, sections[..|sections| - 1])
  }

  /** What each section binds to the key, section by section. */
  function SectionRecords(symbol: string, sections: seq<Section>): (rs: seq<Option<Setting>>)
    requires |symbol| > 0
    ensures |rs| == |sections|
    ensures forall i :: 0 <= i < |sections| ==> rs[i] == SectionRecord(symbol, sections[i])
  {
    seq(|sections|, i requires 0 <= i < |sections| => SectionRecord(symbol, sections[i]))
  }

  /** The position of the last present entry. */
  function LastSome<T>(xs: seq<Option<T>>): (r: Option<nat>)
    ensures r.None? <==> forall i :: 0 <= i < |xs| ==> xs[i].None?
    ensures r.Some? ==> r.value < |xs| && xs[r.value].Some?
    ensures r.Some? ==> forall k :: r.value < k < |xs| ==> xs[k].None?
    decreases |xs|
  {
    if xs == [] then None
    else if xs[|xs| - 1].Some? then Some(|xs| - 1)
    else LastSome(xs[..|xs| - 1])
  }

  /**
    Reference definition of the record that decides a key: the first bound
    record of the last section that binds the key at all.
   */
  function BoundRecord(symbol: string, sections: seq<Section>): (r: Option<Setting>)
    requires |symbol| > 0
    ensures r.Some? ==> exists i :: 0 <= i < |sections| && r == SectionRecord(symbol, sections[i])
  {
    var rs := SectionRecords(symbol, sections);
    match LastSome(rs)
    case None => None
    case Some(i) => rs[i]
  }

  /** No record decides a key exactly when no record of any section is bound to it. */
  lemma BoundRecordBinds(symbol: string, sections: seq<Section>)
    requires |symbol| > 0
    ensures BoundRecord(symbol, sections).None? <==>
      forall i, j :: 0 <= i < |sections| && 0 <= j < |sections[i].settings| ==>
        !Matches(symbol, sections[i].settings[j].value)
    ensures BoundRecord(symbol, sections).Some? ==> Matches(symbol, BoundRecord(symbol, sections).value.value)
  {
    forall i | 0 <= i < |sections| {
      SectionRecordBinds(symbol, sections[i]);
    }
  }

  /** The category of a deciding record, if there is one. */
  function CategoryOf(record: Option<Setting>): (r: Option<Category>)
    ensures r.None? <==> record.None?
    ensures record.Some? ==> r == Some(Classify(record.value.name, record.value.value))
  {
    match record
    case None => None
    case Some(s) => Some(Classify(s.name, s.value))
  }

  /** A section appended after the others decides the key when it binds it, and changes nothing otherwise. */
  lemma BoundRecordAppend(symbol: string, sections: seq<Section>, last: Section)
    requires |symbol| > 0
    ensures BoundRecord(symbol, sections + [last]) ==
      if SectionRecord(symbol, last).Some? then SectionRecord(symbol, last) else BoundRecord(symbol, sections)
  {
    var rs := SectionRecords(symbol, sections + [last]);
    assert rs[..|sections|] == SectionRecords(symbol, sections);
    assert rs[|sections|] == SectionRecord(symbol, last);
  }

  /**
    The overwrite-as-you-go definition agrees with the reference one: a key's
    category is that of the first bound record of the last section binding it.
   */
  lemma {:induction false} KeyColorIsLastBoundSection(symbol: string, sections: seq<Section>)
    requires |symbol| > 0
    ensures KeyColor(symbol, sections) == CategoryOf(BoundRecord(symbol, sections))
    decreases |sections|
  {
    if sections != [] {
      var n := |sections| - 1;
      assert sections == sections[..n] + [sections[n]];
      BoundRecordAppend(symbol, sections[..n], sections[n]);
      KeyColorIsLastBoundSection(symbol, sections[..n]);
    }
  }

  /**
    A key is left without a category, and so drawn in the neutral colour,
    exactly when no record of any section is bound to it.
   */
  lemma KeyColorIsNone(symbol: string, sections: seq<Section>)
    requires |symbol| > 0
    ensures KeyColor(symbol, sections).None? <==>
      forall i, j :: 0 <= i < |sections| && 0 <= j < |sections[i].settings| ==>
        !Matches(symbol, sections[i].settings[j].value)
  {
    KeyColorIsLastBoundSection(symbol, sections);
    BoundRecordBinds(symbol, sections);
  }

  /**
    Sections later in the file take precedence: after `first` and then
    `second`, a key has the category `second` gives it, if any, and else the
    one `first` gives it.
   */
  lemma {:induction false} LaterSectionsOverride(symbol: string, first: seq<Section>, second: seq<Section>)
    requires |symbol| > 0
    ensures KeyColor(symbol, first + second) ==
      if KeyColor(symbol, second).Some? then KeyColor(symbol, second) else KeyColor(symbol, first)
    decreases |second|
  {
    if second == [] {
      assert first + second == first;
    } else {
      var n := |second| - 1;
      assert (first + second)[..|first + second| - 1] == first + second[..n];
      assert (first + second)[|first + second| - 1] == second[n];
      LaterSectionsOverride(symbol, first, second[..n]);
    }
  }

  /** Scanning one more section: it overwrites the category when it binds the key. */
  lemma KeyColorStep(symbol: string, sections: seq<Section>, i: nat)
    requires |symbol| > 0 && i < |sections|
    ensures KeyColor(symbol, sections[..i + 1]) ==
      if SectionRecord(symbol, sections[i]).Some? then CategoryOf(SectionRecord(symbol, sections[i]))
      else KeyColor(symbol, sections[..i])
  {
    assert sections[..i + 1][..i] == sections[..i];
    assert sections[..i + 1][i] == sections[i];
  }

  /**
    The inner loop of `display_keyboard` over one section's records: the
    first bound record sets the category and `break` leaves this loop only;
    when no record is bound the category is left as it was.
   */
  method ScanSection(symbol: string, section: Section, bg: Option<Category>) returns (r: Option<Category>)
    requires |symbol| > 0
    ensures r == if SectionRecord(symbol, section).Some? then CategoryOf(SectionRecord(symbol, section)) else bg
  {
    r := bg;
    var settings := section.settings;
    var j := 0;
    while j < |settings|
      invariant 0 <= j <= |settings|
      invariant r == bg
      invariant forall k :: 0 <= k < j ==> !Matches(symbol, settings[k].value)
    {
      if Matches(symbol, settings[j].value) {
        r := Some(Classify(settings[j].name, settings[j].value));
        break;
      }
      j := j + 1;
    }
    if j < |settings| {
      SectionRecordIsFirstBound(symbol, section, j);
    } else {
      SectionRecordUnbound(symbol, section);
    }
  }

  /**
    The nested scan of `display_keyboard` for one key: the outer loop over
    sections, each scanned by the inner loop of `ScanSection`.
   */
  method ColorKey(symbol: string, sections: seq<Section>) returns (bg: Option<Category>)
    requires |symbol| > 0
    ensures bg == KeyColor(symbol, sections)
  {
    bg := None;
    var i := 0;
    while i < |sections|
      invariant 0 <= i <= |sections|
      invariant bg == KeyColor(symbol, sections[..i])
    {
      bg := ScanSection(symbol, sections[i], bg);
      KeyColorStep(symbol, sections, i);
      i := i + 1;
    }
    assert sections[..i] == sections;
  }

  /** The categories of the keys of a row, left to right. */
  function RowColors(row: seq<string>, sections: seq<Section>): (r: seq<Option<Category>>)
    requires forall k :: 0 <= k < |row| ==> |row[k]| > 0
    ensures |r| == |row|
    decreases |row|
  {
    if row == [] then []
    else RowColors(row[..|row| - 1], sections) + [KeyColor(row[|row| - 1], sections)]
  }

  /** Each entry of `RowColors` is the category of the key at that position. */
  lemma {:induction false} RowColorsAt(row: seq<string>, sections: seq<Section>, k: nat)
    requires forall i :: 0 <= i < |row| ==> |row[i]| > 0
    requires k < |row|
    ensures RowColors(row, sections)[k] == KeyColor(row[k], sections)
    decreases |row|
  {
    var n := |row| - 1;
    var earlier := row[..n];
    assert RowColors(row, sections) == RowColors(earlier, sections) + [KeyColor(row[n], sections)];
    if k < n {
      RowColorsAt(earlier, sections, k);
      assert earlier[k] == row[k];
    }
  }

  /**
    One row of `display_keyboard`: each key's category and grid column, with
    `bonus_index` restarting at zero and growing by `span - 1` after each key.
   */
  method LayRow(row: seq<string>, spans: map<string, int>, sections: seq<Section>)
    returns (colors: seq<Option<Category>>, columns: seq<int>)
    requires forall k :: 0 <= k < |row| ==> |row[k]| > 0
    ensures |colors| == |row| && |columns| == |row|
    ensures forall k :: 0 <= k < |row| ==> colors[k] == KeyColor(row[k], sections)
    ensures forall k :: 0 <= k < |row| ==> columns[k] == Column(row, spans, k)
  {
    colors, columns := [], [];
    var bonus := 0;
    var index := 0;
    while index < |row|
      invariant 0 <= index <= |row|
      invariant |columns| == index
      invariant colors == RowColors(row[..index], sections)
      invariant bonus == Bonus(row[..index], spans)
      invariant forall k :: 0 <= k < index ==> columns[k] == Column(row, spans, k)
    {
      var key := row[index];
      var bg := ColorKey(key, sections);
      colors := colors + [bg];
      columns := columns + [index + bonus];
      if key in spans {
        bonus := bonus + spans[key] - 1;
      } else if key == "space" {
        bonus := bonus + 6;
      }
      assert row[..index + 1][..index] == row[..index];
      index := index + 1;
    }
    assert row[..index] == row;
    forall k | 0 <= k < |row|
      ensures colors[k] == KeyColor(row[k], sections)
    {
      RowColorsAt(row, sections, k);
    }
  }

  /*
    Worked examples: a file whose one section binds Q to the first champion
    spell and W (in both cases) to the shop.
   */

  const Example: seq<Section> :=
    [Section("GameEvents", [Setting("evtCastSpell1", "[q]"), Setting("evtOpenShop", "[w],[W]")])]

  /** The value `[q]` binds no other upper-case letter key. */
  lemma SpellRecordMisses(c: char)
    requires IsUpperLetter(c) && c != 'Q'
    ensures !Matches([c], "[q]")
  {
    OtherLetterNotFound(c, 'q');
    assert Bracket(['q']) == "[q]";
  }

  /** The value `[w],[W]` binds no other upper-case letter key. */
  lemma ShopRecordMisses(c: char)
    requires IsUpperLetter(c) && c != 'W'
    ensures !Matches([c], "[w],[W]")
  {
    OtherLetterNotFound(c, 'w');
    OtherLetterNotFound(c, 'W');
    assert Bracket(['w']) == "[w]" && Bracket(['W']) == "[W]";
    MatchesEitherPart([c], "[w]", "[W]");
    assert "[w]" + "," + "[W]" == "[w],[W]";
  }

  /** Every upper-case letter key other than Q and W is left without a category. */
  lemma ExampleUnboundLetter(c: char)
    requires IsUpperLetter(c) && c != 'Q' && c != 'W'
    ensures KeyColor([c], Example) == None
  {
    SpellRecordMisses(c);
    ShopRecordMisses(c);
    KeyColorIsNone([c], Example);
  }

  /** In a file of one section of two records, a key the first record misses takes the second's category. */
  lemma SecondRecordDecides(symbol: string, section: Section)
    requires |symbol| > 0 && |section.settings| == 2
    requires !Matches(symbol, section.settings[0].value) && Matches(symbol, section.settings[1].value)
    ensures KeyColor(symbol, [section]) == Some(Classify(section.settings[1].name, section.settings[1].value))
  {
    forall k | 0 <= k < 1
      ensures !Matches(symbol, section.settings[k].value)
    {
      assert k == 0;
    }
    SectionRecordIsFirstBound(symbol, section, 1);
  }

  /** Q is drawn as a champion spell. */
  lemma ExampleQIsChampionSpell()
    ensures KeyColor("Q", Example) == Some(ChampionSpell)
  {
    UpperKeyFindsLowerToken('Q');
    assert Bracket([LowerChar('Q')]) == "[q]";
    SectionRecordIsFirstBound("Q", Example[0], 0);
    FirstSpellRule("[q]");
  }

  /** W is drawn in the shop colour: its value lists the key in both cases. */
  lemma ExampleWIsShop()
    ensures KeyColor("W", Example) == Some(OpenShop)
  {
    TwoTokenValue();
    SpellRecordMisses('W');
    SecondRecordDecides("W", Example[0]);
    OpenShopRule("[w],[W]");
  }

  /** E is bound by no record, so it is left without a category. */
  lemma ExampleEIsUnbound()
    ensures KeyColor("E", Example) == None
  {
    ExampleUnboundLetter('E');
  }

  /** R is bound by no record either. */
  lemma ExampleRIsUnbound()
    ensures KeyColor("R", Example) == None
  {
    ExampleUnboundLetter('R');
  }

  /** Two records of one section bound to the same key: the first one decides. */
  lemma FirstRecordWins()
    ensures KeyColor("f", [Section("Events", [Setting("evtCastSpell1", "[f]"), Setting("evtOpenShop", "[f]")])])
            == Some(ChampionSpell)
  {
    var section := Section("Events", [Setting("evtCastSpell1", "[f]"), Setting("evtOpenShop", "[f]")]);
    KeyFindsOwnToken("f");
    assert Bracket("f") == "[f]";
    SectionRecordIsFirstBound("f", section, 0);
    FirstSpellRule("[f]");
  }

  /** Records in two sections bound to the same key: the later section decides. */
  lemma LaterSectionWins()
    ensures KeyColor("f", [Section("Events", [Setting("evtCastSpell1", "[f]")]),
                           Section("ShopEvents", [Setting("evtOpenShop", "[f]")])])
            == Some(OpenShop)
  {
    var first := Section("Events", [Setting("evtCastSpell1", "[f]")]);
    var second := Section("ShopEvents", [Setting("evtOpenShop", "[f]")]);
    KeyFindsOwnToken("f");
    assert Bracket("f") == "[f]";
    SectionRecordIsFirstBound("f", second, 0);
    OpenShopRule("[f]");
    assert [first, second][..1] == [first];
  }
}
