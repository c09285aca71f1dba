/**
  The "Assign Key" menu of `create_menu_bar`: one cascade per binding section
  whose name mentions `Events`, labelled with the section's name and listing
  its actions with their `evt` prefix cut off.
 */
module Menus {
  import opened Wrappers
  import opened Text
  import opened Bindings

  /** One cascade of the Assign Key menu: its label and its entries, in order. */
  datatype Menu = Menu(title: string, items: seq<string>)

  /**
    The entry shown for an action name: the name without its first three
    characters, or without four when the fourth is `t`. A name of fewer than
    four characters has no fourth character to test; the menu bar then
    cannot be built, which is `None` here.
   */
  function ItemLabel(name: string): (r: Option<string>)
    ensures r.None? <==> |name| < 4
    ensures r.Some? ==> |name| - 4 <= |r.value| <= |name| - 3 && r.value == name[|name| - |r.value|..]
  {
    if |name| < 4 then None
    else if name[3] == 't' then Some(name[4..])
    else Some(name[3..])
  }

  /** Behind a three-letter prefix the entry is the rest of the name, less a leading `t`. */
  lemma ItemLabelDropsPrefix(prefix: string, rest: string)
    requires |prefix| == 3 && |rest| > 0
    ensures ItemLabel(prefix + rest) == if rest[0] == 't' then Some(rest[1..]) else Some(rest)
  {
    var name := prefix + rest;
    assert name[3] == rest[0];
    assert name[3..] == rest;
    assert name[4..] == rest[1..];
  }

  /** `evtCastSpell1` is listed as `CastSpell1`. */
  lemma CastSpellEntry()
    ensures ItemLabel("evtCastSpell1") == Some("CastSpell1")
  {
    ItemLabelDropsPrefix("evt", "CastSpell1");
    assert "evt" + "CastSpell1" == "evtCastSpell1";
  }

  /** The entries of a section's actions, in order, or `None` when one of them cannot be labelled. */
  function ItemLabels(settings: seq<Setting>): (r: Option<seq<string>>)
    ensures r.None? <==> exists j :: 0 <= j < |settings| && ItemLabel(settings[j].name).None?
    ensures r.Some? ==> |r.value| == |settings| &&
                        forall j :: 0 <= j < |settings| ==> ItemLabel(settings[j].name) == Some(r.value[j])
    decreases |settings|
  {
    if settings == [] then Some([])
    else
      match ItemLabel(settings[0].name)
      case None => None
      case Some(item) =>
        match ItemLabels(settings[1..])
        case None => None
        case Some(items) => Some([item] + items)
  }

  /** Only sections whose name contains `Events` get a cascade. */
  predicate IsEventSection(section: Section) {
    Contains(section.name, "Events")
  }

  /** The event sections, in their original order. */
  function EventSections(sections: seq<Section>): (r: seq<Section>)
    ensures |r| <= |sections|
    ensures forall s :: s in r <==> s in sections && IsEventSection(s)
    decreases |sections|
  {
    if sections == [] then []
    else
      var rest := EventSections(sections[1..]);
      assert sections == [sections[0]] + sections[1..];
      if IsEventSection(sections[0]) then [sections[0]] + rest else rest
  }

  /** The event sections of a list split in two are those of each part, each in order. */
  lemma {:induction false} EventSectionsAppend(a: seq<Section>, b: seq<Section>)
    ensures EventSections(a + b) == EventSections(a) + EventSections(b)
    decreases |a|
  {
    if a != [] {
      assert (a + b)[1..] == a[1..] + b;
      EventSectionsAppend(a[1..], b);
    } else {
      assert a + b == b;
    }
  }

  /**
    The cascades of the Assign Key menu: for each event section, in order,
    a menu labelled with the section's name and listing its actions' entries;
    `None` when an action of an event section cannot be labelled.
   */
  function AssignKeyMenus(sections: seq<Section>): (r: Option<seq<Menu>>)
    decreases |sections|
  {
    if sections == [] then Some([])
    else
      match AssignKeyMenus(sections[1..])
      case None => None
      case Some(menus) =>
        if !IsEventSection(sections[0]) then Some(menus)
        else
          match ItemLabels(sections[0].settings)
          case None => None
          case Some(items) => Some([Menu(sections[0].name, items)] + menus)
  }

  /** The menu bar fails to build exactly when some event section has an action name too short to label. */
  lemma {:induction false} AssignKeyMenusFail(sections: seq<Section>)
    ensures AssignKeyMenus(sections).None? <==>
      exists s :: s in EventSections(sections) && ItemLabels(s.settings).None?
    decreases |sections|
  {
    if sections != [] {
      var tail := sections[1..];
      AssignKeyMenusFail(tail);
      var events, tailEvents := EventSections(sections), EventSections(tail);
      if IsEventSection(sections[0]) {
        assert events == [sections[0]] + tailEvents;
        assert forall s :: s in events <==> s == sections[0] || s in tailEvents;
      } else {
        assert events == tailEvents;
      }
    }
  }

  /**
    When they build, the menus are exactly the event sections, one for one and
    in order, each labelled with its section's name and listing one entry per
    action.
   */
  lemma {:induction false} AssignKeyMenusMatchEventSections(sections: seq<Section>)
    requires AssignKeyMenus(sections).Some?
    ensures var menus, events := AssignKeyMenus(sections).value, EventSections(sections);
      |menus| == |events| &&
      forall m :: 0 <= m < |menus| ==>
        menus[m].title == events[m].name && ItemLabels(events[m].settings) == Some(menus[m].items)
    decreases |sections|
  {
    if sections != [] {
      var tail := sections[1..];
      AssignKeyMenusMatchEventSections(tail);
      if IsEventSection(sections[0]) {
        var menus, rest := AssignKeyMenus(sections).value, AssignKeyMenus(tail).value;
        var events, tailEvents := EventSections(sections), EventSections(tail);
        assert events == [sections[0]] + tailEvents;
        assert menus == [Menu(sections[0].name, ItemLabels(sections[0].settings).value)] + rest;
        forall m | 0 <= m < |menus|
          ensures menus[m].title == events[m].name && ItemLabels(events[m].settings) == Some(menus[m].items)
        {
          if m > 0 {
            assert menus[m] == rest[m - 1] && events[m] == tailEvents[m - 1];
          }
        }
      }
    }
  }

  /** Every event section gets a cascade, whatever else the file holds. */
  lemma {:induction false} MenuPerEventSection(sections: seq<Section>, i: nat)
    requires i < |sections| && IsEventSection(sections[i])
    requires AssignKeyMenus(sections).Some?
    ensures exists m :: (0 <= m < |AssignKeyMenus(sections).value| &&
      AssignKeyMenus(sections).value[m].title == sections[i].name &&
      Some(AssignKeyMenus(sections).value[m].items) == ItemLabels(sections[i].settings))
    decreases i
  {
    var menus := AssignKeyMenus(sections).value;
    var rest := AssignKeyMenus(sections[1..]);
    if i == 0 {
      assert menus[0].title == sections[0].name && Some(menus[0].items) == ItemLabels(sections[0].settings);
    } else {
      assert sections[1..][i - 1] == sections[i];
      MenuPerEventSection(sections[1..], i - 1);
      var m :| 0 <= m < |rest.value| && rest.value[m].title == sections[i].name &&
               Some(rest.value[m].items) == ItemLabels(sections[i].settings);
      if IsEventSection(sections[0]) {
        assert menus[m + 1] == rest.value[m];
      } else {
        assert menus[m] == rest.value[m];
      }
    }
  }

  /** A section named `GameEvents` gets a cascade; one named `Quickbinds` does not. */
  lemma EventFilterExamples()
    ensures IsEventSection(Section("GameEvents", []))
    ensures !IsEventSection(Section("Quickbinds", []))
  {
    assert OccursAt("GameEvents", "Events", 4);
    NotContainsByWindow("Quickbinds", "Events", 0);
  }
}
