/**
  The keyboard view: which layout is shown, the binding sections it is
  coloured from and, row by row, the colour category and grid column of every
  key button, as `display_keyboard` leaves them.
 */
module Keyboard {
  import opened Wrappers
  import opened Bindings
  import opened Categories
  import opened Layouts
  import opened Engine
  import opened Menus

  /** One row of buttons as drawn: every key coloured after the bindings and placed at its grid column. */
  predicate RowDrawn(row: seq<string>, spans: map<string, int>, sections: seq<Section>,
                     colors: seq<Option<Category>>, columns: seq<int>)
  {
    |colors| == |row| && |columns| == |row| &&
    forall k :: 0 <= k < |row| ==>
      |row[k]| > 0 && colors[k] == KeyColor(row[k], sections) && columns[k] == Column(row, spans, k)
  }

  /** `display_keyboard` rebuilds the buttons unless the layout asked for is the one already shown. */
  predicate NeedsRebuild(requested: Option<string>, current: string) {
    requested.None? || requested.value != current
  }

  /** Skipping the rebuild loses nothing: the layout shown is the one a rebuild would select. */
  lemma SkippedRebuildKeepsLayout(requested: Option<string>, current: string)
    requires current in Catalog
    requires !NeedsRebuild(requested, current)
    ensures SelectLayout(requested) == current
  {
  }

  /**
    Asking again for what was just asked rebuilds exactly when the request
    names no catalogued layout: an unknown name never equals the `qwerty`
    fallback that replaced it, and no request at all always rebuilds.
   */
  lemma RepeatedRequestRebuilds(requested: Option<string>)
    ensures NeedsRebuild(requested, SelectLayout(requested)) <==> requested.None? || requested.value !in Catalog
  {
    if requested.Some? && requested.value !in Catalog {
      assert SelectLayout(requested) == DefaultLayout;
      assert DefaultLayout in Catalog;
    }
  }

  class KeyboardView {
    /** Name of the layout shown; a key of the catalogue once the view is drawn. */
    var keyboard: string
    /** The binding sections of the settings file the keys are coloured from. */
    var sections: seq<Section>
    /** Colour category of each key button, row by row; none means the neutral colour. */
    var colors: seq<seq<Option<Category>>>
    /** Grid column of each key button, row by row. */
    var columns: seq<seq<int>>

    /** The buttons show the current layout, coloured after `sections`. */
    predicate Drawn()
      reads this
    {
      keyboard in Catalog &&
      |colors| == |Catalog[keyboard].keys| && |columns| == |Catalog[keyboard].keys| &&
      forall r :: 0 <= r < |colors| ==>
        RowDrawn(Catalog[keyboard].keys[r], Catalog[keyboard].spans, sections, colors[r], columns[r])
    }

    /**
      The view starts on `qwerty` and is drawn once, with no layout asked for.
      The menu bar is built before the keyboard, and building it fails on an
      event section with an action name too short to label; the view is only
      created when it succeeds.
     */
    constructor (sections: seq<Section>)
      requires AssignKeyMenus(sections).Some?
      ensures this.sections == sections
      ensures keyboard == DefaultLayout && Drawn()
    {
      keyboard := "qwerty";
      this.sections := sections;
      colors, columns := [], [];
      new;
      DisplayKeyboard(None);
    }

    /**
      Shows the layout asked for, `qwerty` when it is absent or unknown, and
      redraws every row; does nothing when that layout is already shown.
     */
    method DisplayKeyboard(requested: Option<string>)
      modifies this
      ensures sections == old(sections)
      ensures old(Drawn()) ==> Drawn()
      ensures NeedsRebuild(requested, old(keyboard)) ==> keyboard == SelectLayout(requested) && Drawn()
      ensures !NeedsRebuild(requested, old(keyboard)) ==>
        keyboard == old(keyboard) && colors == old(colors) && columns == old(columns)
    {
      if requested.None? || requested.value != keyboard {
        var name := if requested.Some? && requested.value in Catalog then requested.value else "qwerty";
        Redraw(name);
      }
    }

    /** Replaces every key button by those of layout `name`, row by row. */
    method Redraw(name: string)
      requires name in Catalog
      modifies this
      ensures keyboard == name && sections == old(sections)
      ensures Drawn()
    {
      keyboard := name;
      var layout := Catalog[name];
      var rowsColors: seq<seq<Option<Category>>> := [];
      var rowsColumns: seq<seq<int>> := [];
      var i := 0;
      while i < |layout.keys|
        invariant 0 <= i <= |layout.keys|
        invariant keyboard == name && sections == old(sections)
        invariant |rowsColors| == i && |rowsColumns| == i
        invariant forall r :: 0 <= r < i ==> RowDrawn(layout.keys[r], layout.spans, sections, rowsColors[r], rowsColumns[r])
      {
        forall k | 0 <= k < |layout.keys[i]|
          ensures |layout.keys[i][k]| > 0
        {
          CatalogLabelsNonEmpty(name, i, k);
        }
        var rowColors, rowColumns := LayRow(layout.keys[i], layout.spans, sections);
        rowsColors := rowsColors + [rowColors];
        rowsColumns := rowsColumns + [rowColumns];
        i := i + 1;
      }
      colors, columns := rowsColors, rowsColumns;
    }
  }
}
