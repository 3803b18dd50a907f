/**
 * actions/updateColorMap.js: the colour map is rebuilt from the fallback entry
 * and the data's categories, whose names are normalised in place.
 */
module ColorMap {
  import opened Strings
  import Categories

  /** A colour-map entry: a category name and its three node colours. */
  class Category {
    var name: string
    const basic: string
    const adjacent: string
    const highlight: string

    constructor (name: string, basic: string, adjacent: string, highlight: string)
      ensures this.name == name && this.basic == basic && this.adjacent == adjacent && this.highlight == highlight
    {
      this.name := name;
      this.basic := basic;
      this.adjacent := adjacent;
      this.highlight := highlight;
    }
  }

  /** The part of the visualisation's `state` that `updateColorMap` reads and writes. */
  class Settings {
    var colorMap: seq<Category>
    const basicNodeColor: string
    const adjacentNodeColor: string
    const highlightNodeColor: string

    constructor (basicNodeColor: string, adjacentNodeColor: string, highlightNodeColor: string)
      ensures colorMap == []
      ensures this.basicNodeColor == basicNodeColor && this.adjacentNodeColor == adjacentNodeColor
      ensures this.highlightNodeColor == highlightNodeColor
    {
      colorMap := [];
      this.basicNodeColor := basicNodeColor;
      this.adjacentNodeColor := adjacentNodeColor;
      this.highlightNodeColor := highlightNodeColor;
    }
  }

  /**
   * `updateColorMap(state, datacategories)`: the old map is dropped; the new one
   * starts with a fresh fallback entry in the state's colours and continues with
   * the given categories, in order, each renamed to its normal form. The same
   * state is returned. A category listed twice is normalised twice, which
   * changes nothing more.
   */
  method UpdateColorMap(state: Settings, datacategories: seq<Category>) returns (r: Settings)
    modifies state`colorMap, set c | c in datacategories
    ensures r == state
    ensures |state.colorMap| == 1 + |datacategories|
    ensures fresh(state.colorMap[0])
    ensures state.colorMap[0].name == Categories.Default && state.colorMap[0].basic == state.basicNodeColor &&
            state.colorMap[0].adjacent == state.adjacentNodeColor &&
            state.colorMap[0].highlight == state.highlightNodeColor
    ensures state.colorMap[1..] == datacategories
    ensures forall i :: 0 <= i < |datacategories| ==> datacategories[i].name == Normal(old(datacategories[i].name))
  {
    state.colorMap := [];
    var fallback := new Category(Categories.Default, state.basicNodeColor, state.adjacentNodeColor,
                                 state.highlightNodeColor);
    state.colorMap := state.colorMap + [fallback];
    if |datacategories| > 0 {
      var i := 0;
      while i < |datacategories|
        invariant 0 <= i <= |datacategories|
        invariant state.colorMap == [fallback] + datacategories[..i]
        invariant fallback !in datacategories && fallback.name == Categories.Default
        invariant forall c :: c in datacategories ==>
          c.name == if c in datacategories[..i] then Normal(old(c.name)) else old(c.name)
      {
        var c := datacategories[i];
        assert datacategories[..i + 1] == datacategories[..i] + [c];
        NormalIdempotent(old(c.name));
        var normal := Lower(Trim(c.name));
        assert normal == Normal(old(c.name));
        c.name := normal;
        state.colorMap := state.colorMap + [c];
        i := i + 1;
      }
    }
    assert datacategories[..|datacategories|] == datacategories;
    r := state;
  }

  /**
   * The names `updateColorMap` produces (the fallback and normalised data names)
   * are their own normal forms, so `updateCategories` against them can match
   * every one of them.
   */
  lemma {:induction false} ColorMapNamesNormal(names: seq<string>)
    requires forall i :: 0 <= i < |names| ==> names[i] == Categories.Default || exists s :: names[i] == Normal(s)
    ensures forall i :: 0 <= i < |names| ==> Normal(names[i]) == names[i]
  {
    Categories.NormalDefault();
    forall i | 0 <= i < |names| ensures Normal(names[i]) == names[i] {
      if names[i] != Categories.Default {
        var s :| names[i] == Normal(s);
        NormalIdempotent(s);
      }
    }
  }
}
