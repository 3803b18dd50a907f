/**
 * actions/updateCategories.js: every node's category is brought to the
 * normal form of a colour-map name, or to the fallback category.
 */
module Categories {
  import opened Optional
  import opened Strings

  /** The category every unknown or missing category falls back to. */
  const Default: string := "default_no_category"

  /** A data node as `updateCategories` sees it: only its `category`, `None` when unset. */
  class Node {
    var category: Option<string>

    constructor (category: Option<string>)
      ensures this.category == category
    {
      this.category := category;
    }
  }

  /** `n.category` is falsy: unset, or the empty string. */
  predicate Falsy(category: Option<string>)
  {
    category.None? || category.value == ""
  }

  /** The category a node ends with, given the names of the colour map. */
  function Categorised(category: Option<string>, names: seq<string>): string
  {
    if Falsy(category) then Default
    else if Normal(category.value) in names then Normal(category.value)
    else Default
  }

  /**
   * The three outcomes: a missing or empty category falls back; a category
   * whose normal form names a colour-map entry becomes that normal form; any
   * other falls back. Either way the result is a colour-map name or the fallback.
   */
  lemma CategorisedCases(category: Option<string>, names: seq<string>)
    ensures Falsy(category) ==> Categorised(category, names) == Default
    ensures !Falsy(category) && Normal(category.value) in names ==>
      Categorised(category, names) == Normal(category.value)
    ensures !Falsy(category) && Normal(category.value) !in names ==> Categorised(category, names) == Default
    ensures Categorised(category, names) in names || Categorised(category, names) == Default
  {
  }

  /** The fallback is in normal form. */
  lemma NormalDefault()
    ensures Normal(Default) == Default
  {
    assert Trimmed(Default);
    TrimOfTrimmed(Default);
    DefaultIsLower();
  }

  lemma DefaultIsLower()
    ensures Lower(Default) == Default
  {
    assert forall i :: 0 <= i < |Default| ==> LowerChar(Default[i]) == Default[i];
    var l := Lower(Default);
    assert forall i :: 0 <= i < |l| ==> l[i] == Default[i];
  }

  /**
   * Categorising an already categorised node changes nothing, as long as no
   * colour-map name is empty.
   */
  lemma {:induction false} CategorisedIdempotent(category: Option<string>, names: seq<string>)
    requires "" !in names
    ensures Categorised(Some(Categorised(category, names)), names) == Categorised(category, names)
  {
    NormalDefault();
    if !Falsy(category) && Normal(category.value) in names {
      NormalIdempotent(category.value);
    }
  }

  /**
   * With an empty colour-map name, a category of white space alone becomes the
   * empty name on the first pass and, being falsy, the fallback on the second.
   */
  lemma EmptyNameBreaksIdempotence()
    ensures Categorised(Some(" "), [""]) == ""
    ensures Categorised(Some(Categorised(Some(" "), [""])), [""]) == Default
  {
    assert Trim(" ") == "";
  }

  /**
   * `updateCategories(nodes, colorMap)`, given the colour map's names: each node's
   * category is rewritten in place and the same nodes are returned in the same order.
   */
  method UpdateCategories(nodes: seq<Node>, names: seq<string>) returns (r: seq<Node>)
    requires forall i, j :: 0 <= i < j < |nodes| ==> nodes[i] != nodes[j]
    modifies set n | n in nodes
    ensures r == nodes
    ensures forall i :: 0 <= i < |nodes| ==> nodes[i].category == Some(Categorised(old(nodes[i].category), names))
  {
    var i := 0;
    while i < |nodes|
      invariant 0 <= i <= |nodes|
      invariant forall j :: 0 <= j < i ==> nodes[j].category == Some(Categorised(old(nodes[j].category), names))
      invariant forall j :: i <= j < |nodes| ==> nodes[j].category == old(nodes[j].category)
    {
      var n := nodes[i];
      var category := n.category;
      if category.Some? && category.value != "" {
        var t := Lower(Trim(category.value));
        if t in names {
          n.category := Some(t);
        } else {
          n.category := Some(Default);
        }
      } else {
        n.category := Some(Default);
      }
      i := i + 1;
    }
    r := nodes;
  }
}
