/**
 * The graph data of main.js (`globalData`): nodes and links as loaded, and
 * the normalisation `formatData` applies before anything is drawn.
 */
module Graph {
  import opened Optional
  import opened Geometry

  type NodeId = int

  /** An element of `globalData.nodes`; `formatData` writes `linkCount`, the layouts write `pos`. */
  datatype DataNode = DataNode(id: NodeId, name: string, rank: int, linkCount: nat, pos: Vec3)

  /**
   * An element of `globalData.links`: `source`/`target` as loaded, `sourceId`/`targetId`
   * as copied by `formatData`, and the endpoint positions `spos`/`tpos` the layouts assign.
   */
  datatype DataLink = DataLink(source: NodeId, target: NodeId, sourceId: NodeId, targetId: NodeId,
                               value: real, spos: Vec3, tpos: Vec3)

  // ----- links -----

  /** The link with its endpoint ids copied from `source` and `target`. */
  function WithIds(l: DataLink): DataLink
  {
    l.(sourceId := l.source, targetId := l.target)
  }

  /** `globalData.links` after the first `map` of `formatData`. */
  function NormalizeLinks(links: seq<DataLink>): seq<DataLink>
  {
    seq(|links|, i requires 0 <= i < |links| => WithIds(links[i]))
  }

  lemma NormalizeLinksIds(links: seq<DataLink>)
    ensures |NormalizeLinks(links)| == |links|
    ensures forall i :: 0 <= i < |links| ==>
      var l := NormalizeLinks(links)[i];
      l.sourceId == links[i].source && l.targetId == links[i].target &&
      l == links[i].(sourceId := links[i].source, targetId := links[i].target)
  {
  }

  predicate Touches(l: DataLink, id: NodeId)
  {
    l.sourceId == id || l.targetId == id
  }

  /** `links.filter(l => l.sourceId === id || l.targetId === id).length`. */
  function LinkCount(links: seq<DataLink>, id: NodeId): (c: nat)
    ensures c <= |links|
    ensures c > 0 <==> exists i :: 0 <= i < |links| && Touches(links[i], id)
  {
    if links == [] then 0
    else
      var last := links[|links| - 1];
      var c := LinkCount(links[..|links| - 1], id);
      assert forall i :: 0 <= i < |links| - 1 ==> links[..|links| - 1][i] == links[i];
      if Touches(last, id) then c + 1 else c
  }

  // ----- nodes -----

  /** The node with `linkCount` set from `links`. */
  function Counted(n: DataNode, links: seq<DataLink>): DataNode
  {
    n.(linkCount := LinkCount(links, n.id))
  }

  /** `globalData.nodes` after the `map` of `formatData`. */
  function CountLinks(nodes: seq<DataNode>, links: seq<DataLink>): seq<DataNode>
  {
    seq(|nodes|, i requires 0 <= i < |nodes| => Counted(nodes[i], links))
  }

  /** `nodes.filter(n => n.linkCount)`: the nodes with at least one link, in order. */
  function KeepLinked(nodes: seq<DataNode>): seq<DataNode>
  {
    if nodes == [] then []
    else
      var last := nodes[|nodes| - 1];
      KeepLinked(nodes[..|nodes| - 1]) + (if last.linkCount > 0 then [last] else [])
  }

  /** `globalData.nodes` after `formatData`, given the links it normalised. */
  function FormatNodes(nodes: seq<DataNode>, links: seq<DataLink>): seq<DataNode>
  {
    KeepLinked(CountLinks(nodes, links))
  }

  /** The filter keeps exactly the linked nodes. */
  lemma {:induction false} KeepLinkedMembers(nodes: seq<DataNode>)
    ensures forall n :: n in KeepLinked(nodes) <==> n in nodes && n.linkCount > 0
    ensures |KeepLinked(nodes)| <= |nodes|
  {
    if nodes != [] {
      var init := nodes[..|nodes| - 1];
      KeepLinkedMembers(init);
      assert nodes == init + [nodes[|nodes| - 1]];
    }
  }

  /** The filter works piece by piece, so it keeps the original order. */
  lemma {:induction false} KeepLinkedAppend(a: seq<DataNode>, b: seq<DataNode>)
    ensures KeepLinked(a + b) == KeepLinked(a) + KeepLinked(b)
  {
    if b == [] {
      assert a + b == a;
    } else {
      var init := b[..|b| - 1];
      KeepLinkedAppend(a, init);
      assert (a + b)[..|a + b| - 1] == a + init;
    }
  }

  /**
   * After `formatData` a node survives exactly when some link names it, and it
   * carries the number of links naming it.
   */
  lemma {:induction false} FormatNodesSpec(nodes: seq<DataNode>, links: seq<DataLink>)
    ensures forall n :: n in FormatNodes(nodes, links) <==>
      exists i :: 0 <= i < |nodes| && n == Counted(nodes[i], links) && n.linkCount > 0
    ensures forall n :: n in FormatNodes(nodes, links) ==> n.linkCount == LinkCount(links, n.id) > 0
  {
    var counted := CountLinks(nodes, links);
    KeepLinkedMembers(counted);
    forall n | n in counted
      ensures exists i :: 0 <= i < |nodes| && n == Counted(nodes[i], links)
    {
      var i :| 0 <= i < |counted| && counted[i] == n;
      assert n == Counted(nodes[i], links);
    }
    forall i | 0 <= i < |nodes|
      ensures Counted(nodes[i], links) in counted
    {
      assert counted[i] == Counted(nodes[i], links);
    }
  }

  /** The survivors keep their order: `formatData` filters any split of the nodes piece by piece. */
  lemma {:induction false} FormatNodesOrder(nodes: seq<DataNode>, links: seq<DataLink>, k: nat)
    requires k <= |nodes|
    ensures FormatNodes(nodes, links) == FormatNodes(nodes[..k], links) + FormatNodes(nodes[k..], links)
  {
    var front := CountLinks(nodes[..k], links);
    var back := CountLinks(nodes[k..], links);
    assert CountLinks(nodes, links) == front + back;
    KeepLinkedAppend(front, back);
  }

  // ----- lookup by id -----

  predicate HasId(nodes: seq<DataNode>, id: NodeId)
  {
    exists i :: 0 <= i < |nodes| && nodes[i].id == id
  }

  /** `nodes.filter(n => n.id === id)[0]`, as an index: the first node with that id. */
  function Find(nodes: seq<DataNode>, id: NodeId): (r: Option<nat>)
    ensures r.Some? ==> r.value < |nodes| && nodes[r.value].id == id &&
                        forall j :: 0 <= j < r.value ==> nodes[j].id != id
    ensures r.None? <==> !HasId(nodes, id)
  {
    if nodes == [] then None
    else if nodes[0].id == id then Some(0)
    else match Find(nodes[1..], id)
      case None => None
      case Some(k) => Some(k + 1)
  }

  /** The `pos` of the first node with the given id; the code fails on a missing id. */
  function PosOf(nodes: seq<DataNode>, id: NodeId): Vec3
    requires HasId(nodes, id)
  {
    nodes[Find(nodes, id).value].pos
  }

  /** Every endpoint of every link names some node. */
  predicate EndpointsPresent(nodes: seq<DataNode>, links: seq<DataLink>)
  {
    forall l :: l in links ==> HasId(nodes, l.sourceId) && HasId(nodes, l.targetId)
  }

  /**
   * After the first `map` of `formatData` a link's `source`/`target` are its
   * `sourceId`/`targetId`, so endpoints present under one pair of names are
   * present under the other.
   */
  lemma {:induction false} NormalizedEndpoints(nodes: seq<DataNode>, links: seq<DataLink>)
    requires EndpointsPresent(nodes, NormalizeLinks(links))
    ensures forall l :: l in NormalizeLinks(links) ==> HasId(nodes, l.source) && HasId(nodes, l.target)
  {
    forall l | l in NormalizeLinks(links) ensures HasId(nodes, l.source) && HasId(nodes, l.target) {
      var i :| 0 <= i < |links| && NormalizeLinks(links)[i] == l;
      assert l.source == l.sourceId && l.target == l.targetId;
    }
  }

  /**
   * Dropping unlinked nodes never strands a link: a node that a link names has a
   * link, so it survives. This is what keeps the later lookups by id from failing.
   */
  lemma {:induction false} FormatKeepsEndpoints(nodes: seq<DataNode>, links: seq<DataLink>)
    requires EndpointsPresent(nodes, NormalizeLinks(links))
    ensures EndpointsPresent(FormatNodes(nodes, NormalizeLinks(links)), NormalizeLinks(links))
  {
    var ls := NormalizeLinks(links);
    var counted := CountLinks(nodes, ls);
    KeepLinkedMembers(counted);
    forall l, id | l in ls && (id == l.sourceId || id == l.targetId)
      ensures HasId(FormatNodes(nodes, ls), id)
    {
      var i :| 0 <= i < |nodes| && nodes[i].id == id;
      var j :| 0 <= j < |ls| && ls[j] == l;
      assert Touches(ls[j], id);
      assert counted[i] == Counted(nodes[i], ls) && counted[i].linkCount > 0;
      assert counted[i] in FormatNodes(nodes, ls);
      var k :| 0 <= k < |FormatNodes(nodes, ls)| && FormatNodes(nodes, ls)[k] == counted[i];
    }
  }

  /** The worked example: nodes 1, 2, 3 and one link 1 -> 2 leave nodes 1 and 2 and the link. */
  lemma FormatExample(p: Vec3)
    ensures
      var nodes := [DataNode(1, "a", 1, 0, p), DataNode(2, "b", 2, 0, p), DataNode(3, "c", 3, 0, p)];
      var links := NormalizeLinks([DataLink(1, 2, 0, 0, 5.0, p, p)]);
      |links| == 1 && FormatNodes(nodes, links) == [DataNode(1, "a", 1, 1, p), DataNode(2, "b", 2, 1, p)]
  {
    var nodes := [DataNode(1, "a", 1, 0, p), DataNode(2, "b", 2, 0, p), DataNode(3, "c", 3, 0, p)];
    var links := NormalizeLinks([DataLink(1, 2, 0, 0, 5.0, p, p)]);
    assert links == [DataLink(1, 2, 1, 2, 5.0, p, p)];
    assert LinkCount(links, 1) == 1 && LinkCount(links, 2) == 1 && LinkCount(links, 3) == 0;
    var counted := CountLinks(nodes, links);
    assert counted == [DataNode(1, "a", 1, 1, p), DataNode(2, "b", 2, 1, p), DataNode(3, "c", 3, 0, p)];
    assert counted[..2] == [DataNode(1, "a", 1, 1, p), DataNode(2, "b", 2, 1, p)];
    assert counted[..1] == [DataNode(1, "a", 1, 1, p)];
    assert counted[..1][..0] == [];
    assert KeepLinked(counted[..1]) == [counted[0]];
    assert counted[..2][..1] == counted[..1];
    assert KeepLinked(counted[..2]) == [counted[0], counted[1]];
    assert counted[..2] == counted[..|counted| - 1];
    assert KeepLinked(counted) == [counted[0], counted[1]];
  }
}
