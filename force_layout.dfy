/**
 * The end callback of `layoutByForce` in main.js: the solver's settled
 * coordinates are normalised per axis with main.js's own `scaleValue` and
 * shifted by a fixed offset. The solver itself is not modelled; its
 * coordinates are an input.
 */
module ForceLayout {
  import opened Optional
  import opened Geometry
  import opened Graph
  import opened Scaling
  import opened Scene

  /**
   * main.js `scaleValue`: `((value - domain.min) * range.max) / domain.max + range.min`.
   * It divides by `domain.max`, not by the domain's width; a zero `domain.max` gives a non-finite result.
   */
  function ScaleValue(value: real, domain: Interval, range: Interval): (r: Option<real>)
    ensures r.None? <==> domain.max == 0.0
  {
    if domain.max == 0.0 then None
    else Some(((value - domain.min) * range.max) / domain.max + range.min)
  }

  /** `scaleValue` sends `domain.min` to `range.min` whenever `domain.max` is non-zero. */
  lemma ScaleValueAtMin(domain: Interval, range: Interval)
    requires domain.max != 0.0
    ensures ScaleValue(domain.min, domain, range) == Some(range.min)
  {
  }

  /** When both intervals start at zero, `scaleValue` is `toRange`. */
  lemma {:induction false} ScaleValueIsToRangeFromZero(value: real, domain: Interval, range: Interval)
    requires domain.min == 0.0 && range.min == 0.0 && domain.max != 0.0
    ensures ScaleValue(value, domain, range) == ToRange(value, domain, range)
  {
    var q := value / domain.max;
    assert q * domain.max == value;
    assert (q * range.max) * domain.max == value * range.max;
    assert (value * range.max) / domain.max == q * range.max;
    assert ScaleValue(value, domain, range).value == (value * range.max) / domain.max;
    assert ToRange(value, domain, range).value == q * range.max;
  }

  /**
   * Otherwise the two differ: over the domain [-5, 5] onto [0, 10] `scaleValue`
   * sends the top of the domain to 20, outside the range, where `toRange` gives 10.
   */
  lemma ScaleValueOvershoots()
    ensures ScaleValue(5.0, Interval(-5.0, 5.0), Interval(0.0, 10.0)) == Some(20.0)
    ensures ToRange(5.0, Interval(-5.0, 5.0), Interval(0.0, 10.0)) == Some(10.0)
  {
  }

  // ----- per-axis extent -----

  /** `Math.min.apply(null, values)` of a non-empty list. */
  function MinOf(s: seq<real>): (r: real)
    requires |s| > 0
    ensures r in s && forall i :: 0 <= i < |s| ==> r <= s[i]
  {
    if |s| == 1 then s[0]
    else
      var m := MinOf(s[1..]);
      assert forall i :: 1 <= i < |s| ==> s[1..][i - 1] == s[i];
      if s[0] <= m then s[0] else m
  }

  /** `Math.max.apply(null, values)` of a non-empty list. */
  function MaxOf(s: seq<real>): (r: real)
    requires |s| > 0
    ensures r in s && forall i :: 0 <= i < |s| ==> s[i] <= r
  {
    if |s| == 1 then s[0]
    else
      var m := MaxOf(s[1..]);
      assert forall i :: 1 <= i < |s| ==> s[1..][i - 1] == s[i];
      if s[0] >= m then s[0] else m
  }

  function Xs(ps: seq<Vec3>): seq<real> { seq(|ps|, i requires 0 <= i < |ps| => ps[i].x) }
  function Ys(ps: seq<Vec3>): seq<real> { seq(|ps|, i requires 0 <= i < |ps| => ps[i].y) }
  function Zs(ps: seq<Vec3>): seq<real> { seq(|ps|, i requires 0 <= i < |ps| => ps[i].z) }

  function Extent(s: seq<real>): Interval
    requires |s| > 0
  {
    Interval(MinOf(s), MaxOf(s))
  }

  /** `dimensionMap`: the extent of the solver coordinates along each axis. */
  datatype Bounds = Bounds(x: Interval, y: Interval, z: Interval)

  function AxisBounds(coords: seq<Vec3>): Bounds
    requires |coords| > 0
  {
    Bounds(Extent(Xs(coords)), Extent(Ys(coords)), Extent(Zs(coords)))
  }

  /** Every axis has a non-zero maximum, so `scaleValue` stays finite. */
  predicate Scalable(b: Bounds)
  {
    b.x.max != 0.0 && b.y.max != 0.0 && b.z.max != 0.0
  }

  /** `offset`: the shift added after scaling. */
  function Offset(userHeight: real): Vec3
  {
    Vec3(-StageSize, -userHeight, -StageSize)
  }

  /** The `pos` the end callback gives a node whose solver coordinates are `c`. */
  function ForcePos(c: Vec3, b: Bounds, userHeight: real): Vec3
    requires Scalable(b)
  {
    Add(Vec3(ScaleValue(c.x, b.x, Interval(0.0, StageSize)).value,
             ScaleValue(c.y, b.y, Interval(0.0, userHeight * 2.5)).value,
             ScaleValue(c.z, b.z, Interval(0.0, StageSize)).value),
        Offset(userHeight))
  }

  /** `globalData.nodes` after the end callback: each node gets the `pos` of its solver coordinates. */
  function ForcePlaced(nodes: seq<DataNode>, coords: seq<Vec3>, userHeight: real): (r: seq<DataNode>)
    requires |coords| == |nodes| > 0 && Scalable(AxisBounds(coords))
    ensures |r| == |nodes| && forall i :: 0 <= i < |r| ==> r[i] == nodes[i].(pos := r[i].pos)
    ensures forall id :: HasId(r, id) <==> HasId(nodes, id)
  {
    seq(|nodes|, i requires 0 <= i < |nodes| => nodes[i].(pos := ForcePos(coords[i], AxisBounds(coords), userHeight)))
  }

  /** The link with both endpoint positions taken from the nodes it names. */
  function Attached(l: DataLink, nodes: seq<DataNode>): DataLink
    requires HasId(nodes, l.sourceId) && HasId(nodes, l.targetId)
  {
    l.(spos := PosOf(nodes, l.sourceId), tpos := PosOf(nodes, l.targetId))
  }

  /** `globalData.links` after a layout: every link points at its endpoints' new positions. */
  function AttachLinks(links: seq<DataLink>, nodes: seq<DataNode>): seq<DataLink>
    requires EndpointsPresent(nodes, links)
  {
    seq(|links|, i requires 0 <= i < |links| => Attached(links[i], nodes))
  }

  /** The extent of an axis is attained and bounds every coordinate. */
  lemma {:induction false} BoundsAreExtremes(coords: seq<Vec3>)
    requires |coords| > 0
    ensures var b := AxisBounds(coords);
      forall i :: 0 <= i < |coords| ==>
        b.x.min <= coords[i].x <= b.x.max && b.y.min <= coords[i].y <= b.y.max && b.z.min <= coords[i].z <= b.z.max
    ensures exists i :: 0 <= i < |coords| && coords[i].x == AxisBounds(coords).x.min
  {
    var xs := Xs(coords);
    assert forall i :: 0 <= i < |coords| ==> xs[i] == coords[i].x;
    assert forall i :: 0 <= i < |coords| ==> Ys(coords)[i] == coords[i].y;
    assert forall i :: 0 <= i < |coords| ==> Zs(coords)[i] == coords[i].z;
    var i :| 0 <= i < |xs| && xs[i] == MinOf(xs);
    assert coords[i].x == AxisBounds(coords).x.min;
  }

  /** A node holding the minimum of an axis lands on the low face of the stage on that axis. */
  lemma {:induction false} MinimumLandsOnLowFace(nodes: seq<DataNode>, coords: seq<Vec3>, userHeight: real, i: nat)
    requires |coords| == |nodes| > 0 && Scalable(AxisBounds(coords)) && i < |nodes|
    ensures var b := AxisBounds(coords);
      var p := ForcePlaced(nodes, coords, userHeight)[i].pos;
      (coords[i].x == b.x.min ==> p.x == -StageSize) &&
      (coords[i].y == b.y.min ==> p.y == -userHeight) &&
      (coords[i].z == b.z.min ==> p.z == -StageSize)
  {
    var b := AxisBounds(coords);
    ScaleValueAtMin(b.x, Interval(0.0, StageSize));
    ScaleValueAtMin(b.y, Interval(0.0, userHeight * 2.5));
    ScaleValueAtMin(b.z, Interval(0.0, StageSize));
  }

  /** With a positive maximum on x, no node lands left of `-stageSize`. */
  lemma {:induction false} PlacedRightOfLowFace(nodes: seq<DataNode>, coords: seq<Vec3>, userHeight: real, i: nat)
    requires |coords| == |nodes| > 0 && Scalable(AxisBounds(coords)) && i < |nodes|
    requires AxisBounds(coords).x.max > 0.0
    ensures ForcePlaced(nodes, coords, userHeight)[i].pos.x >= -StageSize
  {
    var b := AxisBounds(coords);
    BoundsAreExtremes(coords);
    var d := coords[i].x - b.x.min;
    assert d >= 0.0;
    assert d * StageSize >= 0.0;
    assert (d * StageSize) / b.x.max >= 0.0;
  }

  /** After the links are attached, each link's endpoints sit on its nodes' positions. */
  lemma AttachLinksSpec(links: seq<DataLink>, nodes: seq<DataNode>)
    requires EndpointsPresent(nodes, links)
    ensures |AttachLinks(links, nodes)| == |links|
    ensures forall i :: 0 <= i < |links| ==>
      AttachLinks(links, nodes)[i].spos == PosOf(nodes, links[i].sourceId) &&
      AttachLinks(links, nodes)[i].tpos == PosOf(nodes, links[i].targetId)
  {
  }

  // ----- `layoutByRandom` -----

  /**
   * The `pos` `layoutByRandom` gives a node, from the three `Math.random()` draws
   * made for it (`r.x`, `r.y`, `r.z`, in that order).
   */
  function RandomPos(r: Vec3, userHeight: real): Vec3
  {
    Vec3((0.5 - r.x) * StageSize, userHeight / 2.0 + r.y * userHeight, (0.5 - r.z) * StageSize)
  }

  /** `globalData.nodes` after `layoutByRandom`. */
  function Scattered(nodes: seq<DataNode>, draws: seq<Vec3>, userHeight: real): (r: seq<DataNode>)
    requires |draws| == |nodes|
    ensures |r| == |nodes| && forall i :: 0 <= i < |r| ==> r[i] == nodes[i].(pos := r[i].pos)
    ensures forall id :: HasId(r, id) <==> HasId(nodes, id)
  {
    seq(|nodes|, i requires 0 <= i < |nodes| => nodes[i].(pos := RandomPos(draws[i], userHeight)))
  }

  /** A draw in `[0, 1)` per axis: what `Math.random()` returns. */
  predicate UnitDraw(r: Vec3)
  {
    0.0 <= r.x < 1.0 && 0.0 <= r.y < 1.0 && 0.0 <= r.z < 1.0
  }

  /**
   * Random placement keeps a node within half the stage of the centre on x and z,
   * and between half and one and a half user heights up.
   */
  lemma RandomPosInBox(r: Vec3, userHeight: real)
    requires UnitDraw(r) && userHeight > 0.0
    ensures var p := RandomPos(r, userHeight);
      -StageSize / 2.0 < p.x <= StageSize / 2.0 &&
      userHeight / 2.0 <= p.y < userHeight * 1.5 &&
      -StageSize / 2.0 < p.z <= StageSize / 2.0
  {
    var p := RandomPos(r, userHeight);
    var dy := r.y * userHeight;
    assert 0.0 <= dy < userHeight by {
      assert dy <= 1.0 * userHeight - (1.0 - r.y) * userHeight;
      assert (1.0 - r.y) * userHeight > 0.0;
    }
    assert p.y == userHeight / 2.0 + dy;
    assert userHeight / 2.0 + userHeight == userHeight * 1.5;
  }
}
