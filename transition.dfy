/**
 * One frame of `transitionElements` in main.js: every node that is more than
 * 0.01 away from its `nextPos` moves a tenth of the way there; while any node
 * moves, the links' materials are hidden; once nothing moves, the materials are
 * shown and every link whose endpoints moved is rebuilt on its new endpoints.
 */
module Transition {
  import opened Geometry
  import opened Scene

  /** The `lerp` factor of one frame. */
  const Blend: real := 0.1

  /** The share of the squared distance a moving node still has to travel after one frame: `(1 - 0.1)^2`. */
  const Remaining: real := 0.81

  // ----- nodes -----

  /** `n.position.distanceTo(n.userData.nextPos) > 0.01`. */
  predicate Moving(n: SceneNode)
  {
    Apart(n.position, n.nextPos)
  }

  /** The node after one frame. */
  function StepNode(n: SceneNode): SceneNode
  {
    if Moving(n) then n.(position := Lerp(n.position, n.nextPos, Blend)) else n
  }

  function StepNodes(nodes: seq<SceneNode>): seq<SceneNode>
  {
    seq(|nodes|, i requires 0 <= i < |nodes| => StepNode(nodes[i]))
  }

  /** `countTransitioning > 0`. */
  predicate AnyMoving(nodes: seq<SceneNode>)
  {
    exists i :: 0 <= i < |nodes| && Moving(nodes[i])
  }

  /**
   * A moving node keeps its target and closes 19% of its squared distance to it;
   * a node within 0.01 of its target stays where it is.
   */
  lemma {:induction false} StepNodeSpec(n: SceneNode)
    ensures StepNode(n) == n.(position := StepNode(n).position)
    ensures Moving(n) ==> DistSq(StepNode(n).position, n.nextPos) == Remaining * DistSq(n.position, n.nextPos)
    ensures !Moving(n) ==> StepNode(n) == n
  {
    if Moving(n) {
      LerpShrinks(n.position, n.nextPos, Blend);
    }
  }

  /** A frame changes the scene's nodes exactly when some node is still moving. */
  lemma {:induction false} StepNodesFixpoint(nodes: seq<SceneNode>)
    ensures StepNodes(nodes) == nodes <==> !AnyMoving(nodes)
  {
    if AnyMoving(nodes) {
      var i :| 0 <= i < |nodes| && Moving(nodes[i]);
      var n := nodes[i];
      SelfNotApart(n.position);
      assert n.position != n.nextPos;
      assert StepNodes(nodes)[i].position != n.position;
    } else {
      forall i | 0 <= i < |nodes| ensures StepNodes(nodes)[i] == nodes[i] {
        StepNodeSpec(nodes[i]);
      }
    }
  }

  /** `n` after `k` frames, the target unchanged meanwhile. */
  function StepNodeTimes(n: SceneNode, k: nat): SceneNode
  {
    if k == 0 then n else StepNode(StepNodeTimes(n, k - 1))
  }

  function Power(b: real, k: nat): real
  {
    if k == 0 then 1.0 else b * Power(b, k - 1)
  }

  /** Until it settles, a node's squared distance to its target shrinks by the factor 0.81 every frame. */
  lemma {:induction false} StepNodeTimesDistance(n: SceneNode, k: nat)
    ensures StepNodeTimes(n, k).nextPos == n.nextPos
    ensures Moving(StepNodeTimes(n, k)) ==>
      DistSq(StepNodeTimes(n, k).position, n.nextPos) == Power(Remaining, k) * DistSq(n.position, n.nextPos)
  {
    if k > 0 {
      var m := StepNodeTimes(n, k - 1);
      StepNodeTimesDistance(n, k - 1);
      StepNodeSpec(m);
      if Moving(StepNodeTimes(n, k)) {
        assert Moving(m);
        var d0 := DistSq(n.position, n.nextPos);
        assert DistSq(m.position, n.nextPos) == Power(Remaining, k - 1) * d0;
        assert Remaining * (Power(Remaining, k - 1) * d0) == (Remaining * Power(Remaining, k - 1)) * d0;
      }
    }
  }

  /** `0.81^k (1 + 0.19 k) <= 1`: the geometric decay is at least as fast as `1 / (1 + 0.19 k)`. */
  lemma {:induction false} PowerDecay(k: nat)
    ensures 0.0 <= Power(Remaining, k)
    ensures Power(Remaining, k) * (1.0 + 0.19 * k as real) <= 1.0
  {
    if k > 0 {
      PowerDecay(k - 1);
      var p := Power(Remaining, k - 1);
      var j := (k - 1) as real;
      assert p * (1.0 + 0.19 * j) <= 1.0;
      assert Power(Remaining, k) == 0.81 * p;
      assert 0.81 * (1.0 + 0.19 * (j + 1.0)) <= 1.0 + 0.19 * j;
      assert 0.81 * p * (1.0 + 0.19 * (j + 1.0)) <= p * (1.0 + 0.19 * j);
    }
  }

  /** Enough frames for any squared distance `d` to fall within the threshold. */
  function SettleFrames(d: real): nat
    requires d >= 0.0
  {
    (d / (Epsilon * Epsilon * 0.19)).Floor as nat + 1
  }

  /**
   * Every node settles: after `SettleFrames` frames of an unchanged target it no
   * longer moves, so `isTransitioning` cannot stay true forever.
   */
  lemma {:induction false} NodeSettles(n: SceneNode, k: nat)
    requires k >= SettleFrames(DistSq(n.position, n.nextPos))
    ensures !Moving(StepNodeTimes(n, k))
  {
    var d := DistSq(n.position, n.nextPos);
    StepNodeTimesDistance(n, k);
    PowerDecay(k);
    var p := Power(Remaining, k);
    var e := Epsilon * Epsilon;
    var kr := k as real;
    assert kr >= d / (e * 0.19);
    assert e * 0.19 * kr >= d;
    var q := p * (1.0 + 0.19 * kr);
    assert q <= 1.0;
    assert p * (e * 0.19 * kr) == e * q - e * p;
    assert e * q <= e;
    assert e * p >= 0.0;
    assert p * (e * 0.19 * kr) <= e;
    assert p * d <= p * (e * 0.19 * kr);
    assert p * d <= e;
  }

  // ----- links -----

  /** `visible` of each shared line material. */
  type Visibility = map<LineMaterial, bool>

  predicate Complete(v: Visibility)
  {
    Basic in v && HighlightOut in v && HighlightIn in v
  }

  predicate Uses(links: seq<SceneLink>, m: LineMaterial)
  {
    exists i :: 0 <= i < |links| && links[i].material == m
  }

  /** `links.forEach(l => { l.material.visible = b; })`: each material some link wears is set to `b`. */
  function SetUsed(v: Visibility, links: seq<SceneLink>, b: bool): Visibility
  {
    map m | m in v :: if Uses(links, m) then b else v[m]
  }

  /** The link after the settled-frame check: rebuilt on its next endpoints when either moved. */
  function CommitLink(l: SceneLink): SceneLink
  {
    if Apart(l.spos, l.nextSPos) || Apart(l.tpos, l.nextTPos) then
      l.(spos := l.nextSPos, tpos := l.nextTPos, curve := Curve(l.nextSPos, l.nextTPos))
    else l
  }

  function CommitLinks(links: seq<SceneLink>): seq<SceneLink>
  {
    seq(|links|, i requires 0 <= i < |links| => CommitLink(links[i]))
  }

  /** Every material a link wears ends up with the requested visibility; the others keep theirs. */
  lemma SetUsedSpec(v: Visibility, links: seq<SceneLink>, b: bool)
    requires Complete(v)
    ensures Complete(SetUsed(v, links, b))
    ensures forall i :: 0 <= i < |links| ==> SetUsed(v, links, b)[links[i].material] == b
    ensures forall m :: m in v && !Uses(links, m) ==> SetUsed(v, links, b)[m] == v[m]
  {
    forall i | 0 <= i < |links| ensures SetUsed(v, links, b)[links[i].material] == b {
      var m := links[i].material;
      assert m in v by {
        match m
        case Basic =>
        case HighlightOut =>
        case HighlightIn =>
      }
      assert Uses(links, m);
    }
  }

  /** Marking one more link's material: the visibility of that material is `b`. */
  lemma {:induction false} SetUsedStep(v: Visibility, links: seq<SceneLink>, l: SceneLink, b: bool)
    requires Complete(v)
    ensures SetUsed(v, links + [l], b) == SetUsed(v, links, b)[l.material := b]
  {
    var lhs := SetUsed(v, links + [l], b);
    var rhs := SetUsed(v, links, b)[l.material := b];
    assert (links + [l])[|links|] == l;
    forall m | m in v ensures lhs[m] == rhs[m] {
      if m != l.material {
        assert Uses(links + [l], m) <==> Uses(links, m) by {
          if Uses(links + [l], m) {
            var i :| 0 <= i < |links + [l]| && (links + [l])[i].material == m;
            assert i < |links| && links[i].material == m;
          }
          if Uses(links, m) {
            var i :| 0 <= i < |links| && links[i].material == m;
            assert (links + [l])[i].material == m;
          }
        }
      }
    }
    assert l.material in v by {
      match l.material
      case Basic =>
      case HighlightOut =>
      case HighlightIn =>
    }
    assert lhs.Keys == rhs.Keys;
  }

  lemma SelfNotApart(p: Vec3)
    ensures !Apart(p, p)
  {
  }

  /**
   * After a settled frame every link sits within 0.01 of its next endpoints; a
   * link that was further off now starts and ends exactly there, on a curve
   * generated for those points, and other links keep their endpoints and curve.
   */
  lemma {:induction false} CommitLinkSpec(l: SceneLink)
    ensures !Apart(CommitLink(l).spos, l.nextSPos) && !Apart(CommitLink(l).tpos, l.nextTPos)
    ensures Apart(l.spos, l.nextSPos) || Apart(l.tpos, l.nextTPos) ==>
      CommitLink(l).spos == l.nextSPos && CommitLink(l).tpos == l.nextTPos &&
      CommitLink(l).curve == Curve(l.nextSPos, l.nextTPos)
    ensures !Apart(l.spos, l.nextSPos) && !Apart(l.tpos, l.nextTPos) ==> CommitLink(l) == l
    ensures CommitLink(l).nextSPos == l.nextSPos && CommitLink(l).nextTPos == l.nextTPos
    ensures CommitLink(l).material == l.material
  {
    SelfNotApart(l.nextSPos);
    SelfNotApart(l.nextTPos);
  }

  /** A second settled frame rebuilds nothing. */
  lemma {:induction false} CommitLinksIdempotent(links: seq<SceneLink>)
    ensures CommitLinks(CommitLinks(links)) == CommitLinks(links)
  {
    forall i | 0 <= i < |links|
      ensures CommitLink(CommitLink(links[i])) == CommitLink(links[i])
    {
      CommitLinkSpec(links[i]);
      CommitLinkSpec(CommitLink(links[i]));
    }
  }
}
