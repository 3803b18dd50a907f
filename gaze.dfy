/**
 * Gaze targeting in main.js (`highlightIntersected` and the timer block of
 * `animate`): which node the ray from the middle of the view selects, how the
 * links of the selected node are relabelled, and how the dwell timer moves.
 */
module Gaze {
  import opened Optional
  import opened Graph
  import opened Scene

  /**
   * One element of `raycaster.intersectObjects(sceneObjects.nodes.children, true)`:
   * the node group the hit child belongs to (its index among the scene's nodes),
   * the child's `userData.type`, and the distance along the ray. The list is ordered by distance.
   */
  datatype Hit = Hit(owner: nat, kind: PartType, distance: real)

  /** `o.object.parent === intersected`; an undefined `intersected` is no node's parent. */
  predicate OnTarget(h: Hit, target: Option<nat>)
  {
    target == Some(h.owner)
  }

  /** The test of the `foundCurrent` scan: a non-text child of the current target. */
  predicate HoldsTarget(h: Hit, target: Option<nat>)
  {
    OnTarget(h, target) && h.kind != Text
  }

  /** The test of the search loop: another node, hit on a non-text child or beyond half the stage. */
  predicate Candidate(h: Hit, target: Option<nat>)
  {
    !OnTarget(h, target) && (h.distance > StageSize / 2.0 || h.kind != Text)
  }

  predicate FoundCurrent(hits: seq<Hit>, target: Option<nat>)
  {
    exists i :: 0 <= i < |hits| && HoldsTarget(hits[i], target)
  }

  /** The index of the first candidate at or after `from`. */
  function FirstCandidateFrom(hits: seq<Hit>, target: Option<nat>, from: nat): (r: Option<nat>)
    requires from <= |hits|
    ensures r.Some? ==> from <= r.value < |hits| && Candidate(hits[r.value], target) &&
                        forall j :: from <= j < r.value ==> !Candidate(hits[j], target)
    ensures r.None? ==> forall j :: from <= j < |hits| ==> !Candidate(hits[j], target)
    decreases |hits| - from
  {
    if from == |hits| then None
    else if Candidate(hits[from], target) then Some(from)
    else FirstCandidateFrom(hits, target, from + 1)
  }

  /** The index of the hit that becomes `nextIntersected`: the nearest candidate. */
  function FirstCandidate(hits: seq<Hit>, target: Option<nat>): Option<nat>
  {
    FirstCandidateFrom(hits, target, 0)
  }

  /** The `forEach` that computes `foundCurrent`. */
  method ScanForCurrent(hits: seq<Hit>, target: Option<nat>) returns (found: bool)
    ensures found <==> FoundCurrent(hits, target)
  {
    found := false;
    var i := 0;
    while i < |hits|
      invariant 0 <= i <= |hits|
      invariant found <==> exists j :: 0 <= j < i && HoldsTarget(hits[j], target)
    {
      if HoldsTarget(hits[i], target) {
        found := true;
      }
      i := i + 1;
    }
  }

  /** The `while (searching)` loop; the code enters it only with at least one hit. */
  method SearchCandidate(hits: seq<Hit>, target: Option<nat>) returns (next: Option<nat>)
    requires |hits| > 0
    ensures next == FirstCandidate(hits, target)
  {
    var searching := true;
    var index := 0;
    next := None;
    while searching
      invariant 0 <= index <= |hits|
      invariant searching ==> index < |hits| && next.None?
      invariant !searching && next.None? ==> index == |hits|
      invariant next.None? ==> forall j :: 0 <= j < index ==> !Candidate(hits[j], target)
      invariant next.Some? ==> next.value < index && Candidate(hits[next.value], target) &&
                               forall j :: 0 <= j < next.value ==> !Candidate(hits[j], target)
      decreases |hits| - index
    {
      if Candidate(hits[index], target) {
        next := Some(index);
        searching := false;
      }
      index := index + 1;
      if index > |hits| - 1 {
        searching := false;
      }
    }
    var expected := FirstCandidate(hits, target);
    if next.Some? && expected.Some? {
      assert !(next.value < expected.value) && !(expected.value < next.value);
    }
  }

  /** A text hit within half the stage never takes the gaze: the label sits in front of its sphere. */
  lemma NearTextNeverSelected(hits: seq<Hit>, target: Option<nat>, i: nat)
    requires i < |hits| && hits[i].kind == Text && hits[i].distance <= StageSize / 2.0
    ensures FirstCandidate(hits, target) != Some(i)
  {
  }

  /**
   * The current target is not kept in preference to what is in front of it:
   * with the target `a` behind another node `b`, `b` is selected, although `a` is still hit.
   */
  lemma NearerNodeTakesOver(a: nat, b: nat)
    requires a != b
    ensures var hits := [Hit(b, Sphere, 1.0), Hit(a, Sphere, 2.0)];
      FoundCurrent(hits, Some(a)) && FirstCandidate(hits, Some(a)) == Some(0)
  {
    var hits := [Hit(b, Sphere, 1.0), Hit(a, Sphere, 2.0)];
    assert HoldsTarget(hits[1], Some(a));
  }

  /** Only hits on the current target: nothing new is selected. */
  lemma {:induction false} OnlyTargetHitKeepsTarget(hits: seq<Hit>, t: nat)
    requires forall i :: 0 <= i < |hits| ==> hits[i].owner == t
    ensures FirstCandidate(hits, Some(t)).None?
  {
  }

  // ----- link highlight -----

  /** The material a link gets when the node with id `id` becomes the target. */
  function LinkMaterialFor(l: SceneLink, id: NodeId): LineMaterial
  {
    if l.source == id then HighlightOut
    else if l.target == id then HighlightIn
    else Basic
  }

  function Relabel(links: seq<SceneLink>, id: NodeId): seq<SceneLink>
  {
    seq(|links|, i requires 0 <= i < |links| => links[i].(material := LinkMaterialFor(links[i], id)))
  }

  /**
   * Links leaving the target wear `highlightOut`, links entering it (and not
   * leaving it) wear `highlightIn`, all others `basic`; nothing else changes.
   */
  lemma RelabelSpec(links: seq<SceneLink>, id: NodeId)
    ensures |Relabel(links, id)| == |links|
    ensures forall i :: 0 <= i < |links| ==>
      var r := Relabel(links, id)[i];
      (r.material == HighlightOut <==> links[i].source == id) &&
      (r.material == HighlightIn <==> links[i].source != id && links[i].target == id) &&
      (r.material == Basic <==> links[i].source != id && links[i].target != id) &&
      r.(material := links[i].material) == links[i]
  {
  }

  // ----- node highlight -----

  function HighlightPart(p: NodePart): NodePart
  {
    if p.kind != Text then p.(currentMaterial := p.material, material := SphereHighlight) else p
  }

  function RestorePart(p: NodePart): NodePart
  {
    if p.kind != Text then p.(material := p.currentMaterial) else p
  }

  /** A node as it becomes the target: scaled by `scaleBy`, its non-text children in the highlight material. */
  function Highlighted(n: SceneNode, scaleBy: real): SceneNode
  {
    n.(scale := scaleBy, parts := seq(|n.parts|, i requires 0 <= i < |n.parts| => HighlightPart(n.parts[i])))
  }

  /** main.js `resetIntersected`: scale 1, non-text children back in their saved material. */
  function Restored(n: SceneNode): SceneNode
  {
    n.(scale := 1.0, parts := seq(|n.parts|, i requires 0 <= i < |n.parts| => RestorePart(n.parts[i])))
  }

  /** Resetting a node undoes its highlight: every child shows the material it had before. */
  lemma RestoreUndoesHighlight(n: SceneNode, scaleBy: real)
    ensures var r := Restored(Highlighted(n, scaleBy));
      r.scale == 1.0 && r.id == n.id && r.position == n.position && r.nextPos == n.nextPos &&
      |r.parts| == |n.parts| &&
      forall i :: 0 <= i < |n.parts| ==> r.parts[i].material == n.parts[i].material && r.parts[i].kind == n.parts[i].kind
  {
  }

  /** The scene's nodes after a change of target from `previous` to `next`. */
  function Retarget(nodes: seq<SceneNode>, previous: Option<nat>, next: nat, scaleBy: real): seq<SceneNode>
    requires next < |nodes| && (previous.Some? ==> previous.value < |nodes|)
  {
    var reset := if previous.Some? then nodes[previous.value := Restored(nodes[previous.value])] else nodes;
    reset[next := Highlighted(reset[next], scaleBy)]
  }

  // ----- dwell timer -----

  /** `Math.PI`. */
  const Pi: real := 3.141592653589793

  /** The timer value at which a dwell is complete: `Math.PI * 2`. */
  const FuseAngle: real := Pi * 2.0

  /** The advance per frame: `Math.PI / 60`. */
  const TimerStep: real := Pi / 60.0

  /** `timer` after `highlightIntersected`. */
  function GazeTimer(hits: seq<Hit>, target: Option<nat>, timer: Option<real>): Option<real>
  {
    if |hits| == 0 then None
    else
      var t := if FirstCandidate(hits, target).Some? then Some(0.0) else timer;
      var found := FoundCurrent(hits, target);
      if found && t.None? then Some(0.0)
      else if !found && t.Some? then None
      else t
  }

  /** Whether `highlightIntersected` empties the cursor's progress ring. */
  predicate GazeClearsRing(hits: seq<Hit>, target: Option<nat>, timer: Option<real>)
  {
    |hits| == 0 || (!FoundCurrent(hits, target) && (FirstCandidate(hits, target).Some? || timer.Some?))
  }

  /** The timer block of `animate` when nothing is transitioning. */
  function AdvanceTimer(timer: Option<real>): Option<real>
  {
    match timer
    case None => None
    case Some(t) => if t < FuseAngle then Some(t + TimerStep) else timer
  }

  /** `timer` at the end of one call of `animate`. */
  function FrameTimer(transitioning: bool, hits: seq<Hit>, target: Option<nat>, timer: Option<real>): Option<real>
  {
    if transitioning then None else AdvanceTimer(GazeTimer(hits, target, timer))
  }

  /**
   * The dwell timer after a frame: cleared by a transition or an empty ray; at a
   * change of target restarted at 0 when the old target is still held, and cleared
   * when it is not; otherwise started at 0 on the held target and cleared when the
   * target is lost; and then advanced by one step below the fuse angle.
   */
  lemma {:induction false} FrameTimerSpec(transitioning: bool, hits: seq<Hit>, target: Option<nat>, timer: Option<real>)
    ensures transitioning || |hits| == 0 ==> FrameTimer(transitioning, hits, target, timer) == None
    ensures !transitioning && |hits| > 0 && FirstCandidate(hits, target).Some? ==>
      FrameTimer(transitioning, hits, target, timer) == (if FoundCurrent(hits, target) then Some(TimerStep) else None)
    ensures !transitioning && |hits| > 0 && FirstCandidate(hits, target).None? && !FoundCurrent(hits, target) ==>
      FrameTimer(transitioning, hits, target, timer) == None
    ensures !transitioning && |hits| > 0 && FirstCandidate(hits, target).None? && FoundCurrent(hits, target) ==>
      FrameTimer(transitioning, hits, target, timer) ==
        (if timer.None? then Some(TimerStep) else AdvanceTimer(timer))
  {
  }

  /** While the gaze rests on its target alone, each frame advances the timer by one step. */
  lemma {:induction false} SteadyGazeAdvances(hits: seq<Hit>, t: nat, timer: Option<real>)
    requires forall i :: 0 <= i < |hits| ==> hits[i].owner == t
    requires exists i :: 0 <= i < |hits| && hits[i].kind != Text
    requires timer.Some?
    ensures FrameTimer(false, hits, Some(t), timer) == AdvanceTimer(timer)
  {
    OnlyTargetHitKeepsTarget(hits, t);
    var i :| 0 <= i < |hits| && hits[i].kind != Text;
    assert HoldsTarget(hits[i], Some(t));
  }

  /** The timer after `k` frames of steady gaze. */
  function AdvanceTimes(timer: Option<real>, k: nat): Option<real>
  {
    if k == 0 then timer else AdvanceTimer(AdvanceTimes(timer, k - 1))
  }

  /**
   * From 0 the timer rises by `PI / 60` a frame, strictly increasing, reaches
   * `2 * PI` after 120 frames and stays there.
   */
  lemma {:induction false} DwellProgress(k: nat)
    ensures AdvanceTimes(Some(0.0), k) == Some((if k <= 120 then k else 120) as real * TimerStep)
    ensures k < 120 ==> AdvanceTimes(Some(0.0), k).value < FuseAngle
  {
    if k <= 120 {
      DwellRises(k);
      StepCount(k);
    } else {
      DwellHolds(k);
      StepCount(120);
    }
  }

  /** Up to 120 frames the timer is `k * PI / 60`. */
  lemma {:induction false} DwellRises(k: nat)
    requires k <= 120
    ensures AdvanceTimes(Some(0.0), k) == Some(k as real * TimerStep)
  {
    if k > 0 {
      DwellRises(k - 1);
      StepCount(k - 1);
      var prev := (k - 1) as real * TimerStep;
      assert AdvanceTimes(Some(0.0), k) == AdvanceTimer(Some(prev));
    }
  }

  /** From 120 frames on the timer stays at the fuse angle. */
  lemma {:induction false} DwellHolds(k: nat)
    requires k >= 120
    ensures AdvanceTimes(Some(0.0), k) == Some(FuseAngle)
  {
    if k == 120 {
      DwellRises(120);
      StepCount(120);
    } else {
      DwellHolds(k - 1);
      assert AdvanceTimes(Some(0.0), k) == AdvanceTimer(Some(FuseAngle));
    }
  }

  /** Below 120 steps the timer is under the fuse angle; 120 steps reach it exactly. */
  lemma StepCount(j: nat)
    requires j <= 120
    ensures j < 120 ==> j as real * TimerStep < FuseAngle
    ensures j < 120 ==> j as real * TimerStep + TimerStep == (j + 1) as real * TimerStep
    ensures j == 120 ==> j as real * TimerStep == FuseAngle
  {
    var step := TimerStep;
    assert step > 0.0 && FuseAngle == 120.0 * step;
    if j < 120 {
      MulStrict(j as real, 120.0, step);
    }
    AddOneStep(j as real, step);
  }

  lemma MulStrict(a: real, b: real, s: real)
    requires a < b && s > 0.0
    ensures a * s < b * s
  {
    assert b * s - a * s == (b - a) * s;
  }

  lemma AddOneStep(a: real, s: real)
    ensures a * s + s == (a + 1.0) * s
  {
  }
}
