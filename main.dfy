/**
 * The module-level state of main.js and the functions that change it step by
 * step: the graph data (`globalData`), the node groups and line meshes of the
 * scene (`sceneObjects`), the visibility of the three shared line materials,
 * the gaze target (`intersected`), the dwell `timer`, the arc of the cursor's
 * progress ring and `state.isTransitioning`.
 *
 * Each method is stated against the specification functions of the Graph,
 * Scene, ForceLayout, Transition and Gaze modules, whose properties are proved
 * there.
 */
module Main {
  import opened Optional
  import opened Geometry
  import opened Graph
  import opened Scene
  import opened ForceLayout
  import opened Transition
  import opened Gaze

  class World {
    var nodes: seq<DataNode>          // globalData.nodes
    var links: seq<DataLink>          // globalData.links
    var sceneNodes: seq<SceneNode>    // sceneObjects.nodes.children
    var sceneLinks: seq<SceneLink>    // sceneObjects.links.children
    var lineVisible: Visibility       // `visible` of lineMaterials.basic, .highlightOut, .highlightIn
    var intersected: Option<nat>      // the gazed node group, as its index in sceneNodes
    var timer: Option<real>           // null, or the dwell progress in radians
    var ringArc: real                 // the arc length of the cursor's progress ring
    var isTransitioning: bool         // state.isTransitioning
    const userHeight: real            // controls.userHeight
    ghost var ticks: nat              // frames the timer has advanced since it was last set to 0

    /** The target is a node of the scene, the timer counts whole frames up to the fuse angle. */
    ghost predicate Valid()
      reads this
    {
      Complete(lineVisible) &&
      (intersected.Some? ==> intersected.value < |sceneNodes|) &&
      (timer.Some? ==> ticks <= 120 && timer.value == ticks as real * TimerStep) &&
      0.0 <= ringArc <= FuseAngle
    }

    /** `setupScene(data)` up to its call of `formatData`: the data is stored and the scene is empty. */
    constructor (dataNodes: seq<DataNode>, dataLinks: seq<DataLink>, height: real)
      ensures Valid()
      ensures nodes == dataNodes && links == dataLinks && userHeight == height
      ensures sceneNodes == [] && sceneLinks == []
      ensures intersected == None && timer == None && ringArc == 0.0 && !isTransitioning
      ensures lineVisible == map[Basic := true, HighlightOut := true, HighlightIn := true]
    {
      nodes := dataNodes;
      links := dataLinks;
      userHeight := height;
      sceneNodes := [];
      sceneLinks := [];
      lineVisible := map[Basic := true, HighlightOut := true, HighlightIn := true];
      intersected := None;
      timer := None;
      ringArc := 0.0;
      isTransitioning := false;
      ticks := 0;
    }

    // ----- building the network -----

    /**
     * `formatData`: links get `sourceId`/`targetId`, nodes their `linkCount`,
     * unlinked nodes are dropped, and `drawNetwork` follows with one random draw
     * per remaining node.
     */
    method FormatData(draws: seq<Vec3>)
      requires Valid()
      requires EndpointsPresent(nodes, NormalizeLinks(links))
      requires |draws| == |FormatNodes(nodes, NormalizeLinks(links))|
      requires SceneResolvable(FormatNodes(nodes, NormalizeLinks(links)), sceneNodes, sceneLinks)
      modifies this`nodes, this`links, this`sceneNodes, this`sceneLinks
      ensures Valid()
      ensures nodes == Scattered(FormatNodes(old(nodes), NormalizeLinks(old(links))), draws, userHeight)
      ensures EndpointsPresent(nodes, NormalizeLinks(old(links)))
      ensures links == AttachLinks(NormalizeLinks(old(links)), nodes)
      ensures SceneResolvable(nodes, old(sceneNodes) + DrawNodes(nodes), old(sceneLinks) + DrawLinks(links))
      ensures sceneNodes == AimNodes(old(sceneNodes) + DrawNodes(nodes), nodes)
      ensures sceneLinks == AimLinks(old(sceneLinks) + DrawLinks(links), nodes)
    {
      NormalizeLinkIds();
      CountNodeLinks();
      nodes := KeepLinked(nodes);
      FormatKeepsEndpoints(old(nodes), old(links));
      NormalizedEndpoints(nodes, old(links));
      DrawNetwork(draws);
    }

    /** The first `map` of `formatData`: `sourceId`/`targetId` copied from `source`/`target`. */
    method NormalizeLinkIds()
      modifies this`links
      ensures links == NormalizeLinks(old(links))
    {
      var i := 0;
      while i < |links|
        invariant 0 <= i <= |links| == |old(links)|
        invariant forall j :: 0 <= j < i ==> links[j] == WithIds(old(links)[j])
        invariant forall j :: i <= j < |links| ==> links[j] == old(links)[j]
      {
        links := links[i := links[i].(sourceId := links[i].source, targetId := links[i].target)];
        i := i + 1;
      }
    }

    /** The second `map` of `formatData`: each node's `linkCount` is the number of links touching it. */
    method CountNodeLinks()
      modifies this`nodes
      ensures nodes == CountLinks(old(nodes), links)
    {
      var i := 0;
      while i < |nodes|
        invariant 0 <= i <= |nodes| == |old(nodes)|
        invariant forall j :: 0 <= j < i ==> nodes[j] == Counted(old(nodes)[j], links)
        invariant forall j :: i <= j < |nodes| ==> nodes[j] == old(nodes)[j]
      {
        nodes := nodes[i := nodes[i].(linkCount := LinkCount(links, nodes[i].id))];
        i := i + 1;
      }
    }

    /**
     * `drawNetwork`: `layoutByRandom`, then one line mesh in the basic material
     * per link and one node group per node appended to the scene, then `updateNetwork`.
     * The layout looks nodes up by a link's `sourceId`/`targetId`, the line meshes
     * carry its `source`/`target`, which `updateNetwork` looks up; after `formatData`
     * the two pairs agree (`Graph.NormalizedEndpoints`).
     */
    method DrawNetwork(draws: seq<Vec3>)
      requires Valid()
      requires |draws| == |nodes|
      requires EndpointsPresent(nodes, links)
      requires forall l :: l in links ==> HasId(nodes, l.source) && HasId(nodes, l.target)
      requires SceneResolvable(nodes, sceneNodes, sceneLinks)
      modifies this`nodes, this`links, this`sceneNodes, this`sceneLinks
      ensures Valid()
      ensures nodes == Scattered(old(nodes), draws, userHeight)
      ensures links == AttachLinks(old(links), nodes)
      ensures SceneResolvable(nodes, old(sceneNodes) + DrawNodes(nodes), old(sceneLinks) + DrawLinks(links))
      ensures sceneNodes == AimNodes(old(sceneNodes) + DrawNodes(nodes), nodes)
      ensures sceneLinks == AimLinks(old(sceneLinks) + DrawLinks(links), nodes)
    {
      LayoutByRandom(draws);
      forall l | l in links ensures HasId(nodes, l.source) && HasId(nodes, l.target) {
        var j :| 0 <= j < |links| && links[j] == l;
        assert old(links)[j] in old(links);
      }
      AddLineMeshes();
      AddNodeGroups();
      DrawnSceneResolvable(nodes, links, old(sceneNodes), old(sceneLinks));
      UpdateNetwork();
    }

    /** `layoutByRandom`: each node placed by its three draws, then the links attached. */
    method LayoutByRandom(draws: seq<Vec3>)
      requires |draws| == |nodes|
      requires EndpointsPresent(nodes, links)
      modifies this`nodes, this`links
      ensures nodes == Scattered(old(nodes), draws, userHeight)
      ensures links == AttachLinks(old(links), nodes)
    {
      var i := 0;
      while i < |nodes|
        modifies this`nodes
        invariant 0 <= i <= |nodes| == |old(nodes)|
        invariant forall j :: 0 <= j < i ==> nodes[j] == old(nodes)[j].(pos := RandomPos(draws[j], userHeight))
        invariant forall j :: i <= j < |nodes| ==> nodes[j] == old(nodes)[j]
      {
        nodes := nodes[i := nodes[i].(pos := RandomPos(draws[i], userHeight))];
        i := i + 1;
      }
      assert nodes == Scattered(old(nodes), draws, userHeight);
      PlaceLinks();
    }

    /** The `links.forEach` of `drawNetwork`: one line mesh per link, in the basic material. */
    method AddLineMeshes()
      modifies this`sceneLinks
      ensures sceneLinks == old(sceneLinks) + DrawLinks(links)
    {
      var i := 0;
      while i < |links|
        invariant 0 <= i <= |links|
        invariant sceneLinks == old(sceneLinks) + DrawLinks(links[..i])
      {
        var l := links[i];
        assert DrawLinks(links[..i + 1]) == DrawLinks(links[..i]) + [DrawnLink(l)];
        sceneLinks := sceneLinks + [SceneLink(l.source, l.target, l.value, l.spos, l.tpos, l.spos, l.tpos,
                                              Basic, Curve(l.spos, l.tpos))];
        i := i + 1;
      }
      assert links[..i] == links;
    }

    /** The `nodes.forEach` of `drawNetwork`: one group per node, holding a sphere and a text label. */
    method AddNodeGroups()
      modifies this`sceneNodes
      ensures sceneNodes == old(sceneNodes) + DrawNodes(nodes)
    {
      var i := 0;
      while i < |nodes|
        invariant 0 <= i <= |nodes|
        invariant sceneNodes == old(sceneNodes) + DrawNodes(nodes[..i])
      {
        var d := nodes[i];
        assert DrawNodes(nodes[..i + 1]) == DrawNodes(nodes[..i]) + [DrawnNode(d)];
        var sphere := NodePart(Sphere, SphereBasic, SphereBasic);
        var text := NodePart(Text, Label, Label);
        sceneNodes := sceneNodes + [SceneNode(d.id, d.name, d.pos, d.pos, 1.0, [sphere, text])];
        i := i + 1;
      }
      assert nodes[..i] == nodes;
    }

    /** The `globalData.links.map` of a layout: each link's endpoints take its nodes' positions. */
    method PlaceLinks()
      requires EndpointsPresent(nodes, links)
      modifies this`links
      ensures links == AttachLinks(old(links), nodes)
    {
      var i := 0;
      while i < |links|
        invariant 0 <= i <= |links| == |old(links)|
        invariant forall j :: 0 <= j < i ==> links[j] == Attached(old(links)[j], nodes)
        invariant forall j :: i <= j < |links| ==> links[j] == old(links)[j]
      {
        assert links[i] in old(links);
        links := links[i := links[i].(spos := PosOf(nodes, links[i].sourceId), tpos := PosOf(nodes, links[i].targetId))];
        i := i + 1;
      }
    }

    /** `updateNetwork`: every scene node and link heads for the current positions of its data nodes. */
    method UpdateNetwork()
      requires Valid()
      requires SceneResolvable(nodes, sceneNodes, sceneLinks)
      modifies this`sceneNodes, this`sceneLinks
      ensures Valid()
      ensures sceneNodes == AimNodes(old(sceneNodes), nodes)
      ensures sceneLinks == AimLinks(old(sceneLinks), nodes)
    {
      AimSceneNodes();
      AimSceneLinks();
    }

    /** The `sceneObjects.nodes.children.forEach` of `updateNetwork`. */
    method AimSceneNodes()
      requires forall n :: n in sceneNodes ==> HasId(nodes, n.id)
      modifies this`sceneNodes
      ensures sceneNodes == AimNodes(old(sceneNodes), nodes)
    {
      var i := 0;
      while i < |sceneNodes|
        invariant 0 <= i <= |sceneNodes| == |old(sceneNodes)|
        invariant forall j :: 0 <= j < i ==> old(sceneNodes)[j] in old(sceneNodes) &&
                                             sceneNodes[j] == AimNode(old(sceneNodes)[j], nodes)
        invariant forall j :: i <= j < |sceneNodes| ==> sceneNodes[j] == old(sceneNodes)[j]
      {
        assert sceneNodes[i] in old(sceneNodes);
        sceneNodes := sceneNodes[i := sceneNodes[i].(nextPos := PosOf(nodes, sceneNodes[i].id))];
        i := i + 1;
      }
    }

    /** The `sceneObjects.links.children.forEach` of `updateNetwork`. */
    method AimSceneLinks()
      requires forall l :: l in sceneLinks ==> HasId(nodes, l.source) && HasId(nodes, l.target)
      modifies this`sceneLinks
      ensures sceneLinks == AimLinks(old(sceneLinks), nodes)
    {
      var i := 0;
      while i < |sceneLinks|
        invariant 0 <= i <= |sceneLinks| == |old(sceneLinks)|
        invariant forall j :: 0 <= j < i ==> old(sceneLinks)[j] in old(sceneLinks) &&
                                             sceneLinks[j] == AimLink(old(sceneLinks)[j], nodes)
        invariant forall j :: i <= j < |sceneLinks| ==> sceneLinks[j] == old(sceneLinks)[j]
      {
        assert sceneLinks[i] in old(sceneLinks);
        var l := sceneLinks[i];
        sceneLinks := sceneLinks[i := l.(nextSPos := PosOf(nodes, l.source), nextTPos := PosOf(nodes, l.target))];
        i := i + 1;
      }
    }

    /**
     * The `end` callback of `layoutByForce`, given the solver's final coordinates of
     * each node: nodes are placed on the stage, links attached, and `updateNetwork` follows.
     */
    method ForceEnd(coords: seq<Vec3>)
      requires Valid()
      requires |coords| == |nodes|
      requires |coords| > 0 ==> Scalable(AxisBounds(coords))
      requires EndpointsPresent(nodes, links)
      requires SceneResolvable(nodes, sceneNodes, sceneLinks)
      modifies this`nodes, this`links, this`sceneNodes, this`sceneLinks
      ensures Valid()
      ensures |coords| > 0 ==> nodes == ForcePlaced(old(nodes), coords, userHeight)
      ensures |coords| == 0 ==> nodes == old(nodes)
      ensures EndpointsPresent(nodes, old(links)) && SceneResolvable(nodes, old(sceneNodes), old(sceneLinks))
      ensures links == AttachLinks(old(links), nodes)
      ensures sceneNodes == AimNodes(old(sceneNodes), nodes)
      ensures sceneLinks == AimLinks(old(sceneLinks), nodes)
    {
      if |coords| > 0 {
        PlaceByForce(coords);
      }
      PlaceLinks();
      UpdateNetwork();
    }

    /** The `simulation.nodes().map` of the end callback: each node's `pos` from its solver coordinates. */
    method PlaceByForce(coords: seq<Vec3>)
      requires |coords| == |nodes| > 0 && Scalable(AxisBounds(coords))
      modifies this`nodes
      ensures nodes == ForcePlaced(old(nodes), coords, userHeight)
    {
      var b := AxisBounds(coords);
      var i := 0;
      while i < |nodes|
        invariant 0 <= i <= |nodes| == |old(nodes)|
        invariant forall j :: 0 <= j < i ==> nodes[j] == old(nodes)[j].(pos := ForcePos(coords[j], b, userHeight))
        invariant forall j :: i <= j < |nodes| ==> nodes[j] == old(nodes)[j]
      {
        nodes := nodes[i := nodes[i].(pos := ForcePos(coords[i], b, userHeight))];
        i := i + 1;
      }
      assert nodes == ForcePlaced(old(nodes), coords, userHeight);
    }

    // ----- one frame -----

    /**
     * `transitionElements`: nodes step toward their targets; while any moved the
     * links' materials are hidden, otherwise they are shown and settled links are
     * rebuilt on their new endpoints.
     */
    method TransitionElements()
      requires Valid()
      modifies this`sceneNodes, this`sceneLinks, this`lineVisible, this`isTransitioning
      ensures Valid()
      ensures sceneNodes == StepNodes(old(sceneNodes))
      ensures isTransitioning <==> AnyMoving(old(sceneNodes))
      ensures isTransitioning ==>
        sceneLinks == old(sceneLinks) && lineVisible == SetUsed(old(lineVisible), old(sceneLinks), false)
      ensures !isTransitioning ==>
        sceneLinks == CommitLinks(old(sceneLinks)) && lineVisible == SetUsed(old(lineVisible), old(sceneLinks), true)
    {
      var countTransitioning := StepAllNodes();
      isTransitioning := countTransitioning > 0;
      if isTransitioning {
        HideLinks();
      } else {
        ShowAndCommitLinks();
      }
      SetUsedSpec(old(lineVisible), old(sceneLinks), !isTransitioning);
    }

    /** The node loop of `transitionElements`; the count is of the nodes that moved. */
    method StepAllNodes() returns (countTransitioning: nat)
      modifies this`sceneNodes
      ensures sceneNodes == StepNodes(old(sceneNodes))
      ensures countTransitioning > 0 <==> AnyMoving(old(sceneNodes))
    {
      countTransitioning := 0;
      var i := 0;
      while i < |sceneNodes|
        invariant 0 <= i <= |sceneNodes| == |old(sceneNodes)|
        invariant forall j :: 0 <= j < i ==> sceneNodes[j] == StepNode(old(sceneNodes)[j])
        invariant forall j :: i <= j < |sceneNodes| ==> sceneNodes[j] == old(sceneNodes)[j]
        invariant countTransitioning > 0 <==> exists j :: 0 <= j < i && Moving(old(sceneNodes)[j])
      {
        var n := sceneNodes[i];
        if Apart(n.position, n.nextPos) {
          sceneNodes := sceneNodes[i := n.(position := Lerp(n.position, n.nextPos, Blend))];
          countTransitioning := countTransitioning + 1;
        }
        i := i + 1;
      }
    }

    /** The link loop of `transitionElements` while nodes move: every link's material is hidden. */
    method HideLinks()
      requires Complete(lineVisible)
      modifies this`lineVisible
      ensures lineVisible == SetUsed(old(lineVisible), sceneLinks, false)
    {
      var i := 0;
      while i < |sceneLinks|
        invariant 0 <= i <= |sceneLinks|
        invariant lineVisible == SetUsed(old(lineVisible), sceneLinks[..i], false)
      {
        SetUsedStep(old(lineVisible), sceneLinks[..i], sceneLinks[i], false);
        assert sceneLinks[..i + 1] == sceneLinks[..i] + [sceneLinks[i]];
        lineVisible := lineVisible[sceneLinks[i].material := false];
        i := i + 1;
      }
      assert sceneLinks[..i] == sceneLinks;
    }

    /**
     * The link loop of `transitionElements` once nothing moves: every link's
     * material is shown, and a link off its next endpoints is rebuilt on them.
     */
    method ShowAndCommitLinks()
      requires Complete(lineVisible)
      modifies this`lineVisible, this`sceneLinks
      ensures sceneLinks == CommitLinks(old(sceneLinks))
      ensures lineVisible == SetUsed(old(lineVisible), old(sceneLinks), true)
    {
      var i := 0;
      while i < |sceneLinks|
        invariant 0 <= i <= |sceneLinks| == |old(sceneLinks)|
        invariant forall j :: 0 <= j < i ==> sceneLinks[j] == CommitLink(old(sceneLinks)[j])
        invariant forall j :: i <= j < |sceneLinks| ==> sceneLinks[j] == old(sceneLinks)[j]
        invariant lineVisible == SetUsed(old(lineVisible), old(sceneLinks)[..i], true)
      {
        var l := sceneLinks[i];
        SetUsedStep(old(lineVisible), old(sceneLinks)[..i], l, true);
        assert old(sceneLinks)[..i + 1] == old(sceneLinks)[..i] + [l];
        lineVisible := lineVisible[l.material := true];
        if Apart(l.spos, l.nextSPos) || Apart(l.tpos, l.nextTPos) {
          sceneLinks := sceneLinks[i := l.(spos := l.nextSPos, tpos := l.nextTPos, curve := Curve(l.nextSPos, l.nextTPos))];
        }
        i := i + 1;
      }
      assert old(sceneLinks)[..i] == old(sceneLinks);
    }

    /** main.js `resetIntersected`: the target back to scale 1, its non-text children in their saved material. */
    method ResetIntersected()
      requires Valid() && intersected.Some?
      modifies this`sceneNodes
      ensures Valid()
      ensures sceneNodes == old(sceneNodes)[intersected.value := Restored(old(sceneNodes)[intersected.value])]
    {
      var k := intersected.value;
      var n := sceneNodes[k];
      var parts := n.parts;
      var i := 0;
      while i < |parts|
        invariant 0 <= i <= |parts| == |n.parts|
        invariant forall j :: 0 <= j < i ==> parts[j] == RestorePart(n.parts[j])
        invariant forall j :: i <= j < |parts| ==> parts[j] == n.parts[j]
      {
        if parts[i].kind != Text {
          parts := parts[i := parts[i].(material := parts[i].currentMaterial)];
        }
        i := i + 1;
      }
      assert parts == Restored(n).parts;
      sceneNodes := sceneNodes[k := n.(scale := 1.0, parts := parts)];
    }

    /** The link loop of `highlightIntersected`: materials by direction relative to node `id`. */
    method RelabelLinks(id: NodeId)
      modifies this`sceneLinks
      ensures sceneLinks == Relabel(old(sceneLinks), id)
    {
      var i := 0;
      while i < |sceneLinks|
        modifies this`sceneLinks
        invariant 0 <= i <= |sceneLinks| == |old(sceneLinks)|
        invariant forall j :: 0 <= j < i ==>
          sceneLinks[j] == old(sceneLinks)[j].(material := LinkMaterialFor(old(sceneLinks)[j], id))
        invariant forall j :: i <= j < |sceneLinks| ==> sceneLinks[j] == old(sceneLinks)[j]
      {
        var l := sceneLinks[i];
        if l.source == id {
          sceneLinks := sceneLinks[i := l.(material := HighlightOut)];
        } else if l.target == id {
          sceneLinks := sceneLinks[i := l.(material := HighlightIn)];
        } else {
          sceneLinks := sceneLinks[i := l.(material := Basic)];
        }
        i := i + 1;
      }
    }

    /** The end of `highlightIntersected`'s change of target: scale the target, save and swap its materials. */
    method HighlightTarget(scaleBy: real)
      requires Valid() && intersected.Some?
      modifies this`sceneNodes
      ensures Valid()
      ensures sceneNodes == old(sceneNodes)[intersected.value := Highlighted(old(sceneNodes)[intersected.value], scaleBy)]
    {
      var k := intersected.value;
      var n := sceneNodes[k];
      var parts := n.parts;
      var i := 0;
      while i < |parts|
        invariant 0 <= i <= |parts| == |n.parts|
        invariant forall j :: 0 <= j < i ==> parts[j] == HighlightPart(n.parts[j])
        invariant forall j :: i <= j < |parts| ==> parts[j] == n.parts[j]
      {
        if parts[i].kind != Text {
          parts := parts[i := parts[i].(currentMaterial := parts[i].material, material := SphereHighlight)];
        }
        i := i + 1;
      }
      assert parts == Highlighted(n, scaleBy).parts;
      sceneNodes := sceneNodes[k := n.(scale := scaleBy, parts := parts)];
    }

    /**
     * `highlightIntersected`, given the ray's hits in order of distance and the
     * `scaleBy` computed from the camera: the nearest candidate becomes the target,
     * and the timer and ring follow whether the current target is still held.
     */
    method HighlightIntersected(hits: seq<Hit>, scaleBy: real)
      requires Valid()
      requires forall i :: 0 <= i < |hits| ==> hits[i].owner < |sceneNodes|
      modifies this`sceneNodes, this`sceneLinks, this`intersected, this`timer, this`ringArc, this`ticks
      ensures Valid()
      ensures timer == GazeTimer(hits, old(intersected), old(timer))
      ensures ringArc == if GazeClearsRing(hits, old(intersected), old(timer)) then 0.0 else old(ringArc)
      ensures FirstCandidate(hits, old(intersected)).Some? ==>
        var k := hits[FirstCandidate(hits, old(intersected)).value].owner;
        intersected == Some(k) &&
        sceneNodes == Retarget(old(sceneNodes), old(intersected), k, scaleBy) &&
        sceneLinks == Relabel(old(sceneLinks), old(sceneNodes)[k].id)
      ensures FirstCandidate(hits, old(intersected)).None? ==>
        intersected == old(intersected) && sceneNodes == old(sceneNodes) && sceneLinks == old(sceneLinks)
    {
      if |hits| > 0 {
        var foundCurrent := ScanForCurrent(hits, intersected);
        var next := SearchCandidate(hits, intersected);
        if next.Some? {
          var k := hits[next.value].owner;
          if intersected.Some? {
            ResetIntersected();
          }
          timer := Some(0.0);
          ticks := 0;
          intersected := Some(k);
          RelabelLinks(sceneNodes[k].id);
          HighlightTarget(scaleBy);
        }
        if foundCurrent && timer.None? {
          timer := Some(0.0);
          ticks := 0;
        } else if !foundCurrent && timer.Some? {
          timer := None;
          ringArc := 0.0;
        }
      } else {
        timer := None;
        ringArc := 0.0;
      }
    }

    /**
     * One call of `animate` without rendering: `transitionElements`, then either the
     * gaze step and one advance of the timer, or, while nodes move, no timer.
     */
    method Animate(hits: seq<Hit>, scaleBy: real)
      requires Valid()
      requires forall i :: 0 <= i < |hits| ==> hits[i].owner < |sceneNodes|
      modifies this`sceneNodes, this`sceneLinks, this`lineVisible, this`isTransitioning
      modifies this`intersected, this`timer, this`ringArc, this`ticks
      ensures Valid()
      ensures isTransitioning <==> AnyMoving(old(sceneNodes))
      ensures timer == FrameTimer(isTransitioning, hits, old(intersected), old(timer))
      ensures isTransitioning ==>
        sceneNodes == StepNodes(old(sceneNodes)) && sceneLinks == old(sceneLinks) &&
        lineVisible == SetUsed(old(lineVisible), old(sceneLinks), false) &&
        intersected == old(intersected) && ringArc == 0.0
      ensures !isTransitioning ==> lineVisible == SetUsed(old(lineVisible), old(sceneLinks), true)
      ensures !isTransitioning && FirstCandidate(hits, old(intersected)).None? ==>
        intersected == old(intersected) && sceneNodes == old(sceneNodes) &&
        sceneLinks == CommitLinks(old(sceneLinks))
      ensures !isTransitioning && FirstCandidate(hits, old(intersected)).Some? ==>
        var k := hits[FirstCandidate(hits, old(intersected)).value].owner;
        intersected == Some(k) &&
        sceneNodes == Retarget(old(sceneNodes), old(intersected), k, scaleBy) &&
        sceneLinks == Relabel(CommitLinks(old(sceneLinks)), old(sceneNodes)[k].id)
      ensures !isTransitioning ==>
        ringArc == if timer.Some? && timer != GazeTimer(hits, old(intersected), old(timer)) then timer.value
                   else if GazeClearsRing(hits, old(intersected), old(timer)) then 0.0
                   else old(ringArc)
    {
      TransitionElements();
      if !isTransitioning {
        StepNodesFixpoint(old(sceneNodes));
        HighlightIntersected(hits, scaleBy);
        AdvanceGazeTimer();
      } else {
        timer := None;
        ringArc := 0.0;
      }
    }

    /** The timer step at the end of `animate`: below the fuse angle the timer and the ring advance. */
    method AdvanceGazeTimer()
      requires Valid()
      modifies this`timer, this`ticks, this`ringArc
      ensures Valid()
      ensures timer == AdvanceTimer(old(timer))
      ensures timer.Some? && timer != old(timer) ==> ringArc == timer.value
      ensures timer == old(timer) ==> ringArc == old(ringArc)
    {
      if timer.Some? && timer.value < FuseAngle {
        timer := Some(timer.value + TimerStep);
        ticks := ticks + 1;
        ringArc := timer.value;
      }
    }
  }
}
