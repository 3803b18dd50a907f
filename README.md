# vr-network in Dafny

vr-network shows a network as a WebVR scene. Its nodes are spheres with text labels, and its links are curved lines. The user picks a node by looking at it. This project models the bookkeeping behind that scene:

- **Data preparation.** `formatData` gives every link its `sourceId` and `targetId`. It counts each node's links and drops the nodes that have none.
- **Placement.** `layoutByRandom` and the end callback of `layoutByForce` give nodes their positions. `updateNetwork` points every scene node and link at the positions of its data nodes.
- **The per-frame transition** (`transitionElements`). Nodes glide toward their targets. Links are hidden while anything moves, and settled links are rebuilt on their new endpoints.
- **Gaze targeting** (`highlightIntersected` and the timer block of `animate`). From the ordered ray hits, the code works out:
  - whether the current target is still held;
  - which node becomes the next target;
  - how links are relabelled;
  - how the dwell timer runs, from 0 up to 2π in steps of π/60.
- **The helpers in `src/actions/`:**
  - `toRange` and `toRangeWithGap`;
  - category normalisation (`updateCategories`, `updateColorMap`);
  - the in-place resets `resetLinks`, `resetIntersected` and `setActiveButton`.

The module-level state of main.js is the class `Main.World`. Each of its methods is proved against a specification function of a value-level module. Those modules are:

| module | what it covers |
|---|---|
| `Graph` | data nodes and links |
| `Scene` | scene groups and lines |
| `ForceLayout` | layout normalisation |
| `Transition` | the per-frame step |
| `Gaze` | targeting and the timer |
| `Scaling` | `toRange`, `toRangeWithGap` |

The properties of those functions are proved as lemmas beside them. The actions in `src/actions/` work in place on three.js objects. They are modelled as methods over the classes `Three.Object3D` and `Three.Material`, and over the classes of `Categories` and `ColorMap`.

How values are represented:

- Positions are triples of exact reals.
- `a.distanceTo(b) > 0.01` is stated without a square root, as the squared distance exceeding `0.01 * 0.01`.
- Materials and curve geometries are tags.
- A division that JavaScript would turn into NaN or an infinity gives `None`.

main.js's own `scaleValue` (src/main.js:101-103) divides by `domain.max` and not by the width of the domain. It is modelled as written:

- `ForceLayout.ScaleValueIsToRangeFromZero` shows it agrees with `toRange` when both intervals start at 0.
- `ForceLayout.ScaleValueOvershoots` shows an input where it leaves the range.

## Model

| member | source | states |
|---|---|---|
| Geometry.DistSq | src/main.js:225 | the squared distance that replaces `distanceTo` is never negative |
| Geometry.Lerp | src/main.js:226-230 | `lerp` with factor 0 stays at the start and with factor 1 reaches the end |
| Geometry.LerpShrinks | src/main.js:226-231 | one lerp step of factor t multiplies the squared distance to the target by (1 − t)² |
| Scaling.ToRange | src/actions/scaleValue.js:9-11 | the result is non-finite exactly when the domain is degenerate (`max == min`) |
| Scaling.ToRangeAtMin | src/actions/scaleValue.js:10 | `domain.min` maps to `range.min` |
| Scaling.ToRangeAtMax | src/actions/scaleValue.js:10 | `domain.max` maps to `range.max` whenever `domain.max ≠ domain.min` |
| Scaling.ToRangeMonotone | src/actions/scaleValue.js:10 | over an increasing domain and a non-decreasing range the map is monotone non-decreasing |
| Scaling.ToRangeInRange | src/actions/scaleValue.js:10 | a value inside the domain lands inside the range |
| Scaling.ToRangeWithGap | src/actions/scaleValue.js:13-43 | no contract of its own: its properties are the `Scaling.ToRangeWithGap…` lemmas below |
| Scaling.ToRangeWithGapFinite | src/actions/scaleValue.js:13-43 | the split map is non-finite exactly when the domain is degenerate |
| Scaling.ToRangeWithGapLower | src/actions/scaleValue.js:15-28 | below `halfDomain` the result is `toRange` onto `[range.min, halfRange − gap/2]` and lies in that interval |
| Scaling.ToRangeWithGapUpper | src/actions/scaleValue.js:29-40 | from `halfDomain` on the result is `toRange` onto `[halfRange + gap/2, range.max]` and lies in that interval |
| Scaling.ToRangeWithGapEnds | src/actions/scaleValue.js:17-40 | `domain.min` maps to `range.min` and `domain.max` to `range.max` |
| Scaling.ToRangeWithGapAvoidsGap | src/actions/scaleValue.js:15-42 | with a positive gap no in-domain value lands strictly inside the gap around `halfRange` |
| Scaling.ToRangeWithGapMonotone | src/actions/scaleValue.js:13-43 | the split map keeps the order of in-domain inputs across both halves |
| ForceLayout.ScaleValue | src/main.js:101-103 | `scaleValue` is non-finite exactly when `domain.max` is 0 |
| ForceLayout.ScaleValueAtMin | src/main.js:101-103 | `scaleValue(domain.min, …)` is `range.min` for every non-zero `domain.max` |
| ForceLayout.ScaleValueIsToRangeFromZero | src/main.js:101-103 | with both intervals starting at 0, `scaleValue` equals `toRange` |
| ForceLayout.ScaleValueOvershoots | src/main.js:101-103 | over [−5, 5] onto [0, 10] `scaleValue` gives 20 where `toRange` gives 10 |
| ForceLayout.MinOf | src/main.js:117-123 | `Math.min.apply` of a non-empty list is one of its elements and below all of them |
| ForceLayout.MaxOf | src/main.js:117-123 | `Math.max.apply` of a non-empty list is one of its elements and above all of them |
| ForceLayout.BoundsAreExtremes | src/main.js:116-123 | each axis's min and max bound every node's coordinate, and the x-minimum is held by some node |
| ForceLayout.ForcePlaced | src/main.js:125-134 | the mapped node list has the same length, only `pos` changes, and the same ids are present |
| ForceLayout.ForcePos | src/main.js:125-134 | no contract of its own: one node's solver coordinates, scaled per axis with `scaleValue` and offset; stated by `ForceLayout.MinimumLandsOnLowFace` and `ForceLayout.PlacedRightOfLowFace` |
| ForceLayout.MinimumLandsOnLowFace | src/main.js:117-134 | a node holding an axis minimum gets `-stageSize` on x or z, or `-userHeight` on y |
| ForceLayout.PlacedRightOfLowFace | src/main.js:125-134 | with a positive x-maximum no node lands left of `-stageSize` |
| ForceLayout.AttachLinks | src/main.js:136-140 | no contract of its own: stated by `ForceLayout.AttachLinksSpec` |
| ForceLayout.AttachLinksSpec | src/main.js:136-140 | after the link map each link's `spos`/`tpos` is the `pos` of its source/target node |
| ForceLayout.Scattered | src/main.js:147-154 | random placement keeps length and ids and changes only `pos` |
| ForceLayout.RandomPos | src/main.js:147-154 | no contract of its own: the position made from three draws; stated by `ForceLayout.RandomPosInBox` |
| ForceLayout.RandomPosInBox | src/main.js:147-154 | for draws in [0, 1), x and z lie within half the stage of the centre and y between 0.5 and 1.5 user heights |
| Graph.NormalizeLinks | src/main.js:482-486 | no contract of its own: stated by `Graph.NormalizeLinksIds` |
| Graph.NormalizeLinksIds | src/main.js:482-486 | every link keeps its fields and gets `sourceId = source`, `targetId = target`; no link is dropped |
| Graph.LinkCount | src/main.js:488 | the count is at most the number of links, and positive exactly when some link touches the id |
| Graph.KeepLinked | src/main.js:491 | no contract of its own: stated by `Graph.KeepLinkedMembers` and `Graph.KeepLinkedAppend` |
| Graph.KeepLinkedMembers | src/main.js:491 | the filter keeps exactly the nodes with a positive `linkCount` |
| Graph.KeepLinkedAppend | src/main.js:491 | the filter works element by element and keeps the original order |
| Graph.CountLinks | src/main.js:487-490 | no contract of its own: each node with `linkCount` set to `Graph.LinkCount`; stated through `Graph.FormatNodesSpec` |
| Graph.FormatNodes | src/main.js:487-491 | no contract of its own: count then filter; stated by `Graph.FormatNodesSpec`, `Graph.FormatNodesOrder` and `Graph.FormatKeepsEndpoints` |
| Graph.FormatNodesSpec | src/main.js:487-491 | the surviving nodes are exactly the counted nodes with a link, each carrying its link count |
| Graph.FormatNodesOrder | src/main.js:487-491 | counting and filtering split over any cut of the list, so survivors stay in input order |
| Graph.Find | src/main.js:91-97 | `filter(d => d.id === id)[0]` finds the first node with that id, and misses exactly when there is none |
| Graph.PosOf | src/main.js:96-97 | no contract of its own: the `pos` of the node `Graph.Find` returns, defined only when the id is present |
| Graph.NormalizedEndpoints | src/main.js:482-486 | after the id copy, endpoints present by `sourceId`/`targetId` are present by `source`/`target` |
| Graph.FormatKeepsEndpoints | src/main.js:481-491 | a node that is a link's endpoint has a link, so it survives `formatData` |
| Graph.FormatExample | src/main.js:481-491 | nodes 1, 2, 3 with the one link 1→2 leave nodes 1 and 2, each with `linkCount` 1 |
| Scene.DrawnNode | src/main.js:453-470 | no contract of its own: a group with the node's id and name at its `pos`, holding a sphere and a label; stated through `Main.World.AddNodeGroups` |
| Scene.DrawnLink | src/main.js:436-448 | no contract of its own: a line in the basic material with the link's endpoints and value; stated through `Main.World.AddLineMeshes` |
| Scene.DrawnSceneResolvable | src/main.js:435-471 | the groups and lines `drawNetwork` adds name only ids present in the data |
| Scene.AimNodes | src/main.js:91-94 | no contract of its own: stated by `Scene.AimNodesSpec` |
| Scene.AimLinks | src/main.js:95-98 | no contract of its own: stated by `Scene.AimLinksSpec` |
| Scene.AimNodesSpec | src/main.js:91-94 | each scene node's `nextPos` becomes the `pos` of the first data node with its id; nothing else changes |
| Scene.AimLinksSpec | src/main.js:95-98 | each link's `nextSPos`/`nextTPos` become the `pos` of its source/target node; nothing else changes |
| Transition.StepNode | src/main.js:225-233 | no contract of its own: stated by `Transition.StepNodeSpec` |
| Transition.StepNodes | src/main.js:224-235 | no contract of its own: stated by `Transition.StepNodesFixpoint` and through `Main.World.StepAllNodes` |
| Transition.StepNodeSpec | src/main.js:224-233 | a node farther than 0.01 from its target moves by a 0.1 lerp (squared distance × 0.81); a nearer node is unchanged; only the position changes |
| Transition.StepNodesFixpoint | src/main.js:224-241 | the node step changes nothing exactly when no node is transitioning |
| Transition.StepNodeTimesDistance | src/main.js:224-233 | after k frames toward a fixed target the squared distance is 0.81^k of the start while the node still moves |
| Transition.PowerDecay | src/main.js:230 | 0.81^k is at most 1 / (1 + 0.19 k) |
| Transition.NodeSettles | src/main.js:224-241 | a node with a fixed target stops transitioning after finitely many frames |
| Transition.SetUsed | src/main.js:244-249 | no contract of its own: stated by `Transition.SetUsedSpec` |
| Transition.SetUsedSpec | src/main.js:243-249 | setting `visible` through every link reaches each material a link uses and no other |
| Transition.CommitLink | src/main.js:250-279 | no contract of its own: stated by `Transition.CommitLinkSpec` |
| Transition.CommitLinks | src/main.js:248-280 | no contract of its own: stated by `Transition.CommitLinksIdempotent` and through `Main.World.ShowAndCommitLinks` |
| Transition.CommitLinkSpec | src/main.js:250-265 | a link off its next endpoints takes them (and a curve on them); a link on them is unchanged; material and targets stay |
| Transition.CommitLinksIdempotent | src/main.js:247-281 | committing settled links a second time changes nothing |
| Gaze.FirstCandidate | src/main.js:312-329 | no contract of its own: `Gaze.FirstCandidateFrom` from index 0, whose contract gives the first candidate |
| Gaze.FirstCandidateFrom | src/main.js:312-329 | the result is the first hit from the start index that is off the target and is non-text or beyond half the stage |
| Gaze.ScanForCurrent | src/main.js:301-310 | `foundCurrent` holds exactly when some non-text hit belongs to the current target |
| Gaze.SearchCandidate | src/main.js:312-329 | the `while (searching)` loop stops at the first candidate hit, or finds none |
| Gaze.NearTextNeverSelected | src/main.js:313-320 | a text hit within half the stage is never selected |
| Gaze.NearerNodeTakesOver | src/main.js:301-336 | a node in front of the held target replaces it, although the target is still hit |
| Gaze.OnlyTargetHitKeepsTarget | src/main.js:312-331 | when every hit is on the current target no new target is chosen |
| Gaze.Relabel | src/main.js:337-345 | no contract of its own: stated by `Gaze.RelabelSpec` |
| Gaze.RelabelSpec | src/main.js:337-345 | links leaving the target get `highlightOut`, links entering it `highlightIn`, all others `basic`; nothing else changes |
| Gaze.Highlighted | src/main.js:346-353 | no contract of its own: stated by `Gaze.RestoreUndoesHighlight` and through `Main.World.HighlightTarget` |
| Gaze.Restored | src/main.js:284-291 | no contract of its own: stated by `Gaze.RestoreUndoesHighlight` and through `Main.World.ResetIntersected` |
| Gaze.Retarget | src/main.js:331-353 | no contract of its own: the old target restored, then the new one highlighted; stated through `Main.World.HighlightIntersected` |
| Gaze.RestoreUndoesHighlight | src/main.js:284-291 | resetting a highlighted node gives back scale 1 and every child's former material |
| Gaze.GazeTimer | src/main.js:331-365 | no contract of its own: stated by `Gaze.FrameTimerSpec` |
| Gaze.GazeClearsRing | src/main.js:356-365 | no contract of its own: when `highlightIntersected` empties the ring; stated through `Main.World.HighlightIntersected` |
| Gaze.AdvanceTimer | src/main.js:380-387 | no contract of its own: stated by `Gaze.DwellProgress` and `Gaze.FrameTimerSpec` |
| Gaze.FrameTimer | src/main.js:375-391 | no contract of its own: stated by `Gaze.FrameTimerSpec` and `Gaze.SteadyGazeAdvances` |
| Gaze.FrameTimerSpec | src/main.js:331-391 | the timer is null while transitioning or with no hits; at a change of target it restarts, or is cleared when the old target is lost; otherwise it starts or clears with `foundCurrent`; then it advances once below 2π |
| Gaze.SteadyGazeAdvances | src/main.js:356-384 | while only the target is hit, each frame advances a running timer by one step |
| Gaze.DwellProgress | src/main.js:380-384 | from 0 the timer is k·π/60 after k frames, below 2π before frame 120, and 2π from then on |
| Gaze.DwellRises | src/main.js:380-384 | up to 120 frames the timer is k·π/60 |
| Gaze.DwellHolds | src/main.js:380-387 | from 120 frames on the timer stays at 2π |
| Strings.TrimStartSpec | src/actions/updateCategories.js:13 | leading-trim drops exactly the white space before the first other character |
| Strings.TrimEndSpec | src/actions/updateCategories.js:13 | trailing-trim drops exactly the white space after the last other character |
| Strings.Lower | src/actions/updateCategories.js:13 | `toLowerCase` keeps the length and lowercases each character |
| Strings.Trim | src/actions/updateCategories.js:13 | no contract of its own: stated by `Strings.TrimSpec` and `Strings.TrimOfTrimmed` |
| Strings.TrimSpec | src/actions/updateCategories.js:13 | `trim` leaves a string with no white space at its ends and removes only white space |
| Strings.TrimOfTrimmed | src/actions/updateCategories.js:13 | `trim` leaves a string without end white space unchanged |
| Strings.LowerKeepsSpace | src/actions/updateCategories.js:13 | lowercasing neither creates nor removes white space |
| Strings.Normal | src/actions/updateColorMap.js:19 | no contract of its own: stated by `Strings.NormalIdempotent` and `Strings.NormalForm` |
| Strings.NormalIdempotent | src/actions/updateColorMap.js:19 | `trim().toLowerCase()` applied twice gives what it gives once |
| Strings.NormalForm | src/actions/updateColorMap.js:19 | a normalised name has no end white space and no capital letter |
| Categories.Categorised | src/actions/updateCategories.js:12-19 | no contract of its own: stated by `Categories.CategorisedCases` and `Categories.CategorisedIdempotent` |
| Categories.CategorisedCases | src/actions/updateCategories.js:12-19 | a falsy category gets the fallback; a known normal form is kept; an unknown one gets the fallback; the result is a map name or the fallback |
| Categories.NormalDefault | src/actions/updateCategories.js:15 | the fallback `'default_no_category'` is its own normal form |
| Categories.CategorisedIdempotent | src/actions/updateCategories.js:12-19 | categorising twice equals categorising once, when no colour-map name is empty |
| Categories.EmptyNameBreaksIdempotence | src/actions/updateCategories.js:12-19 | with an empty map name, `" "` becomes `""` and then the fallback |
| Categories.UpdateCategories | src/actions/updateCategories.js:9-22 | the same nodes are returned in order, each with its categorised category |
| ColorMap.UpdateColorMap | src/actions/updateColorMap.js:9-24 | the map is rebuilt as a fresh fallback entry in the state's colours followed by the data categories in order, each renamed to its normal form; the same state is returned |
| ColorMap.ColorMapNamesNormal | src/actions/updateColorMap.js:11-22 | every name of a rebuilt map is its own normal form |
| LinkReset.ResetLinks | src/actions/resetLinks.js:9-18 | every link gets the shared basic material and empty status, the material is hidden, the same container is returned, and a second call changes nothing |
| NodeReset.ResetIntersected | src/actions/resetIntersected.js:9-21 | a node gets `nextScale` 1 and its spheres their `currentMaterial`; other children and non-nodes are untouched; the same object is returned |
| ButtonState.SetActiveButton | src/actions/setActiveButton.js:9-22 | rectangles of the named button get opacity 0.2 and all others 0.1; visibility is kept; a second call changes no opacity; the same container is returned |
| ButtonState.ActivateOne | src/actions/setActiveButton.js:10-20 | one pass of the outer loop gives one more button its final opacity |
| ButtonState.SetRectOpacity | src/actions/setActiveButton.js:12-18 | every `'button'` child of a button gets the given opacity |
| Main.World.constructor | src/main.js:495-496 | the data is stored, the scene is empty, there is no target and no timer |
| Main.World.FormatData | src/main.js:481-493 | links normalised, nodes counted and filtered, then laid out, drawn and aimed at their data |
| Main.World.NormalizeLinkIds | src/main.js:482-486 | the links become their normalised form |
| Main.World.CountNodeLinks | src/main.js:487-490 | every node's `linkCount` becomes its number of touching links |
| Main.World.DrawNetwork | src/main.js:432-479 | random layout, one line per link and one group per node appended, then every element aimed at its data |
| Main.World.LayoutByRandom | src/main.js:146-160 | nodes placed by their draws, links attached to their nodes' positions |
| Main.World.AddLineMeshes | src/main.js:435-449 | one line in the basic material per link, appended in order |
| Main.World.AddNodeGroups | src/main.js:452-471 | one group holding a sphere and a label per node, appended in order |
| Main.World.PlaceLinks | src/main.js:136-140 | every link's endpoints become its nodes' positions |
| Main.World.UpdateNetwork | src/main.js:90-99 | every scene node and link aims at its data nodes' positions |
| Main.World.AimSceneNodes | src/main.js:91-94 | every scene node's `nextPos` becomes the `pos` of its data node |
| Main.World.AimSceneLinks | src/main.js:95-98 | every line's `nextSPos`/`nextTPos` become the `pos` of its source/target node |
| Main.World.ForceEnd | src/main.js:115-143 | nodes placed from the solver's coordinates, links attached, elements aimed |
| Main.World.PlaceByForce | src/main.js:124-134 | every node's `pos` becomes its normalised, offset solver position |
| Main.World.TransitionElements | src/main.js:222-282 | nodes step; `isTransitioning` is true exactly when one moved; links hidden and kept while it is, shown and committed otherwise |
| Main.World.StepAllNodes | src/main.js:223-235 | every node steps and the count is positive exactly when some node moved |
| Main.World.HideLinks | src/main.js:243-246 | every material a link uses becomes invisible |
| Main.World.ShowAndCommitLinks | src/main.js:247-281 | every material a link uses becomes visible and links are committed |
| Main.World.ResetIntersected | src/main.js:284-291 | the target gets scale 1 and its non-text children their saved material |
| Main.World.RelabelLinks | src/main.js:337-345 | the links are relabelled by direction relative to the new target |
| Main.World.HighlightTarget | src/main.js:346-353 | the target is scaled and its non-text children save their material and take the highlight |
| Main.World.HighlightIntersected | src/main.js:293-366 | the first candidate becomes the target (old one reset, links relabelled, new one highlighted); timer and ring follow `foundCurrent` |
| Main.World.Animate | src/main.js:369-391 | a frame: transition, then either the gaze step and a timer advance, or no timer while transitioning; the ring follows an advancing timer, is emptied when the gaze step clears it, and is otherwise kept |
| Main.World.AdvanceGazeTimer | src/main.js:380-387 | a running timer below 2π advances by π/60 and the ring follows it |

## Left out

- Rendering, WebGL/WebVR setup, DOM, resizing, analytics and the build are I/O. This covers `setupScene` beyond storing the data, `setupStage`, the render calls, and `controls.update`.
- The d3-force solver is an external iterative solver. Its final coordinates are an input of `Main.World.ForceEnd`, and the call of `layoutByForce` at the end of `drawNetwork` is not modelled.
- `Math.random` becomes an input: `layoutByRandom` takes one draw per axis per node.
- Curve generation (generateCurveGeometry.js, MeshLine, link widths) is not modelled. A link's geometry is the tag `Curve(start, end)`.
- `material.dispose()` in resetLinks.js and resetIntersected.js frees GPU memory and is not modelled.
- LinkReset.ResetLinks: requires every link to have a material. `NodeReset.ResetIntersected` requires the same of every sphere, and `ButtonState.SetRectOpacity` of every `'button'` rectangle. In the source, a missing material makes `material.dispose()` or the opacity write throw a TypeError (resetLinks.js:11, resetIntersected.js:14, setActiveButton.js:13 and 17). The requirement stands for that exception, which is not modelled. A sphere whose `currentMaterial` was null ends with no material, so a second `resetIntersected` is outside the requirement, just as the source's second call throws.
- The quaternion copy (src/main.js:234) is not modelled. The shader `time` uniforms and the ring geometry are not modelled either; the ring is the single number `ringArc`.
- Camera and raycaster are replaced by their outputs: the ordered hits (owning node, child type, distance) and `scaleBy`.
- Positions are values. main.js shares Vector3 objects between a node's `pos` and its links' endpoints, and that aliasing is not modelled; no shared vector is mutated in main.js.
- Main.World.FormatData: requires every link endpoint id to name a node. The same requirement applies to `Main.World.DrawNetwork`, `Main.World.LayoutByRandom`, `Main.World.PlaceLinks`, `Main.World.UpdateNetwork` and `Main.World.ForceEnd`. With a dangling endpoint the source throws a TypeError, because `filter(...)[0]` is `undefined` and its `pos` is read. This happens at src/main.js:96-97, 137-138 and 156-157. The model states the requirement (`EndpointsPresent`, `SceneResolvable`) instead of modelling the exception.
- Scene.DrawnNode and Scene.DrawnLink: they give a fresh sphere `currentMaterial` = `SphereBasic`, and a fresh line `nextSPos`/`nextTPos` = its own endpoints. In the source these fields are `undefined` until `highlightIntersected` or `updateNetwork` sets them. `updateNetwork` runs before anything reads them, so no observable behaviour differs.
- Floating point is not modelled: arithmetic is exact, and π is its 16-digit decimal.
- Strings.Lower: lowercases only A to Z. JavaScript's `toLowerCase` covers all of Unicode, and category names are not expected to need more.
- Main.World.ForceEnd: requires every axis maximum to be non-zero. A zero maximum makes `scaleValue` produce NaN positions, which are not modelled.
- Categories.UpdateCategories: requires the nodes to be distinct objects. A node listed twice would be normalised twice.
- ButtonState.SetActiveButton: requires that a highlighted and a dimmed rectangle never share a material. buttons.js creates one material per button. A `button` argument that is undefined is not modelled; it matches no name.
- Categories.CategorisedIdempotent: holds only when no colour-map name is empty. `Categories.EmptyNameBreaksIdempotence` shows the exception.
- ButtonState.SetActiveButton: idempotence is stated as "no opacity changes", not as "no field of any object changes".
- A "sticky target" rule is not modelled because the code does not keep a held target. `Gaze.NearerNodeTakesOver` shows the code's behaviour.
- Stars, floor, legend, intro, buttons, cursor and the other scene elements are construction code and are not part of this model. So are materials, texture canvases and TWEEN animations.
