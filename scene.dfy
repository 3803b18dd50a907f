/**
 * The scene objects main.js reads and writes every frame, reduced to the
 * fields of their `userData`, their transform and their material. Materials
 * and geometries are opaque tags.
 */
module Scene {
  import opened Geometry
  import opened Graph

  /** `stageSize` of main.js: the half-width of the floor the layouts fill. */
  const StageSize: real := 10.0

  /** `userData.type` of a child of a node group. */
  datatype PartType = Sphere | Text

  /** The materials a node's children wear: the sphere's basic and highlight materials, the label's texture. */
  datatype NodeMaterial = SphereBasic | SphereHighlight | Label

  /** A child mesh of a node group, with the material it shows and the one saved while it is highlighted. */
  datatype NodePart = NodePart(kind: PartType, material: NodeMaterial, currentMaterial: NodeMaterial)

  /** A node group of `sceneObjects.nodes`: `userData.id`/`name`/`nextPos`, `position`, uniform `scale`, children. */
  datatype SceneNode = SceneNode(id: NodeId, name: string, position: Vec3, nextPos: Vec3, scale: real,
                                 parts: seq<NodePart>)

  /** The three line materials of lineMaterials.js; every link shares one of them. */
  datatype LineMaterial = Basic | HighlightOut | HighlightIn

  /** The curve geometry of a link, identified by the endpoints it was generated for. */
  datatype Curve = Curve(start: Vec3, end: Vec3)

  /** A line mesh of `sceneObjects.links`: its `userData` fields, its material and its geometry. */
  datatype SceneLink = SceneLink(source: NodeId, target: NodeId, value: real,
                                 spos: Vec3, tpos: Vec3, nextSPos: Vec3, nextTPos: Vec3,
                                 material: LineMaterial, curve: Curve)

  // ----- building the scene and pointing it at the data (`drawNetwork`, `updateNetwork`) -----

  /** The node group `drawNetwork` builds for a data node: a sphere and a text label, placed at `pos`. */
  function DrawnNode(d: DataNode): SceneNode
  {
    SceneNode(d.id, d.name, d.pos, d.pos, 1.0,
              [NodePart(Sphere, SphereBasic, SphereBasic), NodePart(Text, Label, Label)])
  }

  /**
   * The line mesh `drawNetwork` builds for a data link, in the basic material. Its
   * `nextSPos`/`nextTPos` are not set there; `updateNetwork`, which follows at once, sets them.
   */
  function DrawnLink(l: DataLink): SceneLink
  {
    SceneLink(l.source, l.target, l.value, l.spos, l.tpos, l.spos, l.tpos, Basic, Curve(l.spos, l.tpos))
  }

  function DrawNodes(nodes: seq<DataNode>): seq<SceneNode>
  {
    seq(|nodes|, i requires 0 <= i < |nodes| => DrawnNode(nodes[i]))
  }

  function DrawLinks(links: seq<DataLink>): seq<SceneLink>
  {
    seq(|links|, i requires 0 <= i < |links| => DrawnLink(links[i]))
  }

  /** Every scene object names data nodes that exist: the lookups of `updateNetwork` succeed. */
  predicate SceneResolvable(nodes: seq<DataNode>, sceneNodes: seq<SceneNode>, sceneLinks: seq<SceneLink>)
  {
    (forall n :: n in sceneNodes ==> HasId(nodes, n.id)) &&
    (forall l :: l in sceneLinks ==> HasId(nodes, l.source) && HasId(nodes, l.target))
  }

  /** Drawing nodes and links whose endpoints exist keeps every scene object resolvable. */
  lemma {:induction false} DrawnSceneResolvable(nodes: seq<DataNode>, links: seq<DataLink>,
                                                sceneNodes: seq<SceneNode>, sceneLinks: seq<SceneLink>)
    requires forall l :: l in links ==> HasId(nodes, l.source) && HasId(nodes, l.target)
    requires SceneResolvable(nodes, sceneNodes, sceneLinks)
    ensures SceneResolvable(nodes, sceneNodes + DrawNodes(nodes), sceneLinks + DrawLinks(links))
  {
    var ns := sceneNodes + DrawNodes(nodes);
    var ls := sceneLinks + DrawLinks(links);
    forall n | n in ns ensures HasId(nodes, n.id) {
      var j :| 0 <= j < |ns| && ns[j] == n;
      if j < |sceneNodes| {
        assert n in sceneNodes;
      } else {
        assert nodes[j - |sceneNodes|].id == n.id;
      }
    }
    forall l | l in ls ensures HasId(nodes, l.source) && HasId(nodes, l.target) {
      var j :| 0 <= j < |ls| && ls[j] == l;
      if j < |sceneLinks| {
        assert l in sceneLinks;
      } else {
        assert links[j - |sceneLinks|] in links;
      }
    }
  }

  /** The scene node with `nextPos` taken from the data node with its id. */
  function AimNode(n: SceneNode, nodes: seq<DataNode>): SceneNode
    requires HasId(nodes, n.id)
  {
    n.(nextPos := PosOf(nodes, n.id))
  }

  /** The scene link with `nextSPos`/`nextTPos` taken from its source and target nodes. */
  function AimLink(l: SceneLink, nodes: seq<DataNode>): SceneLink
    requires HasId(nodes, l.source) && HasId(nodes, l.target)
  {
    l.(nextSPos := PosOf(nodes, l.source), nextTPos := PosOf(nodes, l.target))
  }

  function AimNodes(sceneNodes: seq<SceneNode>, nodes: seq<DataNode>): seq<SceneNode>
    requires forall n :: n in sceneNodes ==> HasId(nodes, n.id)
  {
    seq(|sceneNodes|, i requires 0 <= i < |sceneNodes| => AimNode(sceneNodes[i], nodes))
  }

  function AimLinks(sceneLinks: seq<SceneLink>, nodes: seq<DataNode>): seq<SceneLink>
    requires forall l :: l in sceneLinks ==> HasId(nodes, l.source) && HasId(nodes, l.target)
  {
    seq(|sceneLinks|, i requires 0 <= i < |sceneLinks| => AimLink(sceneLinks[i], nodes))
  }

  /** `p` is the position of the first data node with id `id`. */
  predicate FirstPosIs(nodes: seq<DataNode>, id: NodeId, p: Vec3)
  {
    exists j :: 0 <= j < |nodes| && nodes[j].id == id && p == nodes[j].pos &&
                (forall k :: 0 <= k < j ==> nodes[k].id != id)
  }

  /**
   * After `updateNetwork` each scene node heads for the `pos` of the first data
   * node with its id, and nothing else about it changes.
   */
  lemma {:induction false} AimNodesSpec(nodes: seq<DataNode>, sceneNodes: seq<SceneNode>)
    requires forall n :: n in sceneNodes ==> HasId(nodes, n.id)
    ensures |AimNodes(sceneNodes, nodes)| == |sceneNodes|
    ensures forall i :: 0 <= i < |sceneNodes| ==>
      AimNodes(sceneNodes, nodes)[i].(nextPos := sceneNodes[i].nextPos) == sceneNodes[i]
    ensures forall i :: 0 <= i < |sceneNodes| ==>
      FirstPosIs(nodes, sceneNodes[i].id, AimNodes(sceneNodes, nodes)[i].nextPos)
  {
    forall i | 0 <= i < |sceneNodes|
      ensures FirstPosIs(nodes, sceneNodes[i].id, AimNodes(sceneNodes, nodes)[i].nextPos)
    {
      assert sceneNodes[i] in sceneNodes;
      var j := Find(nodes, sceneNodes[i].id).value;
      assert AimNodes(sceneNodes, nodes)[i].nextPos == nodes[j].pos;
    }
  }

  /**
   * After `updateNetwork` each link heads for the positions of the first data
   * nodes with its source and target ids, and nothing else about it changes.
   */
  lemma {:induction false} AimLinksSpec(nodes: seq<DataNode>, sceneLinks: seq<SceneLink>)
    requires forall l :: l in sceneLinks ==> HasId(nodes, l.source) && HasId(nodes, l.target)
    ensures |AimLinks(sceneLinks, nodes)| == |sceneLinks|
    ensures forall i :: 0 <= i < |sceneLinks| ==>
      AimLinks(sceneLinks, nodes)[i].(nextSPos := sceneLinks[i].nextSPos, nextTPos := sceneLinks[i].nextTPos)
        == sceneLinks[i]
    ensures forall i :: 0 <= i < |sceneLinks| ==>
      FirstPosIs(nodes, sceneLinks[i].source, AimLinks(sceneLinks, nodes)[i].nextSPos) &&
      FirstPosIs(nodes, sceneLinks[i].target, AimLinks(sceneLinks, nodes)[i].nextTPos)
  {
    forall i | 0 <= i < |sceneLinks|
      ensures FirstPosIs(nodes, sceneLinks[i].source, AimLinks(sceneLinks, nodes)[i].nextSPos)
      ensures FirstPosIs(nodes, sceneLinks[i].target, AimLinks(sceneLinks, nodes)[i].nextTPos)
    {
      assert sceneLinks[i] in sceneLinks;
      var js := Find(nodes, sceneLinks[i].source).value;
      var jt := Find(nodes, sceneLinks[i].target).value;
      assert AimLinks(sceneLinks, nodes)[i].nextSPos == nodes[js].pos;
      assert AimLinks(sceneLinks, nodes)[i].nextTPos == nodes[jt].pos;
    }
  }
}
