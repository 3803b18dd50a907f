/**
 * The few parts of three.js objects that the helpers in actions/ read and
 * write. Geometry, transforms and rendering state are not modelled.
 */
module Three {
  import opened Optional

  /** A material: whether it is drawn, and how opaque it is. */
  class Material {
    var visible: bool
    var opacity: real

    constructor (visible: bool, opacity: real)
      ensures this.visible == visible && this.opacity == opacity
    {
      this.visible := visible;
      this.opacity := opacity;
    }
  }

  /**
   * A scene-graph object (group or mesh). `kind` is `userData.type` (the empty
   * string when unset), `name` is `userData.name`, `status` is `userData.status`
   * and `nextScale` is `userData.nextScale`. A group has no material.
   */
  class Object3D {
    const kind: string
    const name: Option<string>
    const children: seq<Object3D>
    var material: Material?
    var currentMaterial: Material?
    var status: string
    var nextScale: real

    constructor (kind: string, name: Option<string>, children: seq<Object3D>, material: Material?)
      ensures this.kind == kind && this.name == name && this.children == children
      ensures this.material == material && currentMaterial == null && status == "" && nextScale == 1.0
    {
      this.kind := kind;
      this.name := name;
      this.children := children;
      this.material := material;
      currentMaterial := null;
      status := "";
      nextScale := 1.0;
    }
  }

  /**
   * What three.js's `add` guarantees of every object: it is not its own
   * child, and no child is listed twice.
   */
  predicate ChildrenDistinct(o: Object3D)
  {
    o !in o.children &&
    forall i, j :: 0 <= i < j < |o.children| ==> o.children[i] != o.children[j]
  }
}
