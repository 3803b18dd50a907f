/**
 * actions/resetIntersected.js: a node the user stopped looking at goes back to
 * its normal size and its sphere back to its own material.
 */
module NodeReset {
  import opened Three

  /**
   * `resetIntersected(intersected)`: for a node, the target scale becomes 1 and
   * every sphere child takes its `currentMaterial` again, while other children
   * keep theirs; anything that is not a node is left as it was. The same object
   * is returned.
   */
  method ResetIntersected(intersected: Object3D) returns (r: Object3D)
    requires ChildrenDistinct(intersected)
    requires intersected.kind == "node" ==>
      forall c :: c in intersected.children && c.kind == "sphere" ==> c.material != null
    modifies intersected, intersected.children
    ensures r == intersected
    ensures intersected.kind == "node" ==> intersected.nextScale == 1.0
    ensures intersected.kind == "node" ==> forall c :: c in intersected.children ==>
      c.material == (if c.kind == "sphere" then old(c.currentMaterial) else old(c.material))
    ensures intersected.kind == "node" ==>
      intersected.material == old(intersected.material) &&
      intersected.currentMaterial == old(intersected.currentMaterial) &&
      intersected.status == old(intersected.status)
    ensures intersected.kind == "node" ==> forall c :: c in intersected.children ==>
      c.currentMaterial == old(c.currentMaterial) && c.status == old(c.status) && c.nextScale == old(c.nextScale)
    ensures intersected.kind != "node" ==> unchanged(intersected) && unchanged(intersected.children)
  {
    if intersected.kind == "node" {
      intersected.nextScale := 1.0;
      var children := intersected.children;
      var i := 0;
      while i < |children|
        invariant 0 <= i <= |children|
        invariant intersected.nextScale == 1.0
        invariant intersected.material == old(intersected.material)
        invariant intersected.currentMaterial == old(intersected.currentMaterial)
        invariant intersected.status == old(intersected.status)
        invariant forall k :: 0 <= k < |children| ==>
          children[k].material == (if k < i && children[k].kind == "sphere" then old(children[k].currentMaterial)
                                   else old(children[k].material))
        invariant forall c :: c in children ==>
          c.currentMaterial == old(c.currentMaterial) && c.status == old(c.status) && c.nextScale == old(c.nextScale)
      {
        var c := children[i];
        if c.kind == "sphere" {
          c.material := c.currentMaterial;
        }
        i := i + 1;
      }
    }
    r := intersected;
  }
}
