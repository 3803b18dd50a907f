/**
 * actions/resetLinks.js: every link of a container is put back in the shared
 * basic material, which is hidden, and its status is cleared.
 */
module LinkReset {
  import opened Three

  /** The state `resetLinks` leaves behind. */
  predicate IsReset(links: Object3D, basicMaterial: Material)
    reads links.children, basicMaterial
  {
    (forall l :: l in links.children ==> l.material == basicMaterial && l.status == "") &&
    (|links.children| > 0 ==> !basicMaterial.visible)
  }

  /**
   * `resetLinks(links, basicMaterial)`: the same container is returned, with its
   * links in `basicMaterial` and an empty status; `basicMaterial` is hidden as
   * soon as one link is reset (with no links it is not touched), and so every
   * link sharing it is hidden. Calling it on a reset container changes nothing.
   */
  method ResetLinks(links: Object3D, basicMaterial: Material) returns (r: Object3D)
    requires forall l :: l in links.children ==> l.material != null
    modifies links.children, basicMaterial
    ensures r == links
    ensures IsReset(links, basicMaterial)
    ensures |links.children| == 0 ==> basicMaterial.visible == old(basicMaterial.visible)
    ensures basicMaterial.opacity == old(basicMaterial.opacity)
    ensures forall l :: l in links.children ==>
      l.currentMaterial == old(l.currentMaterial) && l.nextScale == old(l.nextScale)
    ensures old(IsReset(links, basicMaterial)) ==> unchanged(links.children) && unchanged(basicMaterial)
  {
    var i := 0;
    while i < |links.children|
      invariant 0 <= i <= |links.children|
      invariant forall j :: 0 <= j < i ==> links.children[j].material == basicMaterial && links.children[j].status == ""
      invariant forall l :: l in links.children ==> l.material != null
      invariant forall l :: l in links.children ==>
        l.currentMaterial == old(l.currentMaterial) && l.nextScale == old(l.nextScale)
      invariant i > 0 ==> !basicMaterial.visible
      invariant i == 0 ==> basicMaterial.visible == old(basicMaterial.visible)
      invariant basicMaterial.opacity == old(basicMaterial.opacity)
      invariant old(IsReset(links, basicMaterial)) ==> unchanged(links.children) && unchanged(basicMaterial)
    {
      var l := links.children[i];
      l.material := basicMaterial;
      l.material.visible := false;
      l.status := "";
      i := i + 1;
    }
    r := links;
  }
}
