/**
 * actions/setActiveButton.js: the layout button named `button` is highlighted
 * and every other one dimmed, by the opacity of its background rectangle.
 */
module ButtonState {
  import opened Optional
  import opened Three

  /** The opacity of button `b`'s background once `button` is the active one. */
  function Opacity(b: Object3D, button: string): real
  {
    if b.name == Some(button) then 0.2 else 0.1
  }

  /** A child of type `'button'`: a button's background rectangle. */
  predicate IsRect(c: Object3D)
  {
    c.kind == "button"
  }

  /** The materials of `b`'s background rectangles. */
  function RectMaterials(b: Object3D): set<Material>
    reads b.children
  {
    set c: Object3D | c in b.children && IsRect(c) && c.material != null :: c.material
  }

  /** The materials of the background rectangles of every button in `buttons`. */
  function AllRectMaterials(buttons: Object3D): set<Material>
    reads set b, c | b in buttons.children && c in b.children :: c
  {
    set b: Object3D, c: Object3D | b in buttons.children && c in b.children && IsRect(c) && c.material != null :: c.material
  }

  /**
   * What `setActiveButton` needs to run in a well-defined way: every rectangle
   * has a material, and a highlighted and a dimmed button never share one.
   */
  predicate Separate(buttons: Object3D, button: string)
    reads set b, c | b in buttons.children && c in b.children :: c
  {
    (forall b, c :: b in buttons.children && c in b.children && IsRect(c) ==> c.material != null) &&
    (forall b1, c1, b2, c2 ::
       b1 in buttons.children && c1 in b1.children && IsRect(c1) &&
       b2 in buttons.children && c2 in b2.children && IsRect(c2) &&
       c1.material == c2.material
       ==> Opacity(b1, button) == Opacity(b2, button))
  }

  /** Every rectangle already has the opacity `setActiveButton(buttons, button)` gives it. */
  predicate Active(buttons: Object3D, button: string)
    reads set b, c | b in buttons.children && c in b.children :: c
    reads AllRectMaterials(buttons)
  {
    forall b, c :: b in buttons.children && c in b.children && IsRect(c) && c.material != null ==>
      c.material.opacity == Opacity(b, button)
  }

  /** Every background rectangle of `b` has opacity `opacity`. */
  predicate RectsAt(b: Object3D, opacity: real)
    reads b.children, RectMaterials(b)
  {
    forall c :: c in b.children && IsRect(c) ==> c.material != null && c.material.opacity == opacity
  }

  /** The buttons before index `i` have their final opacity. */
  predicate Done(buttons: Object3D, button: string, i: nat)
    requires i <= |buttons.children|
    reads set b, c | b in buttons.children && c in b.children :: c
    reads AllRectMaterials(buttons)
  {
    forall k, c :: 0 <= k < i && c in buttons.children[k].children && IsRect(c) ==>
      c.material != null && c.material.opacity == Opacity(buttons.children[k], button)
  }

  /**
   * `setActiveButton(buttons, button)`: the rectangle of the button named
   * `button` gets opacity 0.2 and every other rectangle 0.1 (all of them when no
   * name matches); icons and labels, visibility and the container's children
   * stay as they are, and the same container is returned. A second call with
   * the same name changes nothing.
   */
  method SetActiveButton(buttons: Object3D, button: string) returns (r: Object3D)
    requires Separate(buttons, button)
    modifies AllRectMaterials(buttons)
    ensures r == buttons
    ensures Active(buttons, button)
    ensures forall b, c :: b in buttons.children && c in b.children && IsRect(c) ==>
      c.material.visible == old(c.material.visible)
    ensures old(Active(buttons, button)) ==> forall b, c :: b in buttons.children && c in b.children && IsRect(c) ==>
      c.material.opacity == old(c.material.opacity)
  {
    var i := 0;
    while i < |buttons.children|
      invariant 0 <= i <= |buttons.children|
      invariant Separate(buttons, button)
      invariant Done(buttons, button, i)
      invariant forall m :: m in AllRectMaterials(buttons) ==> m.visible == old(m.visible)
    {
      ActivateOne(buttons, button, i);
      i := i + 1;
    }
    r := buttons;
  }

  /** One pass of the outer loop: button `i`'s rectangles get their opacity. */
  method ActivateOne(buttons: Object3D, button: string, i: nat)
    requires i < |buttons.children|
    requires Separate(buttons, button) && Done(buttons, button, i)
    modifies AllRectMaterials(buttons)
    ensures Done(buttons, button, i + 1)
    ensures forall m :: m in AllRectMaterials(buttons) ==> m.visible == old(m.visible)
  {
    var b := buttons.children[i];
    SetRectOpacity(b, Opacity(b, button));
    forall k, c | 0 <= k < i + 1 && c in buttons.children[k].children && IsRect(c)
      ensures c.material != null && c.material.opacity == Opacity(buttons.children[k], button)
    {
      if c.material in RectMaterials(b) {
        var c' :| c' in b.children && IsRect(c') && c'.material == c.material;
        assert Opacity(buttons.children[k], button) == Opacity(b, button);
      } else {
        assert k < i;
      }
    }
  }

  /** Gives every background rectangle of `b` the opacity `opacity`. */
  method SetRectOpacity(b: Object3D, opacity: real)
    requires forall c :: c in b.children && IsRect(c) ==> c.material != null
    modifies RectMaterials(b)
    ensures RectsAt(b, opacity)
    ensures forall m :: m in RectMaterials(b) ==> m.visible == old(m.visible)
  {
    var j := 0;
    while j < |b.children|
      invariant 0 <= j <= |b.children|
      invariant forall k :: 0 <= k < j && b.children[k].kind == "button" ==> b.children[k].material.opacity == opacity
      invariant forall m :: m in RectMaterials(b) ==> m.visible == old(m.visible)
    {
      var c := b.children[j];
      if c.kind == "button" {
        c.material.opacity := opacity;
      }
      j := j + 1;
    }
  }
}
