/**
 * The camera orientation of src/camera.rs: a two-bit `Orientation` (`FLIP_AXIS`,
 * `SWAP_AXIS`) that the rotate keys step through four views, and the
 * `CoordinateVectors` that `orient` derives from it (the screen's up and
 * right as world axes, and how mouse motion maps onto them).
 */
module Camera {
  import opened Vectors

  const FLIP_AXIS: bv8 := 0x01
  const SWAP_AXIS: bv8 := 0x02

  /** `rotate_right` on the bits: toggle `SWAP_AXIS`, then toggle `FLIP_AXIS` if `SWAP_AXIS` is now clear. */
  function RightOf(b: bv8): (r: bv8)
    ensures r & SWAP_AXIS != b & SWAP_AXIS
    ensures r & !(FLIP_AXIS | SWAP_AXIS) == b & !(FLIP_AXIS | SWAP_AXIS)
  {
    var t := b ^ SWAP_AXIS;
    if t & SWAP_AXIS == 0 then t ^ FLIP_AXIS else t
  }

  /** `rotate_left` on the bits: toggle `SWAP_AXIS`, then toggle `FLIP_AXIS` if `SWAP_AXIS` is now set. */
  function LeftOf(b: bv8): (r: bv8)
    ensures r & SWAP_AXIS != b & SWAP_AXIS
    ensures r & !(FLIP_AXIS | SWAP_AXIS) == b & !(FLIP_AXIS | SWAP_AXIS)
  {
    var t := b ^ SWAP_AXIS;
    if t & SWAP_AXIS != 0 then t ^ FLIP_AXIS else t
  }

  /** `rotate_left` undoes `rotate_right` and the other way round. */
  lemma RotationsInverse(b: bv8)
    ensures LeftOf(RightOf(b)) == b
    ensures RightOf(LeftOf(b)) == b
  {
  }

  /**
   * From the default, `rotate_right` runs through 01, 11, 00, 10 and back:
   * four right turns are the identity.
   */
  lemma RightCycle(b: bv8)
    ensures RightOf(FLIP_AXIS) == 0x03 && RightOf(0x03) == 0x00 && RightOf(0x00) == 0x02 && RightOf(0x02) == FLIP_AXIS
    ensures RightOf(RightOf(RightOf(RightOf(b)))) == b
  {
  }

  /**
   * The worked examples in the `Orientation` doc comment say that from 01
   * left gives 11 and right gives 10, and that from 00 left gives 10 and
   * right gives 11. The code does the opposite for every one of them.
   */
  lemma DocExamplesSwapped()
    ensures LeftOf(0x01) == 0x02 && RightOf(0x01) == 0x03
    ensures LeftOf(0x00) == 0x03 && RightOf(0x00) == 0x02
    ensures RightOf(RightOf(0x01)) == 0x00 && RightOf(RightOf(0x00)) == 0x01
  {
  }

  /** What `orient` assigns: the x and y of `world_up` and `world_right`, `mouse_flip` and `mouse_swap`. */
  datatype Axes = Axes(up: Vec2, right: Vec2, flip: Vec2, swap: bool)

  /** The four views of `orient`, chosen by `SWAP_AXIS` and then `FLIP_AXIS`. */
  function AxesOf(b: bv8): Axes {
    if b & SWAP_AXIS != 0 then
      if b & FLIP_AXIS == 0 then Axes(Vec2(-1.0, 0.0), Vec2(0.0, -1.0), Vec2(1.0, 1.0), true)
      else Axes(Vec2(1.0, 0.0), Vec2(0.0, 1.0), Vec2(-1.0, -1.0), true)
    else if b & FLIP_AXIS == 0 then Axes(Vec2(0.0, 1.0), Vec2(-1.0, 0.0), Vec2(1.0, -1.0), false)
    else Axes(Vec2(0.0, -1.0), Vec2(1.0, 0.0), Vec2(-1.0, 1.0), false)
  }

  /** A vector turned a quarter turn: (x, y) becomes (-y, x). */
  function Quarter(v: Vec2): Vec2 {
    Vec2(-v.y, v.x)
  }

  /** A unit vector along one axis. */
  predicate AxisUnit(v: Vec2) {
    (v.x == 0.0 && (v.y == 1.0 || v.y == -1.0)) || (v.y == 0.0 && (v.x == 1.0 || v.x == -1.0))
  }

  /**
   * In every view, `mouse_swap` is set exactly when `SWAP_AXIS` is.
   * `world_up` and `world_right` are axis unit vectors, with right being up
   * turned a quarter (so they are perpendicular). Both `mouse_flip`
   * components are plus or minus one. Each `rotate_right` turns the view by
   * a quarter.
   */
  lemma OrientAxes(b: bv8)
    ensures AxesOf(b).swap <==> b & SWAP_AXIS != 0
    ensures AxisUnit(AxesOf(b).up) && AxisUnit(AxesOf(b).right)
    ensures AxesOf(b).right == Quarter(AxesOf(b).up)
    ensures AxesOf(b).up.x * AxesOf(b).right.x + AxesOf(b).up.y * AxesOf(b).right.y == 0.0
    ensures (AxesOf(b).flip.x == 1.0 || AxesOf(b).flip.x == -1.0) && (AxesOf(b).flip.y == 1.0 || AxesOf(b).flip.y == -1.0)
    ensures AxesOf(RightOf(b)).up == Quarter(AxesOf(b).up)
  {
  }

  /** `Orientation`: its bits, updated in place by the rotations. */
  class Orientation {
    var bits: bv8

    /** `Orientation::default()`: `FLIP_AXIS`. */
    constructor ()
      ensures bits == FLIP_AXIS
    {
      bits := FLIP_AXIS;
    }

    method RotateRight()
      modifies this
      ensures bits == RightOf(old(bits))
    {
      bits := bits ^ SWAP_AXIS;
      if bits & SWAP_AXIS == 0 {
        bits := bits ^ FLIP_AXIS;
      }
    }

    method RotateLeft()
      modifies this
      ensures bits == LeftOf(old(bits))
    {
      bits := bits ^ SWAP_AXIS;
      if bits & SWAP_AXIS != 0 {
        bits := bits ^ FLIP_AXIS;
      }
    }
  }

  /** `CoordinateVectors`: the axes of the current view and the orientation they come from. */
  class CoordinateVectors {
    var worldUp: Vec3
    var worldRight: Vec3
    var mouseFlip: Vec2
    var mouseSwap: bool
    const orientation: Orientation

    /** The assigned fields match the view of the current bits; `orient` leaves the z components alone. */
    ghost predicate Oriented()
      reads this, orientation
    {
      var a := AxesOf(orientation.bits);
      worldUp.x == a.up.x && worldUp.y == a.up.y && worldRight.x == a.right.x && worldRight.y == a.right.y &&
      mouseFlip == a.flip && mouseSwap == a.swap
    }

    /** `CoordinateVectors::new()`: the default fields, then `orient` on the default orientation. */
    constructor ()
      ensures orientation.bits == FLIP_AXIS && Oriented()
      ensures worldUp.z == 0.0 && worldRight.z == 0.0
      ensures fresh(orientation)
    {
      worldUp := Vec3(0.0, 0.0, 0.0);
      worldRight := Vec3(0.0, 0.0, 0.0);
      mouseFlip := Vec2(0.0, 0.0);
      mouseSwap := false;
      orientation := new Orientation();
      new;
      Orient();
    }

    /** `orient`: the view's axes for the current bits. */
    method Orient()
      modifies this
      ensures Oriented()
      ensures worldUp.z == old(worldUp.z) && worldRight.z == old(worldRight.z)
    {
      if orientation.bits & SWAP_AXIS != 0 {
        if orientation.bits & FLIP_AXIS == 0 {
          worldUp := worldUp.(y := 0.0, x := -1.0);
          worldRight := worldRight.(x := 0.0, y := -1.0);
          mouseFlip := Vec2(1.0, 1.0);
          mouseSwap := true;
        } else {
          worldUp := worldUp.(y := 0.0, x := 1.0);
          worldRight := worldRight.(x := 0.0, y := 1.0);
          mouseSwap := true;
          mouseFlip := Vec2(-1.0, -1.0);
        }
      } else if orientation.bits & FLIP_AXIS == 0 {
        worldUp := worldUp.(x := 0.0, y := 1.0);
        worldRight := worldRight.(y := 0.0, x := -1.0);
        mouseFlip := Vec2(1.0, -1.0);
        mouseSwap := false;
      } else {
        worldUp := worldUp.(x := 0.0, y := -1.0);
        worldRight := worldRight.(y := 0.0, x := 1.0);
        mouseFlip := Vec2(-1.0, 1.0);
        mouseSwap := false;
      }
    }

    /** `rotate_right`: a quarter turn of the view, then `orient`. */
    method RotateRight()
      modifies this, orientation
      ensures orientation.bits == RightOf(old(orientation.bits)) && Oriented()
      ensures worldUp.z == old(worldUp.z) && worldRight.z == old(worldRight.z)
    {
      orientation.RotateRight();
      Orient();
    }

    /** `rotate_left`: a quarter turn back, then `orient`. */
    method RotateLeft()
      modifies this, orientation
      ensures orientation.bits == LeftOf(old(orientation.bits)) && Oriented()
      ensures worldUp.z == old(worldUp.z) && worldRight.z == old(worldRight.z)
    {
      orientation.RotateLeft();
      Orient();
    }
  }
}
