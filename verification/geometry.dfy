/** Shared vocabulary of the air-wall generators: coordinates, the wall record
    every generator emits, the visibility/material rule, the option defaults,
    and the two numeric functions (square root, atan2) that the components
    take from the JavaScript runtime. */
module Geometry {

  datatype Option<+T> = None | Some(value: T)

  /** A `[x, y, z]` triple: a position, an Euler rotation or a box size. */
  datatype Vec3 = Vec3(x: real, y: real, z: real)

  /** A ground-plane point `[x, z]`. */
  datatype Point2 = Point2(x: real, z: real)

  const Origin: Vec3 := Vec3(0.0, 0.0, 0.0)

  /** The `meshStandardMaterial` of a wall. */
  datatype Material = Material(color: string, transparent: bool, opacity: real)

  /** One emitted air wall: a fixed rigid body with a cuboid collider at
      `position`, turned by the Euler angles `rotation`, carrying a box mesh
      of size `size` (length along x, height along y, thickness along z before
      rotation) drawn with `material`. */
  datatype Wall = Wall(position: Vec3, rotation: Vec3, size: Vec3, material: Material)

  /** The wall options every component receives, after defaults are applied. */
  datatype WallOptions = WallOptions(wallHeight: real, wallThickness: real, visible: bool, wallColor: string)

  /** The same options as a caller writes them; `None` is an omitted prop. */
  datatype WallProps = WallProps(
    wallHeight: Option<real>, wallThickness: Option<real>, visible: Option<bool>, wallColor: Option<string>)

  const DefaultWallHeight: real := 5.0
  const DefaultWallThickness: real := 0.2
  const DefaultWallColor: string := "red"

  /** Destructuring defaults: a default applies only to an omitted prop. */
  function WithDefaults(p: WallProps): (o: WallOptions)
    ensures p.wallHeight.None? ==> o.wallHeight == DefaultWallHeight
    ensures p.wallThickness.None? ==> o.wallThickness == DefaultWallThickness
    ensures p.visible.None? ==> !o.visible
    ensures p.wallColor.None? ==> o.wallColor == DefaultWallColor
    ensures p.wallHeight.Some? ==> o.wallHeight == p.wallHeight.value
    ensures p.wallThickness.Some? ==> o.wallThickness == p.wallThickness.value
    ensures p.visible.Some? ==> o.visible == p.visible.value
    ensures p.wallColor.Some? ==> o.wallColor == p.wallColor.value
  {
    WallOptions(
      match p.wallHeight case Some(h) => h case None => DefaultWallHeight,
      match p.wallThickness case Some(t) => t case None => DefaultWallThickness,
      match p.visible case Some(v) => v case None => false,
      match p.wallColor case Some(c) => c case None => DefaultWallColor)
  }

  /** The visibility rule shared by all walls: a hidden wall is fully
      transparent, a shown one half opaque; visibility never removes the
      collider, which the wall record always carries. */
  function WallMaterial(visible: bool, color: string): (m: Material)
    ensures m.color == color
    ensures m.transparent <==> !visible
    ensures m.transparent <==> m.opacity == 0.0
    ensures visible ==> m.opacity == 0.5
    ensures 0.0 <= m.opacity < 1.0
  {
    Material(color, !visible, if visible then 0.5 else 0.0)
  }

  /** `Math.sqrt` and `Math.atan2`, supplied by the runtime. */
  datatype MathFns = MathFns(sqrt: real -> real, atan2: (real, real) -> real)

  /** What the model relies on about `Math.sqrt`: on a non-negative argument
      it returns the non-negative square root. */
  ghost predicate ExactSqrt(sqrt: real -> real) {
    forall v :: 0.0 <= v ==> 0.0 <= sqrt(v) && sqrt(v) * sqrt(v) == v
  }

  function Sq(a: real): real { a * a }
}
