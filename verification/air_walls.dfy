/** The explicit-box wall builder: four axis-aligned walls standing on the
    top face of a box, one along each edge, padded by the wall thickness so
    that neighbouring walls meet at the corners. */
module AirWalls {
  import opened Geometry

  datatype Side = North | South | East | West

  /** The order in which the walls are emitted. */
  const SideOrder: seq<Side> := [North, South, East, West]

  /** Height of the box's top face: the box is centred on `position`. */
  function TopY(position: Vec3, dimensions: Vec3): real {
    position.y + dimensions.y / 2.0
  }

  /** The wall along one edge of the top face of the box with centre
      `position` and size `dimensions` = (width, height, depth). */
  function SideWall(side: Side, position: Vec3, dimensions: Vec3, opts: WallOptions): (w: Wall)
    ensures w.rotation == Origin
    ensures w.size.y == opts.wallHeight
    ensures w.position.y - w.size.y / 2.0 == TopY(position, dimensions)
    ensures w.material == WallMaterial(opts.visible, opts.wallColor)
    ensures side == North || side == South ==>
      w.size == Vec3(dimensions.x + opts.wallThickness, opts.wallHeight, opts.wallThickness) && w.position.x == position.x
    ensures side == East || side == West ==>
      w.size == Vec3(opts.wallThickness, opts.wallHeight, dimensions.z + opts.wallThickness) && w.position.z == position.z
    ensures side == North ==> w.position.z == position.z + dimensions.z / 2.0
    ensures side == South ==> w.position.z == position.z - dimensions.z / 2.0
    ensures side == East ==> w.position.x == position.x + dimensions.x / 2.0
    ensures side == West ==> w.position.x == position.x - dimensions.x / 2.0
  {
    var width, depth := dimensions.x, dimensions.z;
    var t := opts.wallThickness;
    var y := TopY(position, dimensions) + opts.wallHeight / 2.0;
    var material := WallMaterial(opts.visible, opts.wallColor);
    match side
    case North => Wall(Vec3(position.x, y, position.z + depth / 2.0), Origin, Vec3(width + t, opts.wallHeight, t), material)
    case South => Wall(Vec3(position.x, y, position.z - depth / 2.0), Origin, Vec3(width + t, opts.wallHeight, t), material)
    case East => Wall(Vec3(position.x + width / 2.0, y, position.z), Origin, Vec3(t, opts.wallHeight, depth + t), material)
    case West => Wall(Vec3(position.x - width / 2.0, y, position.z), Origin, Vec3(t, opts.wallHeight, depth + t), material)
  }

  /** The walls of one box: always exactly four, north, south, east, west,
      whatever the dimensions or the options. */
  function Walls(position: Vec3, dimensions: Vec3, opts: WallOptions): (walls: seq<Wall>)
    ensures |walls| == 4
    ensures forall i :: 0 <= i < 4 ==> walls[i] == SideWall(SideOrder[i], position, dimensions, opts)
    ensures forall w <- walls :: w.rotation == Origin && w.size.y == opts.wallHeight
    ensures forall w <- walls :: w.position.y - w.size.y / 2.0 == TopY(position, dimensions)
  {
    [ SideWall(North, position, dimensions, opts),
      SideWall(South, position, dimensions, opts),
      SideWall(East, position, dimensions, opts),
      SideWall(West, position, dimensions, opts) ]
  }

  // The ground-plane extent of an unrotated wall.
  function MinX(w: Wall): real { w.position.x - w.size.x / 2.0 }
  function MaxX(w: Wall): real { w.position.x + w.size.x / 2.0 }
  function MinZ(w: Wall): real { w.position.z - w.size.z / 2.0 }
  function MaxZ(w: Wall): real { w.position.z + w.size.z / 2.0 }

  /** The ground-plane point (px, pz) lies in the footprint of the unrotated wall `w`. */
  predicate Covers(w: Wall, px: real, pz: real) {
    MinX(w) <= px <= MaxX(w) && MinZ(w) <= pz <= MaxZ(w)
  }

  /** The point (px, pz) lies on the outline of the box's top face. */
  predicate OnOutline(position: Vec3, dimensions: Vec3, px: real, pz: real) {
    var x0, x1 := position.x - dimensions.x / 2.0, position.x + dimensions.x / 2.0;
    var z0, z1 := position.z - dimensions.z / 2.0, position.z + dimensions.z / 2.0;
    || (x0 <= px <= x1 && (pz == z0 || pz == z1))
    || (z0 <= pz <= z1 && (px == x0 || px == x1))
  }

  /** Corner closure: at every corner the outer faces of the two walls that
      meet there are flush, in x and in z, because the north/south length
      carries exactly one thickness of padding, as does the east/west one. */
  lemma CornersMeet(position: Vec3, dimensions: Vec3, opts: WallOptions)
    ensures var w := Walls(position, dimensions, opts);
      && MaxX(w[0]) == MaxX(w[2]) && MaxZ(w[0]) == MaxZ(w[2])
      && MinX(w[0]) == MinX(w[3]) && MaxZ(w[0]) == MaxZ(w[3])
      && MaxX(w[1]) == MaxX(w[2]) && MinZ(w[1]) == MinZ(w[2])
      && MinX(w[1]) == MinX(w[3]) && MinZ(w[1]) == MinZ(w[3])
  {
  }

  /** No gap: with a non-negative thickness, every point of the outline of
      the top face lies under some wall, corners included. */
  lemma OutlineCovered(position: Vec3, dimensions: Vec3, opts: WallOptions, px: real, pz: real)
    requires 0.0 <= opts.wallThickness
    requires OnOutline(position, dimensions, px, pz)
    ensures exists w <- Walls(position, dimensions, opts) :: Covers(w, px, pz)
  {
    var w := Walls(position, dimensions, opts);
    var z1 := position.z + dimensions.z / 2.0;
    var z0 := position.z - dimensions.z / 2.0;
    var x1 := position.x + dimensions.x / 2.0;
    if pz == z1 && position.x - dimensions.x / 2.0 <= px <= x1 {
      assert Covers(w[0], px, pz);
    } else if pz == z0 && position.x - dimensions.x / 2.0 <= px <= x1 {
      assert Covers(w[1], px, pz);
    } else if px == x1 {
      assert Covers(w[2], px, pz);
    } else {
      assert Covers(w[3], px, pz);
    }
  }

  /** The north and south walls are mirror images through the plane z = box
      centre, the east and west walls through the plane x = box centre; each
      pair is as far apart as the box is deep (resp. wide). */
  lemma OppositeWallsMirror(position: Vec3, dimensions: Vec3, opts: WallOptions)
    ensures var w := Walls(position, dimensions, opts);
      && w[0].size == w[1].size && w[2].size == w[3].size
      && w[0].position.x == w[1].position.x == position.x
      && w[0].position.z + w[1].position.z == 2.0 * position.z
      && w[0].position.z - w[1].position.z == dimensions.z
      && w[2].position.z == w[3].position.z == position.z
      && w[2].position.x + w[3].position.x == 2.0 * position.x
      && w[2].position.x - w[3].position.x == dimensions.x
  {
  }

  /** Visibility only changes the material: the same four colliders are
      emitted whether the walls are shown or hidden. */
  lemma VisibilityKeepsColliders(position: Vec3, dimensions: Vec3, opts: WallOptions, visible: bool)
    ensures var a := Walls(position, dimensions, opts);
      var b := Walls(position, dimensions, opts.(visible := visible));
      forall i :: 0 <= i < 4 ==> a[i].position == b[i].position && a[i].rotation == b[i].rotation && a[i].size == b[i].size
  {
  }
}
