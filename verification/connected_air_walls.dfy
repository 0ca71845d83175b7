/** The segment-to-wall converter: every directed ground-plane segment
    becomes one wall centred on the segment, standing on a common base
    elevation, as long as the segment and turned by atan2(dz, dx) about the
    vertical axis. */
module ConnectedAirWalls {
  import opened Geometry

  /** A wall segment from `start` to `end` with an optional height override. */
  datatype Segment = Segment(start: Point2, end: Point2, height: Option<real>)

  /** The same edge traced in the other direction. */
  function Reversed(s: Segment): Segment {
    s.(start := s.end, end := s.start)
  }

  /** `segment.height || wallHeight`: an omitted override, and an override of
      0 (falsy), fall back to the component's wall height. */
  function SegmentHeight(s: Segment, wallHeight: real): (h: real)
    ensures s.height.Some? && s.height.value != 0.0 ==> h == s.height.value
    ensures s.height.None? || s.height.value == 0.0 ==> h == wallHeight
  {
    match s.height
    case Some(v) => if v != 0.0 then v else wallHeight
    case None => wallHeight
  }

  /** Euclidean length of the segment, through the runtime's square root. */
  function Length(s: Segment, math: MathFns): real {
    math.sqrt(Sq(s.end.x - s.start.x) + Sq(s.end.z - s.start.z))
  }

  /** The wall for one segment, standing on `baseY`. */
  function SegmentWall(s: Segment, baseY: real, opts: WallOptions, math: MathFns): (w: Wall)
    ensures 2.0 * w.position.x == s.start.x + s.end.x
    ensures 2.0 * w.position.z == s.start.z + s.end.z
    ensures w.size.y == SegmentHeight(s, opts.wallHeight)
    ensures w.position.y - w.size.y / 2.0 == baseY
    ensures w.size.x == Length(s, math) && w.size.z == opts.wallThickness
    ensures w.rotation.x == 0.0 && w.rotation.z == 0.0
    ensures w.rotation.y == math.atan2(s.end.z - s.start.z, s.end.x - s.start.x)
    ensures w.material == WallMaterial(opts.visible, opts.wallColor)
  {
    var h := SegmentHeight(s, opts.wallHeight);
    Wall(
      Vec3((s.start.x + s.end.x) / 2.0, baseY + h / 2.0, (s.start.z + s.end.z) / 2.0),
      Vec3(0.0, math.atan2(s.end.z - s.start.z, s.end.x - s.start.x), 0.0),
      Vec3(Length(s, math), h, opts.wallThickness),
      WallMaterial(opts.visible, opts.wallColor))
  }

  /** `segments.map(...)`: exactly one wall per segment, in segment order. */
  function Walls(segments: seq<Segment>, baseY: real, opts: WallOptions, math: MathFns): (walls: seq<Wall>)
    ensures |walls| == |segments|
    ensures forall i :: 0 <= i < |segments| ==> walls[i] == SegmentWall(segments[i], baseY, opts, math)
  {
    seq(|segments|, i requires 0 <= i < |segments| => SegmentWall(segments[i], baseY, opts, math))
  }

  /** The length is never negative, is zero exactly for a degenerate segment
      whose ends coincide, and does not depend on the direction of travel. */
  lemma LengthProperties(s: Segment, math: MathFns)
    requires ExactSqrt(math.sqrt)
    ensures 0.0 <= Length(s, math)
    ensures Length(s, math) == 0.0 <==> s.start == s.end
    ensures Length(Reversed(s), math) == Length(s, math)
  {
    var dx, dz := s.end.x - s.start.x, s.end.z - s.start.z;
    var v := Sq(dx) + Sq(dz);
    assert 0.0 <= Sq(dx) && 0.0 <= Sq(dz);
    var r := math.sqrt(v);
    assert 0.0 <= r && r * r == v;
    if r == 0.0 {
      assert Sq(dx) == 0.0 && Sq(dz) == 0.0;
      SquareZero(dx);
      SquareZero(dz);
      assert s.start.x == s.end.x && s.start.z == s.end.z;
    }
    SquareZero(r);
    if s.start == s.end {
      assert dx == 0.0 && dz == 0.0;
      assert v == 0.0;
    }
    assert Sq(s.start.x - s.end.x) == Sq(dx) && Sq(s.start.z - s.end.z) == Sq(dz);
  }

  /** Reversing a segment leaves its wall in place: same centre, same size,
      same material; only the heading can differ. This is why the two
      oppositely directed copies of an edge shared by two platforms at the
      same elevation coincide. */
  lemma ReversedWallCoincides(s: Segment, baseY: real, opts: WallOptions, math: MathFns)
    ensures var a := SegmentWall(s, baseY, opts, math);
      var b := SegmentWall(Reversed(s), baseY, opts, math);
      a.position == b.position && a.size == b.size && a.material == b.material
  {
    assert Sq(s.start.x - s.end.x) == Sq(s.end.x - s.start.x);
    assert Sq(s.start.z - s.end.z) == Sq(s.end.z - s.start.z);
  }

  /** An edge along an axis has the length of its coordinate difference:
      (0,0)->(5,0) and (0,0)->(0,5) both give walls of length 5. */
  lemma AxisAlignedLength(math: MathFns, h: Option<real>)
    requires ExactSqrt(math.sqrt)
    ensures Length(Segment(Point2(0.0, 0.0), Point2(5.0, 0.0), h), math) == 5.0
    ensures Length(Segment(Point2(0.0, 0.0), Point2(0.0, 5.0), h), math) == 5.0
  {
    var r := math.sqrt(25.0);
    assert 0.0 <= r && Sq(r) == Sq(5.0);
    SquareInjective(r, 5.0);
    assert Sq(5.0 - 0.0) + Sq(0.0 - 0.0) == 25.0;
  }

  lemma SquareZero(a: real)
    ensures Sq(a) == 0.0 <==> a == 0.0
  {
    if a != 0.0 {
      SquareMonotone(0.0, if a > 0.0 then a else -a);
      assert Sq(a) == Sq(-a);
    }
  }

  lemma SquareMonotone(a: real, b: real)
    requires 0.0 <= a && 0.0 <= b
    ensures a < b ==> Sq(a) < Sq(b)
  {
    if a < b {
      calc {
        Sq(a);
      ==
        a * a;
      <=
        a * b;
      <
        b * b;
      ==
        Sq(b);
      }
    }
  }

  /** A non-negative number has one non-negative square root. */
  lemma SquareInjective(a: real, b: real)
    requires 0.0 <= a && 0.0 <= b && Sq(a) == Sq(b)
    ensures a == b
  {
    SquareMonotone(a, b);
    SquareMonotone(b, a);
  }
}
