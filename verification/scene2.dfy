/** The two-platform scene: a square platform A and a narrow platform B
    joined along A's north side, walled by one border of eleven points that
    runs round both, crossing from A to B and back. */
module Scene2 {
  import opened Geometry
  import opened IrregularAirWalls
  import CW = ConnectedAirWalls

  const A: ModelId := "modelA"
  const B: ModelId := "modelB"

  const Models: seq<ModelConfig> := [ModelConfig(A, 0.0), ModelConfig(B, 0.0)]

  const Points: seq<ConnectionPoint> := [
    ConnectionPoint(A, Point2(-10.0, -10.0)), ConnectionPoint(A, Point2(-10.0, 10.0)),
    ConnectionPoint(A, Point2(-5.0, 10.0)), ConnectionPoint(B, Point2(-5.0, 10.0)),
    ConnectionPoint(B, Point2(-5.0, 20.0)), ConnectionPoint(B, Point2(5.0, 20.0)),
    ConnectionPoint(B, Point2(5.0, 10.0)), ConnectionPoint(A, Point2(10.0, 10.0)),
    ConnectionPoint(A, Point2(10.0, 10.0)), ConnectionPoint(A, Point2(10.0, -10.0)),
    ConnectionPoint(A, Point2(-10.0, -10.0))]

  const Borders: seq<BorderConnection> := [BorderConnection(Points, None)]

  function Seg(x1: real, z1: real, x2: real, z2: real): CW.Segment {
    CW.Segment(Point2(x1, z1), Point2(x2, z2), None)
  }

  /** The eleven points of the border, one by one. */
  predicate IsScene2Border(points: seq<ConnectionPoint>) {
    && |points| == 11
    && points[0] == ConnectionPoint(A, Point2(-10.0, -10.0))
    && points[1] == ConnectionPoint(A, Point2(-10.0, 10.0))
    && points[2] == ConnectionPoint(A, Point2(-5.0, 10.0))
    && points[3] == ConnectionPoint(B, Point2(-5.0, 10.0))
    && points[4] == ConnectionPoint(B, Point2(-5.0, 20.0))
    && points[5] == ConnectionPoint(B, Point2(5.0, 20.0))
    && points[6] == ConnectionPoint(B, Point2(5.0, 10.0))
    && points[7] == ConnectionPoint(A, Point2(10.0, 10.0))
    && points[8] == ConnectionPoint(A, Point2(10.0, 10.0))
    && points[9] == ConnectionPoint(A, Point2(10.0, -10.0))
    && points[10] == ConnectionPoint(A, Point2(-10.0, -10.0))
  }

  lemma Scene2Border()
    ensures IsScene2Border(Points)
  {
  }

  /** Platform A's segments: its stretch of the border, the zero-length copy
      of the left connection, the reversed right connection, the zero-length
      pair of repeated corners and the zero-length closing edge. */
  const SegmentsA: seq<CW.Segment> := [
    Seg(-10.0, -10.0, -10.0, 10.0), Seg(-10.0, 10.0, -5.0, 10.0), Seg(-5.0, 10.0, -5.0, 10.0),
    Seg(10.0, 10.0, 5.0, 10.0), Seg(10.0, 10.0, 10.0, 10.0), Seg(10.0, 10.0, 10.0, -10.0),
    Seg(10.0, -10.0, -10.0, -10.0), Seg(-10.0, -10.0, -10.0, -10.0)]

  /** Platform B's segments: its own zero-length copy of the left connection,
      its three sides, and the right connection. */
  const SegmentsB: seq<CW.Segment> := [
    Seg(-5.0, 10.0, -5.0, 10.0), Seg(-5.0, 10.0, -5.0, 20.0), Seg(-5.0, 20.0, 5.0, 20.0),
    Seg(5.0, 20.0, 5.0, 10.0), Seg(5.0, 10.0, 10.0, 10.0)]

  lemma DistinctIds()
    ensures A != B
  {
    assert A[5] != B[5];
  }

  lemma Scene2Declarations()
    ensures DeclaredIds(Models) == [A, B]
    ensures InitialTable(Models) == map[A := ModelSegments(0.0, []), B := ModelSegments(0.0, [])]
  {
    DistinctIds();
    assert Models[..1] == [Models[0]] && Models[..1][..0] == [];
    assert DeclaredIds(Models[..1]) == [A];
    assert InitialTable(Models[..1]) == map[A := ModelSegments(0.0, [])];
  }

  lemma Scene2Appends()
    ensures BordersAppends(Borders) == PairsAppends(Points, None, 10) + ClosingAppends(Points, None)
  {
    assert Borders[..0] == [] && |Points| == 11;
    assert BordersAppends(Borders) == [] + BorderAppends(Borders[0]);
  }

  // What the first k pairs of the border give platform A, for k = 1 .. 10.

  lemma PairsA1(points: seq<ConnectionPoint>)
    requires IsScene2Border(points)
    ensures SegmentsFor(PairsAppends(points, None, 1), A) == [Seg(-10.0, -10.0, -10.0, 10.0)]
  {
    assert SegmentsFor(PairsAppends(points, None, 0), A) == [];
    DistinctIds();
    PairsSegmentsStep(points, None, 1, A);
  }

  lemma PairsA2(points: seq<ConnectionPoint>)
    requires IsScene2Border(points)
    ensures SegmentsFor(PairsAppends(points, None, 2), A) == [Seg(-10.0, -10.0, -10.0, 10.0), Seg(-10.0, 10.0, -5.0, 10.0)]
  {
    PairsA1(points);
    DistinctIds();
    PairsSegmentsStep(points, None, 2, A);
  }

  lemma PairsA3(points: seq<ConnectionPoint>)
    requires IsScene2Border(points)
    ensures SegmentsFor(PairsAppends(points, None, 3), A) == [Seg(-10.0, -10.0, -10.0, 10.0), Seg(-10.0, 10.0, -5.0, 10.0), Seg(-5.0, 10.0, -5.0, 10.0)]
  {
    PairsA2(points);
    DistinctIds();
    PairsSegmentsStep(points, None, 3, A);
  }

  lemma PairsA4(points: seq<ConnectionPoint>)
    requires IsScene2Border(points)
    ensures SegmentsFor(PairsAppends(points, None, 4), A) == [Seg(-10.0, -10.0, -10.0, 10.0), Seg(-10.0, 10.0, -5.0, 10.0), Seg(-5.0, 10.0, -5.0, 10.0)]
  {
    PairsA3(points);
    DistinctIds();
    PairsSegmentsStep(points, None, 4, A);
  }

  lemma PairsA5(points: seq<ConnectionPoint>)
    requires IsScene2Border(points)
    ensures SegmentsFor(PairsAppends(points, None, 5), A) == [Seg(-10.0, -10.0, -10.0, 10.0), Seg(-10.0, 10.0, -5.0, 10.0), Seg(-5.0, 10.0, -5.0, 10.0)]
  {
    PairsA4(points);
    DistinctIds();
    PairsSegmentsStep(points, None, 5, A);
  }

  lemma PairsA6(points: seq<ConnectionPoint>)
    requires IsScene2Border(points)
    ensures SegmentsFor(PairsAppends(points, None, 6), A) == [Seg(-10.0, -10.0, -10.0, 10.0), Seg(-10.0, 10.0, -5.0, 10.0), Seg(-5.0, 10.0, -5.0, 10.0)]
  {
    PairsA5(points);
    DistinctIds();
    PairsSegmentsStep(points, None, 6, A);
  }

  lemma PairsA7(points: seq<ConnectionPoint>)
    requires IsScene2Border(points)
    ensures SegmentsFor(PairsAppends(points, None, 7), A) == [Seg(-10.0, -10.0, -10.0, 10.0), Seg(-10.0, 10.0, -5.0, 10.0), Seg(-5.0, 10.0, -5.0, 10.0), Seg(10.0, 10.0, 5.0, 10.0)]
  {
    PairsA6(points);
    DistinctIds();
    PairsSegmentsStep(points, None, 7, A);
  }

  lemma PairsA8(points: seq<ConnectionPoint>)
    requires IsScene2Border(points)
    ensures SegmentsFor(PairsAppends(points, None, 8), A) == [Seg(-10.0, -10.0, -10.0, 10.0), Seg(-10.0, 10.0, -5.0, 10.0), Seg(-5.0, 10.0, -5.0, 10.0), Seg(10.0, 10.0, 5.0, 10.0), Seg(10.0, 10.0, 10.0, 10.0)]
  {
    PairsA7(points);
    DistinctIds();
    PairsSegmentsStep(points, None, 8, A);
  }

  lemma PairsA9(points: seq<ConnectionPoint>)
    requires IsScene2Border(points)
    ensures SegmentsFor(PairsAppends(points, None, 9), A) == [Seg(-10.0, -10.0, -10.0, 10.0), Seg(-10.0, 10.0, -5.0, 10.0), Seg(-5.0, 10.0, -5.0, 10.0), Seg(10.0, 10.0, 5.0, 10.0), Seg(10.0, 10.0, 10.0, 10.0), Seg(10.0, 10.0, 10.0, -10.0)]
  {
    PairsA8(points);
    DistinctIds();
    PairsSegmentsStep(points, None, 9, A);
  }

  lemma PairsA10(points: seq<ConnectionPoint>)
    requires IsScene2Border(points)
    ensures SegmentsFor(PairsAppends(points, None, 10), A) == [Seg(-10.0, -10.0, -10.0, 10.0), Seg(-10.0, 10.0, -5.0, 10.0), Seg(-5.0, 10.0, -5.0, 10.0), Seg(10.0, 10.0, 5.0, 10.0), Seg(10.0, 10.0, 10.0, 10.0), Seg(10.0, 10.0, 10.0, -10.0), Seg(10.0, -10.0, -10.0, -10.0)]
  {
    PairsA9(points);
    DistinctIds();
    PairsSegmentsStep(points, None, 10, A);
  }

  lemma Scene2SegmentsA()
    ensures SegmentsFor(BordersAppends(Borders), A) == SegmentsA
  {
    Scene2Border();
    PairsA10(Points);
    Scene2Appends();
    SegmentsForConcat(PairsAppends(Points, None, 10), ClosingAppends(Points, None), A);
  }

  // What the first k pairs of the border give platform B, for k = 1 .. 10.

  lemma PairsB1(points: seq<ConnectionPoint>)
    requires IsScene2Border(points)
    ensures SegmentsFor(PairsAppends(points, None, 1), B) == []
  {
    assert SegmentsFor(PairsAppends(points, None, 0), B) == [];
    DistinctIds();
    PairsSegmentsStep(points, None, 1, B);
  }

  lemma PairsB2(points: seq<ConnectionPoint>)
    requires IsScene2Border(points)
    ensures SegmentsFor(PairsAppends(points, None, 2), B) == []
  {
    PairsB1(points);
    DistinctIds();
    PairsSegmentsStep(points, None, 2, B);
  }

  lemma PairsB3(points: seq<ConnectionPoint>)
    requires IsScene2Border(points)
    ensures SegmentsFor(PairsAppends(points, None, 3), B) == [Seg(-5.0, 10.0, -5.0, 10.0)]
  {
    PairsB2(points);
    DistinctIds();
    PairsSegmentsStep(points, None, 3, B);
  }

  lemma PairsB4(points: seq<ConnectionPoint>)
    requires IsScene2Border(points)
    ensures SegmentsFor(PairsAppends(points, None, 4), B) == [Seg(-5.0, 10.0, -5.0, 10.0), Seg(-5.0, 10.0, -5.0, 20.0)]
  {
    PairsB3(points);
    DistinctIds();
    PairsSegmentsStep(points, None, 4, B);
  }

  lemma PairsB5(points: seq<ConnectionPoint>)
    requires IsScene2Border(points)
    ensures SegmentsFor(PairsAppends(points, None, 5), B) == [Seg(-5.0, 10.0, -5.0, 10.0), Seg(-5.0, 10.0, -5.0, 20.0), Seg(-5.0, 20.0, 5.0, 20.0)]
  {
    PairsB4(points);
    DistinctIds();
    PairsSegmentsStep(points, None, 5, B);
  }

  lemma PairsB6(points: seq<ConnectionPoint>)
    requires IsScene2Border(points)
    ensures SegmentsFor(PairsAppends(points, None, 6), B) == [Seg(-5.0, 10.0, -5.0, 10.0), Seg(-5.0, 10.0, -5.0, 20.0), Seg(-5.0, 20.0, 5.0, 20.0), Seg(5.0, 20.0, 5.0, 10.0)]
  {
    PairsB5(points);
    DistinctIds();
    PairsSegmentsStep(points, None, 6, B);
  }

  lemma PairsB7(points: seq<ConnectionPoint>)
    requires IsScene2Border(points)
    ensures SegmentsFor(PairsAppends(points, None, 7), B) == [Seg(-5.0, 10.0, -5.0, 10.0), Seg(-5.0, 10.0, -5.0, 20.0), Seg(-5.0, 20.0, 5.0, 20.0), Seg(5.0, 20.0, 5.0, 10.0), Seg(5.0, 10.0, 10.0, 10.0)]
  {
    PairsB6(points);
    DistinctIds();
    PairsSegmentsStep(points, None, 7, B);
  }

  lemma PairsB8(points: seq<ConnectionPoint>)
    requires IsScene2Border(points)
    ensures SegmentsFor(PairsAppends(points, None, 8), B) == [Seg(-5.0, 10.0, -5.0, 10.0), Seg(-5.0, 10.0, -5.0, 20.0), Seg(-5.0, 20.0, 5.0, 20.0), Seg(5.0, 20.0, 5.0, 10.0), Seg(5.0, 10.0, 10.0, 10.0)]
  {
    PairsB7(points);
    DistinctIds();
    PairsSegmentsStep(points, None, 8, B);
  }

  lemma PairsB9(points: seq<ConnectionPoint>)
    requires IsScene2Border(points)
    ensures SegmentsFor(PairsAppends(points, None, 9), B) == [Seg(-5.0, 10.0, -5.0, 10.0), Seg(-5.0, 10.0, -5.0, 20.0), Seg(-5.0, 20.0, 5.0, 20.0), Seg(5.0, 20.0, 5.0, 10.0), Seg(5.0, 10.0, 10.0, 10.0)]
  {
    PairsB8(points);
    DistinctIds();
    PairsSegmentsStep(points, None, 9, B);
  }

  lemma PairsB10(points: seq<ConnectionPoint>)
    requires IsScene2Border(points)
    ensures SegmentsFor(PairsAppends(points, None, 10), B) == [Seg(-5.0, 10.0, -5.0, 10.0), Seg(-5.0, 10.0, -5.0, 20.0), Seg(-5.0, 20.0, 5.0, 20.0), Seg(5.0, 20.0, 5.0, 10.0), Seg(5.0, 10.0, 10.0, 10.0)]
  {
    PairsB9(points);
    DistinctIds();
    PairsSegmentsStep(points, None, 10, B);
  }

  lemma Scene2SegmentsB()
    ensures SegmentsFor(BordersAppends(Borders), B) == SegmentsB
  {
    Scene2Border();
    PairsB10(Points);
    Scene2Appends();
    SegmentsForConcat(PairsAppends(Points, None, 10), ClosingAppends(Points, None), B);
  }

  /** The scene's border partitioned: platform A gets eight segments, platform
      B five, 13 in all: (11 - 1) pairs + 2 cross-model pairs + 1 closing edge. */
  lemma Scene2Partition()
    ensures AirWallGroups(Models, Borders)
      == [WallGroup(A, 0.0, SegmentsA), WallGroup(B, 0.0, SegmentsB)]
  {
    DistinctIds();
    Scene2Declarations();
    Scene2SegmentsA();
    Scene2SegmentsB();
    var table := ApplyAppends(InitialTable(Models), BordersAppends(Borders));
    ApplyAppendsSpec(InitialTable(Models), BordersAppends(Borders));
    assert [] + SegmentsA == SegmentsA && [] + SegmentsB == SegmentsB;
    assert table[A] == ModelSegments(0.0, SegmentsA) && table[B] == ModelSegments(0.0, SegmentsB);
    assert SegmentsA != [] && SegmentsB != [];
    assert [A, B][1..] == [B] && [B][1..] == [];
    assert NonEmptyGroups([B], table) == [WallGroup(B, 0.0, SegmentsB)];
  }

  /** The scene renders 13 air walls: eight standing on platform A, five on
      platform B, all at elevation 0. */
  lemma Scene2Walls(opts: WallOptions, math: MathFns)
    ensures var walls := IrregularWalls(Models, Borders, opts, math);
      && |walls| == 2 && |walls[0]| == 8 && |walls[1]| == 5
      && forall k, w :: 0 <= k < 2 && w in walls[k] ==> w.position.y - w.size.y / 2.0 == 0.0
  {
    Scene2Partition();
  }

  /** The options the scene hands the partitioner: height 3, the default
      thickness, red, shown or hidden by the debug toggle. */
  function Scene2Options(visible: bool): WallOptions {
    WithDefaults(WallProps(Some(3.0), None, Some(visible), Some("red")))
  }

  /** With the scene's own options every wall is 3 tall, 0.2 thick and red,
      centred 1.5 above the platforms, whether the walls are shown or not. */
  lemma Scene2WallSizes(visible: bool, math: MathFns)
    ensures var walls := IrregularWalls(Models, Borders, Scene2Options(visible), math);
      && |walls| == 2
      && forall k, w :: 0 <= k < 2 && w in walls[k] ==>
           && w.size.y == 3.0 && w.size.z == DefaultWallThickness && w.position.y == 1.5
           && w.material == WallMaterial(visible, "red")
  {
    Scene2Partition();
    UniformHeightWalls(Models, Borders, Scene2Options(visible), math);
  }
}
