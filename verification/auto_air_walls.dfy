/** The prop extractor: for every child mesh, read its position and the
    `args` of the last element among its children that carries `args`,
    whatever kind of element it is; fall back to the unit box at the origin
    where they are missing, and build the four box walls from them. */
module AutoAirWalls {
  import opened Geometry
  import AW = AirWalls

  /** A React node among a mesh's children: a valid element, whose props may
      or may not carry geometry `args`, or anything else (text, a number,
      null, a boolean), which is not an element and is passed over. */
  datatype Node = Element(args: Option<Vec3>) | NotElement

  /** The `children` prop of a mesh: absent (or falsy), an array of nodes,
      or a single node. */
  datatype MeshChildren = NoChildren | Many(nodes: seq<Node>) | One(node: Node)

  /** A child mesh as its props describe it. */
  datatype Mesh = Mesh(position: Option<Vec3>, children: MeshChildren)

  /** Which sides a caller asks for; `None` is an omitted key. */
  datatype SideMask = SideMask(north: Option<bool>, south: Option<bool>, east: Option<bool>, west: Option<bool>)

  const UnitBox: Vec3 := Vec3(1.0, 1.0, 1.0)

  /** `childProps.position || [0, 0, 0]`: a position array is never falsy. */
  function PositionOf(m: Mesh): (p: Vec3)
    ensures m.position.Some? ==> p == m.position.value
    ensures m.position.None? ==> p == Origin
  {
    match m.position
    case Some(v) => v
    case None => Origin
  }

  /** The `args` carried by a node, if it is an element that has them. */
  function NodeArgs(n: Node): Option<Vec3> {
    if n.Element? then n.args else None
  }

  /** The `args` of the last node that carries them. */
  function LastArgs(nodes: seq<Node>): Option<Vec3> {
    if nodes == [] then None
    else
      var last := nodes[|nodes| - 1];
      if NodeArgs(last).Some? then NodeArgs(last) else LastArgs(nodes[..|nodes| - 1])
  }

  /** The box dimensions the extractor settles on for one mesh. */
  function GeometryArgs(children: MeshChildren): Vec3 {
    match children
    case NoChildren => UnitBox
    case Many(nodes) => (match LastArgs(nodes) case Some(v) => v case None => UnitBox)
    case One(node) => (match NodeArgs(node) case Some(v) => v case None => UnitBox)
  }

  /** Last writer wins: `LastArgs` finds nothing exactly when no node carries
      `args`, and otherwise returns those of a node that carries them and is
      followed by no node that does. */
  lemma {:induction false} LastArgsWins(nodes: seq<Node>)
    ensures LastArgs(nodes).None? <==> forall i :: 0 <= i < |nodes| ==> NodeArgs(nodes[i]).None?
    ensures LastArgs(nodes).Some? ==>
      exists i :: 0 <= i < |nodes| && NodeArgs(nodes[i]) == LastArgs(nodes)
        && forall j :: i < j < |nodes| ==> NodeArgs(nodes[j]).None?
  {
    if nodes != [] {
      var n := |nodes| - 1;
      var pre := nodes[..n];
      LastArgsWins(pre);
      if NodeArgs(nodes[n]).None? {
        assert forall i :: 0 <= i < n ==> nodes[i] == pre[i];
        if LastArgs(pre).Some? {
          var i :| 0 <= i < |pre| && NodeArgs(pre[i]) == LastArgs(pre)
            && forall j :: i < j < |pre| ==> NodeArgs(pre[j]).None?;
          assert NodeArgs(nodes[i]) == LastArgs(nodes);
        }
      }
    }
  }

  /** The `Children.forEach` search over an array of children: every element
      carrying `args` overwrites the running value, which starts as the unit
      box. */
  method FindGeometryArgs(children: MeshChildren) returns (geometryArgs: Vec3)
    ensures geometryArgs == GeometryArgs(children)
  {
    geometryArgs := UnitBox;
    match children {
      case NoChildren =>
      case Many(nodes) =>
        for i := 0 to |nodes|
          invariant geometryArgs == (match LastArgs(nodes[..i]) case Some(v) => v case None => UnitBox)
        {
          assert nodes[..i + 1][..i] == nodes[..i];
          var node := nodes[i];
          if node.Element? && node.args.Some? {
            geometryArgs := node.args.value;
          }
        }
        assert nodes[..|nodes|] == nodes;
      case One(node) =>
        if node.Element? && node.args.Some? {
          geometryArgs := node.args.value;
        }
    }
  }

  /** The walls of every child mesh, in child order: each child yields the
      four walls of the box at its position with its geometry args; the
      wall options are forwarded unchanged and `sides` is handed on to a
      builder that never reads it. */
  function AutoWalls(meshes: seq<Mesh>, opts: WallOptions, sides: Option<SideMask>): (walls: seq<seq<Wall>>)
    ensures |walls| == |meshes|
    ensures forall i :: 0 <= i < |meshes| ==>
      walls[i] == AW.Walls(PositionOf(meshes[i]), GeometryArgs(meshes[i].children), opts)
    ensures forall i :: 0 <= i < |meshes| ==> |walls[i]| == 4
  {
    seq(|meshes|, i requires 0 <= i < |meshes| =>
      AW.Walls(PositionOf(meshes[i]), GeometryArgs(meshes[i].children), opts))
  }

  /** The side mask changes nothing: every child still gets four walls. */
  lemma SidesIgnored(meshes: seq<Mesh>, opts: WallOptions, s1: Option<SideMask>, s2: Option<SideMask>)
    ensures AutoWalls(meshes, opts, s1) == AutoWalls(meshes, opts, s2)
  {
  }

  /** The options with every prop present, as the extractor hands them on. */
  function Forwarded(o: WallOptions): WallProps {
    WallProps(Some(o.wallHeight), Some(o.wallThickness), Some(o.visible), Some(o.wallColor))
  }

  /** Forwarding is transparent: the box builder applies its own defaults to
      the props it receives, and since the extractor has already applied the
      same defaults and passes every prop, the builder sees exactly the
      extractor's options. */
  lemma ForwardingTransparent(p: WallProps)
    ensures WithDefaults(Forwarded(WithDefaults(p))) == WithDefaults(p)
  {
  }

  /** Example: a mesh whose children are [geometry args (2,1,2), material,
      geometry args (4,1,4)] is walled as a 4 x 1 x 4 box; a mesh with no
      position and no children as the unit box at the origin. */
  lemma ExtractorExamples()
    ensures GeometryArgs(Many([Element(Some(Vec3(2.0, 1.0, 2.0))), Element(None), Element(Some(Vec3(4.0, 1.0, 4.0)))]))
      == Vec3(4.0, 1.0, 4.0)
    ensures GeometryArgs(Many([Element(Some(Vec3(2.0, 1.0, 2.0))), NotElement, Element(None)])) == Vec3(2.0, 1.0, 2.0)
    ensures PositionOf(Mesh(None, NoChildren)) == Origin && GeometryArgs(NoChildren) == UnitBox
  {
    var a := [Element(Some(Vec3(2.0, 1.0, 2.0))), NotElement, Element(None)];
    assert a[..2][..1] == [a[0]];
    assert LastArgs([a[0]]) == Some(Vec3(2.0, 1.0, 2.0));
    assert LastArgs(a[..2]) == LastArgs(a[..2][..1]);
  }
}
