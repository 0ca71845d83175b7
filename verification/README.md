# Air walls of nier-wallpaper, in Dafny

The scenes of nier-wallpaper keep the player on the platforms with *air
walls*: fixed, cuboid rigid bodies standing on the top face of a platform,
fully transparent unless a debug flag shows them half opaque. This project
models the components that compute those walls, and the two heading helpers
the player controller uses to turn smoothly.

- `Geometry` (geometry.dfy): the shared vocabulary. It holds vectors, the emitted
  `Wall` record, the option defaults (height 5, thickness 0.2, hidden, red)
  and the visibility/material rule. It also holds `MathFns`, the runtime's
  `Math.sqrt` and `Math.atan2`, which every function that needs them
  receives as a parameter.
- `AirWalls` (air_walls.dfy): the explicit-box builder. It turns a box
  centre and size into four walls, north, south, east and west, each padded
  by one wall thickness.
- `ConnectedAirWalls` (connected_air_walls.dfy): the segment builder. It
  turns each directed ground-plane segment into one wall centred on it, as
  long as the segment, turned by atan2(dz, dx) about the vertical axis and
  standing on a base elevation.
- `IrregularAirWalls` (irregular_air_walls.dfy): the border partitioner. The
  function `AirWallGroups` specifies the partition: the declared models are
  table keys in insertion order, every border's pushes are applied in
  order, and the models with no segment are dropped. The method
  `PartitionBorders` performs it as the component does (a `Map` filled by
  `forEach`, a pair loop per border, the closing edge, the final filter) and
  is proved equal to it.
- `AutoAirWalls` (auto_air_walls.dfy): the prop extractor. For each child mesh
  it takes the position prop and the `args` of the last element among its
  children that carries `args`, whatever kind of element it is. It falls
  back to the origin and the unit box, and builds the box walls.
- `PlayerAngles` (angles.dfy): `normalizeAngle` and `lerpAngle`, as loop
  methods proved equal to recursive specification functions.
- `Scene2` (scene2.dfy): the two-platform scene's models and border worked
  through the partitioner, down to the exact segment lists.

The JavaScript `Map` of the partitioner is modelled by its key list (in
insertion order) together with a Dafny `map`. Numbers are Dafny `real`s, and
`Math.PI` is the decimal 3.141592653589793.

## Model

| member | source | states |
|---|---|---|
| Geometry.WithDefaults | src/components/custom/AirWalls.tsx:27-34 | an omitted prop takes its default (height 5, thickness 0.2, hidden, "red"); a given prop is kept as given |
| Geometry.WallMaterial | src/components/custom/AirWalls.tsx:76-80 | the colour is the wall colour; the material is transparent exactly when hidden, exactly when its opacity is 0; a shown wall has opacity 0.5 |
| AirWalls.SideWall | src/components/custom/AirWalls.tsx:39-62 | every wall is unrotated, as tall as the wall height, stands on the top face of the box, and wears the shared material; north and south walls are centred on x, at z plus or minus half the depth, sized (width + thickness, height, thickness); east and west walls are centred on z, at x plus or minus half the width, sized (thickness, height, depth + thickness) |
| AirWalls.Walls | src/components/custom/AirWalls.tsx:35-63 | exactly four walls, in the order north, south, east, west, all standing on the top face |
| AirWalls.CornersMeet | src/components/custom/AirWalls.tsx:42-63 | at each of the four corners the outer faces of the two meeting walls are flush in x and in z |
| AirWalls.OutlineCovered | src/components/custom/AirWalls.tsx:42-63 | with a non-negative thickness every point of the top face's outline, corners included, lies under some wall |
| AirWalls.OppositeWallsMirror | src/components/custom/AirWalls.tsx:42-63 | north/south and east/west are mirror pairs of equal size about the box centre, as far apart as the box is deep or wide |
| AirWalls.VisibilityKeepsColliders | src/components/custom/AirWalls.tsx:65-83 | showing or hiding the walls changes no position, rotation or size |
| ConnectedAirWalls.SegmentHeight | src/components/custom/ConnectedAirWalls.tsx:48 | a non-zero override wins; an omitted override or an override of 0 falls back to the wall height |
| ConnectedAirWalls.SegmentWall | src/components/custom/ConnectedAirWalls.tsx:45-81 | the wall is centred on the segment's midpoint, its bottom at the base elevation; it is as long as the segment and as thick as the wall thickness; it is turned by atan2 of the segment's direction about the vertical axis only |
| ConnectedAirWalls.Walls | src/components/custom/ConnectedAirWalls.tsx:45-81 | one wall per segment, in segment order |
| ConnectedAirWalls.LengthProperties | src/components/custom/ConnectedAirWalls.tsx:55 | for an exact square root the length is non-negative and zero exactly when the ends coincide; it does not depend on direction |
| ConnectedAirWalls.ReversedWallCoincides | src/components/custom/ConnectedAirWalls.tsx:50-72 | a segment and its reverse give walls of the same centre, size and material |
| ConnectedAirWalls.AxisAlignedLength | src/components/custom/ConnectedAirWalls.tsx:55 | an axis-aligned 5-unit segment gives a wall of length 5 along either axis |
| IrregularAirWalls.DeclaredIdsMembership | src/components/custom/IrregularAirWalls.tsx:75-77 | the key list, the table's keys and the declared ids are the same set |
| IrregularAirWalls.DeclaredIdsDistinct | src/components/custom/IrregularAirWalls.tsx:75-77 | declaring an id again does not repeat it among the keys |
| IrregularAirWalls.DeclaredIdsOrder | src/components/custom/IrregularAirWalls.tsx:75-77 | the keys are in order of first declaration |
| IrregularAirWalls.InitialTableEntries | src/components/custom/IrregularAirWalls.tsx:75-77 | every model starts with no segment and the elevation of its last declaration |
| IrregularAirWalls.DeclareModels | src/components/custom/IrregularAirWalls.tsx:75-77 | the loop yields the key list and the table of the specification |
| IrregularAirWalls.PairsAppendsFacts | src/components/custom/IrregularAirWalls.tsx:87-123 | n pairs perform n pushes plus one per cross-model pair; each push carries the border's own height and names a model of the border |
| IrregularAirWalls.BorderAppendsShape | src/components/custom/IrregularAirWalls.tsx:80-141 | a border performs (points - 1) + (cross-model pairs) + (1 if closed) pushes, each with the border's height; a closed border's last push is the edge from the last point to the first, for the first point's model |
| IrregularAirWalls.PairsAppendsAt | src/components/custom/IrregularAirWalls.tsx:87-123 | pair i is pushed at position i + (earlier cross pairs): A to B for A's model, then, for a cross pair, B to A for B's model |
| IrregularAirWalls.PairAppendsAt | src/components/custom/IrregularAirWalls.tsx:80-141 | the same positions within all the pushes of the border |
| IrregularAirWalls.ApplyAppendsSpec | src/components/custom/IrregularAirWalls.tsx:94-138 | pushing adds or removes no model; each declared model gains exactly the pushes that name it, in order; a push naming an undeclared id is skipped |
| IrregularAirWalls.SegmentsForConcat | src/components/custom/IrregularAirWalls.tsx:80-141 | what a model receives from two runs of pushes is the first run's segments followed by the second's |
| IrregularAirWalls.PairContribution | src/components/custom/IrregularAirWalls.tsx:91-122 | a same-model pair gives its model A to B and nobody else anything; a cross pair gives A's model A to B and B's model B to A |
| IrregularAirWalls.PairsSegmentsStep | src/components/custom/IrregularAirWalls.tsx:87-123 | seen by one model, each loop iteration appends exactly that pair's contribution |
| IrregularAirWalls.AllPushesDelivered | src/components/custom/IrregularAirWalls.tsx:94-138 | when every pushed id is declared, the models together gain one segment per push |
| IrregularAirWalls.BorderSegmentTotal | src/components/custom/IrregularAirWalls.tsx:80-141 | a border whose points all name declared models adds (points - 1) + (cross pairs) + (1 if closed) segments in total |
| IrregularAirWalls.NonEmptyGroups | src/components/custom/IrregularAirWalls.tsx:144-161 | every group is a listed model with its table elevation and its non-empty segment list; every listed model with segments has a group; groups keep the key order |
| IrregularAirWalls.SubsequenceKeepsOrder | src/components/custom/IrregularAirWalls.tsx:144-161 | dropping models keeps the remaining ones in declaration order |
| IrregularAirWalls.AirWallGroupsSpec | src/components/custom/IrregularAirWalls.tsx:70-162 | the groups are exactly the declared models that receive a segment; each holds all pushes naming it, in order, and the elevation of its last declaration; groups come in order of first declaration |
| IrregularAirWalls.PushSegment | src/components/custom/IrregularAirWalls.tsx:94-101 | `get` then `push`: the table gains the segment on a declared model and is unchanged otherwise |
| IrregularAirWalls.ApplyPair | src/components/custom/IrregularAirWalls.tsx:91-122 | a pair's pushes are one push for a same-model pair, two for a cross pair |
| IrregularAirWalls.AddPair | src/components/custom/IrregularAirWalls.tsx:88-122 | one iteration of the pair loop applies exactly that pair's pushes |
| IrregularAirWalls.AddBorder | src/components/custom/IrregularAirWalls.tsx:80-141 | one border's loop and closing edge apply exactly the border's pushes; fewer than two points change nothing |
| IrregularAirWalls.PartitionBorders | src/components/custom/IrregularAirWalls.tsx:70-162 | the component's imperative partition equals the specification `AirWallGroups` |
| IrregularAirWalls.IrregularWalls | src/components/custom/IrregularAirWalls.tsx:144-161 | one wall list per group, never empty; wall i of a group is the segment wall of its segment i, built on the group's elevation with the component's height, thickness, visibility and colour |
| IrregularAirWalls.BordersAppendsHeight | src/components/custom/IrregularAirWalls.tsx:96-136 | when every border has the same height override, every push of the borders carries it |
| IrregularAirWalls.SegmentsForHeight | src/components/custom/IrregularAirWalls.tsx:94-138 | a model receives only segments that some push carries, so with one height on every push each received segment has it |
| IrregularAirWalls.UniformHeightWalls | src/components/custom/IrregularAirWalls.tsx:144-161 | when no border overrides the height, every wall is as tall as the component's height and as thick as its thickness, is centred half that height above its model's elevation, and wears the component's material |
| AutoAirWalls.PositionOf | src/components/custom/AutoAirWalls.tsx:52 | the position prop when given, the origin otherwise |
| AutoAirWalls.LastArgsWins | src/components/custom/AutoAirWalls.tsx:61-69 | no args are found exactly when no element carries them; otherwise the args found are those of an element followed by no element carrying args |
| AutoAirWalls.FindGeometryArgs | src/components/custom/AutoAirWalls.tsx:55-78 | the loop settles on the args of the last element that carries them among an array of children, a single element's args, or the unit box |
| AutoAirWalls.AutoWalls | src/components/custom/AutoAirWalls.tsx:48-94 | one group of four box walls per child mesh, in child order, at its position with its geometry args |
| AutoAirWalls.SidesIgnored | src/components/custom/AutoAirWalls.tsx:80-91 | the side mask handed on changes no wall |
| AutoAirWalls.ForwardingTransparent | src/components/custom/AutoAirWalls.tsx:82-90 | the box builder sees exactly the extractor's options once its own defaults are applied to the forwarded props |
| AutoAirWalls.ExtractorExamples | src/components/custom/AutoAirWalls.tsx:58-78 | [args 2x1x2, material, args 4x1x4] gives 4x1x4; an element without args does not reset earlier args; no children gives the unit box at the origin |
| PlayerAngles.WrapDownFacts | src/components/player/page.tsx:9 | the first loop ends at or below PI, moves by whole turns only, stays above -PI when it ran, and does nothing on an angle at or below PI |
| PlayerAngles.WrapUpFacts | src/components/player/page.tsx:10 | from at most PI the second loop ends in [-PI, PI], moves by whole turns only, and does nothing on an angle at or above -PI |
| PlayerAngles.NormalizeFacts | src/components/player/page.tsx:8-12 | the result lies in [-PI, PI], differs from the input by whole turns, equals an input already in range, and normalizing twice changes nothing |
| PlayerAngles.NormalizeTurnInvariant | src/components/player/page.tsx:8-12 | adding whole turns to the input gives the same result, up to the choice between -PI and PI |
| PlayerAngles.NormalizeAngle | src/components/player/page.tsx:8-12 | the two loops compute the specification `Normalize` |
| PlayerAngles.UnwrapShortArc | src/components/player/page.tsx:18-24 | after unwrapping, the headings are at most PI apart, each moved by zero or one turn, and their difference is the shortest of all differences up to whole turns |
| PlayerAngles.InterpolateInRange | src/components/player/page.tsx:26 | the interpolated heading lies in [-PI, PI] |
| PlayerAngles.LerpInRange | src/components/player/page.tsx:14-27 | `lerpAngle` always returns a heading in [-PI, PI] |
| PlayerAngles.UnwrapTurns | src/components/player/page.tsx:15-24 | each unwrapped heading is its raw input plus whole turns |
| PlayerAngles.LerpAtZero | src/components/player/page.tsx:14-27 | at t = 0 the result is the start heading up to whole turns |
| PlayerAngles.LerpAtOne | src/components/player/page.tsx:14-27 | at t = 1 the result is the end heading up to whole turns |
| PlayerAngles.LerpShortWayExample | src/components/player/page.tsx:14-27 | halfway from 3 to -3 radians is PI, the short way across the back, not 0 |
| PlayerAngles.LerpAngle | src/components/player/page.tsx:14-27 | the method computes the specification `Lerp` |
| Scene2.Scene2Border | src/components/scene/scene2/page.tsx:21-49 | the scene's border is the eleven listed points |
| Scene2.Scene2Declarations | src/components/scene/scene2/page.tsx:15-18 | the keys are modelA then modelB, both at elevation 0 with no segment |
| Scene2.Scene2Appends | src/components/scene/scene2/page.tsx:21-49 | the scene's pushes are those of its ten pairs followed by its closing edge |
| Scene2.Scene2SegmentsA | src/components/scene/scene2/page.tsx:21-49 | platform A receives exactly eight segments, listed in order |
| Scene2.Scene2SegmentsB | src/components/scene/scene2/page.tsx:21-49 | platform B receives exactly five segments, listed in order |
| Scene2.Scene2Partition | src/components/scene/scene2/page.tsx:21-49 | the partition is the group of A with its eight segments then the group of B with its five, both at elevation 0 |
| Scene2.Scene2Walls | src/components/scene/scene2/page.tsx:51-58 | the scene renders 8 walls on platform A and 5 on platform B, all standing at elevation 0 |
| Scene2.Scene2WallSizes | src/components/scene/scene2/page.tsx:53-59 | with the scene's options (height 3, red) every wall is 3 tall, 0.2 thick, centred 1.5 above the platforms, and wears the red material, shown or hidden |

## Left out

- `AirWallsWrapper`, the React rendering itself (JSX, `RigidBody`, `cloneElement`, keys, `useMemo` caching) and the rendering of the children are not modelled. A wall is modelled as the record of what would be rendered.
- `Math.sqrt` and `Math.atan2` are parameters. Lemmas about lengths assume `ExactSqrt`, an exact non-negative square root. Nothing is proved about the heading a wall gets beyond its being the runtime's `atan2(dz, dx)` of the segment's direction, used as the rotation about the vertical axis. Whether that rotation lines the box up with the segment depends on the renderer's Euler convention, which is not modelled: under Three.js's convention a positive rotation about y turns +x towards -z, so only axis-aligned segments are followed, and a diagonal wall lies mirrored across the x axis.
- Floating-point arithmetic is not modelled: numbers are exact reals with no rounding, NaN or infinities. Among falsy numbers only a segment height of 0 is modelled, since `segment.height || wallHeight` treats it as missing.
- PlayerAngles.NormalizeAngle: the loops are modelled with exact reals, so they always terminate. With doubles they do not always: an infinite angle loops forever, and so does a finite one of magnitude more than 2^56, where subtracting 2*PI rounds back to the same value. A NaN angle is returned as is. A large angle takes about |angle| / (2*PI) iterations; the model does not count them.
- AutoAirWalls.AutoWalls: a `null`, boolean, string or number entry among the component's children reaches the `Children.map` callback, where `child.props` (on `null`) or `childProps.position` (on the others, whose `props` is undefined) then throws. A child is modelled as a `Mesh` record, so this crash path is not modelled.
- AutoAirWalls.FindGeometryArgs: children arrays nested inside the array, which `Children.forEach` flattens, are not modelled. Nor are fragments, `args` of the wrong length, or a non-array `position`.
- AutoAirWalls.AutoWalls: the side mask is handed on to `AirWalls`, and `AirWalls` reads no such prop. The model follows the code: four walls always. A per-side mask, with omitted keys meaning included, is not part of this model. Neither is a bounding-box traversal with a name filter or a margin: the code reads props, not a scene graph.
- The `modelMap` of `IrregularAirWalls`, which is built but never read, is not modelled.
- The rest of the player (input, physics, animation, camera), the background effects, `App`, scene1 and the Vite configuration are not part of this model.
