/** The polygonal border partitioner. Declared models (platforms) each own a
    list of directed segments; every border is a polyline of points, each
    point naming the model it belongs to. Consecutive points of one model give
    that model one segment; consecutive points of two models give each model
    its own copy of the edge, the second one reversed; a border of more than
    two points whose first and last points share a model is closed. Models
    that end up with no segment get no walls. */
module IrregularAirWalls {
  import opened Geometry
  import CW = ConnectedAirWalls

  type ModelId = string
  type Segment = CW.Segment

  datatype ModelConfig = ModelConfig(id: ModelId, topY: real)
  datatype ConnectionPoint = ConnectionPoint(modelId: ModelId, point: Point2)
  datatype BorderConnection = BorderConnection(points: seq<ConnectionPoint>, wallHeight: Option<real>)

  /** The value the per-model table holds: base elevation and segments so far. */
  datatype ModelSegments = ModelSegments(baseY: real, segments: seq<Segment>)

  /** The per-model input of one ConnectedAirWalls group. */
  datatype WallGroup = WallGroup(id: ModelId, baseY: real, segments: seq<Segment>)

  /** One push the border loop performs: append `segment` to the list of
      model `id`, provided that model is declared. */
  datatype Append = Append(id: ModelId, segment: Segment)

  predicate NoDuplicates<T(==)>(s: seq<T>) {
    forall j, k :: 0 <= j < k < |s| ==> s[j] != s[k]
  }

  // ---------------------------------------------------------------------
  // Declarations: the table after every model has been entered
  // ---------------------------------------------------------------------

  ghost predicate Declared(models: seq<ModelConfig>, id: ModelId) {
    exists i :: 0 <= i < |models| && models[i].id == id
  }

  /** models[i] is the last configuration declaring its id. */
  ghost predicate LastDeclaration(models: seq<ModelConfig>, i: int)
    requires 0 <= i < |models|
  {
    forall j :: i < j < |models| ==> models[j].id != models[i].id
  }

  /** Model `a` is declared before model `b` is first declared. */
  ghost predicate DeclaredBefore(models: seq<ModelConfig>, a: ModelId, b: ModelId) {
    exists i :: 0 <= i < |models| && models[i].id == a && forall j :: 0 <= j <= i ==> models[j].id != b
  }

  /** The table's keys in insertion order: re-entering an id keeps its place. */
  function DeclaredIds(models: seq<ModelConfig>): seq<ModelId> {
    if models == [] then []
    else
      var ids := DeclaredIds(models[..|models| - 1]);
      var id := models[|models| - 1].id;
      if id in ids then ids else ids + [id]
  }

  /** The table after entering every model with an empty segment list;
      re-entering an id replaces its entry. */
  function InitialTable(models: seq<ModelConfig>): map<ModelId, ModelSegments> {
    if models == [] then map[]
    else
      var m := models[|models| - 1];
      InitialTable(models[..|models| - 1])[m.id := ModelSegments(m.topY, [])]
  }

  /** The initial table holds exactly the declared ids, and so does its key list. */
  lemma {:induction false} DeclaredIdsMembership(models: seq<ModelConfig>)
    ensures forall id :: id in DeclaredIds(models) <==> id in InitialTable(models)
    ensures forall id :: id in DeclaredIds(models) <==> Declared(models, id)
  {
    if models != [] {
      var n := |models| - 1;
      var pre := models[..n];
      DeclaredIdsMembership(pre);
      forall id
        ensures Declared(models, id) <==> Declared(pre, id) || id == models[n].id
      {
        if Declared(models, id) {
          var i :| 0 <= i < |models| && models[i].id == id;
          if i < n {
            assert pre[i] == models[i];
          }
        }
        if Declared(pre, id) {
          var i :| 0 <= i < |pre| && pre[i].id == id;
          assert models[i] == pre[i];
        }
      }
    }
  }

  /** Re-entering an id does not repeat it in the key list. */
  lemma {:induction false} DeclaredIdsDistinct(models: seq<ModelConfig>)
    ensures NoDuplicates(DeclaredIds(models))
  {
    if models != [] {
      DeclaredIdsDistinct(models[..|models| - 1]);
    }
  }

  /** The key list is in order of first declaration. */
  lemma {:induction false} DeclaredIdsOrder(models: seq<ModelConfig>)
    ensures forall j, k :: 0 <= j < k < |DeclaredIds(models)| ==>
              DeclaredBefore(models, DeclaredIds(models)[j], DeclaredIds(models)[k])
  {
    if models != [] {
      var n := |models| - 1;
      var pre := models[..n];
      DeclaredIdsOrder(pre);
      DeclaredIdsMembership(pre);
      var ids, ids' := DeclaredIds(pre), DeclaredIds(models);
      forall j, k | 0 <= j < k < |ids'|
        ensures DeclaredBefore(models, ids'[j], ids'[k])
      {
        var a, b := ids'[j], ids'[k];
        var i: int;
        if k < |ids| {
          assert DeclaredBefore(pre, a, b);
          i :| 0 <= i < |pre| && pre[i].id == a && forall j' :: 0 <= j' <= i ==> pre[j'].id != b;
        } else {
          assert b == models[n].id && !Declared(pre, b);
          assert a in ids;
          i :| 0 <= i < |pre| && pre[i].id == a;
        }
        assert models[i] == pre[i];
        forall j' | 0 <= j' <= i
          ensures models[j'].id != b
        {
          assert models[j'] == pre[j'];
        }
      }
    }
  }

  /** Each declared model starts with no segment and the elevation of its
      LAST declaration: a later configuration overwrites an earlier one. */
  lemma {:induction false} InitialTableEntries(models: seq<ModelConfig>)
    ensures forall i :: 0 <= i < |models| && LastDeclaration(models, i) ==>
              models[i].id in InitialTable(models)
              && InitialTable(models)[models[i].id] == ModelSegments(models[i].topY, [])
  {
    if models != [] {
      var n := |models| - 1;
      var pre := models[..n];
      InitialTableEntries(pre);
      forall i | 0 <= i < |models| && LastDeclaration(models, i)
        ensures models[i].id in InitialTable(models)
        ensures InitialTable(models)[models[i].id] == ModelSegments(models[i].topY, [])
      {
        if i < n {
          assert models[i] == pre[i];
          assert models[n].id != models[i].id;
          forall j | i < j < |pre|
            ensures pre[j].id != pre[i].id
          {
            assert pre[j] == models[j];
          }
        }
      }
    }
  }

  // ---------------------------------------------------------------------
  // Borders: the pushes every border performs, in order
  // ---------------------------------------------------------------------

  /** The pushes for one consecutive pair of points. */
  function PairAppends(a: ConnectionPoint, b: ConnectionPoint, h: Option<real>): seq<Append> {
    if a.modelId != b.modelId then
      [Append(a.modelId, CW.Segment(a.point, b.point, h)), Append(b.modelId, CW.Segment(b.point, a.point, h))]
    else
      [Append(a.modelId, CW.Segment(a.point, b.point, h))]
  }

  /** The pushes of the first n consecutive pairs of `points`. */
  function PairsAppends(points: seq<ConnectionPoint>, h: Option<real>, n: nat): seq<Append>
    requires n == 0 || n < |points|
  {
    if n == 0 then [] else PairsAppends(points, h, n - 1) + PairAppends(points[n - 1], points[n], h)
  }

  /** The border is closed: more than two points, first and last on one model. */
  predicate Closes(points: seq<ConnectionPoint>) {
    |points| > 2 && points[0].modelId == points[|points| - 1].modelId
  }

  function ClosingAppends(points: seq<ConnectionPoint>, h: Option<real>): seq<Append> {
    if Closes(points) then
      [Append(points[0].modelId, CW.Segment(points[|points| - 1].point, points[0].point, h))]
    else []
  }

  /** Every push one border performs; a border of fewer than two points performs none. */
  function BorderAppends(border: BorderConnection): seq<Append> {
    if |border.points| < 2 then []
    else PairsAppends(border.points, border.wallHeight, |border.points| - 1) + ClosingAppends(border.points, border.wallHeight)
  }

  function BordersAppends(borders: seq<BorderConnection>): seq<Append> {
    if borders == [] then []
    else BordersAppends(borders[..|borders| - 1]) + BorderAppends(borders[|borders| - 1])
  }

  /** `table.get(id)?.segments.push(segment)`: an undeclared id is skipped. */
  function AppendSegment(table: map<ModelId, ModelSegments>, a: Append): map<ModelId, ModelSegments> {
    if a.id in table then table[a.id := table[a.id].(segments := table[a.id].segments + [a.segment])]
    else table
  }

  function ApplyAppends(table: map<ModelId, ModelSegments>, appends: seq<Append>): map<ModelId, ModelSegments> {
    if appends == [] then table
    else AppendSegment(ApplyAppends(table, appends[..|appends| - 1]), appends[|appends| - 1])
  }

  /** The segments of the pushes naming `id`, in push order. */
  function SegmentsFor(appends: seq<Append>, id: ModelId): seq<Segment> {
    if appends == [] then []
    else
      var last := appends[|appends| - 1];
      SegmentsFor(appends[..|appends| - 1], id) + (if last.id == id then [last.segment] else [])
  }

  /** Number of pairs among the first n whose two points lie on different models. */
  function CrossPairs(points: seq<ConnectionPoint>, n: nat): nat
    requires n == 0 || n < |points|
  {
    if n == 0 then 0
    else CrossPairs(points, n - 1) + (if points[n - 1].modelId != points[n].modelId then 1 else 0)
  }

  function PointIds(points: seq<ConnectionPoint>): set<ModelId> {
    set p <- points :: p.modelId
  }

  /** How many segments a border of n points contributes:
      (n - 1) + (cross-model pairs) + (1 if closed), none below two points. */
  function ExpectedSegments(border: BorderConnection): nat {
    var n := |border.points|;
    if n < 2 then 0
    else (n - 1) + CrossPairs(border.points, n - 1) + (if Closes(border.points) then 1 else 0)
  }

  lemma ApplySnoc(table: map<ModelId, ModelSegments>, appends: seq<Append>, a: Append)
    ensures ApplyAppends(table, appends + [a]) == AppendSegment(ApplyAppends(table, appends), a)
  {
    assert (appends + [a])[..|appends|] == appends;
  }

  /** The pushes of the first n pairs: one per pair plus one per cross-model
      pair, all carrying the border's own height and naming a model of the border. */
  lemma {:induction false} PairsAppendsFacts(points: seq<ConnectionPoint>, h: Option<real>, n: nat)
    requires n == 0 || n < |points|
    ensures |PairsAppends(points, h, n)| == n + CrossPairs(points, n)
    ensures forall a <- PairsAppends(points, h, n) :: a.segment.height == h && a.id in PointIds(points)
  {
    if n > 0 {
      PairsAppendsFacts(points, h, n - 1);
      assert points[n - 1] in points && points[n] in points;
    }
  }

  /** A shorter run of pairs is a prefix of a longer one. */
  lemma {:induction false} PairsAppendsPrefix(points: seq<ConnectionPoint>, h: Option<real>, m: nat, n: nat)
    requires m <= n && (n == 0 || n < |points|)
    ensures |PairsAppends(points, h, m)| <= |PairsAppends(points, h, n)|
    ensures PairsAppends(points, h, n)[..|PairsAppends(points, h, m)|] == PairsAppends(points, h, m)
  {
    if m < n {
      PairsAppendsPrefix(points, h, m, n - 1);
      var short, mid := PairsAppends(points, h, m), PairsAppends(points, h, n - 1);
      assert PairsAppends(points, h, n) == mid + PairAppends(points[n - 1], points[n], h);
      assert PairsAppends(points, h, n)[..|short|] == mid[..|short|];
    }
  }

  /** The border's push count is (n - 1) + (cross-model pairs) + (1 if closed);
      every push carries the border's own optional height, never a default,
      and names a model of the border; a closed border's last push is the
      closing edge last -> first on the first point's model. */
  lemma {:induction false} BorderAppendsShape(border: BorderConnection)
    ensures |BorderAppends(border)| == ExpectedSegments(border)
    ensures forall a <- BorderAppends(border) :: a.segment.height == border.wallHeight && a.id in PointIds(border.points)
    ensures Closes(border.points) ==>
      var points := border.points;
      BorderAppends(border)[|BorderAppends(border)| - 1]
        == Append(points[0].modelId, CW.Segment(points[|points| - 1].point, points[0].point, border.wallHeight))
  {
    var points := border.points;
    if |points| >= 2 {
      PairsAppendsFacts(points, border.wallHeight, |points| - 1);
      assert points[0] in points;
    }
  }

  /** Pair i of a border (points i and i + 1) is pushed at position
      k = i + (cross-model pairs before it): segment A -> B onto A's model and,
      when B lies on another model, the reversed copy B -> A onto B's model
      right after it, both with the border's height. */
  lemma PairAppendsAt(border: BorderConnection, i: nat)
    requires i + 1 < |border.points|
    ensures var points, h := border.points, border.wallHeight;
      var a, b := points[i], points[i + 1];
      var k := i + CrossPairs(points, i);
      var appends := BorderAppends(border);
      && k < |appends|
      && appends[k] == Append(a.modelId, CW.Segment(a.point, b.point, h))
      && (a.modelId != b.modelId ==>
            k + 1 < |appends| && appends[k + 1] == Append(b.modelId, CW.Segment(b.point, a.point, h)))
  {
    var points, h := border.points, border.wallHeight;
    var n := |points| - 1;
    PairsAppendsAt(points, h, i, n);
    var pairs := PairsAppends(points, h, n);
    assert BorderAppends(border) == pairs + ClosingAppends(points, h);
    assert BorderAppends(border)[..|pairs|] == pairs;
  }

  /** `PairAppendsAt` for the pushes of the first n pairs alone. */
  lemma PairsAppendsAt(points: seq<ConnectionPoint>, h: Option<real>, i: nat, n: nat)
    requires i < n < |points|
    ensures var a, b := points[i], points[i + 1];
      var k := i + CrossPairs(points, i);
      var pairs := PairsAppends(points, h, n);
      && k < |pairs|
      && pairs[k] == Append(a.modelId, CW.Segment(a.point, b.point, h))
      && (a.modelId != b.modelId ==>
            k + 1 < |pairs| && pairs[k + 1] == Append(b.modelId, CW.Segment(b.point, a.point, h)))
  {
    PairsAppendsPrefix(points, h, i + 1, n);
    PairsAppendsFacts(points, h, i);
    var pre, pair := PairsAppends(points, h, i), PairAppends(points[i], points[i + 1], h);
    var upto := PairsAppends(points, h, i + 1);
    assert upto == pre + pair;
    var pairs := PairsAppends(points, h, n);
    assert forall j :: |pre| <= j < |upto| ==> pairs[j] == pair[j - |pre|] by {
      forall j | |pre| <= j < |upto| ensures pairs[j] == pair[j - |pre|] {
        assert pairs[j] == pairs[..|upto|][j];
      }
    }
  }

  // ---------------------------------------------------------------------
  // Effect of the pushes on the table
  // ---------------------------------------------------------------------

  /** Pushing never adds or removes a model, and each declared model's list
      grows by exactly the pushes naming it, in order: a push naming an
      undeclared id changes nothing, and processing carries on after it. */
  lemma {:induction false} ApplyAppendsSpec(table: map<ModelId, ModelSegments>, appends: seq<Append>)
    ensures ApplyAppends(table, appends).Keys == table.Keys
    ensures forall id :: id in table ==>
      ApplyAppends(table, appends)[id] == table[id].(segments := table[id].segments + SegmentsFor(appends, id))
  {
    if appends != [] {
      var pre, last := appends[..|appends| - 1], appends[|appends| - 1];
      ApplyAppendsSpec(table, pre);
      forall id | id in table
        ensures ApplyAppends(table, appends)[id] == table[id].(segments := table[id].segments + SegmentsFor(appends, id))
      {
        var extra := if last.id == id then [last.segment] else [];
        assert SegmentsFor(appends, id) == SegmentsFor(pre, id) + extra;
        assert table[id].segments + SegmentsFor(pre, id) + extra == table[id].segments + (SegmentsFor(pre, id) + extra);
      }
    }
  }

  /** Pushes are processed in order: the segments a model receives from two
      runs of pushes are those of the first run followed by those of the second. */
  lemma {:induction false} SegmentsForConcat(xs: seq<Append>, ys: seq<Append>, id: ModelId)
    ensures SegmentsFor(xs + ys, id) == SegmentsFor(xs, id) + SegmentsFor(ys, id)
    decreases |ys|
  {
    if ys == [] {
      assert xs + ys == xs;
    } else {
      var pre, last := ys[..|ys| - 1], ys[|ys| - 1];
      SegmentsForConcat(xs, pre, id);
      assert (xs + ys)[..|xs + ys| - 1] == xs + pre;
    }
  }

  /** What one consecutive pair gives a model: a same-model pair gives its
      model the segment A -> B and nobody else anything; a cross-model pair
      gives A's model A -> B and B's model the reversed B -> A. */
  lemma PairContribution(a: ConnectionPoint, b: ConnectionPoint, h: Option<real>, id: ModelId)
    ensures SegmentsFor(PairAppends(a, b, h), id)
      == (if a.modelId == id then [CW.Segment(a.point, b.point, h)] else [])
       + (if a.modelId != b.modelId && b.modelId == id then [CW.Segment(b.point, a.point, h)] else [])
  {
    var appends := PairAppends(a, b, h);
    if a.modelId != b.modelId {
      assert appends[..1][..0] == [];
      assert appends[..1] == [appends[0]];
      assert SegmentsFor(appends[..1], id) == (if a.modelId == id then [CW.Segment(a.point, b.point, h)] else []);
    } else {
      assert appends[..0] == [];
    }
  }

  /** The pair loop, one iteration at a time, as seen by one model: after n
      pairs it holds what it held after n - 1 pairs plus what the n-th pair
      gives it. */
  lemma PairsSegmentsStep(points: seq<ConnectionPoint>, h: Option<real>, n: nat, id: ModelId)
    requires 1 <= n < |points|
    ensures var a, b := points[n - 1], points[n];
      SegmentsFor(PairsAppends(points, h, n), id)
      == SegmentsFor(PairsAppends(points, h, n - 1), id)
       + (if a.modelId == id then [CW.Segment(a.point, b.point, h)] else [])
       + (if a.modelId != b.modelId && b.modelId == id then [CW.Segment(b.point, a.point, h)] else [])
  {
    SegmentsForConcat(PairsAppends(points, h, n - 1), PairAppends(points[n - 1], points[n], h), id);
    PairContribution(points[n - 1], points[n], h, id);
  }

  /** Total number of segments held by the models `ids`. */
  function SegmentCount(table: map<ModelId, ModelSegments>, ids: seq<ModelId>): nat {
    if ids == [] then 0
    else (if ids[0] in table then |table[ids[0]].segments| else 0) + SegmentCount(table, ids[1..])
  }

  lemma {:induction false} AppendCountsOnce(table: map<ModelId, ModelSegments>, ids: seq<ModelId>, a: Append)
    requires NoDuplicates(ids)
    ensures SegmentCount(AppendSegment(table, a), ids)
      == SegmentCount(table, ids) + (if a.id in table && a.id in ids then 1 else 0)
  {
    if ids != [] {
      assert NoDuplicates(ids[1..]) by {
        forall j, k | 0 <= j < k < |ids[1..]| ensures ids[1..][j] != ids[1..][k] {
          assert ids[1..][j] == ids[j + 1] && ids[1..][k] == ids[k + 1];
        }
      }
      AppendCountsOnce(table, ids[1..], a);
      if ids[0] == a.id {
        assert a.id !in ids[1..] by {
          forall k | 0 <= k < |ids[1..]| ensures ids[1..][k] != a.id {
            assert ids[1..][k] == ids[k + 1];
          }
        }
      }
      assert a.id in ids <==> a.id == ids[0] || a.id in ids[1..];
    }
  }

  /** When every pushed id is declared and listed once in `ids`, the models
      of `ids` together gain exactly one segment per push. */
  lemma {:induction false} AllPushesDelivered(table: map<ModelId, ModelSegments>, ids: seq<ModelId>, appends: seq<Append>)
    requires NoDuplicates(ids)
    requires forall a <- appends :: a.id in ids && a.id in table
    ensures SegmentCount(ApplyAppends(table, appends), ids) == SegmentCount(table, ids) + |appends|
  {
    if appends != [] {
      var pre, last := appends[..|appends| - 1], appends[|appends| - 1];
      assert forall a <- pre :: a in appends;
      AllPushesDelivered(table, ids, pre);
      ApplyAppendsSpec(table, pre);
      assert last in appends;
      AppendCountsOnce(ApplyAppends(table, pre), ids, last);
    }
  }

  /** With every model of the border declared, the border adds in total
      (n - 1) + (cross-model pairs) + (1 if closed) segments. */
  lemma BorderSegmentTotal(table: map<ModelId, ModelSegments>, ids: seq<ModelId>, border: BorderConnection)
    requires NoDuplicates(ids)
    requires forall id :: id in table <==> id in ids
    requires forall p <- border.points :: p.modelId in table
    ensures SegmentCount(ApplyAppends(table, BorderAppends(border)), ids) == SegmentCount(table, ids) + ExpectedSegments(border)
  {
    BorderAppendsShape(border);
    AllPushesDelivered(table, ids, BorderAppends(border));
  }

  // ---------------------------------------------------------------------
  // The groups handed to ConnectedAirWalls
  // ---------------------------------------------------------------------

  function GroupIds(groups: seq<WallGroup>): seq<ModelId> {
    seq(|groups|, k requires 0 <= k < |groups| => groups[k].id)
  }

  /** xs can be obtained from ys by deleting elements. */
  predicate Subsequence<T(==)>(xs: seq<T>, ys: seq<T>) {
    if xs == [] then true
    else if ys == [] then false
    else if xs[0] == ys[0] then Subsequence(xs[1..], ys[1..])
    else Subsequence(xs, ys[1..])
  }

  /** The final `map(...).filter(Boolean)`: one group per model with at least
      one segment, carrying that model's elevation and segments, in table order. */
  function NonEmptyGroups(ids: seq<ModelId>, table: map<ModelId, ModelSegments>): (groups: seq<WallGroup>)
    requires NoDuplicates(ids)
    ensures forall g <- groups :: g.id in ids && g.id in table && g.segments != []
              && g.baseY == table[g.id].baseY && g.segments == table[g.id].segments
    ensures forall id <- ids :: id in table && table[id].segments != [] ==> exists g <- groups :: g.id == id
    ensures Subsequence(GroupIds(groups), ids)
  {
    if ids == [] then []
    else
      NoDuplicatesTail(ids);
      var rest := NonEmptyGroups(ids[1..], table);
      var id := ids[0];
      if id in table && table[id].segments != [] then
        var groups := [WallGroup(id, table[id].baseY, table[id].segments)] + rest;
        GroupIdsCons(groups);
        groups
      else
        rest
  }

  lemma NoDuplicatesTail(ids: seq<ModelId>)
    requires NoDuplicates(ids) && ids != []
    ensures NoDuplicates(ids[1..]) && ids[0] !in ids[1..]
  {
    forall j, k | 0 <= j < k < |ids[1..]| ensures ids[1..][j] != ids[1..][k] {
      assert ids[1..][j] == ids[j + 1] && ids[1..][k] == ids[k + 1];
    }
    forall k | 0 <= k < |ids[1..]| ensures ids[1..][k] != ids[0] {
      assert ids[1..][k] == ids[k + 1];
    }
  }

  lemma GroupIdsCons(groups: seq<WallGroup>)
    requires groups != []
    ensures GroupIds(groups)[0] == groups[0].id && GroupIds(groups)[1..] == GroupIds(groups[1..])
  {
  }

  /** Declaration order carries over to any subsequence of the declared ids. */
  lemma {:induction false} SubsequenceKeepsOrder(xs: seq<ModelId>, ys: seq<ModelId>, models: seq<ModelConfig>)
    requires Subsequence(xs, ys)
    requires forall p, q :: 0 <= p < q < |ys| ==> DeclaredBefore(models, ys[p], ys[q])
    ensures forall x <- xs :: x in ys
    ensures forall j, k :: 0 <= j < k < |xs| ==> DeclaredBefore(models, xs[j], xs[k])
    decreases |ys|
  {
    if xs != [] {
      var tail := ys[1..];
      assert forall p, q :: 0 <= p < q < |tail| ==> DeclaredBefore(models, tail[p], tail[q]) by {
        forall p, q | 0 <= p < q < |tail| ensures DeclaredBefore(models, tail[p], tail[q]) {
          assert tail[p] == ys[p + 1] && tail[q] == ys[q + 1];
        }
      }
      if xs[0] == ys[0] {
        SubsequenceKeepsOrder(xs[1..], tail, models);
        forall j, k | 0 <= j < k < |xs| ensures DeclaredBefore(models, xs[j], xs[k]) {
          if j == 0 {
            assert xs[k] == xs[1..][k - 1];
            assert xs[k] in tail;
            var q :| 0 <= q < |tail| && tail[q] == xs[k];
            assert ys[q + 1] == xs[k];
          } else {
            assert xs[j] == xs[1..][j - 1] && xs[k] == xs[1..][k - 1];
          }
        }
        forall x <- xs ensures x in ys {
          if x != xs[0] {
            assert x in xs[1..];
          }
        }
      } else {
        SubsequenceKeepsOrder(xs, tail, models);
      }
    }
  }

  /** The specification of the partition: table keys in declaration order,
      every border's pushes applied in order, then the non-empty groups. */
  function AirWallGroups(models: seq<ModelConfig>, borders: seq<BorderConnection>): seq<WallGroup> {
    DeclaredIdsDistinct(models);
    NonEmptyGroups(DeclaredIds(models), ApplyAppends(InitialTable(models), BordersAppends(borders)))
  }

  /** What the partition produces: one group per declared model that received
      at least one segment, and no other; its segments are exactly the pushes
      of all borders naming it, in order; its elevation is that of the model's
      last declaration; groups come in order of first declaration. */
  lemma AirWallGroupsSpec(models: seq<ModelConfig>, borders: seq<BorderConnection>)
    ensures var groups, appends := AirWallGroups(models, borders), BordersAppends(borders);
      && (forall g <- groups :: g.segments == SegmentsFor(appends, g.id) && g.segments != [])
      && (forall g <- groups :: exists i :: 0 <= i < |models| && models[i].id == g.id
                                   && LastDeclaration(models, i) && g.baseY == models[i].topY)
      && (forall id :: (exists g <- groups :: g.id == id) <==> Declared(models, id) && SegmentsFor(appends, id) != [])
      && (forall j, k :: 0 <= j < k < |groups| ==> DeclaredBefore(models, groups[j].id, groups[k].id))
  {
    DeclaredIdsMembership(models);
    DeclaredIdsOrder(models);
    InitialTableEntries(models);
    var ids, initial, appends := DeclaredIds(models), InitialTable(models), BordersAppends(borders);
    ApplyAppendsSpec(initial, appends);
    var groups := AirWallGroups(models, borders);
    forall g <- groups
      ensures exists i :: 0 <= i < |models| && models[i].id == g.id && LastDeclaration(models, i) && g.baseY == models[i].topY
    {
      assert Declared(models, g.id);
      var i :| 0 <= i < |models| && models[i].id == g.id;
      while !LastDeclaration(models, i)
        invariant 0 <= i < |models| && models[i].id == g.id
        decreases |models| - i
      {
        var later :| i < later < |models| && models[later].id == g.id;
        i := later;
      }
    }
    SubsequenceKeepsOrder(GroupIds(groups), ids, models);
    forall j, k | 0 <= j < k < |groups| ensures DeclaredBefore(models, groups[j].id, groups[k].id) {
      assert GroupIds(groups)[j] == groups[j].id && GroupIds(groups)[k] == groups[k].id;
    }
  }

  /** `models.forEach(...)`: enter every model with an empty segment list. */
  method DeclareModels(models: seq<ModelConfig>) returns (keys: seq<ModelId>, modelSegments: map<ModelId, ModelSegments>)
    ensures keys == DeclaredIds(models)
    ensures modelSegments == InitialTable(models)
  {
    keys, modelSegments := [], map[];
    for m := 0 to |models|
      invariant keys == DeclaredIds(models[..m])
      invariant modelSegments == InitialTable(models[..m])
    {
      assert models[..m + 1][..m] == models[..m];
      DeclaredIdsMembership(models[..m]);
      var model := models[m];
      if model.id !in modelSegments {
        keys := keys + [model.id];
      }
      modelSegments := modelSegments[model.id := ModelSegments(model.topY, [])];
    }
    assert models[..|models|] == models;
  }

  /** `modelSegments.get(id)` followed, when the model is declared, by a
      push onto its segment list; an undeclared id leaves the table as is. */
  method PushSegment(modelSegments: map<ModelId, ModelSegments>, id: ModelId, segment: Segment)
    returns (table: map<ModelId, ModelSegments>)
    ensures table == AppendSegment(modelSegments, Append(id, segment))
  {
    table := modelSegments;
    if id in modelSegments {
      var data := modelSegments[id];
      table := modelSegments[id := data.(segments := data.segments + [segment])];
    }
  }

  /** The pushes of one pair, applied one after the other. */
  lemma ApplyPair(table: map<ModelId, ModelSegments>, a: ConnectionPoint, b: ConnectionPoint, h: Option<real>)
    ensures ApplyAppends(table, PairAppends(a, b, h))
      == if a.modelId != b.modelId then
           AppendSegment(AppendSegment(table, Append(a.modelId, CW.Segment(a.point, b.point, h))),
                         Append(b.modelId, CW.Segment(b.point, a.point, h)))
         else AppendSegment(table, Append(a.modelId, CW.Segment(a.point, b.point, h)))
  {
    var pair := PairAppends(a, b, h);
    if a.modelId != b.modelId {
      assert pair[..1] == [pair[0]] && pair[..1][..0] == [];
      assert ApplyAppends(table, pair[..1]) == AppendSegment(table, pair[0]);
    } else {
      assert pair[..0] == [];
    }
  }

  /** One step of the pair loop: the segment A -> B for A's model and, when
      the pair crosses from one model to another, B -> A for B's model. */
  method AddPair(modelSegments: map<ModelId, ModelSegments>, pointA: ConnectionPoint, pointB: ConnectionPoint, h: Option<real>)
    returns (table: map<ModelId, ModelSegments>)
    ensures table == ApplyAppends(modelSegments, PairAppends(pointA, pointB, h))
  {
    table := PushSegment(modelSegments, pointA.modelId, CW.Segment(pointA.point, pointB.point, h));
    if pointA.modelId != pointB.modelId {
      table := PushSegment(table, pointB.modelId, CW.Segment(pointB.point, pointA.point, h));
    }
    ApplyPair(modelSegments, pointA, pointB, h);
  }

  /** The body of `borders.forEach(...)` for one border: every consecutive
      pair, then the closing edge, pushed onto the declared models' lists. */
  method AddBorder(table: map<ModelId, ModelSegments>, border: BorderConnection)
    returns (modelSegments: map<ModelId, ModelSegments>)
    ensures modelSegments == ApplyAppends(table, BorderAppends(border))
  {
    modelSegments := table;
    var points, borderWallHeight := border.points, border.wallHeight;
    if |points| < 2 {
      return;
    }
    for i := 0 to |points| - 1
      invariant modelSegments == ApplyAppends(table, PairsAppends(points, borderWallHeight, i))
    {
      var pointA, pointB := points[i], points[i + 1];
      modelSegments := AddPair(modelSegments, pointA, pointB, borderWallHeight);
      ApplyConcat(table, PairsAppends(points, borderWallHeight, i), PairAppends(pointA, pointB, borderWallHeight));
    }
    ghost var pairs := PairsAppends(points, borderWallHeight, |points| - 1);
    if |points| > 2 {
      var firstPoint, lastPoint := points[0], points[|points| - 1];
      if firstPoint.modelId == lastPoint.modelId {
        var closing := CW.Segment(lastPoint.point, firstPoint.point, borderWallHeight);
        modelSegments := PushSegment(modelSegments, firstPoint.modelId, closing);
        ApplySnoc(table, pairs, Append(firstPoint.modelId, closing));
      }
    }
    assert !Closes(points) ==> pairs + ClosingAppends(points, borderWallHeight) == pairs;
  }

  lemma {:induction false} ApplyConcat(table: map<ModelId, ModelSegments>, xs: seq<Append>, ys: seq<Append>)
    ensures ApplyAppends(table, xs + ys) == ApplyAppends(ApplyAppends(table, xs), ys)
    decreases |ys|
  {
    if ys != [] {
      var pre, last := ys[..|ys| - 1], ys[|ys| - 1];
      ApplyConcat(table, xs, pre);
      assert xs + ys == (xs + pre) + [last];
      ApplySnoc(table, xs + pre, last);
      ApplySnoc(ApplyAppends(table, xs), pre, last);
      assert pre + [last] == ys;
    } else {
      assert xs + ys == xs;
    }
  }

  /** The partition as the component performs it: a table filled model by
      model, then border by border, then filtered. */
  method PartitionBorders(models: seq<ModelConfig>, borders: seq<BorderConnection>) returns (groups: seq<WallGroup>)
    ensures groups == AirWallGroups(models, borders)
  {
    var keys, modelSegments := DeclareModels(models);
    ghost var initial := modelSegments;
    for b := 0 to |borders|
      invariant modelSegments == ApplyAppends(initial, BordersAppends(borders[..b]))
    {
      assert borders[..b + 1][..b] == borders[..b];
      ApplyConcat(initial, BordersAppends(borders[..b]), BorderAppends(borders[b]));
      modelSegments := AddBorder(modelSegments, borders[b]);
    }
    assert borders[..|borders|] == borders;
    DeclaredIdsDistinct(models);
    groups := NonEmptyGroups(keys, modelSegments);
  }

  /** The walls of every group, as ConnectedAirWalls renders them with the
      component's options: per model, one wall per segment, in segment order,
      built from that segment with the component's height, thickness,
      visibility and colour, each standing on the model's elevation. */
  function IrregularWalls(models: seq<ModelConfig>, borders: seq<BorderConnection>, opts: WallOptions, math: MathFns)
    : (walls: seq<seq<Wall>>)
    ensures var groups := AirWallGroups(models, borders);
      && |walls| == |groups|
      && forall k :: 0 <= k < |groups| ==>
           && 0 < |walls[k]| == |groups[k].segments|
           && (forall i :: 0 <= i < |groups[k].segments| ==>
                 walls[k][i] == CW.SegmentWall(groups[k].segments[i], groups[k].baseY, opts, math))
           && forall w <- walls[k] :: w.position.y - w.size.y / 2.0 == groups[k].baseY
  {
    var groups := AirWallGroups(models, borders);
    seq(|groups|, k requires 0 <= k < |groups| => CW.Walls(groups[k].segments, groups[k].baseY, opts, math))
  }

  /** Every push of a run of borders that all share the height override `h`
      carries `h`. */
  lemma {:induction false} BordersAppendsHeight(borders: seq<BorderConnection>, h: Option<real>)
    requires forall b <- borders :: b.wallHeight == h
    ensures forall a <- BordersAppends(borders) :: a.segment.height == h
  {
    if borders != [] {
      var pre, last := borders[..|borders| - 1], borders[|borders| - 1];
      assert forall b <- pre :: b in borders;
      BordersAppendsHeight(pre, h);
      BorderAppendsShape(last);
    }
  }

  /** A model receives only segments that some push carries. */
  lemma {:induction false} SegmentsForHeight(appends: seq<Append>, id: ModelId, h: Option<real>)
    requires forall a <- appends :: a.segment.height == h
    ensures forall s <- SegmentsFor(appends, id) :: s.height == h
  {
    if appends != [] {
      var pre := appends[..|appends| - 1];
      assert forall a <- pre :: a in appends;
      SegmentsForHeight(pre, id, h);
    }
  }

  /** When no border overrides the height, every wall is exactly as tall as
      the component's wall height, whatever models the borders name, and is
      centred half that height above its model's elevation. */
  lemma UniformHeightWalls(models: seq<ModelConfig>, borders: seq<BorderConnection>, opts: WallOptions, math: MathFns)
    requires forall b <- borders :: b.wallHeight.None?
    ensures var walls, groups := IrregularWalls(models, borders, opts, math), AirWallGroups(models, borders);
      forall k, w :: 0 <= k < |walls| && w in walls[k] ==>
        && w.size.y == opts.wallHeight && w.size.z == opts.wallThickness
        && w.position.y == groups[k].baseY + opts.wallHeight / 2.0
        && w.material == WallMaterial(opts.visible, opts.wallColor)
  {
    var walls, groups := IrregularWalls(models, borders, opts, math), AirWallGroups(models, borders);
    var appends := BordersAppends(borders);
    BordersAppendsHeight(borders, None);
    AirWallGroupsSpec(models, borders);
    forall k, w: Wall | 0 <= k < |walls| && w in walls[k]
      ensures w.size.y == opts.wallHeight && w.size.z == opts.wallThickness
      ensures w.position.y == groups[k].baseY + opts.wallHeight / 2.0
      ensures w.material == WallMaterial(opts.visible, opts.wallColor)
    {
      var g := groups[k];
      assert g in groups;
      SegmentsForHeight(appends, g.id, None);
      var i :| 0 <= i < |walls[k]| && walls[k][i] == w;
      assert g.segments[i] in g.segments;
    }
  }
}
