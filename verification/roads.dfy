/** Road segments of the older tile generation (tile/road_segment.go) and
    the compilation of a whole road from one segment (board/road.go).
    Segments live in an arena keyed by id; a segment's `edgeSegments`
    holds, per tile-relative direction, the segment it continues into. */
module Roads {
  import opened Wrappers
  import opened Directions
  import LegacyPlacement
  import Graphs
  import opened Orientations

  type SegId = nat
  type TileId = nat

  /** A tile feature as the segment code sees it: its kind and the
      tile-relative edges it touches. */
  datatype RoadFeature = RoadFeature(id: nat, ftype: LegacyPlacement.FeatureType, edges: seq<Direction>)

  datatype Segment = Segment(parentTile: TileId, parentFeature: nat, featureEdges: seq<Direction>, edgeSegments: seq<Option<SegId>>)

  type Segments = map<SegId, Segment>

  /** Every segment has four edge slots, and every slot that is set names
      a segment of the arena. */
  predicate WellFormed(segs: Segments)
  {
    forall id :: id in segs ==>
      && |segs[id].edgeSegments| == 4
      && forall d :: 0 <= d < 4 && segs[id].edgeSegments[d].Some? ==> segs[id].edgeSegments[d].value in segs
  }

  const NoEdges: seq<Option<SegId>> := [None, None, None, None]

  /** A fresh segment for a road feature, with no edge connected; any other
      kind of feature panics. */
  function CreateRoadSegment(t: TileId, f: RoadFeature): (r: Result<Segment>)
    ensures r.Err? <==> f.ftype != LegacyPlacement.Road
    ensures r.Ok? ==> r.value.parentTile == t && r.value.parentFeature == f.id
                      && r.value.featureEdges == f.edges
                      && |r.value.edgeSegments| == 4
                      && forall d :: 0 <= d < 4 ==> r.value.edgeSegments[d].None?
  {
    if f.ftype != LegacyPlacement.Road then Err("Create road segments only for road features")
    else Ok(Segment(t, f.id, f.edges, NoEdges))
  }

  /** The features of one kind, in the given order. */
  function FeaturesByType(fs: seq<RoadFeature>, ft: LegacyPlacement.FeatureType): (r: seq<RoadFeature>)
    ensures forall f :: f in r <==> f in fs && f.ftype == ft
    ensures |r| <= |fs|
  {
    if fs == [] then []
    else (if fs[0].ftype == ft then [fs[0]] else []) + FeaturesByType(fs[1..], ft)
  }

  /** Points every slot in `edges` at `v`. */
  function SetEdges(rs: seq<Option<SegId>>, edges: seq<Direction>, v: Option<SegId>): (r: seq<Option<SegId>>)
    requires |rs| == 4
    decreases |edges|
    ensures |r| == 4
    ensures forall d :: 0 <= d < 4 ==> r[d] == if d in edges then v else rs[d]
  {
    if edges == [] then rs
    else SetEdges(rs[edges[0] := v], edges[1..], v)
  }

  /** The tile's segment slots after the road features `fs` take the
      segment ids `next`, `next + 1`, ... in order. */
  function AssignSegments(fs: seq<RoadFeature>, next: SegId, rs: seq<Option<SegId>>): (r: seq<Option<SegId>>)
    requires |rs| == 4
    ensures |r| == 4
    decreases |fs|
  {
    if fs == [] then rs
    else AssignSegments(fs[1..], next + 1, SetEdges(rs, fs[0].edges, Some(next)))
  }

  /** A slot AssignSegments changes holds the segment of a feature touching
      that edge. */
  lemma {:induction false} AssignedSlotNamesFeature(fs: seq<RoadFeature>, next: SegId, rs: seq<Option<SegId>>, d: int)
    requires |rs| == 4 && 0 <= d < 4 && AssignSegments(fs, next, rs)[d] != rs[d]
    ensures exists k :: 0 <= k < |fs| && d in fs[k].edges && AssignSegments(fs, next, rs)[d] == Some(next + k)
    decreases |fs|
  {
    var rs' := SetEdges(rs, fs[0].edges, Some(next));
    var r := AssignSegments(fs[1..], next + 1, rs');
    if r[d] != rs'[d] {
      AssignedSlotNamesFeature(fs[1..], next + 1, rs', d);
      var k :| 0 <= k < |fs[1..]| && d in fs[1..][k].edges && r[d] == Some(next + 1 + k);
      assert fs[k + 1] == fs[1..][k];
    } else {
      assert d in fs[0].edges;
    }
  }

  /** The last feature touching an edge decides that edge's slot. */
  lemma {:induction false} LastAssignmentWins(fs: seq<RoadFeature>, next: SegId, rs: seq<Option<SegId>>, d: int, k: int)
    requires |rs| == 4 && 0 <= d < 4 && 0 <= k < |fs| && d in fs[k].edges
    requires forall k' :: k < k' < |fs| ==> d !in fs[k'].edges
    ensures AssignSegments(fs, next, rs)[d] == Some(next + k)
    decreases |fs|
  {
    var rs' := SetEdges(rs, fs[0].edges, Some(next));
    var r := AssignSegments(fs[1..], next + 1, rs');
    if k > 0 {
      assert fs[1..][k - 1] == fs[k];
      forall k' | k - 1 < k' < |fs[1..]|
        ensures d !in fs[1..][k'].edges
      {
        assert fs[1..][k'] == fs[k' + 1];
      }
      LastAssignmentWins(fs[1..], next + 1, rs', d, k - 1);
    } else {
      forall j | 0 <= j < |fs[1..]|
        ensures d !in fs[1..][j].edges
      {
        assert fs[1..][j] == fs[j + 1];
      }
      UntouchedSlot(fs[1..], next + 1, rs', d);
    }
  }

  /** A slot no feature touches keeps its value. */
  lemma {:induction false} UntouchedSlot(fs: seq<RoadFeature>, next: SegId, rs: seq<Option<SegId>>, d: int)
    requires |rs| == 4 && 0 <= d < 4
    requires forall j :: 0 <= j < |fs| ==> d !in fs[j].edges
    ensures AssignSegments(fs, next, rs)[d] == rs[d]
    decreases |fs|
  {
    if fs != [] {
      assert d !in fs[0].edges;
      forall j | 0 <= j < |fs[1..]|
        ensures d !in fs[1..][j].edges
      {
        assert fs[1..][j] == fs[j + 1];
      }
      UntouchedSlot(fs[1..], next + 1, SetEdges(rs, fs[0].edges, Some(next)), d);
    }
  }

  /** Two features touch no common edge. */
  predicate DisjointEdges(fs: seq<RoadFeature>)
  {
    forall k, k', d :: 0 <= k < k' < |fs| && d in fs[k].edges ==> d !in fs[k'].edges
  }

  /** One segment per road feature of the tile, with ids from `next` on in
      the order of `features`, and the tile's four slots: every edge of a
      road feature holds that feature's segment (the last feature wins when
      two share an edge), every other slot stays empty. */
  function RoadsOf(features: seq<RoadFeature>): (roads: seq<RoadFeature>)
    ensures forall f :: f in roads ==> f.ftype == LegacyPlacement.Road
  {
    FeaturesByType(features, LegacyPlacement.Road)
  }

  function ComputeRoadSegments(t: TileId, features: seq<RoadFeature>, next: SegId): (r: (Segments, seq<Option<SegId>>))
    ensures |r.1| == 4
    ensures forall id :: id in r.0 <==> next <= id < next + |RoadsOf(features)|
    ensures forall k :: 0 <= k < |RoadsOf(features)| ==> r.0[next + k] == CreateRoadSegment(t, RoadsOf(features)[k]).value
    ensures FilledExactlyOnRoadEdges(RoadsOf(features), r.1)
    ensures SlotsNameTheirSegments(r.0, r.1)
    ensures DisjointEdges(RoadsOf(features)) ==> EachEdgeHoldsItsFeature(RoadsOf(features), next, r.1)
  {
    var roads := RoadsOf(features);
    ComputedSlots(t, roads, next);
    (NewSegments(t, roads, next), AssignSegments(roads, next, NoEdges))
  }

  /** The slots of a tile's road features name those features' fresh
      segments. */
  lemma ComputedSlots(t: TileId, roads: seq<RoadFeature>, next: SegId)
    requires forall f :: f in roads ==> f.ftype == LegacyPlacement.Road
    ensures var slots := AssignSegments(roads, next, NoEdges);
      && FilledExactlyOnRoadEdges(roads, slots)
      && SlotsNameTheirSegments(NewSegments(t, roads, next), slots)
      && (DisjointEdges(roads) ==> EachEdgeHoldsItsFeature(roads, next, slots))
  {
    var slots := AssignSegments(roads, next, NoEdges);
    SlotsAreOccupiedEdges(roads, next, slots);
    SlotsNameTheirFeature(t, roads, next, NewSegments(t, roads, next), slots);
  }

  /** One fresh segment per road feature, with consecutive ids. */
  function NewSegments(t: TileId, roads: seq<RoadFeature>, next: SegId): (r: Segments)
    requires forall f :: f in roads ==> f.ftype == LegacyPlacement.Road
    ensures forall id :: id in r <==> next <= id < next + |roads|
    ensures forall k :: 0 <= k < |roads| ==> r[next + k] == CreateRoadSegment(t, roads[k]).value
  {
    if roads == [] then map[]
    else
      var last := |roads| - 1;
      NewSegments(t, roads[..last], next)[next + last := CreateRoadSegment(t, roads[last]).value]
  }

  /** A slot is filled exactly when some road feature touches that edge. */
  predicate FilledExactlyOnRoadEdges(roads: seq<RoadFeature>, slots: seq<Option<SegId>>)
    requires |slots| == 4
  {
    forall d :: 0 <= d < 4 ==> (slots[d].Some? <==> exists k :: 0 <= k < |roads| && d in roads[k].edges)
  }

  /** A filled slot names a segment whose feature touches that edge. */
  predicate SlotsNameTheirSegments(segs: Segments, slots: seq<Option<SegId>>)
    requires |slots| == 4
  {
    forall d :: 0 <= d < 4 && slots[d].Some? ==> slots[d].value in segs && d in segs[slots[d].value].featureEdges
  }

  /** Every edge of the `k`-th feature holds segment `next + k`. */
  predicate EachEdgeHoldsItsFeature(roads: seq<RoadFeature>, next: SegId, slots: seq<Option<SegId>>)
    requires |slots| == 4
  {
    forall k, d :: 0 <= k < |roads| && d in roads[k].edges ==> slots[d] == Some(next + k)
  }

  lemma SlotsAreOccupiedEdges(roads: seq<RoadFeature>, next: SegId, slots: seq<Option<SegId>>)
    requires slots == AssignSegments(roads, next, NoEdges)
    ensures FilledExactlyOnRoadEdges(roads, slots)
    ensures DisjointEdges(roads) ==> EachEdgeHoldsItsFeature(roads, next, slots)
  {
    forall d | 0 <= d < 4
      ensures slots[d].Some? <==> exists k :: 0 <= k < |roads| && d in roads[k].edges
    {
      if k :| 0 <= k < |roads| && d in roads[k].edges {
        LastWriter(roads, d, k);
        var j :| k <= j < |roads| && d in roads[j].edges && forall j' :: j < j' < |roads| ==> d !in roads[j'].edges;
        LastAssignmentWins(roads, next, NoEdges, d, j);
      } else if slots[d] != NoEdges[d] {
        AssignedSlotNamesFeature(roads, next, NoEdges, d);
      }
    }
    if DisjointEdges(roads) {
      forall k, d | 0 <= k < |roads| && d in roads[k].edges
        ensures slots[d] == Some(next + k)
      {
        LastAssignmentWins(roads, next, NoEdges, d, k);
      }
    }
  }

  lemma SlotsNameTheirFeature(t: TileId, roads: seq<RoadFeature>, next: SegId, created: Segments, slots: seq<Option<SegId>>)
    requires forall f :: f in roads ==> f.ftype == LegacyPlacement.Road
    requires created == NewSegments(t, roads, next)
    requires slots == AssignSegments(roads, next, NoEdges)
    ensures SlotsNameTheirSegments(created, slots)
  {
    forall d | 0 <= d < 4 && slots[d].Some?
      ensures slots[d].value in created && d in created[slots[d].value].featureEdges
    {
      assert slots[d] != NoEdges[d];
      AssignedSlotNamesFeature(roads, next, NoEdges, d);
      var k :| 0 <= k < |roads| && d in roads[k].edges && slots[d] == Some(next + k);
      assert roads[k] in roads;
      assert created[next + k] == CreateRoadSegment(t, roads[k]).value;
    }
  }

  /** Some feature from index `k` on is the last one touching edge `d`. */
  lemma LastWriter(fs: seq<RoadFeature>, d: int, k: int)
    requires 0 <= k < |fs| && d in fs[k].edges
    ensures exists j :: k <= j < |fs| && d in fs[j].edges && forall j' :: j < j' < |fs| ==> d !in fs[j'].edges
    decreases |fs| - k
  {
    if exists j' :: k < j' < |fs| && d in fs[j'].edges {
      var j' :| k < j' < |fs| && d in fs[j'].edges;
      LastWriter(fs, d, j');
    }
  }

  /** The distinct segments in a tile's slots, without empty slots. The
      source collects them through a map, so its order is arbitrary; here
      it is the order of first occurrence. */
  function UniqueRoadSegments(rs: seq<Option<SegId>>): (keys: seq<SegId>)
    ensures forall s :: s in keys <==> Some(s) in rs
    ensures forall i, j :: 0 <= i < j < |keys| ==> keys[i] != keys[j]
  {
    if rs == [] then []
    else
      var rest := UniqueRoadSegments(rs[1..]);
      match rs[0]
      case None => rest
      case Some(s) => if s in rest then rest else [s] + rest
  }

  /** Whether the road holds the segment (a linear scan in the source). */
  function ContainsSegment(road: seq<SegId>, segment: SegId): (r: bool)
    ensures r <==> segment in road
  {
    if road == [] then false
    else if road[0] == segment then true
    else ContainsSegment(road[1..], segment)
  }

  /** The segments each segment continues into. */
  function SegmentGraph(segs: Segments): (g: Graphs.Graph)
    requires WellFormed(segs)
    ensures g.Keys == segs.Keys
    ensures Graphs.Closed(g)
    ensures forall id, d :: id in segs && 0 <= d < 4 && segs[id].edgeSegments[d].Some? ==> segs[id].edgeSegments[d].value in g[id]
  {
    map id | id in segs :: set d | 0 <= d < 4 && segs[id].edgeSegments[d].Some? :: segs[id].edgeSegments[d].value
  }

  /** No segment occurs twice. */
  predicate Distinct(s: seq<SegId>)
  {
    forall i, j :: 0 <= i < j < |s| ==> s[i] != s[j]
  }

  /** The set of segments in `s`. */
  function Members(s: seq<SegId>): (m: set<SegId>)
    ensures forall x :: x in m <==> x in s
  {
    set x | x in s
  }

  /** Every segment of `s` is reachable from `start`. */
  ghost predicate AllReachable(g: Graphs.Graph, start: SegId, s: seq<SegId>)
  {
    forall i :: 0 <= i < |s| ==> s[i] in g && Graphs.Reachable(g, start, s[i])
  }

  /** Every continuation of a collected segment is collected or waiting. */
  predicate Pending(segs: Segments, road: seq<SegId>, stack: seq<SegId>)
    requires WellFormed(segs)
    requires forall x :: x in road ==> x in segs
  {
    forall id, d :: id in road && 0 <= d < 4 && segs[id].edgeSegments[d].Some? ==>
      segs[id].edgeSegments[d].value in road || segs[id].edgeSegments[d].value in stack
  }

  /** Every continuation of a segment on the road is on the road. */
  predicate ClosedRoad(segs: Segments, road: seq<SegId>)
    requires WellFormed(segs)
  {
    forall id, d :: id in road && id in segs && 0 <= d < 4 && segs[id].edgeSegments[d].Some? ==>
      segs[id].edgeSegments[d].value in road
  }

  /** Collects the road through `rs` depth first: pop a segment, skip it if
      the road holds it already, else append it and push every connected
      edge segment in direction order. A nil start panics. */
  method CompileRoadFromSegment(segs: Segments, rs: Option<SegId>) returns (r: Result<seq<SegId>>)
    requires WellFormed(segs)
    requires rs.Some? ==> rs.value in segs
    ensures r.Err? <==> rs.None?
    ensures r.Ok? ==> |r.value| >= 1 && r.value[0] == rs.value
    ensures r.Ok? ==> Distinct(r.value)
    ensures r.Ok? ==> Members(r.value) <= segs.Keys && ClosedRoad(segs, r.value)
    ensures r.Ok? ==> AllReachable(SegmentGraph(segs), rs.value, r.value)
  {
    if rs.None? {
      return Err("Send me a road segment damnit");
    }
    var g := SegmentGraph(segs);
    var start := rs.value;
    Graphs.ReachSelf(g, start);
    var road: seq<SegId> := [];
    var stack := [start];
    while |stack| > 0
      invariant Distinct(road)
      invariant AllReachable(g, start, stack) && AllReachable(g, start, road)
      invariant road == [] ==> stack == [start]
      invariant road != [] ==> road[0] == start
      invariant Pending(segs, road, stack)
      decreases |segs.Keys - Members(road)|, |stack|
    {
      road, stack := CompileStep(segs, g, start, road, stack);
    }
    assert Members(road) <= segs.Keys by {
      forall x | x in road ensures x in segs {
        var i :| 0 <= i < |road| && road[i] == x;
      }
    }
    r := Ok(road);
  }

  /** One iteration of `CompileRoadFromSegment`'s loop. */
  method CompileStep(segs: Segments, g: Graphs.Graph, start: SegId, road: seq<SegId>, stack: seq<SegId>)
    returns (road': seq<SegId>, stack': seq<SegId>)
    requires WellFormed(segs) && g == SegmentGraph(segs) && |stack| > 0
    requires Distinct(road) && AllReachable(g, start, stack) && AllReachable(g, start, road)
    requires road != [] ==> road[0] == start
    requires road == [] ==> stack == [start]
    requires Pending(segs, road, stack)
    ensures Distinct(road') && AllReachable(g, start, stack') && AllReachable(g, start, road')
    ensures road' != [] && road'[0] == start
    ensures Pending(segs, road', stack')
    ensures || |segs.Keys - Members(road')| < |segs.Keys - Members(road)|
            || (road' == road && |stack'| < |stack|)
  {
    var top := stack[|stack| - 1];
    var rest := stack[..|stack| - 1];
    assert stack == rest + [top];
    if ContainsSegment(road, top) {
      assert AllReachable(g, start, rest) by {
        forall i | 0 <= i < |rest| ensures rest[i] in g && Graphs.Reachable(g, start, rest[i]) {
          assert rest[i] == stack[i];
        }
      }
      return road, rest;
    }
    assert AllReachable(g, start, rest) && top in segs && Graphs.Reachable(g, start, top) by {
      forall i | 0 <= i < |rest| ensures rest[i] in g && Graphs.Reachable(g, start, rest[i]) {
        assert rest[i] == stack[i];
      }
      assert stack[|stack| - 1] == top;
    }
    var st := PushEdges(segs, g, start, rest, top);
    AppendStep(segs, g, start, road, rest, top, st);
    road' := road + [top];
    stack' := st;
  }

  /** Appending an uncollected segment and pushing its continuations keeps
      the loop invariant and shrinks the set of uncollected segments. */
  lemma AppendStep(segs: Segments, g: Graphs.Graph, start: SegId, road: seq<SegId>, rest: seq<SegId>, top: SegId, st: seq<SegId>)
    requires WellFormed(segs) && g == SegmentGraph(segs)
    requires Distinct(road) && top !in road && top in segs
    requires AllReachable(g, start, road) && Graphs.Reachable(g, start, top)
    requires Pending(segs, road, rest + [top])
    requires |st| >= |rest| && st[..|rest|] == rest
    requires forall d :: 0 <= d < 4 && segs[top].edgeSegments[d].Some? ==> segs[top].edgeSegments[d].value in st
    ensures Distinct(road + [top]) && AllReachable(g, start, road + [top])
    ensures Pending(segs, road + [top], st)
    ensures |segs.Keys - Members(road + [top])| < |segs.Keys - Members(road)|
  {
    AppendReachable(segs, g, start, road, top);
    assert forall x :: x in road ==> x in segs by {
      forall x | x in road ensures x in segs {
        var i :| 0 <= i < |road| && road[i] == x;
      }
    }
    AppendPending(segs, road, rest, top, st);
    AppendShrinks(segs, road, top);
  }

  /** The road stays duplicate-free and reachable. */
  lemma AppendReachable(segs: Segments, g: Graphs.Graph, start: SegId, road: seq<SegId>, top: SegId)
    requires WellFormed(segs) && g == SegmentGraph(segs) && top in segs
    requires Distinct(road) && top !in road
    requires AllReachable(g, start, road) && Graphs.Reachable(g, start, top)
    ensures Distinct(road + [top]) && AllReachable(g, start, road + [top])
  {
    var road' := road + [top];
    forall i | 0 <= i < |road'| ensures road'[i] in g && Graphs.Reachable(g, start, road'[i]) {
      if i < |road| {
        assert road'[i] == road[i];
      }
    }
  }

  /** Every continuation of the longer road is collected or on the new
      stack. */
  lemma AppendPending(segs: Segments, road: seq<SegId>, rest: seq<SegId>, top: SegId, st: seq<SegId>)
    requires WellFormed(segs) && top in segs && forall x :: x in road ==> x in segs
    requires Pending(segs, road, rest + [top])
    requires |st| >= |rest| && st[..|rest|] == rest
    requires forall d :: 0 <= d < 4 && segs[top].edgeSegments[d].Some? ==> segs[top].edgeSegments[d].value in st
    ensures Pending(segs, road + [top], st)
  {
    var road' := road + [top];
    forall id, d | id in road' && 0 <= d < 4 && segs[id].edgeSegments[d].Some?
      ensures segs[id].edgeSegments[d].value in road' || segs[id].edgeSegments[d].value in st
    {
      var v := segs[id].edgeSegments[d].value;
      if id != top {
        assert id in road;
        assert v in road || v in rest + [top];
        if v in rest {
          var k :| 0 <= k < |rest| && rest[k] == v;
          assert st[..|rest|][k] == v;
        } else if v !in road {
          assert v == top;
        }
      }
    }
  }

  /** Collecting a new segment leaves fewer uncollected. */
  lemma AppendShrinks(segs: Segments, road: seq<SegId>, top: SegId)
    requires top in segs && top !in road
    ensures |segs.Keys - Members(road + [top])| < |segs.Keys - Members(road)|
  {
    var after := segs.Keys - Members(road + [top]);
    var before := segs.Keys - Members(road);
    assert before == after + {top} && top !in after;
  }

  /** The inner loop of `CompileRoadFromSegment`: push every non-nil edge
      segment of `top`, in direction order. */
  method PushEdges(segs: Segments, g: Graphs.Graph, start: SegId, stack: seq<SegId>, top: SegId) returns (st: seq<SegId>)
    requires WellFormed(segs) && g == SegmentGraph(segs)
    requires top in segs && Graphs.Reachable(g, start, top)
    requires AllReachable(g, start, stack)
    ensures |st| >= |stack| && st[..|stack|] == stack
    ensures forall d :: 0 <= d < 4 && segs[top].edgeSegments[d].Some? ==> segs[top].edgeSegments[d].value in st
    ensures AllReachable(g, start, st)
  {
    st := stack;
    var es := segs[top].edgeSegments;
    for d := 0 to 4
      invariant |st| >= |stack| && st[..|stack|] == stack
      invariant forall d' :: 0 <= d' < d && es[d'].Some? ==> es[d'].value in st
      invariant AllReachable(g, start, st)
    {
      if es[d].Some? {
        Graphs.ReachStep(g, start, top, es[d].value);
        assert AllReachable(g, start, st + [es[d].value]) by {
          var st' := st + [es[d].value];
          forall i | 0 <= i < |st'| ensures st'[i] in g && Graphs.Reachable(g, start, st'[i]) {
            if i < |st| {
              assert st'[i] == st[i];
            }
          }
        }
        st := st + [es[d].value];
      }
    }
  }

  /** Every segment reachable from the start is on the compiled road. */
  lemma {:induction false} CompiledRoadIsWholeRoad(segs: Segments, start: SegId, road: seq<SegId>, t: SegId)
    requires WellFormed(segs) && |road| >= 1 && road[0] == start
    requires Members(road) <= segs.Keys && ClosedRoad(segs, road)
    requires Graphs.Reachable(SegmentGraph(segs), start, t)
    ensures t in road
  {
    var g := SegmentGraph(segs);
    var s := set i | 0 <= i < |road| :: road[i];
    forall v, w | v in s && v in g && w in g[v]
      ensures w in s
    {
      var d :| 0 <= d < 4 && segs[v].edgeSegments[d].Some? && segs[v].edgeSegments[d].value == w;
      assert w in road;
    }
    assert start in s;
    Graphs.ClosedHoldsReachable(g, start, s, t);
  }

  /** What the road code needs of a placed tile: its orientation, its four
      board-frame neighbours and its four tile-frame segment slots. */
  datatype RoadTile = RoadTile(orientation: Orientation, neighbours: seq<Option<TileId>>, roadSegments: seq<Option<SegId>>)

  /** Tiles have four neighbour and segment slots, neighbours exist and
      segment slots name segments of the arena. */
  predicate TilesFit(tiles: map<TileId, RoadTile>, segs: Segments)
  {
    forall id :: id in tiles ==>
      && |tiles[id].neighbours| == 4 && |tiles[id].roadSegments| == 4
      && (forall d :: 0 <= d < 4 && tiles[id].neighbours[d].Some? ==> tiles[id].neighbours[d].value in tiles)
      && (forall d :: 0 <= d < 4 && tiles[id].roadSegments[d].Some? ==> tiles[id].roadSegments[d].value in segs)
  }

  /** A connection found by `IntegrateRoads`: edge `d` of segment `rs`
      meets edge `tcd` of segment `crs` on the neighbouring tile. */
  datatype Link = Link(rs: SegId, d: Direction, crs: SegId, tcd: Direction)

  /** `l` leaves tile `t` through its tile edge `l.d`, and on the other side
      the neighbour's matching edge `l.tcd` holds segment `l.crs`. */
  predicate Meets(tiles: map<TileId, RoadTile>, segs: Segments, t: TileId, l: Link)
    requires TilesFit(tiles, segs) && t in tiles
  {
    var nd := TileToGrid(tiles[t].orientation, l.d);
    && tiles[t].neighbours[nd].Some?
    && var n := tiles[tiles[t].neighbours[nd].value];
    && l.tcd == GridToTile(n.orientation, Compliment(nd))
    && n.roadSegments[l.tcd] == Some(l.crs)
  }

  /** The links of segment `rs` through `edges`, in edge order. */
  function EdgeLinks(tiles: map<TileId, RoadTile>, segs: Segments, t: TileId, rs: SegId, edges: seq<Direction>): (ls: seq<Link>)
    requires TilesFit(tiles, segs) && t in tiles
    ensures forall l :: l in ls <==> l.rs == rs && l.d in edges && Meets(tiles, segs, t, l)
    ensures forall l :: l in ls ==> l.crs in segs
  {
    if edges == [] then []
    else
      var d := edges[0];
      var nd := TileToGrid(tiles[t].orientation, d);
      var here := match tiles[t].neighbours[nd]
        case None => []
        case Some(nb) =>
          var tcd := GridToTile(tiles[nb].orientation, Compliment(nd));
          match tiles[nb].roadSegments[tcd]
          case None => []
          case Some(crs) => [Link(rs, d, crs, tcd)];
      assert forall l :: l in here <==> l.rs == rs && l.d == d && Meets(tiles, segs, t, l);
      here + EdgeLinks(tiles, segs, t, rs, edges[1..])
  }

  /** The links of every segment in `uniq`, segment by segment. */
  function AllLinks(tiles: map<TileId, RoadTile>, segs: Segments, t: TileId, uniq: seq<SegId>): (ls: seq<Link>)
    requires TilesFit(tiles, segs) && t in tiles
    requires forall s :: s in uniq ==> s in segs
    ensures forall l :: l in ls <==> l.rs in uniq && l.d in segs[l.rs].featureEdges && Meets(tiles, segs, t, l)
    ensures forall l :: l in ls ==> l.rs in segs && l.crs in segs
  {
    if uniq == [] then []
    else EdgeLinks(tiles, segs, t, uniq[0], segs[uniq[0]].featureEdges) + AllLinks(tiles, segs, t, uniq[1..])
  }

  /** Whether link `l` writes slot `k` of segment `id`. */
  predicate Writes(l: Link, id: SegId, k: int)
  {
    (id == l.crs && k == l.tcd) || (id == l.rs && k == l.d)
  }

  /** The same segment of the same feature, whatever its slots hold. */
  predicate SameSegment(a: Segment, b: Segment)
  {
    a.parentTile == b.parentTile && a.parentFeature == b.parentFeature && a.featureEdges == b.featureEdges
  }

  /** Sets the two slots of one link: the neighbour's segment points back
      at `rs`, then `rs` points at it. */
  function ApplyLink(segs: Segments, l: Link): (r: Segments)
    requires WellFormed(segs) && l.rs in segs && l.crs in segs
    ensures WellFormed(r) && r.Keys == segs.Keys
    ensures forall id :: id in segs ==> SameSegment(r[id], segs[id])
    ensures r[l.rs].edgeSegments[l.d] == Some(l.crs) && r[l.crs].edgeSegments[l.tcd] == Some(l.rs)
    ensures forall id, k :: id in segs && 0 <= k < 4 && !Writes(l, id, k) ==> r[id].edgeSegments[k] == segs[id].edgeSegments[k]
  {
    var c := segs[l.crs];
    var s1 := segs[l.crs := c.(edgeSegments := c.edgeSegments[l.tcd := Some(l.rs)])];
    var a := s1[l.rs];
    s1[l.rs := a.(edgeSegments := a.edgeSegments[l.d := Some(l.crs)])]
  }

  /** Applies the links in order. */
  function ApplyLinks(segs: Segments, ls: seq<Link>): (r: Segments)
    requires WellFormed(segs)
    requires forall l :: l in ls ==> l.rs in segs && l.crs in segs
    ensures WellFormed(r) && r.Keys == segs.Keys
    ensures forall id :: id in segs ==> SameSegment(r[id], segs[id])
    decreases |ls|
  {
    if ls == [] then segs
    else ApplyLinks(ApplyLink(segs, ls[0]), ls[1..])
  }

  /** A slot that no link writes keeps its value. */
  lemma {:induction false} ApplyLinksFrame(segs: Segments, ls: seq<Link>, id: SegId, k: int)
    requires WellFormed(segs)
    requires forall l :: l in ls ==> l.rs in segs && l.crs in segs
    requires id in segs && 0 <= k < 4
    requires forall l :: l in ls ==> !Writes(l, id, k)
    ensures ApplyLinks(segs, ls)[id].edgeSegments[k] == segs[id].edgeSegments[k]
    decreases |ls|
  {
    if ls != [] {
      assert ls[0] in ls;
      var s1 := ApplyLink(segs, ls[0]);
      assert forall l :: l in ls[1..] ==> l in ls;
      ApplyLinksFrame(s1, ls[1..], id, k);
    }
  }

  /** Both slots of link `i` hold its connection at the end, unless a later
      link writes one of them again. */
  lemma {:induction false} ApplyLinksLastWrite(segs: Segments, ls: seq<Link>, i: int)
    requires WellFormed(segs)
    requires forall l :: l in ls ==> l.rs in segs && l.crs in segs
    requires 0 <= i < |ls|
    requires forall j :: i < j < |ls| ==> !Writes(ls[j], ls[i].rs, ls[i].d) && !Writes(ls[j], ls[i].crs, ls[i].tcd)
    ensures ApplyLinks(segs, ls)[ls[i].rs].edgeSegments[ls[i].d] == Some(ls[i].crs)
    ensures ApplyLinks(segs, ls)[ls[i].crs].edgeSegments[ls[i].tcd] == Some(ls[i].rs)
    decreases |ls|
  {
    assert ls[0] in ls;
    var s1 := ApplyLink(segs, ls[0]);
    var tl := ls[1..];
    assert forall l :: l in tl ==> l in ls;
    if i == 0 {
      forall l | l in tl ensures !Writes(l, ls[0].rs, ls[0].d) && !Writes(l, ls[0].crs, ls[0].tcd) {
        var j :| 0 <= j < |tl| && tl[j] == l;
        assert ls[j + 1] == l;
      }
      ApplyLinksFrame(s1, tl, ls[0].rs, ls[0].d);
      ApplyLinksFrame(s1, tl, ls[0].crs, ls[0].tcd);
    } else {
      assert tl[i - 1] == ls[i];
      forall j | i - 1 < j < |tl|
        ensures !Writes(tl[j], tl[i - 1].rs, tl[i - 1].d) && !Writes(tl[j], tl[i - 1].crs, tl[i - 1].tcd)
      {
        assert tl[j] == ls[j + 1];
      }
      ApplyLinksLastWrite(s1, tl, i - 1);
    }
  }

  /** Links every road segment of tile `t` with the segments its edges
      meet on neighbouring tiles, in both directions. */
  function IntegrateRoads(tiles: map<TileId, RoadTile>, segs: Segments, t: TileId): (r: Segments)
    requires WellFormed(segs) && TilesFit(tiles, segs) && t in tiles
    ensures WellFormed(r) && r.Keys == segs.Keys
  {
    var uniq := UniqueRoadSegments(tiles[t].roadSegments);
    ApplyLinks(segs, AllLinks(tiles, segs, t, uniq))
  }

  /** No two found links write the same slot. */
  predicate SlotsDistinct(ls: seq<Link>)
  {
    forall i, j :: 0 <= i < j < |ls| ==>
      !Writes(ls[j], ls[i].rs, ls[i].d) && !Writes(ls[j], ls[i].crs, ls[i].tcd)
  }

  /** When no two connections compete for a slot, every meeting of one of
      the tile's segments with a neighbour's segment is recorded on both
      sides, and no other slot changes. */
  lemma {:induction false} IntegrateRoadsLinksBothWays(tiles: map<TileId, RoadTile>, segs: Segments, t: TileId, l: Link)
    requires WellFormed(segs) && TilesFit(tiles, segs) && t in tiles
    requires SlotsDistinct(AllLinks(tiles, segs, t, UniqueRoadSegments(tiles[t].roadSegments)))
    requires Some(l.rs) in tiles[t].roadSegments && l.d in segs[l.rs].featureEdges && Meets(tiles, segs, t, l)
    ensures IntegrateRoads(tiles, segs, t)[l.rs].edgeSegments[l.d] == Some(l.crs)
    ensures IntegrateRoads(tiles, segs, t)[l.crs].edgeSegments[l.tcd] == Some(l.rs)
  {
    var ls := AllLinks(tiles, segs, t, UniqueRoadSegments(tiles[t].roadSegments));
    assert l in ls;
    var i :| 0 <= i < |ls| && ls[i] == l;
    ApplyLinksLastWrite(segs, ls, i);
  }

  /** Slots that no found link writes keep their value. */
  lemma {:induction false} IntegrateRoadsKeepsOtherSlots(tiles: map<TileId, RoadTile>, segs: Segments, t: TileId, id: SegId, k: int)
    requires WellFormed(segs) && TilesFit(tiles, segs) && t in tiles
    requires id in segs && 0 <= k < 4
    requires forall l :: l in AllLinks(tiles, segs, t, UniqueRoadSegments(tiles[t].roadSegments)) ==> !Writes(l, id, k)
    ensures IntegrateRoads(tiles, segs, t)[id].edgeSegments[k] == segs[id].edgeSegments[k]
  {
    var ls := AllLinks(tiles, segs, t, UniqueRoadSegments(tiles[t].roadSegments));
    ApplyLinksFrame(segs, ls, id, k);
  }
}
