/** The river filter of engine/engine.go (restictRiverPlacement): while the
    river is being laid, only placements that continue the river from the
    last river tile are allowed, and a curve may not turn the same way as
    the previous curve. The tie-break among several curves by distance to
    the board's middle is computed in floating point; here it is the
    parameter `pick`. */
module Rivers {
  import opened Wrappers
  import opened Directions
  import opened Points
  import opened FeatureTypes
  import opened EdgeSignatures
  import opened ReferenceTiles
  import opened Placements
  import GoInt
  import Matrices

  /** The engine's record of the river so far. `lastRiverTurn` starts at 1,
      a value no orientation takes, meaning no curve has been laid. */
  datatype RiverState = RiverState(isFirstRiverTurn: bool, lastRiverTurn: int)

  /** What the filter looks up in the catalog for each placement and each
      of its connections. */
  predicate RiverReadable(c: Catalog, ps: seq<Placement>)
  {
    forall i :: 0 <= i < |ps| ==> PlacementReadable(c, ps[i])
  }

  predicate PlacementReadable(c: Catalog, p: Placement)
  {
    && p.referenceTile in c.tiles
    && forall k :: 0 <= k < |p.connectedFeatures| ==> ConnectionReadable(c, p.connectedFeatures[k].featureA)
  }

  predicate ConnectionReadable(c: Catalog, rf: RefFeatureId)
  {
    && rf in c.features
    && c.features[rf].parentGroup in c.groups
    && |c.groups[c.features[rf].parentGroup].orientations| > 0
    && c.groups[c.features[rf].parentGroup].orientations[0] in c.tiles
  }

  /** Whether the group a reference feature belongs to is a curving river
      tile, judged by the group's first orientation. */
  function CurvingGroup(c: Catalog, rf: RefFeatureId): bool
    requires ConnectionReadable(c, rf)
  {
    IsRiverCurving(c.tiles[c.groups[c.features[rf].parentGroup].orientations[0]].edgeSignature)
  }

  /** The orientation a curve must have after a curve laid at `last`. */
  function NextCurve(last: int): (o: int)
    ensures 0 <= last ==> o == (last + 180) % 360
  {
    GoInt.Rem(last + 180, 360)
  }

  /** What one connection of a placement adds: nothing, the placement to
      the permitted list, or the placement to the curve list. */
  datatype Verdict = Skip | Straight | Curve

  /** The verdict on connection `cf` of placement `p`, given the position
      of the last river tile (nil when none has been placed, which the
      source dereferences). */
  function Judge(c: Catalog, rs: RiverState, last: Option<Point>, p: Placement, cf: Connection): (r: Result<Verdict>)
    requires p.referenceTile in c.tiles && ConnectionReadable(c, cf.featureA)
    ensures r.Err? <==> last.None?
    ensures r.Ok? && r.value != Skip ==>
      EdgePos(p.position, cf.edgeA) == last.value && c.features[cf.featureA].ftype == River
    ensures r.Ok? ==> (r.value == Curve <==>
      && EdgePos(p.position, cf.edgeA) == last.value && c.features[cf.featureA].ftype == River
      && CurvingGroup(c, cf.featureA)
      && (rs.lastRiverTurn != 1 && !rs.isFirstRiverTurn ==> c.tiles[p.referenceTile].orientation == NextCurve(rs.lastRiverTurn)))
    ensures r.Ok? ==> (r.value == Straight <==>
      EdgePos(p.position, cf.edgeA) == last.value && c.features[cf.featureA].ftype == River && !CurvingGroup(c, cf.featureA))
  {
    if last.None? then Err("nil dereference: no river tile has been placed")
    else if EdgePos(p.position, cf.edgeA) != last.value then Ok(Skip)
    else if c.features[cf.featureA].ftype != River then Ok(Skip)
    else if CurvingGroup(c, cf.featureA) then
      if rs.lastRiverTurn == 1 then Ok(Curve)
      else if !rs.isFirstRiverTurn && c.tiles[p.referenceTile].orientation != NextCurve(rs.lastRiverTurn) then Ok(Skip)
      else Ok(Curve)
    else Ok(Straight)
  }

  /** The placements a list of connections adds, to the permitted list and
      to the curve list, one entry per connection judged so. */
  function SweepConnections(c: Catalog, rs: RiverState, last: Option<Point>, p: Placement, cs: seq<Connection>): (r: Result<(seq<Placement>, seq<Placement>)>)
    requires p.referenceTile in c.tiles
    requires forall k :: 0 <= k < |cs| ==> ConnectionReadable(c, cs[k].featureA)
    ensures r.Err? <==> cs != [] && last.None?
    ensures r.Ok? ==> (forall q :: q in r.value.0 ==> q == p) && (forall q :: q in r.value.1 ==> q == p)
  {
    if cs == [] then Ok(([], []))
    else
      match Judge(c, rs, last, p, cs[0])
      case Err(m) => Err(m)
      case Ok(v) =>
        var rest := SweepConnections(c, rs, last, p, cs[1..]);
        if rest.Err? then rest
        else
          match v
          case Skip => rest
          case Straight => Ok(([p] + rest.value.0, rest.value.1))
          case Curve => Ok((rest.value.0, [p] + rest.value.1))
  }

  /** The first pass over every placement and every connection. */
  function Sweep(c: Catalog, rs: RiverState, last: Option<Point>, ps: seq<Placement>): (r: Result<(seq<Placement>, seq<Placement>)>)
    requires RiverReadable(c, ps)
    ensures r.Err? <==> last.None? && exists i :: 0 <= i < |ps| && ps[i].connectedFeatures != []
    ensures r.Ok? ==> (forall q :: q in r.value.0 ==> q in ps) && (forall q :: q in r.value.1 ==> q in ps)
  {
    if ps == [] then Ok(([], []))
    else
      var here := SweepConnections(c, rs, last, ps[0], ps[0].connectedFeatures);
      var rest := Sweep(c, rs, last, ps[1..]);
      assert forall i :: 1 <= i < |ps| ==> ps[i] == ps[1..][i - 1];
      if here.Err? then Err(here.msg)
      else if rest.Err? then rest
      else Ok((here.value.0 + rest.value.0, here.value.1 + rest.value.1))
  }

  /** restictRiverPlacement as written: the placements judged straight,
      plus the curve the tie-break picks when there are two or more
      curves. A lone curve is dropped. */
  function RestrictRiver(c: Catalog, rs: RiverState, last: Option<Point>, ps: seq<Placement>, pick: nat): (r: Result<seq<Placement>>)
    requires RiverReadable(c, ps)
    ensures r.Err? <==> Sweep(c, rs, last, ps).Err?
    ensures r.Ok? ==> forall q :: q in r.value ==> q in ps
  {
    match Sweep(c, rs, last, ps)
    case Err(m) => Err(m)
    case Ok((straight, curved)) =>
      if |curved| > 1 then Ok(straight + [curved[pick % |curved|]]) else Ok(straight)
  }

  /** The filter as evidently intended: the tie-break is only needed among
      several curves, and a lone curve is kept. */
  function CorrectedRestrictRiver(c: Catalog, rs: RiverState, last: Option<Point>, ps: seq<Placement>, pick: nat): (r: Result<seq<Placement>>)
    requires RiverReadable(c, ps)
    ensures r.Err? <==> Sweep(c, rs, last, ps).Err?
    ensures r.Ok? ==> forall q :: q in r.value ==> q in ps
  {
    match Sweep(c, rs, last, ps)
    case Err(m) => Err(m)
    case Ok((straight, curved)) =>
      if |curved| > 0 then Ok(straight + [curved[pick % |curved|]]) else Ok(straight)
  }

  /** The verdicts on the connections `cs` of placement `p`, in order. */
  function Verdicts(c: Catalog, rs: RiverState, last: Option<Point>, p: Placement, cs: seq<Connection>): (vs: seq<Result<Verdict>>)
    requires p.referenceTile in c.tiles
    requires forall k :: 0 <= k < |cs| ==> ConnectionReadable(c, cs[k].featureA)
    ensures |vs| == |cs|
  {
    seq(|cs|, k requires 0 <= k < |cs| => Judge(c, rs, last, p, cs[k]))
  }

  /** Some verdict of `vs` is `v`. */
  predicate HasVerdict(vs: seq<Result<Verdict>>, v: Verdict)
  {
    exists k :: 0 <= k < |vs| && vs[k] == Ok(v)
  }

  /** The first verdict or a later one is `v`. */
  lemma HasVerdictStep(vs: seq<Result<Verdict>>, v: Verdict)
    requires vs != []
    ensures HasVerdict(vs, v) <==> vs[0] == Ok(v) || HasVerdict(vs[1..], v)
  {
    if HasVerdict(vs, v) && vs[0] != Ok(v) {
      var k :| 0 <= k < |vs| && vs[k] == Ok(v);
      assert vs[1..][k - 1] == vs[k];
    }
    if HasVerdict(vs[1..], v) {
      var k :| 0 <= k < |vs[1..]| && vs[1..][k] == Ok(v);
      assert vs[1..][k] == vs[k + 1];
    }
  }

  /** A placement enters a list of the sweep exactly when one of its
      connections is judged so. */
  lemma {:induction false} SweepConnectionsListed(c: Catalog, rs: RiverState, last: Option<Point>, p: Placement, cs: seq<Connection>)
    requires p.referenceTile in c.tiles
    requires forall k :: 0 <= k < |cs| ==> ConnectionReadable(c, cs[k].featureA)
    requires SweepConnections(c, rs, last, p, cs).Ok?
    ensures var r := SweepConnections(c, rs, last, p, cs).value;
      && (r.0 != [] <==> HasVerdict(Verdicts(c, rs, last, p, cs), Straight))
      && (r.1 != [] <==> HasVerdict(Verdicts(c, rs, last, p, cs), Curve))
  {
    if cs != [] {
      SweepConnectionsListed(c, rs, last, p, cs[1..]);
      var vs := Verdicts(c, rs, last, p, cs);
      assert vs[1..] == Verdicts(c, rs, last, p, cs[1..]);
      HasVerdictStep(vs, Straight);
      HasVerdictStep(vs, Curve);
    }
  }

  /** Some connection of `q` continues the river straight on. */
  predicate StraightFor(c: Catalog, rs: RiverState, last: Option<Point>, q: Placement)
    requires PlacementReadable(c, q)
  {
    HasVerdict(Verdicts(c, rs, last, q, q.connectedFeatures), Straight)
  }

  /** Some connection of `q` continues the river with an allowed curve. */
  predicate CurveFor(c: Catalog, rs: RiverState, last: Option<Point>, q: Placement)
    requires PlacementReadable(c, q)
  {
    HasVerdict(Verdicts(c, rs, last, q, q.connectedFeatures), Curve)
  }

  /** The two lists of the sweep hold exactly the placements with a
      straight, respectively an allowed curved, continuation. */
  lemma {:induction false} SweepListed(c: Catalog, rs: RiverState, last: Option<Point>, ps: seq<Placement>)
    requires RiverReadable(c, ps) && Sweep(c, rs, last, ps).Ok?
    ensures var r := Sweep(c, rs, last, ps).value;
      forall i :: 0 <= i < |ps| ==>
        && (ps[i] in r.0 <==> StraightFor(c, rs, last, ps[i]))
        && (ps[i] in r.1 <==> CurveFor(c, rs, last, ps[i]))
  {
    if ps != [] {
      assert forall i :: 1 <= i < |ps| ==> ps[i] == ps[1..][i - 1];
      SweepListed(c, rs, last, ps[1..]);
      var here := SweepConnections(c, rs, last, ps[0], ps[0].connectedFeatures).value;
      var rest := Sweep(c, rs, last, ps[1..]).value;
      SweepConnectionsListed(c, rs, last, ps[0], ps[0].connectedFeatures);
      forall i | 0 <= i < |ps|
        ensures ps[i] in here.0 + rest.0 <==> StraightFor(c, rs, last, ps[i])
        ensures ps[i] in here.1 + rest.1 <==> CurveFor(c, rs, last, ps[i])
      {
        if i > 0 {
          assert ps[i] == ps[1..][i - 1];
        }
        ListedOne(c, rs, last, ps, here, rest, i);
      }
    }
  }

  lemma ListedOne(c: Catalog, rs: RiverState, last: Option<Point>, ps: seq<Placement>,
                  here: (seq<Placement>, seq<Placement>), rest: (seq<Placement>, seq<Placement>), i: nat)
    requires RiverReadable(c, ps) && 0 <= i < |ps|
    requires forall q :: q in here.0 ==> q == ps[0]
    requires forall q :: q in here.1 ==> q == ps[0]
    requires here.0 != [] <==> StraightFor(c, rs, last, ps[0])
    requires here.1 != [] <==> CurveFor(c, rs, last, ps[0])
    requires i > 0 ==> (ps[i] in rest.0 <==> StraightFor(c, rs, last, ps[i]))
    requires i > 0 ==> (ps[i] in rest.1 <==> CurveFor(c, rs, last, ps[i]))
    requires forall q :: q in rest.0 ==> q in ps[1..]
    requires forall q :: q in rest.1 ==> q in ps[1..]
    requires i == 0 ==>
      forall j :: 1 <= j < |ps| && ps[j] == ps[0] ==>
        (ps[j] in rest.0 <==> StraightFor(c, rs, last, ps[j])) && (ps[j] in rest.1 <==> CurveFor(c, rs, last, ps[j]))
    ensures ps[i] in here.0 + rest.0 <==> StraightFor(c, rs, last, ps[i])
    ensures ps[i] in here.1 + rest.1 <==> CurveFor(c, rs, last, ps[i])
  {
    if here.0 != [] {
      assert here.0[0] in here.0;
    }
    if here.1 != [] {
      assert here.1[0] in here.1;
    }
    if i == 0 {
      if ps[0] in rest.0 {
        var j :| 1 <= j < |ps| && ps[j] == ps[0] by {
          var k :| 0 <= k < |ps[1..]| && ps[1..][k] == ps[0];
          assert ps[k + 1] == ps[0];
        }
      }
      if ps[0] in rest.1 {
        var j :| 1 <= j < |ps| && ps[j] == ps[0] by {
          var k :| 0 <= k < |ps[1..]| && ps[1..][k] == ps[0];
          assert ps[k + 1] == ps[0];
        }
      }
    }
  }

  /** Every placement the filter keeps, as written or corrected, continues
      the river, straight on or with an allowed curve; every placement that
      continues it straight on is kept; and at most one curve is kept. */
  lemma RestrictRiverSound(c: Catalog, rs: RiverState, last: Option<Point>, ps: seq<Placement>, pick: nat)
    requires RiverReadable(c, ps) && Sweep(c, rs, last, ps).Ok?
    ensures forall r :: r == RestrictRiver(c, rs, last, ps, pick) || r == CorrectedRestrictRiver(c, rs, last, ps, pick) ==>
      && r.Ok?
      && (forall i :: 0 <= i < |ps| && ps[i] in r.value ==> StraightFor(c, rs, last, ps[i]) || CurveFor(c, rs, last, ps[i]))
      && (forall i :: 0 <= i < |ps| && StraightFor(c, rs, last, ps[i]) ==> ps[i] in r.value)
      && |Sweep(c, rs, last, ps).value.0| <= |r.value| <= |Sweep(c, rs, last, ps).value.0| + 1
  {
    SweepListed(c, rs, last, ps);
    var sw := Sweep(c, rs, last, ps).value;
    forall i | 0 <= i < |ps| && ps[i] in sw.1
      ensures CurveFor(c, rs, last, ps[i])
    {
    }
    if |sw.1| > 0 {
      var k := pick % |sw.1|;
      assert sw.1[k] in sw.1;
    }
  }

  /** The written and the corrected filter differ exactly when the sweep
      allows a single curve; the written one then keeps only the straight
      placements. */
  lemma WrittenDiffersOnLoneCurve(c: Catalog, rs: RiverState, last: Option<Point>, ps: seq<Placement>, pick: nat)
    requires RiverReadable(c, ps)
    ensures RestrictRiver(c, rs, last, ps, pick) != CorrectedRestrictRiver(c, rs, last, ps, pick)
      <==> Sweep(c, rs, last, ps).Ok? && |Sweep(c, rs, last, ps).value.1| == 1
    ensures RestrictRiver(c, rs, last, ps, pick) != CorrectedRestrictRiver(c, rs, last, ps, pick)
      ==> RestrictRiver(c, rs, last, ps, pick) == Ok(Sweep(c, rs, last, ps).value.0)
  {
    var sw := Sweep(c, rs, last, ps);
    if sw.Ok? && |sw.value.1| == 1 {
      var (straight, curved) := sw.value;
      assert |straight + [curved[pick % |curved|]]| != |straight|;
    }
  }

  /** The corrected filter keeps a curve whenever one is allowed. */
  lemma CorrectedKeepsCurve(c: Catalog, rs: RiverState, last: Option<Point>, ps: seq<Placement>, pick: nat, i: nat)
    requires RiverReadable(c, ps) && Sweep(c, rs, last, ps).Ok?
    requires i < |ps| && CurveFor(c, rs, last, ps[i])
    ensures var r := CorrectedRestrictRiver(c, rs, last, ps, pick);
      r.Ok? && exists j :: 0 <= j < |ps| && ps[j] in r.value && CurveFor(c, rs, last, ps[j])
  {
    SweepListed(c, rs, last, ps);
    var sw := Sweep(c, rs, last, ps).value;
    assert ps[i] in sw.1;
    var q := sw.1[pick % |sw.1|];
    assert q in sw.1;
    var j :| 0 <= j < |ps| && ps[j] == q;
    assert ps[j] in CorrectedRestrictRiver(c, rs, last, ps, pick).value;
  }

  /** A catalog with one curving river tile, laid next to a first river
      tile at the origin while no curve has been laid yet. */
  function CurveCatalog(): (c: Catalog)
    ensures c.tiles.Keys == {0}
  {
    Catalog(
      map[0 := RefFeature(River, 0)],
      map[0 := ReferenceTile("RiverCurve", 0, Matrices.Matrix(0, []), [0], [0, 0, 0, 0],
                             [River, River, Farm, Farm])],
      map[0 := ReferenceTileGroup("RiverCurve", [0], [0, 0, 0, 0])])
  }

  function CurvePlacement(): Placement
  {
    Placement(Point(1, 0), 0, [Connection(0, West, None, East)])
  }

  /** The lone curve that continues the river: the filter as written
      leaves no placement for it, the corrected filter keeps it. */
  lemma LoneCurveExample(pick: nat)
    ensures RiverReadable(CurveCatalog(), [CurvePlacement()])
    ensures CurveFor(CurveCatalog(), RiverState(true, 1), Some(Point(0, 0)), CurvePlacement())
    ensures RestrictRiver(CurveCatalog(), RiverState(true, 1), Some(Point(0, 0)), [CurvePlacement()], pick) == Ok([])
    ensures CorrectedRestrictRiver(CurveCatalog(), RiverState(true, 1), Some(Point(0, 0)), [CurvePlacement()], pick) == Ok([CurvePlacement()])
  {
    var c := CurveCatalog();
    var p := CurvePlacement();
    var cf := p.connectedFeatures[0];
    assert EdgePos(p.position, cf.edgeA) == Point(0, 0);
    assert CurvingGroup(c, cf.featureA);
    assert Judge(c, RiverState(true, 1), Some(Point(0, 0)), p, cf) == Ok(Curve);
    assert Verdicts(c, RiverState(true, 1), Some(Point(0, 0)), p, p.connectedFeatures)[0] == Ok(Curve);
    assert p.connectedFeatures[1..] == [] && [p][1..] == [];
    assert [p][0] == p && [p] + [] == [p] && [] + [p] == [p];
    var none: seq<Placement> := [];
    assert none + none == none;
    assert SweepConnections(c, RiverState(true, 1), Some(Point(0, 0)), p, p.connectedFeatures[1..]) == Ok(([], []));
    assert SweepConnections(c, RiverState(true, 1), Some(Point(0, 0)), p, p.connectedFeatures) == Ok(([], [p]));
    assert Sweep(c, RiverState(true, 1), Some(Point(0, 0)), [p][1..]) == Ok(([], []));
    assert Sweep(c, RiverState(true, 1), Some(Point(0, 0)), [p]) == Ok(([], [p]));
  }
}
