/** The basic AI player of engine/playerAI.go. For each candidate
    placement it puts a fresh tile on the board, evaluates each feature
    chain through the tile once, and takes the tile off again. It then
    picks the placement and meeple move whose evaluation ranks highest.
    The ranking of an evaluation (a float formula in the source) is a
    parameter. */
module PlayerAI {
  import opened Wrappers
  import opened ReferenceTiles
  import opened Arena
  import Boards
  import opened BoardFacts
  import BoardRemoval
  import RemovalFacts
  import RemovalFindings
  import opened Placements
  import opened Players
  import opened FeatureChains
  import Engines
  import EngineInvariant

  /** MeepleCostEvaluation. The score change is keyed by the chain's owner
      slots, the source's leading nil slots included (as `None`). */
  datatype CostEval = CostEval(
    potentialScore: nat,
    directScore: nat,
    meepleCost: nat,
    meeplesReturned: set<MeepleId>,
    scoreChange: map<Option<PlayerId>, nat>)

  /** FeatureEvaluation: the tile's feature the chain was started from, the
      reference feature it was cloned from, and its cost evaluations. */
  datatype FeatureEval = FeatureEval(feature: FeatureId, parentFeature: RefFeatureId, costs: seq<CostEval>)

  // ---------------------------------------------------------------------
  // Evaluating one chain
  // ---------------------------------------------------------------------

  /** The cost evaluation of a chain for player `me`. There is none when
      the chain scores below 1 or is owned, but not by `me`. A meeple costs
      nothing on a chain `me` owns and 1 otherwise. Meeples come back only
      from a closed chain, and every owner slot would gain the score. */
  function CostOf(c: Chain, me: PlayerId): (r: Option<CostEval>)
    ensures r.None? <==> c.score < 1 || (HasOwner(c) && !IsOwner(c, me))
    ensures r.Some? ==> var v := r.value;
      && (v.meepleCost == 0 <==> IsOwner(c, me)) && v.meepleCost <= 1
      && (v.meeplesReturned != {} ==> c.isComplete)
      && (c.isComplete ==> v.meeplesReturned == c.meeples)
      && v.directScore + v.potentialScore == c.score
      && (v.directScore > 0 <==> c.isComplete)
      && (forall o :: o in v.scoreChange <==> o in c.owners)
      && (forall o :: o in v.scoreChange ==> v.scoreChange[o] == c.score)
  {
    if c.score < 1 then None
    else if HasOwner(c) && !IsOwner(c, me) then None
    else
      DirectPlusPotential(c);
      var back := if c.isComplete then c.meeples else {};
      var cost := if IsOwner(c, me) then 0 else 1;
      Some(CostEval(Potential(c), Direct(c), cost, back, map o | o in c.owners :: c.score))
  }

  /** The chains of a world, one per feature, for `n` players and the
      meeples `ms` (an empty chain for an id that is not a feature). */
  function ChainsOf(w: World, ms: map<MeepleId, Meeple>, n: nat): FeatureId -> Chain
    requires Resolvable(w.features, w.tiles)
  {
    (f: FeatureId) => if f in w.features then NewChain(w.features, w.tiles, ms, n, f) else Chain(f, {}, {}, false, 0, {}, [])
  }

  /** `ev` is the evaluation of the chain through its feature. */
  predicate EvalOf(fs: map<FeatureId, Feature>, chainOf: FeatureId -> Chain, me: PlayerId, ev: FeatureEval)
  {
    && ev.feature in fs
    && ev.parentFeature == fs[ev.feature].parentFeature
    && CostOf(chainOf(ev.feature), me).Some?
    && ev.costs == [CostOf(chainOf(ev.feature), me).value]
  }

  /** The features of `feats` lying on the chain `c`. */
  function OnTile(feats: seq<FeatureId>, c: Chain): (r: set<FeatureId>)
    ensures forall g :: g in r <==> g in c.featuresVisited && g in feats
  {
    set g | g in c.featuresVisited && g in feats
  }

  /** The loop of EvaluatePlacement over the tile's features `feats` from
      index `i`, skipping those already met on an earlier chain. Every
      result evaluates its own chain, and no result lies on the chain of an
      earlier one. */
  function EvalFeatures(fs: map<FeatureId, Feature>, chainOf: FeatureId -> Chain, me: PlayerId,
                        feats: seq<FeatureId>, i: nat, visited: set<FeatureId>): (r: seq<FeatureEval>)
    requires i <= |feats| && forall k :: 0 <= k < |feats| ==> feats[k] in fs
    ensures forall j :: 0 <= j < |r| ==>
      EvalOf(fs, chainOf, me, r[j]) && r[j].feature in feats[i..] && r[j].feature !in visited
    ensures forall j, k :: 0 <= j < k < |r| ==> r[k].feature !in chainOf(r[j].feature).featuresVisited
    decreases |feats| - i
  {
    if i == |feats| then []
    else
      var f := feats[i];
      if f in visited then
        EvalFeatures(fs, chainOf, me, feats, i + 1, visited)
      else
        var c := chainOf(f);
        var visited' := visited + OnTile(feats, c);
        var rest := EvalFeatures(fs, chainOf, me, feats, i + 1, visited');
        var cost := CostOf(c, me);
        if cost.None? then rest
        else
          var ev := FeatureEval(f, fs[f].parentFeature, [cost.value]);
          assert forall j :: 0 <= j < |rest| ==> rest[j].feature !in c.featuresVisited by {
            forall j | 0 <= j < |rest| ensures rest[j].feature !in c.featuresVisited {
              assert rest[j].feature in feats[i + 1..];
            }
          }
          [ev] + rest
  }

  /** Feature `feats[k]` is evaluated in `r`, or lies on the chain of a
      feature of `feats` at or after `i` and before `k`. */
  predicate Covered(chainOf: FeatureId -> Chain, feats: seq<FeatureId>, r: seq<FeatureEval>, i: nat, k: nat)
    requires k < |feats|
  {
    || (exists j :: 0 <= j < |r| && r[j].feature == feats[k])
    || (exists k' :: i <= k' < k && feats[k] in chainOf(feats[k']).featuresVisited)
  }

  /** Every feature of `feats` from `i` on, not yet visited, whose chain
      is worth evaluating is covered by `r`. */
  predicate CoversFrom(chainOf: FeatureId -> Chain, me: PlayerId, feats: seq<FeatureId>, i: nat, visited: set<FeatureId>, r: seq<FeatureEval>)
  {
    forall k :: i <= k < |feats| && feats[k] !in visited && CostOf(chainOf(feats[k]), me).Some? ==>
      Covered(chainOf, feats, r, i, k)
  }

  /** The loop leaves out a feature whose chain is worth evaluating only
      when an earlier feature's chain already passed through it. */
  lemma {:induction false} EvalFeaturesCovers(fs: map<FeatureId, Feature>, chainOf: FeatureId -> Chain, me: PlayerId,
                                              feats: seq<FeatureId>, i: nat, visited: set<FeatureId>)
    requires i <= |feats| && forall k :: 0 <= k < |feats| ==> feats[k] in fs
    ensures CoversFrom(chainOf, me, feats, i, visited, EvalFeatures(fs, chainOf, me, feats, i, visited))
    decreases |feats| - i
  {
    if i < |feats| {
      if feats[i] in visited {
        EvalFeaturesCovers(fs, chainOf, me, feats, i + 1, visited);
        CoversSkipped(fs, chainOf, me, feats, i, visited);
      } else {
        EvalFeaturesCovers(fs, chainOf, me, feats, i + 1, visited + OnTile(feats, chainOf(feats[i])));
        CoversFollowed(fs, chainOf, me, feats, i, visited);
      }
    }
  }

  /** A visited feature is skipped without widening what is covered. */
  lemma CoversSkipped(fs: map<FeatureId, Feature>, chainOf: FeatureId -> Chain, me: PlayerId,
                      feats: seq<FeatureId>, i: nat, visited: set<FeatureId>)
    requires i < |feats| && (forall k :: 0 <= k < |feats| ==> feats[k] in fs) && feats[i] in visited
    requires CoversFrom(chainOf, me, feats, i + 1, visited, EvalFeatures(fs, chainOf, me, feats, i + 1, visited))
    ensures CoversFrom(chainOf, me, feats, i, visited, EvalFeatures(fs, chainOf, me, feats, i, visited))
  {
    var r := EvalFeatures(fs, chainOf, me, feats, i, visited);
    assert r == EvalFeatures(fs, chainOf, me, feats, i + 1, visited);
    forall k | i <= k < |feats| && feats[k] !in visited && CostOf(chainOf(feats[k]), me).Some?
      ensures Covered(chainOf, feats, r, i, k)
    {
      assert Covered(chainOf, feats, r, i + 1, k);
      if !exists j :: 0 <= j < |r| && r[j].feature == feats[k] {
        var k' :| i + 1 <= k' < k && feats[k] in chainOf(feats[k']).featuresVisited;
      }
    }
  }

  /** A feature not yet visited is evaluated when its chain is worth it,
      and its chain covers the tile's features it passes through. */
  lemma CoversFollowed(fs: map<FeatureId, Feature>, chainOf: FeatureId -> Chain, me: PlayerId,
                       feats: seq<FeatureId>, i: nat, visited: set<FeatureId>)
    requires i < |feats| && (forall k :: 0 <= k < |feats| ==> feats[k] in fs) && feats[i] !in visited
    requires var visited' := visited + OnTile(feats, chainOf(feats[i]));
      CoversFrom(chainOf, me, feats, i + 1, visited', EvalFeatures(fs, chainOf, me, feats, i + 1, visited'))
    ensures CoversFrom(chainOf, me, feats, i, visited, EvalFeatures(fs, chainOf, me, feats, i, visited))
  {
    var r := EvalFeatures(fs, chainOf, me, feats, i, visited);
    var c := chainOf(feats[i]);
    var visited' := visited + OnTile(feats, c);
    var rest := EvalFeatures(fs, chainOf, me, feats, i + 1, visited');
    var shift := if CostOf(c, me).None? then 0 else 1;
    assert r[shift..] == rest;
    forall k | i <= k < |feats| && feats[k] !in visited && CostOf(chainOf(feats[k]), me).Some?
      ensures Covered(chainOf, feats, r, i, k)
    {
      if k == i {
        assert r[0].feature == feats[k];
      } else if feats[k] in visited' {
        assert feats[k] in chainOf(feats[i]).featuresVisited;
      } else {
        assert Covered(chainOf, feats, rest, i + 1, k);
        CoveredByTail(chainOf, feats, r, rest, shift, i, k);
      }
    }
  }

  /** A feature covered by the evaluations after the first `shift` is
      covered by all of them. */
  lemma CoveredByTail(chainOf: FeatureId -> Chain, feats: seq<FeatureId>, r: seq<FeatureEval>, rest: seq<FeatureEval>, shift: nat, i: nat, k: nat)
    requires shift <= |r| && r[shift..] == rest && k < |feats|
    requires Covered(chainOf, feats, rest, i + 1, k)
    ensures Covered(chainOf, feats, r, i, k)
  {
    if exists j :: 0 <= j < |rest| && rest[j].feature == feats[k] {
      var j :| 0 <= j < |rest| && rest[j].feature == feats[k];
      assert r[j + shift].feature == feats[k];
    } else {
      var k' :| i + 1 <= k' < k && feats[k] in chainOf(feats[k']).featuresVisited;
    }
  }

  /** What EvaluatePlacement finds for a tile with features `feats`. */
  predicate Evaluated(fs: map<FeatureId, Feature>, chainOf: FeatureId -> Chain, me: PlayerId, feats: seq<FeatureId>, evs: seq<FeatureEval>)
  {
    && (forall j :: 0 <= j < |evs| ==> EvalOf(fs, chainOf, me, evs[j]) && evs[j].feature in feats)
    && (forall j, k :: 0 <= j < k < |evs| ==> evs[k].feature !in chainOf(evs[j].feature).featuresVisited)
    && CoversFrom(chainOf, me, feats, 0, {}, evs)
  }

  /** A valid world's chains can be resolved. */
  lemma ValidResolvable(w: World)
    requires Valid(w)
    ensures Resolvable(w.features, w.tiles)
  {
    forall f | f in w.features ensures w.features[f].parentTile in w.tiles && w.features[f].links <= w.features.Keys {
      assert FeaturesValid(w);
    }
  }

  // ---------------------------------------------------------------------
  // Evaluating one placement
  // ---------------------------------------------------------------------

  /** The evaluations of the chains through the features of tile `t`. */
  function TileEvaluations(wp: World, ms: map<MeepleId, Meeple>, n: nat, me: PlayerId, t: TileId): (r: seq<FeatureEval>)
    requires Valid(wp) && t in wp.tiles
    ensures Resolvable(wp.features, wp.tiles)
    ensures Evaluated(wp.features, ChainsOf(wp, ms, n), me, wp.tiles[t].features, r)
  {
    ValidResolvable(wp);
    assert TileValid(wp, wp.tiles[t]);
    EvalFeaturesCovers(wp.features, ChainsOf(wp, ms, n), me, wp.tiles[t].features, 0, {});
    EvalFeatures(wp.features, ChainsOf(wp, ms, n), me, wp.tiles[t].features, 0, {})
  }

  /** EvaluatePlacement for player `me` of `n`: a fresh tile from the
      placement's reference tile is put on the board, the chains through
      its features are evaluated, and the tile is removed again with the
      corrected RemoveTileAt. The world after the removal is returned with
      the evaluations; it keeps the fresh tile in the arena, off the board,
      as the source's tile factory does. */
  function EvaluatePlacement(w: World, ms: map<MeepleId, Meeple>, n: nat, me: PlayerId, p: Placement): (r: Result<(seq<FeatureEval>, World)>)
    requires Valid(w) && WellFormed(w.catalog)
    ensures r.Err? <==> p.referenceTile !in w.catalog.tiles || !InBounds(w.board, p.position)
    ensures r.Ok? ==> r.value.1.board.size == w.board.size && r.value.1.catalog == w.catalog
  {
    if p.referenceTile !in w.catalog.tiles then Err("unknown reference tile")
    else if !InBounds(w.board, p.position) then Err("placement off the board")
    else
      var (wp, t) := Engines.PutTile(w, p);
      Boards.ValidShaped(wp);
      Ok((TileEvaluations(wp, ms, n, me, t), BoardRemoval.CorrectedRemoveTileAt(wp, p.position)))
  }

  /** The evaluations EvaluatePlacement returns are those of the fresh
      tile on the board: each evaluates the chain through one of the
      tile's features, no two lie on one chain, and a chain worth
      evaluating is missed only when an earlier feature's chain passed
      through it. */
  lemma EvaluatesPlacedTile(w: World, ms: map<MeepleId, Meeple>, n: nat, me: PlayerId, p: Placement)
    requires Valid(w) && WellFormed(w.catalog)
    requires p.referenceTile in w.catalog.tiles && InBounds(w.board, p.position)
    ensures var (wp, t) := Engines.PutTile(w, p);
      && Resolvable(wp.features, wp.tiles) && t in wp.tiles && t !in w.tiles
      && Evaluated(wp.features, ChainsOf(wp, ms, n), me, wp.tiles[t].features, EvaluatePlacement(w, ms, n, me, p).value.0)
  {
    var (wp, t) := Engines.PutTile(w, p);
    assert EvaluatePlacement(w, ms, n, me, p).value.0 == TileEvaluations(wp, ms, n, me, t);
  }

  /** Evaluating a placement on a vacant cell leaves the board as it was:
      the same grid, tile count and open positions, and the open list up
      to order. */
  lemma EvaluateRestoresBoard(w: World, ms: map<MeepleId, Meeple>, n: nat, me: PlayerId, p: Placement)
    requires Valid(w) && WellFormed(w.catalog) && EngineInvariant.BoardSound(w)
    requires p.referenceTile in w.catalog.tiles && InBounds(w.board, p.position)
    requires p.position !in w.board.grid
    ensures var r := EvaluatePlacement(w, ms, n, me, p);
      && r.Ok?
      && r.value.1.board.grid == w.board.grid
      && r.value.1.board.placedTileCount == w.board.placedTileCount
      && r.value.1.board.openPositions == w.board.openPositions
      && multiset(r.value.1.board.openList) == multiset(w.board.openList)
  {
    EngineInvariant.FreshTileKeepsBoard(w, p.referenceTile);
    var (w1, t) := NewTileFromReference(w, Some(p.referenceTile)).value;
    var wp := Boards.PlaceTile(w1, p.position, t);
    assert Engines.PutTile(w, p) == (wp, t);
    EvaluatedWorld(w, ms, n, me, p);
    RemovalFacts.PlaceThenRemove(w1, p.position, t);
  }

  /** The world EvaluatePlacement returns is the placed world with the
      tile removed again. */
  lemma EvaluatedWorld(w: World, ms: map<MeepleId, Meeple>, n: nat, me: PlayerId, p: Placement)
    requires Valid(w) && WellFormed(w.catalog)
    requires p.referenceTile in w.catalog.tiles && InBounds(w.board, p.position)
    ensures var wp := Engines.PutTile(w, p).0;
      && Boards.Shaped(wp.tiles) && Boards.GridIn(wp.board, wp.tiles) && InBounds(wp.board, p.position)
      && EvaluatePlacement(w, ms, n, me, p).Ok?
      && EvaluatePlacement(w, ms, n, me, p).value.1 == BoardRemoval.CorrectedRemoveTileAt(wp, p.position)
  {
    Boards.ValidShaped(Engines.PutTile(w, p).0);
  }

  /** The evaluation as engine/playerAI.go writes it takes the tile off
      with RemoveTileAt as written, which always re-opens the emptied cell.
      The grid and the tile count come back, but the evaluated cell is left
      open; on an empty board, where no cell borders a placed tile, the
      open positions then no longer match the board. EvaluatePlacement
      above uses the corrected removal instead. */
  lemma WrittenEvaluationReopens(w: World, p: Placement)
    requires Valid(w) && WellFormed(w.catalog) && EngineInvariant.BoardSound(w)
    requires OnBoard(w, p) && p.position !in w.board.grid
    ensures var wp := Engines.PutTile(w, p).0;
      && Boards.Shaped(wp.tiles) && Boards.GridIn(wp.board, wp.tiles) && p.position in wp.board.grid
      && var r := BoardRemoval.RemoveTileAt(wp, p.position);
      && r.board.grid == w.board.grid
      && r.board.placedTileCount == w.board.placedTileCount
      && p.position in r.board.openPositions
      && (w.board.grid == map[] ==> !OpenExact(r))
  {
    var wp := Engines.PutTile(w, p).0;
    Boards.ValidShaped(wp);
    RemovalFacts.UndoPut(w.board.grid, p.position, Engines.PutTile(w, p).1);
    RemovalFindings.RemoveReopensPos(wp, p.position);
    var r := BoardRemoval.RemoveTileAt(wp, p.position);
    if w.board.grid == map[] {
      RemovalFindings.EmptyGridNoFrontier(r.board, p.position);
    }
  }

  // ---------------------------------------------------------------------
  // Choosing a placement
  // ---------------------------------------------------------------------

  /** The placement names a known reference tile and a cell on the board. */
  predicate OnBoard(w: World, p: Placement)
  {
    p.referenceTile in w.catalog.tiles && InBounds(w.board, p.position)
  }

  /** EvaluatePlacement of every option, in order. */
  function EvaluateEach(w: World, ms: map<MeepleId, Meeple>, n: nat, me: PlayerId, options: seq<Placement>): (r: seq<Result<(seq<FeatureEval>, World)>>)
    requires Valid(w) && WellFormed(w.catalog)
    ensures |r| == |options|
    ensures forall j :: 0 <= j < |options| ==> (r[j].Err? <==> !OnBoard(w, options[j]))
  {
    seq(|options|, j requires 0 <= j < |options| => EvaluatePlacement(w, ms, n, me, options[j]))
  }

  /** The evaluations of all options, or the first error among them. */
  function Collect(rs: seq<Result<(seq<FeatureEval>, World)>>): (r: Result<seq<seq<FeatureEval>>>)
    ensures r.Err? <==> exists j :: 0 <= j < |rs| && rs[j].Err?
    ensures r.Ok? ==> |r.value| == |rs| && forall j :: 0 <= j < |rs| ==> r.value[j] == rs[j].value.0
  {
    if exists j :: 0 <= j < |rs| && rs[j].Err? then Err("placement off the board")
    else Ok(seq(|rs|, j requires 0 <= j < |rs| => rs[j].value.0))
  }

  /** The evaluations of the options, in order; an error if some option
      is not on the board. */
  function EvaluateAll(w: World, ms: map<MeepleId, Meeple>, n: nat, me: PlayerId, options: seq<Placement>): (r: Result<seq<seq<FeatureEval>>>)
    requires Valid(w) && WellFormed(w.catalog)
    ensures r.Err? <==> exists j :: 0 <= j < |options| && !OnBoard(w, options[j])
    ensures r.Ok? ==> |r.value| == |options|
  {
    Collect(EvaluateEach(w, ms, n, me, options))
  }

  /** Each evaluation EvaluateAll collects is the one EvaluatePlacement
      makes of that option. */
  lemma EvaluateAllInOrder(w: World, ms: map<MeepleId, Meeple>, n: nat, me: PlayerId, options: seq<Placement>, j: nat)
    requires Valid(w) && WellFormed(w.catalog) && j < |options|
    requires EvaluateAll(w, ms, n, me, options).Ok?
    ensures EvaluatePlacement(w, ms, n, me, options[j]).Ok?
    ensures EvaluateAll(w, ms, n, me, options).value[j] == EvaluatePlacement(w, ms, n, me, options[j]).value.0
  {
    var rs := EvaluateEach(w, ms, n, me, options);
    assert rs[j] == EvaluatePlacement(w, ms, n, me, options[j]);
  }

  /** The best cost evaluation met so far: the option it belongs to, the
      reference feature of the evaluated feature, and the evaluation. */
  datatype Best = Best(option: nat, parent: RefFeatureId, cost: CostEval)

  /** `b` is one of the cost evaluations of `evs`. */
  predicate Offered(evs: seq<seq<FeatureEval>>, b: Best)
  {
    && b.option < |evs|
    && exists k :: 0 <= k < |evs[b.option]| && evs[b.option][k].parentFeature == b.parent && b.cost in evs[b.option][k].costs
  }

  /** What the scan keeps: a best score of 0 with nothing chosen, or the
      positive rank of a chosen cost evaluation. */
  predicate Holds(evs: seq<seq<FeatureEval>>, rank: CostEval -> real, score: real, best: Option<Best>)
  {
    match best
    case None => score == 0.0
    case Some(b) => Offered(evs, b) && score == rank(b.cost) && score > 0.0
  }

  /** No cost evaluation of `evs` ranks above `x`. */
  predicate RanksAtMost(evs: seq<seq<FeatureEval>>, rank: CostEval -> real, x: real)
  {
    forall j, k, l :: 0 <= j < |evs| && 0 <= k < |evs[j]| && 0 <= l < |evs[j][k].costs| ==> rank(evs[j][k].costs[l]) <= x
  }

  /** The innermost loop of DeterminePlacement, over the cost evaluations
      of feature `k` of option `j` from `l`: a strictly higher rank is
      kept. */
  function BestOverCosts(evs: seq<seq<FeatureEval>>, rank: CostEval -> real, j: nat, k: nat, l: nat, score: real, best: Option<Best>): (r: (real, Option<Best>))
    requires j < |evs| && k < |evs[j]| && l <= |evs[j][k].costs| && Holds(evs, rank, score, best)
    ensures r.0 >= score && Holds(evs, rank, r.0, r.1)
    ensures forall m :: l <= m < |evs[j][k].costs| ==> rank(evs[j][k].costs[m]) <= r.0
    decreases |evs[j][k].costs| - l
  {
    if l == |evs[j][k].costs| then (score, best)
    else
      var c := evs[j][k].costs[l];
      if rank(c) > score then
        assert Offered(evs, Best(j, evs[j][k].parentFeature, c));
        BestOverCosts(evs, rank, j, k, l + 1, rank(c), Some(Best(j, evs[j][k].parentFeature, c)))
      else BestOverCosts(evs, rank, j, k, l + 1, score, best)
  }

  /** The middle loop, over the feature evaluations of option `j` from `k`. */
  function BestOverFeatures(evs: seq<seq<FeatureEval>>, rank: CostEval -> real, j: nat, k: nat, score: real, best: Option<Best>): (r: (real, Option<Best>))
    requires j < |evs| && k <= |evs[j]| && Holds(evs, rank, score, best)
    ensures r.0 >= score && Holds(evs, rank, r.0, r.1)
    ensures forall k', m :: k <= k' < |evs[j]| && 0 <= m < |evs[j][k'].costs| ==> rank(evs[j][k'].costs[m]) <= r.0
    decreases |evs[j]| - k
  {
    if k == |evs[j]| then (score, best)
    else
      var step := BestOverCosts(evs, rank, j, k, 0, score, best);
      BestOverFeatures(evs, rank, j, k + 1, step.0, step.1)
  }

  /** The outer loop, over the options from `j`. */
  function BestOverOptions(evs: seq<seq<FeatureEval>>, rank: CostEval -> real, j: nat, score: real, best: Option<Best>): (r: (real, Option<Best>))
    requires j <= |evs| && Holds(evs, rank, score, best)
    ensures r.0 >= score && Holds(evs, rank, r.0, r.1)
    ensures forall j', k, m :: j <= j' < |evs| && 0 <= k < |evs[j']| && 0 <= m < |evs[j'][k].costs| ==> rank(evs[j'][k].costs[m]) <= r.0
    decreases |evs| - j
  {
    if j == |evs| then (score, best)
    else
      var step := BestOverFeatures(evs, rank, j, 0, score, best);
      BestOverOptions(evs, rank, j + 1, step.0, step.1)
  }

  /** The meeple move of the best evaluation: the selected meeple goes on
      the evaluated feature; a meeple that closes a chain holding no meeple
      comes straight back. */
  function MeepleMove(b: Best, selected: Option<MeepleId>): Engines.MeeplePlacement
  {
    var back :=
      if selected.Some? && b.cost.directScore != 0 && |b.cost.meeplesReturned| < 1 then {selected.value}
      else b.cost.meeplesReturned;
    Engines.MeeplePlacement(b.parent, selected, back, b.cost.directScore)
  }

  /** The choice DeterminePlacement makes once every option is evaluated:
      the option of the first cost evaluation ranking strictly highest
      above zero, with its meeple move; the random placement when none
      ranks above zero. */
  function Choose(e: Engines.Engine, options: seq<Placement>, evs: seq<seq<FeatureEval>>, rank: CostEval -> real, draw: nat): (r: Result<(Option<Placement>, Option<Engines.MeeplePlacement>)>)
    requires options != [] && |evs| == |options|
    ensures r.Ok? ==> r.value.0.Some? && r.value.0.value in options
    ensures r.Err? ==> e.current >= |e.players|
  {
    var (_, best) := BestOverOptions(evs, rank, 0, 0.0, None);
    if best.None? then Ok((RandomPlacement(options, draw), None))
    else if e.current >= |e.players| then Err("index out of range: current player")
    else
      var b := best.value;
      var selected := AvailableMeepleWithPower(e.meeples, e.players[e.current].meeples, b.cost.meepleCost);
      Ok((Some(options[b.option]), Some(MeepleMove(b, selected))))
  }

  /** DeterminePlacement of the basic AI for the current player, with
      `rank` standing for the float score of a cost evaluation and `draw`
      for the random fallback. No options give nothing; otherwise the
      choice is one of the options. */
  function DeterminePlacement(e: Engines.Engine, options: seq<Placement>, rank: CostEval -> real, draw: nat): (r: Result<(Option<Placement>, Option<Engines.MeeplePlacement>)>)
    requires Valid(e.world) && WellFormed(e.world.catalog)
    ensures r == Ok((None, None)) <==> options == []
    ensures r.Ok? && options != [] ==> r.value.0.Some? && r.value.0.value in options
  {
    if options == [] then Ok((None, None))
    else
      match EvaluateAll(e.world, e.meeples, |e.players|, e.current, options)
      case Err(msg) => Err(msg)
      case Ok(evs) => Choose(e, options, evs, rank, draw)
  }

  /** Once every option is evaluated, the choice moves a meeple exactly
      when some cost evaluation ranks above zero. Without one it falls
      back to the random placement; with one it takes the option of a
      top-ranked cost evaluation, selects the current player's first
      pooled meeple of enough power, asks back the chain's meeples (or the
      selected meeple, when it closes a chain holding none) and gains the
      direct score. */
  lemma ChoosesBest(e: Engines.Engine, options: seq<Placement>, evs: seq<seq<FeatureEval>>, rank: CostEval -> real, draw: nat)
    requires options != [] && |evs| == |options| && e.current < |e.players|
    ensures var r := Choose(e, options, evs, rank, draw);
      && r.Ok?
      && (r.value.1.None? <==> RanksAtMost(evs, rank, 0.0))
      && (r.value.1.None? ==> r.value.0 == RandomPlacement(options, draw))
      && (r.value.1.Some? ==> exists b :: BestChoice(e, options, evs, rank, b, r.value.0.value, r.value.1.value))
  {
    var (score, best) := BestOverOptions(evs, rank, 0, 0.0, None);
    if best.Some? {
      var b := best.value;
      assert !RanksAtMost(evs, rank, 0.0) by {
        var k :| 0 <= k < |evs[b.option]| && evs[b.option][k].parentFeature == b.parent && b.cost in evs[b.option][k].costs;
        var l :| 0 <= l < |evs[b.option][k].costs| && evs[b.option][k].costs[l] == b.cost;
        assert rank(evs[b.option][k].costs[l]) > 0.0;
      }
      var selected := AvailableMeepleWithPower(e.meeples, e.players[e.current].meeples, b.cost.meepleCost);
      assert BestChoice(e, options, evs, rank, b, options[b.option], MeepleMove(b, selected));
    }
  }

  /** DeterminePlacement fails only on an option off the board or, when
      some evaluation ranks above zero, on a current player out of range;
      otherwise it makes the choice of ChoosesBest on the evaluations of
      the options. */
  lemma DetermineEvaluatesAll(e: Engines.Engine, options: seq<Placement>, rank: CostEval -> real, draw: nat)
    requires Valid(e.world) && WellFormed(e.world.catalog) && options != []
    ensures var r := DeterminePlacement(e, options, rank, draw);
      var all := EvaluateAll(e.world, e.meeples, |e.players|, e.current, options);
      && (all.Err? <==> exists j :: 0 <= j < |options| && !OnBoard(e.world, options[j]))
      && (all.Err? ==> r.Err?)
      && (all.Ok? ==> r == Choose(e, options, all.value, rank, draw))
      && (all.Ok? && e.current < |e.players| ==> r.Ok?)
  {
    var all := EvaluateAll(e.world, e.meeples, |e.players|, e.current, options);
    if all.Ok? && e.current < |e.players| {
      ChoosesBest(e, options, all.value, rank, draw);
    }
  }

  /** `pl` and `mp` are the move DeterminePlacement makes from the cost
      evaluation `b` of `evs`, and no cost evaluation ranks above it. */
  predicate BestChoice(e: Engines.Engine, options: seq<Placement>, evs: seq<seq<FeatureEval>>, rank: CostEval -> real,
                       b: Best, pl: Placement, mp: Engines.MeeplePlacement)
    requires e.current < |e.players|
  {
    && b.option < |options| && Offered(evs, b) && pl == options[b.option]
    && rank(b.cost) > 0.0 && RanksAtMost(evs, rank, rank(b.cost))
    && mp.parentFeature == b.parent
    && mp.selectedMeeple == AvailableMeepleWithPower(e.meeples, e.players[e.current].meeples, b.cost.meepleCost)
    && mp.scoreGained == b.cost.directScore
    && mp.returnedMeeples ==
         (if mp.selectedMeeple.Some? && b.cost.directScore > 0 && b.cost.meeplesReturned == {}
          then {mp.selectedMeeple.value} else b.cost.meeplesReturned)
  }
}
