/** An invariant of the engine of engine/engine.go: besides what the stages
    read, the board's neighbour references mirror the grid, the open
    positions are exactly the frontier with current signatures, the placed
    count is the number of occupied cells, every offered placement names
    a vacant cell, every tile maps its reference features to features of
    their kinds, and links join features of one kind only. A new game meets
    it, and every step keeps it as long as the player places the tile
    where one of the offered placements says. */
module EngineInvariant {
  import opened Wrappers
  import opened Directions
  import opened Points
  import opened ReferenceTiles
  import opened Arena
  import Boards
  import opened BoardFacts
  import opened Placements
  import opened Players
  import opened Decks
  import opened Randoms
  import DeckFactory
  import opened Engines
  import opened EngineFacts
  import FeatureChains
  import FeatureTypes
  import opened FeatureKinds

  ghost predicate Sound(e: Engine)
  {
    && Ready(e)
    && NeighboursMatchGrid(e.world) && OpenExact(e.world)
    && e.world.board.placedTileCount == |e.world.board.grid|
    && (forall q :: q in e.options ==> q.position !in e.world.board.grid)
    && KindsHold(e.world)
  }

  /** The board half of the invariant, for a world. */
  ghost predicate BoardSound(w: World)
  {
    NeighboursMatchGrid(w) && OpenExact(w) && w.board.placedTileCount == |w.board.grid|
  }

  /** Adding a tile that is off the board and has no neighbours keeps the
      neighbour references mirroring the grid. */
  lemma AddedTileKeepsNeighbours(w: World, w1: World, t: TileId, x: Tile)
    requires NeighboursMatchGrid(w) && t !in w.tiles && x.neighbours == NoNeighbours
    requires w1.board == w.board && w1.tiles == w.tiles[t := x]
    ensures NeighboursMatchGrid(w1) && t !in w1.board.grid.Values
  {
    assert forall p :: p in w.board.grid ==> w.board.grid[p] in w.tiles;
  }

  /** Adding a tile that is off the board changes no open-position
      signature. */
  lemma AddedTileKeepsSig(w: World, w1: World, t: TileId, x: Tile, q: Point)
    requires Boards.GridIn(w.board, w.tiles) && t !in w.tiles
    requires w1.board == w.board && w1.catalog == w.catalog && w1.tiles == w.tiles[t := x]
    ensures Boards.OpenSig(w1, q) == Boards.OpenSig(w, q)
  {
    forall d: Direction ensures Boards.FacingKind(w1, q, d) == Boards.FacingKind(w, q, d) {
      var c := EdgePos(q, d);
      if c in w.board.grid {
        assert w.board.grid[c] in w.tiles;
      }
    }
  }

  /** Adding a tile that is off the board keeps the open positions and
      their signatures. */
  lemma AddedTileKeepsOpen(w: World, w1: World, t: TileId, x: Tile)
    requires OpenExact(w) && Boards.GridIn(w.board, w.tiles) && t !in w.tiles
    requires w1.board == w.board && w1.catalog == w.catalog && w1.tiles == w.tiles[t := x]
    ensures OpenExact(w1)
  {
    forall q | q in w1.board.openPositions ensures w1.board.openPositions[q] == Boards.OpenSig(w1, q) {
      AddedTileKeepsSig(w, w1, t, x, q);
    }
  }

  /** A fresh tile, not yet on the board, changes nothing the board half
      of the invariant reads. */
  lemma FreshTileKeepsBoard(w: World, rt: RefTileId)
    requires Valid(w) && WellFormed(w.catalog) && rt in w.catalog.tiles && BoardSound(w)
    ensures var (w1, t) := NewTileFromReference(w, Some(rt)).value;
      && BoardSound(w1) && Valid(w1) && w1.board == w.board
      && t in w1.tiles && t !in w1.board.grid.Values
  {
    var (w1, t) := NewTileFromReference(w, Some(rt)).value;
    assert FreshTileFrame(w, w1, t);
    var x := w1.tiles[t];
    assert x.neighbours == NoNeighbours by {
      assert FreshTileFeatures(w, w1, t, rt);
    }
    assert w1.tiles == w.tiles[t := x];
    AddedTileKeepsNeighbours(w, w1, t, x);
    AddedTileKeepsOpen(w, w1, t, x);
  }

  /** Putting a fresh tile on a vacant cell of the board keeps the board
      half of the invariant. */
  lemma PutTileKeepsBoard(w: World, p: Placement)
    requires Valid(w) && WellFormed(w.catalog) && BoardSound(w)
    requires p.referenceTile in w.catalog.tiles && InBounds(w.board, p.position)
    requires p.position !in w.board.grid
    ensures BoardSound(PutTile(w, p).0)
  {
    FreshTileKeepsBoard(w, p.referenceTile);
    var (w1, t) := NewTileFromReference(w, Some(p.referenceTile)).value;
    PutTilePlaces(w, p, w1, t);
    PlacedKeepsBoard(w1, p.position, t);
  }

  /** Putting a tile that is off the board onto a vacant cell keeps the
      board half of the invariant. */
  lemma PlacedKeepsBoard(w: World, pos: Point, t: TileId)
    requires BoardSound(w) && t in w.tiles && t !in w.board.grid.Values
    requires InBounds(w.board, pos) && pos !in w.board.grid
    ensures BoardSound(Boards.PlaceTile(w, pos, t))
  {
    PlaceKeepsOpen(w, pos, t);
    PlaceKeepsNeighbours(w, pos, t);
    PlacedCount(w.board, pos, t);
  }

  /** Putting a fresh tile on the board keeps the kind facts. */
  lemma PutTileKeepsKinds(w: World, p: Placement)
    requires Valid(w) && WellFormed(w.catalog) && KindsHold(w)
    requires p.referenceTile in w.catalog.tiles && InBounds(w.board, p.position)
    ensures KindsHold(PutTile(w, p).0)
  {
    FreshTileKeepsKinds(w, p.referenceTile);
    var (w1, t) := NewTileFromReference(w, Some(p.referenceTile)).value;
    assert FreshTileFrame(w, w1, t);
    Boards.ValidShaped(w1);
    PutTilePlaces(w, p, w1, t);
    PlaceKeepsKinds(w1, p.position, t);
  }

  /** In every state the invariant covers, a castle chain visits no Shield
      feature, so computeScore as written scores a castle at twice its
      tiles and never adds its Shield bonus. */
  lemma SoundCastleChainsShieldless(e: Engine, start: FeatureId)
    requires Sound(e) && start in e.world.features && e.world.features[start].ftype == FeatureTypes.Castle
    ensures var fs := e.world.features; var vs := FeatureChains.Component(FeatureChains.LinkGraph(fs), start);
      && FeatureChains.ShieldsIn(fs, vs) == {}
      && FeatureChains.ChainScore(fs, start, vs) == 2 * |FeatureChains.TilesOf(fs, vs)|
  {
    assert FeatureChains.LinksResolve(e.world.features) by {
      assert FeaturesValid(e.world);
    }
    FeatureChains.ShieldBonusUnreachable(e.world.features, start);
  }

  /** PutTile places the fresh tile. */
  lemma PutTilePlaces(w: World, p: Placement, w1: World, t: TileId)
    requires Valid(w) && WellFormed(w.catalog)
    requires p.referenceTile in w.catalog.tiles && InBounds(w.board, p.position)
    requires NewTileFromReference(w, Some(p.referenceTile)) == Ok((w1, t))
    requires Boards.Shaped(w1.tiles) && t in w1.tiles
    ensures PutTile(w, p) == (Boards.PlaceTile(w1, p.position, t), t)
  {
  }

  /** Filling a vacant cell counts one more tile. */
  lemma PlacedCount(b: Board, pos: Point, t: TileId)
    requires b.placedTileCount == |b.grid| && pos !in b.grid
    ensures b.placedTileCount + 1 == |b.grid[pos := t]|
  {
  }

  /** Every candidate placement names a vacant cell: before the first
      tile the board is empty, and after it candidates sit on open
      positions, which are vacant. */
  lemma CandidatesVacant(e: Engine, g: GroupId)
    requires Ready(e) && BoardSound(e.world) && g in e.world.catalog.groups
    ensures forall q :: q in Candidates(e, g) ==> q.position !in e.world.board.grid
  {
    Boards.ValidShaped(e.world);
    if e.world.board.placedTileCount >= 1 {
      PossibleAfterFirst(e.world, e.world.catalog.groups[g], Point(0, 0), North);
      forall q | q in Candidates(e, g) ensures q.position !in e.world.board.grid {
        assert q.position in e.world.board.openPositions;
        assert Boards.Frontier(e.world.board, q.position);
      }
    }
  }

  /** The groups a shuffled pile holds are those of the pile. */
  lemma ShuffledFrom(pile: seq<GroupId>, rng: Rng)
    ensures forall g :: g in Shuffle(Deck(pile), rng).0.tiles ==> g in pile
  {
    ShufflePermutes(Deck(pile), rng);
    assert forall g :: g in Shuffle(Deck(pile), rng).0.tiles ==> g in multiset(pile);
  }

  /** Both decks of a new game hold groups of the catalog. */
  lemma InitDecksListed(c: Catalog, order: seq<GroupId>, counts: map<string, int>, rng: Rng)
    requires DeckFactory.Listed(c, order)
    ensures var r := DeckFactory.BuildRiverDeck(c, order, counts, rng);
      && (r.Ok? ==> forall g :: g in r.value.0.tiles ==> g in c.groups)
      && (r.Ok? ==> forall g :: g in DeckFactory.BuildDeck(c, order, counts, r.value.1).0.tiles ==> g in c.groups)
  {
    var r := DeckFactory.BuildRiverDeck(c, order, counts, rng);
    if r.Ok? {
      var t := DeckFactory.FindTerminus(c, order).value;
      var stacked := DeckFactory.Stacked(c, counts, DeckFactory.RiverGroups(c, order));
      ShuffledFrom(stacked, rng);
      var d := Shuffle(Deck(stacked), rng).0;
      assert r.value.0.tiles == [t] + d.tiles + [t];
      ShuffledFrom(DeckFactory.Stacked(c, counts, DeckFactory.LandGroups(c, order)), r.value.1);
    }
  }

  /** A new game meets the invariant when the catalog has its loader shape. */
  lemma InitGameSound(c: Catalog, order: seq<GroupId>, counts: map<string, int>, size: nat, n: nat, rng: Rng)
    requires DeckFactory.Listed(c, order) && WellFormed(c)
    ensures var r := InitGame(c, order, counts, size, n, rng);
      r.Ok? ==> Sound(r.value)
  {
    var r := InitGame(c, order, counts, size, n, rng);
    if r.Ok? {
      InitDecksListed(c, order, counts, rng);
      var e := r.value;
      var rd := DeckFactory.BuildRiverDeck(c, order, counts, rng).value;
      assert e.riverDeck == rd.0 && e.deck == DeckFactory.BuildDeck(c, order, counts, rd.1).0;
      NewBoardMatches(e.world);
      NewBoardOpenExact(e.world);
      SoundFromParts(e);
    }
  }

  /** Every step keeps the invariant, provided the PlaceTile stage puts the
      tile where one of the offered placements says. */
  lemma StepKeepsSound(e: Engine, ch: Choice)
    requires Sound(e)
    requires e.stage.PlaceTile? && ch.placement.Some? ==> ch.placement.value in e.options
    ensures Step(e, ch).Ok? ==> Sound(Step(e, ch).value)
  {
    if e.gameOver || e.current >= |e.players| {
    } else if e.stage.Draw? {
      DrawStepKeepsSound(e, ch);
    } else if e.stage.PlaceTile? {
      PlaceStepKeepsSound(e, ch);
    } else if e.stage.PlaceMeeple? {
      MeepleStepKeepsSound(e, ch);
    } else if e.stage.Score? {
      ScoreStepKeepsSound(e, ch);
    } else {
      PassStepKeepsSound(e, ch);
    }
  }

  /** The Draw stage keeps the invariant: the world stays, and what it
      offers are candidates, which sit on vacant cells. */
  lemma DrawStepKeepsSound(e: Engine, ch: Choice)
    requires Sound(e) && !e.gameOver && e.current < |e.players| && e.stage.Draw?
    ensures Step(e, ch).Ok? ==> Sound(Step(e, ch).value)
  {
    StepByStage(e, ch);
    var e0 := e.(tilePlaced := None, decided := None, held := None, options := []);
    DrawFromFacts(e0, 0, ch.curvePick);
    var r := DrawFrom(e0, 0, ch.curvePick);
    if r.Ok? {
      var e' := r.value;
      if e'.stage.PlaceTile? {
        CandidatesVacant(e0, e'.held.value);
      }
      assert BoardSound(e'.world);
      SoundFromParts(e');
    }
  }

  /** The invariant holds of an engine whose world meets the board half
      and whose other parts meet what the stages read. */
  lemma SoundFromParts(e: Engine)
    requires Valid(e.world) && WellFormed(e.world.catalog) && BoardSound(e.world) && DecksListed(e)
    requires KindsHold(e.world)
    requires e.tilePlaced.Some? ==> e.tilePlaced.value in e.world.tiles
    requires forall m :: m in e.meeples ==> e.meeples[m].player < |e.players|
    requires forall q :: q in e.options ==> q.position !in e.world.board.grid
    ensures Sound(e)
  {
    ListMatchedIsListed(e.world.board);
  }

  /** A list matched with the map lists only open positions. */
  lemma ListMatchedIsListed(b: Board)
    requires Boards.ListMatches(b)
    ensures ListedOpen(b, b.openList)
  {
    forall i | 0 <= i < |b.openList|
      ensures b.openList[i] in b.openPositions
    {
      assert b.openList[i] in b.openList;
    }
  }

  /** The PlaceTile stage keeps the invariant when the placement was
      offered: the offered cell is vacant, so the fresh tile goes on an
      empty cell. */
  lemma PlaceStepKeepsSound(e: Engine, ch: Choice)
    requires Sound(e) && !e.gameOver && e.current < |e.players| && e.stage.PlaceTile?
    requires ch.placement.Some? ==> ch.placement.value in e.options
    ensures Step(e, ch).Ok? ==> Sound(Step(e, ch).value)
  {
    StepByStage(e, ch);
    if ch.placement.Some? {
      var p := ch.placement.value;
      var r := PlaceTileFor(e.(decided := ch.meeple), p);
      if r.Ok? {
        var (e1, t) := r.value;
        var e' := e1.(tilePlaced := Some(t), options := [], held := None, stage := TurnStage.PlaceMeeple);
        assert PlaceTileStage(e, ch) == Ok(e');
        PlacedSound(e, e', p, t);
      }
    }
  }

  /** An engine whose world is the old one with a tile put on a vacant
      cell, the decks, meeples and players as before and nothing offered,
      meets the invariant. */
  lemma PlacedSound(e: Engine, e': Engine, p: Placement, t: TileId)
    requires Ready(e) && BoardSound(e.world) && KindsHold(e.world)
    requires p.referenceTile in e.world.catalog.tiles && InBounds(e.world.board, p.position)
    requires p.position !in e.world.board.grid
    requires (e'.world, t) == PutTile(e.world, p)
    requires e'.riverDeck == e.riverDeck && e'.deck == e.deck
    requires e'.meeples == e.meeples && e'.players == e.players
    requires e'.tilePlaced == Some(t) && e'.options == []
    ensures Sound(e')
  {
    PutTileKeepsBoard(e.world, p);
    PutTileKeepsKinds(e.world, p);
    SoundFromParts(e');
  }

  /** Step runs the current stage. */
  lemma StepByStage(e: Engine, ch: Choice)
    requires Ready(e) && !e.gameOver && e.current < |e.players|
    ensures e.stage.Draw? ==> Step(e, ch) == DrawStage(e, ch.curvePick)
    ensures e.stage.PlaceTile? ==> Step(e, ch) == PlaceTileStage(e, ch)
    ensures e.stage.PlaceMeeple? ==> Step(e, ch) == PlaceMeepleStage(e)
    ensures e.stage.Score? ==> Step(e, ch) == ScoreStage(e)
    ensures e.stage.Pass? ==> Step(e, ch) == Ok(PassStage(e))
  {
  }

  /** Whose meeples are in play: every meeple belongs to a player. */
  predicate MeeplesOwned(e: Engine)
  {
    forall m :: m in e.meeples ==> e.meeples[m].player < |e.players|
  }

  /** A change that keeps the world, the decks and the offered placements
      keeps the invariant, as long as meeples still belong to players and
      the placed tile, if any, is the one before. */
  lemma SoundFrame(e: Engine, e': Engine)
    requires Sound(e)
    requires e'.world == e.world && e'.riverDeck == e.riverDeck && e'.deck == e.deck
    requires e'.options == e.options && (e'.tilePlaced.None? || e'.tilePlaced == e.tilePlaced)
    requires MeeplesOwned(e')
    ensures Sound(e')
  {
  }

  /** Placing a meeple keeps every meeple with its player. */
  lemma MeepleStageOwned(e: Engine)
    requires Ready(e)
    ensures PlaceMeepleStage(e).Ok? ==> MeeplesOwned(PlaceMeepleStage(e).value)
  {
    var r := PlaceMeepleOnFeature(e.world, e.meeples, e.tilePlaced, e.decided);
    if r.Ok? && e.tilePlaced.Some? && e.decided.Some? && e.decided.value.selectedMeeple.Some? {
      var sel := e.decided.value.selectedMeeple.value;
      forall m | m in r.value ensures r.value[m].player == e.meeples[m].player {
        if m != sel {
          assert r.value[m] == e.meeples[m];
        }
      }
    }
  }

  /** The PlaceMeeple stage only moves a meeple onto a feature. */
  lemma MeepleStepKeepsSound(e: Engine, ch: Choice)
    requires Sound(e) && !e.gameOver && e.current < |e.players| && e.stage.PlaceMeeple?
    ensures Step(e, ch).Ok? ==> Sound(Step(e, ch).value)
  {
    StepByStage(e, ch);
    MeepleStageOwned(e);
    if PlaceMeepleStage(e).Ok? {
      SoundFrame(e, PlaceMeepleStage(e).value);
    }
  }

  /** Scoring keeps every meeple with its player. */
  lemma ScoreStageOwned(e: Engine)
    requires Ready(e)
    ensures ScoreStage(e).Ok? ==> MeeplesOwned(ScoreStage(e).value)
  {
    var r := ScoreFinishedFeature(e.players, e.meeples, e.decided);
    if r.Ok? && e.decided.Some? {
      assert forall m :: m in r.value.1 ==> r.value.1[m].player == e.meeples[m].player;
    }
  }

  /** The Score stage only takes meeples off features and changes scores. */
  lemma ScoreStepKeepsSound(e: Engine, ch: Choice)
    requires Sound(e) && !e.gameOver && e.current < |e.players| && e.stage.Score?
    ensures Step(e, ch).Ok? ==> Sound(Step(e, ch).value)
  {
    StepByStage(e, ch);
    ScoreStageOwned(e);
    if ScoreStage(e).Ok? {
      SoundFrame(e, ScoreStage(e).value);
    }
  }

  /** The Pass stage changes only whose turn it is. */
  lemma PassStepKeepsSound(e: Engine, ch: Choice)
    requires Sound(e) && !e.gameOver && e.current < |e.players| && e.stage.Pass?
    ensures Step(e, ch).Ok? ==> Sound(Step(e, ch).value)
  {
    StepByStage(e, ch);
    SoundFrame(e, PassStage(e));
  }
}
