/** What the turn state machine of engine/engine.go guarantees over its
    stages: the stage cycle, the draw loop's use of the decks, and an
    invariant of the engine that every step keeps when the player picks
    one of the offered placements. */
module EngineFacts {
  import opened Wrappers
  import opened Points
  import opened ReferenceTiles
  import opened Arena
  import Boards
  import opened BoardFacts
  import opened Placements
  import opened Players
  import opened Decks
  import DeckFactory
  import FeatureChains
  import opened Engines

  // ---------------------------------------------------------------------
  // The stage cycle
  // ---------------------------------------------------------------------

  /** Five steps of the stage counter come back to where they started,
      and no fewer do: the stages form one cycle through all five. */
  lemma StageCycle(s: TurnStage)
    ensures Next(Next(Next(Next(Next(s))))) == s
    ensures Next(s) != s && Next(Next(s)) != s && Next(Next(Next(s))) != s && Next(Next(Next(Next(s)))) != s
  {
  }

  /** Different stages have different source values. */
  lemma OrdinalInjective(s: TurnStage, t: TurnStage)
    ensures Ordinal(s) == Ordinal(t) <==> s == t
  {
  }

  // ---------------------------------------------------------------------
  // Drawing
  // ---------------------------------------------------------------------

  /** TakeNextTile takes exactly one tile: the decks lose the taken group
      and nothing else of the engine changes. */
  lemma TakeNextTileTakesOne(e: Engine)
    requires TileTotal(e) > 0
    ensures TakeNextTile(e).Ok?
    ensures var (g, e') := TakeNextTile(e).value;
      && TileTotal(e') + 1 == TileTotal(e)
      && multiset(e'.riverDeck.tiles) + multiset(e'.deck.tiles) + multiset{g}
           == multiset(e.riverDeck.tiles) + multiset(e.deck.tiles)
      && e' == e.(riverDeck := e'.riverDeck, deck := e'.deck)
  {
    var (g, e') := TakeNextTile(e).value;
    if e.riverDeck.tiles != [] {
      assert e.riverDeck.tiles == [g] + e'.riverDeck.tiles;
    } else {
      assert e.deck.tiles == [g] + e'.deck.tiles;
    }
  }

  /** One try of the draw loop: it ends the game exactly when both decks
      are empty; otherwise it holds one group taken from a deck, offers
      only placements of that group on the current board, and counts as
      drawn exactly when it offers some. */
  lemma TryDrawFacts(e: Engine, pick: nat)
    requires Ready(e)
    ensures var r := TryDraw(e, pick);
      && (r.Ok? && r.value.Ended? <==> TileTotal(e) == 0)
      && (r.Ok? && r.value.Ended? ==> r.value.e == EndGame(e))
      && (r.Ok? && !r.value.Ended? ==> var e' := r.value.e;
            && TileTotal(e') + 1 == TileTotal(e) && e'.gameOver == e.gameOver
            && e'.held.Some? && e'.held.value in e.world.catalog.groups
            && (forall q :: q in e'.options ==> q in Candidates(e, e'.held.value))
            && (r.value.Drawn? <==> e'.options != [])
            && (r.value.Unplayable? ==> r.value.g == e'.held.value))
  {
    if TileTotal(e) > 0 {
      TakeNextTileTakesOne(e);
      var (g, e1) := TakeNextTile(e).value;
      assert g in e.riverDeck.tiles || g in e.deck.tiles;
      assert Candidates(e1, g) == Candidates(e, g);
    }
  }

  /** The draw loop at the Draw stage: it either moves to PlaceTile
      offering placements of a held group on the current board, without
      ending the game, or stays at Draw offering nothing. The game ends
      only when a try finds both decks empty; otherwise exactly one tile
      is used up, since an unplayable tile goes back to the deck. */
  lemma {:induction false} DrawFromFacts(e: Engine, tries: nat, pick: nat)
    requires tries <= 3 && Ready(e) && e.stage.Draw? && e.options == []
    ensures var r := DrawFrom(e, tries, pick);
      r.Ok? ==> var e' := r.value;
      && (e'.stage.Draw? || (e'.stage.PlaceTile? && tries < 3))
      && (e'.stage.PlaceTile? ==>
            && e'.options != [] && e'.gameOver == e.gameOver
            && e'.held.Some? && e'.held.value in e.world.catalog.groups
            && forall q :: q in e'.options ==> q in Candidates(e, e'.held.value))
      && (e'.stage.Draw? ==> e'.options == [])
      && (e'.gameOver != e.gameOver ==> e'.gameOver && TileTotal(e) == 0 && tries < 3)
      && (e'.gameOver == e.gameOver && TileTotal(e) > 0 ==> TileTotal(e') + 1 == TileTotal(e))
    decreases 3 - tries
  {
    if tries == 3 {
      if TileTotal(e) > 0 {
        TakeNextTileTakesOne(e);
      }
    } else {
      TryDrawFacts(e, pick);
      match TryDraw(e, pick)
      case Err(_) =>
      case Ok(Ended(_)) =>
      case Ok(Drawn(_)) =>
      case Ok(Unplayable(e1, g)) =>
        var e2 := Requeue(e1, g);
        assert Candidates(e2, g) == Candidates(e, g);
        DrawFromFacts(e2, tries + 1, pick);
    }
  }

  // ---------------------------------------------------------------------
  // One step
  // ---------------------------------------------------------------------

  /** Step moves the stage on by one, except that a Draw whose tile cannot
      be placed stays at Draw with nothing offered; a move to PlaceTile
      always offers a placement. */
  lemma StepStage(e: Engine, ch: Choice)
    requires Ready(e) && !e.gameOver
    ensures var r := Step(e, ch);
      r.Ok? ==>
      && (!e.stage.Draw? ==> r.value.stage == Next(e.stage))
      && (e.stage.Draw? ==>
            || (r.value.stage.PlaceTile? && r.value.options != [] && !r.value.gameOver)
            || (r.value.stage.Draw? && r.value.options == []))
  {
    if e.stage.Draw? && e.current < |e.players| {
      DrawFromFacts(e.(tilePlaced := None, decided := None, held := None, options := []), 0, ch.curvePick);
    }
  }

  /** The Draw stage uses up exactly one tile of the decks, or finds them
      empty and ends the game. */
  lemma DrawStepUsesOneTile(e: Engine, ch: Choice)
    requires Ready(e) && !e.gameOver && e.stage.Draw?
    ensures var r := Step(e, ch);
      r.Ok? ==>
      && (r.value.gameOver <==> TileTotal(e) == 0)
      && (!r.value.gameOver ==> TileTotal(r.value) + 1 == TileTotal(e))
  {
    if e.current < |e.players| {
      var e0 := e.(tilePlaced := None, decided := None, held := None, options := []);
      DrawFromFacts(e0, 0, ch.curvePick);
      if TileTotal(e) == 0 {
        assert TakeNextTile(e0).Err?;
      }
    }
  }

  /** The PlaceTile stage puts a fresh tile on the decided cell, records it
      as the tile of this turn, and keeps the player's meeple decision. */
  lemma PlaceStepPutsTile(e: Engine, ch: Choice)
    requires Ready(e) && !e.gameOver && e.stage.PlaceTile?
    ensures var r := Step(e, ch);
      && (ch.placement.None? ==> r.Err?)
      && (ch.placement.Some? && e.current < |e.players| ==>
            (r.Err? <==> ch.placement.value.referenceTile !in e.world.catalog.tiles
                         || !InBounds(e.world.board, ch.placement.value.position)))
      && (r.Ok? ==> var e' := r.value; var p := ch.placement.value;
            && e'.tilePlaced.Some? && e'.tilePlaced.value !in e.world.tiles
            && e'.world.board.grid == e.world.board.grid[p.position := e'.tilePlaced.value]
            && e'.world.board.placedTileCount == e.world.board.placedTileCount + 1
            && e'.decided == ch.meeple && e'.options == []
            && e'.players == e.players && e'.meeples == e.meeples)
  {
  }

  /** The Score stage pays the decided score to the players holding most
      of the returned meeples and takes those meeples off the board. */
  lemma ScoreStepPaysOwners(e: Engine, ch: Choice)
    requires Ready(e) && !e.gameOver && e.stage.Score? && e.current < |e.players|
    requires e.decided.Some?
    ensures var r := Step(e, ch); var back := e.decided.value.returnedMeeples;
      r.Ok? ==>
      && |r.value.players| == |e.players|
      && (forall m :: m in back ==> r.value.meeples[m].feature.None?)
      && forall p :: 0 <= p < |e.players| ==>
           (r.value.players[p].score > e.players[p].score <==>
              e.decided.value.scoreGained > 0 && Some(p) in FeatureChains.Owners(e.meeples, back, |e.players|))
  {
  }

  /** The Pass stage hands the turn to the next player in order, wrapping
      to the first, or ends the game once the main deck is empty. */
  lemma PassStepRotates(e: Engine, ch: Choice)
    requires Ready(e) && !e.gameOver && e.stage.Pass? && e.current < |e.players|
    ensures var r := Step(e, ch);
      && r.Ok? && r.value.stage.Draw?
      && (r.value.gameOver <==> e.deck.tiles == [])
      && (!r.value.gameOver ==>
            && r.value.current == (e.current + 1) % |e.players|
            && r.value.turnCounter == e.turnCounter + 1
            && r.value.tilePlaced.None?)
  {
  }
}
