/** The turn state machine of engine/engine.go. A game moves through the
    stages Draw, PlaceTile, PlaceMeeple, Score and Pass; each call of Step
    performs one stage. The decisions the current player takes (where the
    tile goes, where a meeple goes) and the tie-break among river curves
    are inputs of Step; the random source is part of the state. A Go panic
    is an `Err`. */
module Engines {
  import opened Wrappers
  import opened Points
  import opened FeatureTypes
  import opened EdgeSignatures
  import opened ReferenceTiles
  import opened Arena
  import Boards
  import opened Placements
  import opened Players
  import opened Randoms
  import opened Decks
  import DeckFactory
  import opened Rivers
  import FeatureChains

  /** turnStage.TurnStage, in the source's order. */
  datatype TurnStage = Draw | PlaceTile | PlaceMeeple | Score | Pass

  /** The source's integer value of a stage. */
  function Ordinal(s: TurnStage): (n: nat)
    ensures n < 5
  {
    match s
    case Draw => 0
    case PlaceTile => 1
    case PlaceMeeple => 2
    case Score => 3
    case Pass => 4
  }

  /** The stage after `s`: `TurnStage++`, and Pass back to Draw. */
  function Next(s: TurnStage): (t: TurnStage)
    ensures Ordinal(t) == (Ordinal(s) + 1) % 5
  {
    match s
    case Draw => TurnStage.PlaceTile
    case PlaceTile => TurnStage.PlaceMeeple
    case PlaceMeeple => TurnStage.Score
    case Score => TurnStage.Pass
    case Pass => TurnStage.Draw
  }

  /** The meeple move a player decides on together with its tile: the
      reference feature of the placed tile to put `selectedMeeple` on, the
      meeples coming back at the Score stage and the score they bring. The
      source's returned slice holds a chain's meeples, each once, or the one
      selected meeple; it is a set here. */
  datatype MeeplePlacement = MeeplePlacement(
    parentFeature: RefFeatureId,
    selectedMeeple: Option<MeepleId>,
    returnedMeeples: set<MeepleId>,
    scoreGained: int)

  /** What a Step reads besides the engine: the current player's decision,
      used by the PlaceTile stage, and which of several allowed river
      curves the distance tie-break ranks first. */
  datatype Choice = Choice(placement: Option<Placement>, meeple: Option<MeeplePlacement>, curvePick: nat)

  datatype Engine = Engine(
    gameOver: bool,
    world: World,
    players: seq<Player>,
    meeples: map<MeepleId, Meeple>,
    current: nat,
    tilePlaced: Option<TileId>,
    decided: Option<MeeplePlacement>,
    held: Option<GroupId>,
    options: seq<Placement>,
    turnCounter: nat,
    stage: TurnStage,
    riverDeck: Deck,
    deck: Deck,
    river: RiverState,
    lastRiverTile: Option<TileId>,
    rng: Rng)

  /** The number of colours the source has for players. */
  const MaxPlayers: nat := 5

  /** What the stages read of the engine without checking: the arena
      resolves, the catalog has its loader shape, the open list names open
      positions, both decks hold groups of the catalog, the placed tile is
      in the arena, and every meeple belongs to a player of the game. */
  predicate Ready(e: Engine)
  {
    && Valid(e.world) && WellFormed(e.world.catalog)
    && ListedOpen(e.world.board, e.world.board.openList)
    && DecksListed(e)
    && (e.tilePlaced.Some? ==> e.tilePlaced.value in e.world.tiles)
    && (forall m :: m in e.meeples ==> e.meeples[m].player < |e.players|)
  }

  predicate DecksListed(e: Engine)
  {
    && (forall g :: g in e.riverDeck.tiles ==> g in e.world.catalog.groups)
    && (forall g :: g in e.deck.tiles ==> g in e.world.catalog.groups)
  }

  /** The tiles left in both decks. */
  function TileTotal(e: Engine): nat
  {
    Remaining(e.riverDeck) + Remaining(e.deck)
  }

  // ---------------------------------------------------------------------
  // Setting up
  // ---------------------------------------------------------------------

  /** The decimal digits of `n`, as fmt.Sprint writes them. */
  function Decimal(n: nat): (s: string)
    ensures |s| > 0 && forall i :: 0 <= i < |s| ==> '0' <= s[i] <= '9'
  {
    var d := [(('0' as int) + n % 10) as char];
    if n < 10 then d else Decimal(n / 10) + d
  }

  /** Players `i .. n-1`, named "Player i", the meeples of player `i`
      taking the ids from `7 * i`. */
  function NewPlayers(n: nat, i: nat): (r: (seq<Player>, map<MeepleId, Meeple>))
    requires i <= n
    ensures |r.0| == n - i
    ensures forall k :: 0 <= k < n - i ==> r.0[k].score == 0 && |r.0[k].meeples| == MeepleCount
    ensures forall m :: m in r.1 ==> i <= r.1[m].player < n && r.1[m].feature.None? && r.1[m].power == 1
    ensures forall m :: m in r.1 <==> i * MeepleCount <= m < n * MeepleCount
    decreases n - i
  {
    if i == n then ([], map[])
    else
      var (pl, ms) := NewPlayer("Player " + Decimal(i), i, i * MeepleCount);
      var (rest, rms) := NewPlayers(n, i + 1);
      assert forall m :: m in ms <==> i * MeepleCount <= m < (i + 1) * MeepleCount by {
        forall m ensures m in ms <==> i * MeepleCount <= m < (i + 1) * MeepleCount {
          if i * MeepleCount <= m < (i + 1) * MeepleCount {
            assert pl.meeples[m - i * MeepleCount] == m;
          }
        }
      }
      ([pl] + rest, ms + rms)
  }

  /** NewEngine followed by InitGame, for `n` players on a board of side
      `size`: more players than colours panic; the decks are built from the
      game data `c` (groups visited in `order`, copies from `counts`). */
  function InitGame(c: Catalog, order: seq<GroupId>, counts: map<string, int>, size: nat, n: nat, rng: Rng): (r: Result<Engine>)
    requires DeckFactory.Listed(c, order)
    ensures r.Err? <==> n > MaxPlayers || DeckFactory.FindTerminus(c, order).None?
    ensures r.Ok? ==> var e := r.value;
      && !e.gameOver && e.stage == Draw && e.current == 0 && e.turnCounter == 0
      && e.tilePlaced.None? && e.decided.None? && e.held.None? && e.options == []
      && e.river == RiverState(true, 1) && e.lastRiverTile.None?
      && |e.players| == n && e.world.board == Boards.NewBoard(size)
      && e.world.tiles == map[] && e.world.features == map[] && e.world.catalog == c
      && (forall p :: 0 <= p < n ==> e.players[p].score == 0)
      && (forall m :: m in e.meeples ==> e.meeples[m].player < n && e.meeples[m].feature.None?)
  {
    if n > MaxPlayers then Err("too many players for the colors implemented")
    else
      var (players, meeples) := NewPlayers(n, 0);
      match DeckFactory.BuildRiverDeck(c, order, counts, rng)
      case Err(m) => Err(m)
      case Ok((riverDeck, rng1)) =>
        var (deck, rng2) := DeckFactory.BuildDeck(c, order, counts, rng1);
        Ok(Engine(false, World(c, map[], map[], 0, 0, Boards.NewBoard(size)), players, meeples, 0,
                  None, None, None, [], 0, Draw, riverDeck, deck, RiverState(true, 1), None, rng2))
  }

  // ---------------------------------------------------------------------
  // Drawing
  // ---------------------------------------------------------------------

  /** TakeNextTile: the front of the river deck while it has tiles, else
      the front of the main deck; an error when both are empty. */
  function TakeNextTile(e: Engine): (r: Result<(GroupId, Engine)>)
    ensures r.Err? <==> e.riverDeck.tiles == [] && e.deck.tiles == []
    ensures r.Ok? && e.riverDeck.tiles != [] ==>
      r.value.0 == e.riverDeck.tiles[0] && r.value.1 == e.(riverDeck := Deck(e.riverDeck.tiles[1..]))
    ensures r.Ok? && e.riverDeck.tiles == [] ==>
      r.value.0 == e.deck.tiles[0] && r.value.1 == e.(deck := Deck(e.deck.tiles[1..]))
  {
    if Remaining(e.riverDeck) > 0 then
      match Pop(e.riverDeck)
      case Err(m) => Err(m)
      case Ok((g, d)) => Ok((g, e.(riverDeck := d)))
    else
      match Pop(e.deck)
      case Err(m) => Err(m)
      case Ok((g, d)) => Ok((g, e.(deck := d)))
  }

  /** EndGame: the game is over (the final scores are printed). */
  function EndGame(e: Engine): (r: Engine)
    ensures r.gameOver
  {
    e.(gameOver := true)
  }

  /** The cell of the last river tile, nil before any. */
  function RiverEnd(e: Engine): (r: Option<Point>)
    ensures r.Some? <==> e.lastRiverTile.Some? && e.lastRiverTile.value in e.world.tiles
  {
    if e.lastRiverTile.Some? && e.lastRiverTile.value in e.world.tiles
    then Some(e.world.tiles[e.lastRiverTile.value].position) else None
  }

  /** Whether the river filter applies to drawn group `g`: a tile is down
      and the river is still being laid or `g` is a river tile. */
  predicate RiverTurn(e: Engine, g: GroupId)
    requires g in e.world.catalog.groups
  {
    e.world.board.placedTileCount > 0 && (Remaining(e.riverDeck) > 0 || IsRiverTile(e.world.catalog.groups[g]))
  }

  /** The placements of a drawn group the Draw stage keeps: all of them,
      or during the river those restictRiverPlacement allows (in its
      corrected form, which keeps a lone curve). The catalog lookups the
      filter makes are checked; a failure, like a missing river tile,
      stands for the source's nil dereference. */
  function Playable(e: Engine, g: GroupId, ps: seq<Placement>, pick: nat): (r: Result<seq<Placement>>)
    requires g in e.world.catalog.groups
    ensures !RiverTurn(e, g) ==> r == Ok(ps)
    ensures r.Ok? ==> forall q :: q in r.value ==> q in ps
  {
    if !RiverTurn(e, g) then Ok(ps)
    else if !RiverReadable(e.world.catalog, ps) then Err("nil dereference: catalog entry missing")
    else CorrectedRestrictRiver(e.world.catalog, e.river, RiverEnd(e), ps, pick)
  }

  /** The placements of group `g` on the current board. */
  function Candidates(e: Engine, g: GroupId): seq<Placement>
    requires Ready(e) && g in e.world.catalog.groups
  {
    Boards.ValidShaped(e.world);
    PossibleTilePlacements(e.world, e.world.catalog.groups[g])
  }

  /** Putting an unplayable group back: appended to the main deck, which
      is then shuffled. */
  function Requeue(e: Engine, g: GroupId): (r: Engine)
    requires DecksListed(e) && g in e.world.catalog.groups
    ensures DecksListed(r) && TileTotal(r) == TileTotal(e) + 1
    ensures multiset(r.deck.tiles) == multiset(e.deck.tiles) + multiset{g}
    ensures r == e.(deck := r.deck, rng := r.rng)
  {
    var (d, rng) := Shuffle(Append(e.deck, g), e.rng);
    ShufflePermutes(Append(e.deck, g), e.rng);
    assert Append(e.deck, g).tiles == e.deck.tiles + [g];
    assert forall h :: h in d.tiles ==> h in multiset(Append(e.deck, g).tiles);
    e.(deck := d, rng := rng)
  }

  /** The outcome of one try of the draw loop. */
  datatype Attempt = Ended(e: Engine) | Drawn(e: Engine) | Unplayable(e: Engine, g: GroupId)

  /** One try: take a tile and keep its playable placements. An empty
      deck ends the game. */
  function TryDraw(e: Engine, pick: nat): (r: Result<Attempt>)
    requires Ready(e)
    ensures r.Ok? ==> var e' := r.value.e;
      && e'.world == e.world && e'.players == e.players && e'.meeples == e.meeples
      && e'.tilePlaced == e.tilePlaced && e'.stage == e.stage && DecksListed(e')
    ensures r.Ok? && r.value.Unplayable? ==> r.value.g in e.world.catalog.groups
  {
    match TakeNextTile(e)
    case Err(_) => Ok(Ended(EndGame(e)))
    case Ok((g, e1)) =>
      assert g in e.riverDeck.tiles || g in e.deck.tiles;
      var kept := Playable(e1, g, Candidates(e1, g), pick);
      if kept.Err? then Err(kept.msg)
      else
        var e2 := e1.(held := Some(g), options := kept.value);
        if |kept.value| < 1 then Ok(Unplayable(e2, g)) else Ok(Drawn(e2))
  }

  /** The draw loop from try `tries` on: take a tile; if it cannot be
      placed, append it to the main deck, shuffle, and try again, three
      tries in all; after the third failure take one more tile and drop
      it. A try that finds both decks empty ends the game. */
  function DrawFrom(e: Engine, tries: nat, pick: nat): (r: Result<Engine>)
    requires tries <= 3 && Ready(e)
    ensures r.Ok? ==> var e' := r.value;
      && e'.world == e.world && e'.players == e.players && e'.meeples == e.meeples
      && e'.tilePlaced == e.tilePlaced && DecksListed(e')
    decreases 3 - tries
  {
    if tries == 3 then
      match TakeNextTile(e)
      case Err(_) => Ok(e)
      case Ok((_, e1)) => Ok(e1)
    else
      match TryDraw(e, pick)
      case Err(m) => Err(m)
      case Ok(Ended(e1)) => Ok(e1)
      case Ok(Drawn(e1)) => Ok(e1.(stage := TurnStage.PlaceTile))
      case Ok(Unplayable(e1, g)) => DrawFrom(Requeue(e1, g), tries + 1, pick)
  }

  // ---------------------------------------------------------------------
  // Placing the tile
  // ---------------------------------------------------------------------

  /** The river record after placing a tile of reference `rt` as tile `t`:
      a river tile becomes the last river tile, and a curving one records
      its orientation as the last turn. */
  function RiverAfter(e: Engine, rt: RefTileId, t: TileId): (r: (RiverState, Option<TileId>))
    requires rt in e.world.catalog.tiles
    ensures var sig := e.world.catalog.tiles[rt].edgeSignature;
      && (r.1 == Some(t) <==> Contains(sig, River) || e.lastRiverTile == Some(t))
      && (!Contains(sig, River) ==> r == (e.river, e.lastRiverTile))
      && (Contains(sig, River) && IsRiverCurving(sig) ==> r.0 == RiverState(false, e.world.catalog.tiles[rt].orientation))
      && (!IsRiverCurving(sig) ==> r.0 == e.river)
  {
    var ref := e.world.catalog.tiles[rt];
    if !Contains(ref.edgeSignature, River) then (e.river, e.lastRiverTile)
    else if IsRiverCurving(ref.edgeSignature) then (RiverState(false, ref.orientation), Some(t))
    else (e.river, Some(t))
  }

  /** A fresh tile cloned from the placement's reference tile, put on the
      board at the placement's position. */
  function PutTile(w: World, p: Placement): (r: (World, TileId))
    requires Valid(w) && WellFormed(w.catalog)
    requires p.referenceTile in w.catalog.tiles && InBounds(w.board, p.position)
    ensures var (w', t) := r;
      && Valid(w') && w'.catalog == w.catalog
      && t !in w.tiles && t in w'.tiles && w.tiles.Keys <= w'.tiles.Keys
      && w'.board.grid == w.board.grid[p.position := t]
      && w'.board.placedTileCount == w.board.placedTileCount + 1
      && w'.board.size == w.board.size
      && w'.tiles[t].position == p.position
  {
    var made := NewTileFromReference(w, Some(p.referenceTile));
    var (w1, t) := made.value;
    assert FreshTileFrame(w, w1, t);
    Boards.PlaceTileValid(w1, p.position, t);
    (Boards.PlaceTile(w1, p.position, t), t)
  }

  /** Engine.PlaceTile: the placement's tile put on the board and the
      river record updated. A placement off the board is an error (the
      source writes through a flat index). */
  function PlaceTileFor(e: Engine, p: Placement): (r: Result<(Engine, TileId)>)
    requires Valid(e.world) && WellFormed(e.world.catalog)
    ensures r.Err? <==> p.referenceTile !in e.world.catalog.tiles || !InBounds(e.world.board, p.position)
    ensures r.Ok? ==> var (e', t) := r.value;
      && (e'.world, t) == PutTile(e.world, p)
      && (e'.river, e'.lastRiverTile) == RiverAfter(e, p.referenceTile, t)
      && e' == e.(world := e'.world, river := e'.river, lastRiverTile := e'.lastRiverTile)
  {
    if p.referenceTile !in e.world.catalog.tiles then Err("unknown reference tile")
    else if !InBounds(e.world.board, p.position) then Err("placement off the board")
    else
      var (w, t) := PutTile(e.world, p);
      var (river, last) := RiverAfter(e, p.referenceTile, t);
      Ok((e.(world := w, river := river, lastRiverTile := last), t))
  }

  // ---------------------------------------------------------------------
  // Placing the meeple
  // ---------------------------------------------------------------------

  /** The last feature of `fs` cloned from reference feature `rf`. */
  function LastWithParent(w: World, fs: seq<FeatureId>, rf: RefFeatureId): (r: Option<FeatureId>)
    requires forall i :: 0 <= i < |fs| ==> fs[i] in w.features
    ensures r.None? <==> forall i :: 0 <= i < |fs| ==> w.features[fs[i]].parentFeature != rf
    ensures r.Some? ==> exists i :: (0 <= i < |fs| && fs[i] == r.value && w.features[fs[i]].parentFeature == rf &&
      forall j :: i < j < |fs| ==> w.features[fs[j]].parentFeature != rf)
  {
    if fs == [] then None
    else if w.features[fs[|fs| - 1]].parentFeature == rf then Some(fs[|fs| - 1])
    else
      var r := LastWithParent(w, fs[..|fs| - 1], rf);
      assert forall i :: 0 <= i < |fs| - 1 ==> fs[..|fs| - 1][i] == fs[i];
      r
  }

  /** PlaceMeepleOnFeature: with a tile placed this turn and a selected
      meeple, the meeple goes on the tile's (last) feature cloned from the
      decided reference feature. Without a tile, a decision or a selected
      meeple nothing happens; a tile without such a feature panics. */
  function PlaceMeepleOnFeature(w: World, ms: map<MeepleId, Meeple>, t: Option<TileId>, mp: Option<MeeplePlacement>): (r: Result<map<MeepleId, Meeple>>)
    requires Valid(w) && (t.Some? ==> t.value in w.tiles)
    ensures t.None? || mp.None? || mp.value.selectedMeeple.None? ==> r == Ok(ms)
    ensures t.Some? && mp.Some? && mp.value.selectedMeeple.Some? ==>
      var m := mp.value.selectedMeeple.value;
      var f := LastWithParent(w, w.tiles[t.value].features, mp.value.parentFeature);
      && (r.Err? <==> f.None? || m !in ms)
      && (r.Ok? ==>
            && r.value.Keys == ms.Keys
            && r.value[m] == ms[m].(feature := f)
            && f.value in w.tiles[t.value].features && w.features[f.value].parentFeature == mp.value.parentFeature
            && forall n :: n in ms && n != m ==> r.value[n] == ms[n])
  {
    if t.None? || mp.None? || mp.value.selectedMeeple.None? then Ok(ms)
    else
      assert TileValid(w, w.tiles[t.value]);
      PlaceOnFeatures(w, ms, w.tiles[t.value].features, mp.value.selectedMeeple.value, mp.value.parentFeature)
  }

  /** Meeple `m` goes on the last of `fs` cloned from reference feature
      `rf`. */
  function PlaceOnFeatures(w: World, ms: map<MeepleId, Meeple>, fs: seq<FeatureId>, m: MeepleId, rf: RefFeatureId): (r: Result<map<MeepleId, Meeple>>)
    requires forall i :: 0 <= i < |fs| ==> fs[i] in w.features
    ensures var f := LastWithParent(w, fs, rf);
      && (r.Err? <==> f.None? || m !in ms)
      && (r.Ok? ==>
            && r.value.Keys == ms.Keys
            && r.value[m] == ms[m].(feature := f)
            && f.value in fs && w.features[f.value].parentFeature == rf
            && forall n :: n in ms && n != m ==> r.value[n] == ms[n])
  {
    match LastWithParent(w, fs, rf)
    case None => Err("new tile does not have a corresponding feature to place a meeple on")
    case Some(f) =>
      if m !in ms then Err("nil dereference: unknown meeple")
      else Ok(ms[m := ms[m].(feature := Some(f))])
  }

  // ---------------------------------------------------------------------
  // Scoring
  // ---------------------------------------------------------------------

  /** ScoreFinishedFeature: every returned meeple leaves its feature; when
      the decided score is positive, each player with the most returned
      meeples gains it. A returned meeple that is on no feature panics. */
  function ScoreFinishedFeature(players: seq<Player>, ms: map<MeepleId, Meeple>, mp: Option<MeeplePlacement>): (r: Result<(seq<Player>, map<MeepleId, Meeple>)>)
    requires forall m :: m in ms ==> ms[m].player < |players|
    ensures mp.None? ==> r == Ok((players, ms))
    ensures mp.Some? ==> (r.Err? <==> exists m :: m in mp.value.returnedMeeples && (m !in ms || ms[m].feature.None?))
    ensures r.Ok? && mp.Some? ==> var back := mp.value.returnedMeeples;
      && back <= ms.Keys
      && r.value.1.Keys == ms.Keys
      && (forall m :: m in ms ==> r.value.1[m] == if m in back then ms[m].(feature := None) else ms[m])
      && |r.value.0| == |players|
      && forall p :: 0 <= p < |players| ==> r.value.0[p] == players[p].(score := players[p].score +
           if mp.value.scoreGained > 0 && Some(p) in FeatureChains.Owners(ms, back, |players|) then mp.value.scoreGained else 0)
  {
    match mp
    case None => Ok((players, ms))
    case Some(mp) =>
      var back := mp.returnedMeeples;
      if exists m :: m in back && (m !in ms || ms[m].feature.None?) then Err("nil dereference: returned meeple is on no feature")
      else
        assert back <= ms.Keys;
        Ok((PayOwners(players, ms, back, mp.scoreGained), ReturnMeeples(ms, back)))
  }

  /** The returned meeples leave their features; the others stay put. */
  function ReturnMeeples(ms: map<MeepleId, Meeple>, back: set<MeepleId>): (r: map<MeepleId, Meeple>)
  {
    map m | m in ms :: if m in back then ms[m].(feature := None) else ms[m]
  }

  /** Each player with the most of the returned meeples gains a positive
      score; nobody else's score changes. */
  function PayOwners(players: seq<Player>, ms: map<MeepleId, Meeple>, back: set<MeepleId>, gained: int): (r: seq<Player>)
    requires back <= ms.Keys
    ensures |r| == |players|
    ensures forall p :: 0 <= p < |players| ==> r[p] == players[p].(score := players[p].score +
              if gained > 0 && Some(p) in FeatureChains.Owners(ms, back, |players|) then gained else 0)
  {
    var top := FeatureChains.MostOf(ms, back, |players|);
    seq(|players|, p requires 0 <= p < |players| =>
      var c := FeatureChains.CountOf(ms, back, p);
      if gained > 0 && c > 0 && c == top then players[p].(score := players[p].score + gained) else players[p])
  }

  // ---------------------------------------------------------------------
  // Passing
  // ---------------------------------------------------------------------

  /** GoToNextTurn: an error once the main deck is empty; otherwise the
      next player's turn, counted, with no tile placed yet. */
  function GoToNextTurn(e: Engine): (r: Result<Engine>)
    requires |e.players| > 0
    ensures r.Err? <==> e.deck.tiles == []
    ensures r.Ok? ==> var e' := r.value;
      && e'.current < |e.players| && e'.turnCounter == e.turnCounter + 1 && e'.tilePlaced.None?
      && (e.current < |e.players| - 1 ==> e'.current == e.current + 1)
      && (e.current == |e.players| - 1 ==> e'.current == 0)
      && e' == e.(current := e'.current, turnCounter := e'.turnCounter, tilePlaced := None)
  {
    if Remaining(e.deck) == 0 then Err("no more tiles in the deck")
    else Ok(e.(turnCounter := e.turnCounter + 1, current := (e.current + 1) % |e.players|, tilePlaced := None))
  }

  // ---------------------------------------------------------------------
  // Step
  // ---------------------------------------------------------------------

  /** The Draw stage: the turn's earlier decisions are cleared and the
      draw loop runs. */
  function DrawStage(e: Engine, pick: nat): (r: Result<Engine>)
    requires Ready(e)
    ensures r.Ok? ==> r.value.world == e.world && r.value.players == e.players && r.value.meeples == e.meeples
  {
    DrawFrom(e.(tilePlaced := None, decided := None, held := None, options := []), 0, pick)
  }

  /** The PlaceTile stage: the player's placement is required; its tile
      goes down and the meeple decision is kept for the next stages. */
  function PlaceTileStage(e: Engine, ch: Choice): (r: Result<Engine>)
    requires Ready(e)
    ensures ch.placement.None? ==> r.Err?
    ensures r.Ok? ==> r.value.players == e.players && r.value.meeples == e.meeples
  {
    if ch.placement.None? then Err("No Placement Determined By Player")
    else
      match PlaceTileFor(e.(decided := ch.meeple), ch.placement.value)
      case Err(m) => Err(m)
      case Ok((e1, t)) => Ok(e1.(tilePlaced := Some(t), options := [], held := None, stage := TurnStage.PlaceMeeple))
  }

  /** The PlaceMeeple stage. */
  function PlaceMeepleStage(e: Engine): (r: Result<Engine>)
    requires Ready(e)
    ensures r.Ok? ==> r.value == e.(meeples := r.value.meeples, stage := TurnStage.Score)
  {
    match PlaceMeepleOnFeature(e.world, e.meeples, e.tilePlaced, e.decided)
    case Err(m) => Err(m)
    case Ok(ms) => Ok(e.(meeples := ms, stage := TurnStage.Score))
  }

  /** The Score stage. */
  function ScoreStage(e: Engine): (r: Result<Engine>)
    requires Ready(e)
    ensures r.Ok? ==> r.value == e.(players := r.value.players, meeples := r.value.meeples, stage := TurnStage.Pass)
  {
    match ScoreFinishedFeature(e.players, e.meeples, e.decided)
    case Err(m) => Err(m)
    case Ok((ps, ms)) => Ok(e.(players := ps, meeples := ms, stage := TurnStage.Pass))
  }

  /** The Pass stage: the next player's turn, or the end of the game once
      the main deck is empty. */
  function PassStage(e: Engine): (r: Engine)
    requires |e.players| > 0
    ensures r.stage.Draw?
  {
    match GoToNextTurn(e)
    case Err(_) => EndGame(e).(stage := TurnStage.Draw)
    case Ok(e1) => e1.(stage := TurnStage.Draw)
  }

  /** Step: nothing once the game is over; otherwise the current stage,
      then the next one. */
  function Step(e: Engine, ch: Choice): (r: Result<Engine>)
    requires Ready(e)
    ensures e.gameOver ==> r == Ok(e)
    ensures !e.gameOver && e.current >= |e.players| ==> r.Err?
  {
    if e.gameOver then Ok(e)
    else if e.current >= |e.players| then Err("index out of range: no current player")
    else if e.stage.Draw? then DrawStage(e, ch.curvePick)
    else if e.stage.PlaceTile? then PlaceTileStage(e, ch)
    else if e.stage.PlaceMeeple? then PlaceMeepleStage(e)
    else if e.stage.Score? then ScoreStage(e)
    else Ok(PassStage(e))
  }
}
