/** Invariants of the board of engine/board/board.go that PlaceTile keeps:
    neighbour references mirror the grid, and the open positions are
    exactly the vacant cells next to a tile, each with the signature its
    neighbours give it. */
module BoardFacts {
  import opened Wrappers
  import opened Directions
  import opened Points
  import opened EdgeSignatures
  import opened Arena
  import opened Boards

  /** The tile across side `d` of `p`, nil when that cell is vacant or off
      the board: what linkNeighbours stores in slot `d`. */
  function Across(size: nat, grid: map<Point, TileId>, p: Point, d: Direction): Option<TileId>
  {
    var q := EdgePos(p, d);
    if 0 <= q.x < size && 0 <= q.y < size && q in grid then Some(grid[q]) else None
  }

  /** No tile occupies two cells. */
  ghost predicate GridInjective(b: Board)
  {
    forall p, q :: p in b.grid && q in b.grid && b.grid[p] == b.grid[q] ==> p == q
  }

  /** Placed tiles know their cell and their neighbours exactly as the grid
      has them; tiles off the board have no neighbours. */
  ghost predicate NeighboursMatchGrid(w: World)
  {
    && Shaped(w.tiles) && GridIn(w.board, w.tiles) && GridInjective(w.board)
    && (forall p :: p in w.board.grid ==> InBounds(w.board, p) && w.tiles[w.board.grid[p]].position == p)
    && (forall p, d: Direction :: p in w.board.grid ==> w.tiles[w.board.grid[p]].neighbours[d] == Across(w.board.size, w.board.grid, p, d))
    && (forall u :: u in w.tiles && u !in w.board.grid.Values ==> w.tiles[u].neighbours == NoNeighbours)
  }

  /** An empty board meets the invariant as long as no tile has neighbours. */
  lemma NewBoardMatches(w: World)
    requires w.board.grid == map[] && Shaped(w.tiles)
    requires forall u :: u in w.tiles ==> w.tiles[u].neighbours == NoNeighbours
    ensures NeighboursMatchGrid(w)
  {
  }

  /** Neighbour references are symmetric: if `u` names `v` across side `d`,
      then `v` names `u` across the opposite side. */
  lemma NeighbourSymmetry(w: World, u: TileId, d: Direction)
    requires NeighboursMatchGrid(w) && u in w.tiles && w.tiles[u].neighbours[d].Some?
    ensures w.tiles[u].neighbours[d].value in w.tiles
    ensures w.tiles[w.tiles[u].neighbours[d].value].neighbours[Compliment(d)] == Some(u)
  {
    var p :| p in w.board.grid && w.board.grid[p] == u;
    var q := EdgePos(p, d);
    EdgePosRoundTrip(p, d);
    assert w.tiles[u].neighbours[d] == Across(w.board.size, w.board.grid, p, d);
    assert w.tiles[w.board.grid[q]].neighbours[Compliment(d)] == Across(w.board.size, w.board.grid, q, Compliment(d));
  }

  /** The tiles PlaceTile produces are linkNeighbours applied to the tiles
      with `t` moved to `pos`, on the board with `t` on `pos`. */
  lemma PlaceTileTiles(w: World, pos: Point, t: TileId)
    requires Shaped(w.tiles) && t in w.tiles
    ensures Shaped(w.tiles[t := w.tiles[t].(position := pos)])
    ensures PlaceTile(w, pos, t).tiles
            == LinkNeighboursFrom(w.tiles[t := w.tiles[t].(position := pos)],
                 Board(w.board.size, w.board.grid[pos := t], 0, map[], []), t, pos, 0)
  {
    PlaceTileParts(w, pos, t);
    LinkedTiles(w, pos, t);
  }

  /** Placing a tile that is not on the board yet on a vacant cell keeps
      the neighbour references mirroring the grid. */
  lemma PlaceKeepsNeighbours(w: World, pos: Point, t: TileId)
    requires NeighboursMatchGrid(w) && t in w.tiles && t !in w.board.grid.Values
    requires InBounds(w.board, pos) && pos !in w.board.grid
    ensures NeighboursMatchGrid(PlaceTile(w, pos, t))
  {
    var r := PlaceTile(w, pos, t);
    var b1 := w.board.(grid := w.board.grid[pos := t], placedTileCount := w.board.placedTileCount + 1);
    var tiles1 := w.tiles[t := w.tiles[t].(position := pos)];
    ShapedMove(w.tiles, t, pos);
    PlaceTileTiles(w, pos, t);
    LinkedMatch(w, tiles1, r, pos, t);
  }

  /** A world whose tiles are those linkNeighbours produces on its own
      board, which has `t` on `pos`, meets the invariant. */
  lemma LinkedMatch(w: World, tiles1: map<TileId, Tile>, r: World, pos: Point, t: TileId)
    requires NeighboursMatchGrid(w) && t in w.tiles && t !in w.board.grid.Values
    requires InBounds(w.board, pos) && pos !in w.board.grid
    requires r.board.grid == w.board.grid[pos := t] && r.board.size == w.board.size
    requires tiles1 == w.tiles[t := w.tiles[t].(position := pos)]
    requires Shaped(tiles1) && r.tiles == LinkNeighboursFrom(tiles1, GridOnly(r.board), t, pos, 0)
    ensures NeighboursMatchGrid(r)
  {
    var g := GridOnly(r.board);
    assert Alone(g, t, pos);
    LinkNeighboursEffect(tiles1, g, t, pos, 0);
    PlacedSlots(w, g, tiles1, r.tiles, pos, t);
    PlacedOthers(w, g, tiles1, r.tiles, pos, t);
    MatchFromParts(r, g);
  }

  /** The parts of the invariant, stated on a board with the same grid and
      size, give the invariant. */
  lemma MatchFromParts(r: World, b1: Board)
    requires b1.grid == r.board.grid && b1.size == r.board.size && Shaped(r.tiles)
    requires GridIn(b1, r.tiles) && GridInjective(b1)
    requires forall p :: p in b1.grid ==> InBounds(b1, p) && r.tiles[b1.grid[p]].position == p
    requires forall p, d: Direction :: p in b1.grid ==> r.tiles[b1.grid[p]].neighbours[d] == Across(b1.size, b1.grid, p, d)
    requires forall u :: u in r.tiles && u !in b1.grid.Values ==> r.tiles[u].neighbours == NoNeighbours
    ensures NeighboursMatchGrid(r)
  {
  }

  /** The slots of placed tiles after linking. */
  lemma PlacedSlots(w: World, b1: Board, tiles1: map<TileId, Tile>, r: map<TileId, Tile>, pos: Point, t: TileId)
    requires NeighboursMatchGrid(w) && t in w.tiles && t !in w.board.grid.Values
    requires InBounds(w.board, pos) && pos !in w.board.grid
    requires b1.grid == w.board.grid[pos := t] && b1.size == w.board.size
    requires tiles1 == w.tiles[t := w.tiles[t].(position := pos)]
    requires r.Keys == tiles1.Keys && Shaped(r)
    requires forall e: Direction ::
              r[t].neighbours[e]
                == if 0 <= e && InBounds(b1, EdgePos(pos, e)) then TileAt(b1, EdgePos(pos, e)) else tiles1[t].neighbours[e]
    requires forall u, e: Direction :: u in tiles1 && u != t ==>
              r[u].neighbours[e]
                == if 0 <= Compliment(e) && InBounds(b1, EdgePos(pos, Compliment(e)))
                      && TileAt(b1, EdgePos(pos, Compliment(e))) == Some(u)
                   then Some(t) else tiles1[u].neighbours[e]
    ensures forall p, d: Direction :: p in b1.grid ==> r[b1.grid[p]].neighbours[d] == Across(b1.size, b1.grid, p, d)
  {
    forall p, d: Direction | p in b1.grid ensures r[b1.grid[p]].neighbours[d] == Across(b1.size, b1.grid, p, d) {
      if p == pos {
        assert w.tiles[t].neighbours == NoNeighbours;
      } else {
        var u := b1.grid[p];
        assert u == w.board.grid[p] && u != t;
        var q := EdgePos(p, d);
        EdgePosConverse(pos, p, d);
        if q == pos {
          EdgePosRoundTrip(p, d);
        } else {
          assert w.tiles[u].neighbours[d] == Across(w.board.size, w.board.grid, p, d);
          var x := EdgePos(pos, Compliment(d));
          assert x != p;
          assert TileAt(b1, x) != Some(u) by {
            if x in b1.grid && x != pos {
              assert w.board.grid[x] == b1.grid[x];
            }
          }
        }
      }
    }
  }

  /** Positions, and the tiles still off the board, after linking. */
  lemma PlacedOthers(w: World, b1: Board, tiles1: map<TileId, Tile>, r: map<TileId, Tile>, pos: Point, t: TileId)
    requires NeighboursMatchGrid(w) && t in w.tiles && t !in w.board.grid.Values
    requires InBounds(w.board, pos) && pos !in w.board.grid
    requires b1.grid == w.board.grid[pos := t] && b1.size == w.board.size
    requires tiles1 == w.tiles[t := w.tiles[t].(position := pos)]
    requires Shaped(r) && SameButNeighbours(tiles1, r)
    requires forall u, e: Direction :: u in tiles1 && u != t ==>
              r[u].neighbours[e]
                == if 0 <= Compliment(e) && InBounds(b1, EdgePos(pos, Compliment(e)))
                      && TileAt(b1, EdgePos(pos, Compliment(e))) == Some(u)
                   then Some(t) else tiles1[u].neighbours[e]
    ensures GridIn(b1, r) && GridInjective(b1)
    ensures forall p :: p in b1.grid ==> InBounds(b1, p) && r[b1.grid[p]].position == p
    ensures forall u :: u in r && u !in b1.grid.Values ==> r[u].neighbours == NoNeighbours
  {
    forall u | u in r && u !in b1.grid.Values ensures r[u].neighbours == NoNeighbours {
      assert b1.grid[pos] == t;
      forall x | x in w.board.grid ensures w.board.grid[x] != u {
        assert b1.grid[x] == w.board.grid[x];
      }
      forall e: Direction ensures r[u].neighbours[e] == None {
        assert TileAt(b1, EdgePos(pos, Compliment(e))) != Some(u);
      }
    }
    forall p | p in b1.grid ensures InBounds(b1, p) && r[b1.grid[p]].position == p {
      if p != pos {
        assert w.tiles[w.board.grid[p]].position == p;
      }
    }
  }

  // ---------------------------------------------------------------------
  // The open positions
  // ---------------------------------------------------------------------

  /** The open positions are exactly the frontier (vacant cells on the
      board next to a placed tile), each once in the list, each with the
      signature its neighbours give it. */
  ghost predicate OpenExact(w: World)
  {
    && ListMatches(w.board)
    && (forall q :: q in w.board.openPositions <==> Frontier(w.board, q))
    && (forall q :: q in w.board.openPositions ==> w.board.openPositions[q] == OpenSig(w, q))
  }

  /** `q` is one of the four cells next to `pos`. */
  predicate Adjacent(pos: Point, q: Point)
  {
    q == EdgePos(pos, North) || q == EdgePos(pos, East) || q == EdgePos(pos, South) || q == EdgePos(pos, West)
  }

  /** A new board has no open positions, and none are due. */
  lemma NewBoardOpenExact(w: World)
    requires w.board == NewBoard(w.board.size)
    ensures OpenExact(w)
  {
  }

  /** Putting a tile on a vacant cell takes that cell off the frontier and
      adds the vacant cells on the board next to it. */
  lemma FrontierAfterPlace(b: Board, b': Board, pos: Point, t: TileId)
    requires b'.grid == b.grid[pos := t] && b'.size == b.size
    requires InBounds(b, pos) && pos !in b.grid
    ensures forall q :: Frontier(b', q) <==>
              q != pos && (Frontier(b, q) || (InBounds(b, q) && q !in b.grid && Adjacent(pos, q)))
  {
    forall q ensures Frontier(b', q) <==>
              q != pos && (Frontier(b, q) || (InBounds(b, q) && q !in b.grid && Adjacent(pos, q)))
    {
      OccupiedAfterPlace(b, b', pos, t, q, North);
      OccupiedAfterPlace(b, b', pos, t, q, East);
      OccupiedAfterPlace(b, b', pos, t, q, South);
      OccupiedAfterPlace(b, b', pos, t, q, West);
    }
  }

  /** A side of `q` is occupied after the placement iff it was before or it
      faces `pos`; it faces `pos` iff `q` is across the opposite side of `pos`. */
  lemma OccupiedAfterPlace(b: Board, b': Board, pos: Point, t: TileId, q: Point, d: Direction)
    requires b'.grid == b.grid[pos := t] && b'.size == b.size
    requires InBounds(b, pos)
    ensures OccupiedAcross(b', q, d) <==> OccupiedAcross(b, q, d) || q == EdgePos(pos, Compliment(d))
  {
    EdgePosConverse(pos, q, d);
  }

  /** With the neighbour slots of `t` mirroring the grid after it is put on
      `pos`, the sides the open-position loop adds are the cells next to
      `pos` that are on the board and were vacant before. */
  lemma AddedSideIsAdjacentVacant(b: Board, b': Board, pos: Point, t: TileId, nbrs: seq<Option<TileId>>)
    requires b'.grid == b.grid[pos := t] && b'.size == b.size
    requires |nbrs| == 4
    requires forall e: Direction :: nbrs[e] == Across(b'.size, b'.grid, pos, e)
    ensures forall q :: AddedSide(b', pos, nbrs, 0, q) <==> InBounds(b, q) && q !in b.grid && Adjacent(pos, q)
  {
    forall q ensures AddedSide(b', pos, nbrs, 0, q) <==> InBounds(b, q) && q !in b.grid && Adjacent(pos, q) {
      if InBounds(b, q) && q !in b.grid && Adjacent(pos, q) {
        var e: Direction :| q == EdgePos(pos, e);
        EdgePosDistinct(pos, e, e);
        assert nbrs[e].None?;
      }
      if AddedSide(b', pos, nbrs, 0, q) {
        var e: Direction :| nbrs[e].None? && InBounds(b', EdgePos(pos, e)) && q == EdgePos(pos, e);
        EdgePosDistinct(pos, e, e);
        assert q == EdgePos(pos, e);
      }
    }
  }

  /** The board PlaceTile leaves, in terms of the open-position loop. */
  lemma ReopenedParts(w2: World, pos: Point, t: TileId)
    requires t in w2.tiles && |w2.tiles[t].neighbours| == 4
    ensures var b3 := OpenSidesFrom(w2, w2.board, pos, w2.tiles[t].neighbours, 0);
      && Reopened(w2, pos, t).openPositions == b3.openPositions - {pos}
      && Reopened(w2, pos, t).openList == SwapRemove(b3.openList, pos)
      && b3.grid == w2.board.grid && b3.size == w2.board.size
  {
  }

  /** PlaceTile, on a vacant cell and with a tile not yet on the board,
      keeps the open positions exactly the frontier with fresh signatures. */
  lemma PlaceKeepsOpen(w: World, pos: Point, t: TileId)
    requires NeighboursMatchGrid(w) && OpenExact(w) && t in w.tiles && t !in w.board.grid.Values
    requires InBounds(w.board, pos) && pos !in w.board.grid
    ensures OpenExact(PlaceTile(w, pos, t))
  {
    PlaceOpenKeys(w, pos, t);
    PlaceOpenValues(w, pos, t);
  }

  /** The facts about PlaceTile's open-position loop both halves use. */
  lemma PlaceOpenSetup(w: World, pos: Point, t: TileId)
    requires NeighboursMatchGrid(w) && t in w.tiles && t !in w.board.grid.Values
    requires InBounds(w.board, pos) && pos !in w.board.grid
    ensures var r := PlaceTile(w, pos, t);
      var w2 := Linked(w, pos, t);
      var nbrs := w2.tiles[t].neighbours;
      var b3 := OpenSidesFrom(w2, w2.board, pos, nbrs, 0);
      && |nbrs| == 4
      && r.board.openPositions == b3.openPositions - {pos}
      && r.board.openList == SwapRemove(b3.openList, pos)
      && r.tiles == w2.tiles
      && (forall q :: AddedSide(w2.board, pos, nbrs, 0, q) <==> InBounds(w.board, q) && q !in w.board.grid && Adjacent(pos, q))
  {
    var r := PlaceTile(w, pos, t);
    var w2 := Linked(w, pos, t);
    var nbrs := w2.tiles[t].neighbours;
    PlaceKeepsNeighbours(w, pos, t);
    PlaceTileParts(w, pos, t);
    assert r.board == Reopened(w2, pos, t);
    ReopenedParts(w2, pos, t);
    SlotsOfPlaced(r, pos, t);
    AddedSideIsAdjacentVacant(w.board, w2.board, pos, t, nbrs);
  }

  lemma PlaceOpenKeys(w: World, pos: Point, t: TileId)
    requires NeighboursMatchGrid(w) && OpenExact(w) && t in w.tiles && t !in w.board.grid.Values
    requires InBounds(w.board, pos) && pos !in w.board.grid
    ensures ListMatches(PlaceTile(w, pos, t).board)
    ensures forall q :: q in PlaceTile(w, pos, t).board.openPositions <==> Frontier(PlaceTile(w, pos, t).board, q)
  {
    PlaceOpenList(w, pos, t);
    PlaceOpenSet(w, pos, t);
  }

  lemma PlaceOpenList(w: World, pos: Point, t: TileId)
    requires NeighboursMatchGrid(w) && OpenExact(w) && t in w.tiles && t !in w.board.grid.Values
    requires InBounds(w.board, pos) && pos !in w.board.grid
    ensures ListMatches(PlaceTile(w, pos, t).board)
  {
    var w2 := Linked(w, pos, t);
    var nbrs := w2.tiles[t].neighbours;
    var b3 := OpenSidesFrom(w2, w2.board, pos, nbrs, 0);
    PlaceOpenSetup(w, pos, t);
    assert ListMatches(w2.board);
    OpenSidesList(w2, w2.board, pos, nbrs, 0);
    RemoveOpenKeepsMatch(b3, pos);
  }

  lemma PlaceOpenSet(w: World, pos: Point, t: TileId)
    requires NeighboursMatchGrid(w) && OpenExact(w) && t in w.tiles && t !in w.board.grid.Values
    requires InBounds(w.board, pos) && pos !in w.board.grid
    ensures forall q :: q in PlaceTile(w, pos, t).board.openPositions <==> Frontier(PlaceTile(w, pos, t).board, q)
  {
    var r := PlaceTile(w, pos, t);
    var w2 := Linked(w, pos, t);
    var nbrs := w2.tiles[t].neighbours;
    var b3 := OpenSidesFrom(w2, w2.board, pos, nbrs, 0);
    PlaceOpenSetup(w, pos, t);
    FrontierAfterPlace(w.board, r.board, pos, t);
    OpenSidesKeys(w2, w2.board, pos, nbrs, 0);
    OpenKeysAfterPlace(w, w2.board, r, b3, pos, nbrs);
  }

  lemma PlaceOpenValues(w: World, pos: Point, t: TileId)
    requires NeighboursMatchGrid(w) && OpenExact(w) && t in w.tiles && t !in w.board.grid.Values
    requires InBounds(w.board, pos) && pos !in w.board.grid
    ensures forall q :: q in PlaceTile(w, pos, t).board.openPositions ==>
              PlaceTile(w, pos, t).board.openPositions[q] == OpenSig(PlaceTile(w, pos, t), q)
  {
    var r := PlaceTile(w, pos, t);
    var w2 := Linked(w, pos, t);
    var nbrs := w2.tiles[t].neighbours;
    var b3 := OpenSidesFrom(w2, w2.board, pos, nbrs, 0);
    PlaceOpenSetup(w, pos, t);
    OpenSidesKeys(w2, w2.board, pos, nbrs, 0);
    LinkedSameContent(w, pos, t);
    OpenSidesValues(w2, w2.board, pos, nbrs, 0);
    forall q | q in r.board.openPositions ensures r.board.openPositions[q] == OpenSig(r, q) {
      OpenValueAfterPlace(w, w2, r, b3, pos, t, nbrs, q);
    }
  }

  /** The slots of the tile just placed mirror the grid. */
  lemma SlotsOfPlaced(r: World, pos: Point, t: TileId)
    requires NeighboursMatchGrid(r) && pos in r.board.grid && r.board.grid[pos] == t
    ensures forall e: Direction :: r.tiles[t].neighbours[e] == Across(r.board.size, r.board.grid, pos, e)
  {
  }

  lemma OpenKeysAfterPlace(w: World, b2: Board, r: World, b3: Board, pos: Point, nbrs: seq<Option<TileId>>)
    requires |nbrs| == 4 && OpenExact(w)
    requires r.board.openPositions == b3.openPositions - {pos} && b2.openPositions == w.board.openPositions
    requires forall q :: q in b3.openPositions <==> q in b2.openPositions || AddedSide(b2, pos, nbrs, 0, q)
    requires forall q :: AddedSide(b2, pos, nbrs, 0, q) <==> InBounds(w.board, q) && q !in w.board.grid && Adjacent(pos, q)
    requires forall q :: Frontier(r.board, q) <==>
              q != pos && (Frontier(w.board, q) || (InBounds(w.board, q) && q !in w.board.grid && Adjacent(pos, q)))
    ensures forall q :: q in r.board.openPositions <==> Frontier(r.board, q)
  {
  }

  /** One open position after PlaceTile carries its fresh signature: a side
      just opened got it from the loop, and any other position is not next
      to `pos`, so its old signature is still right. */
  lemma OpenValueAfterPlace(w: World, w2: World, r: World, b3: Board, pos: Point, t: TileId, nbrs: seq<Option<TileId>>, q: Point)
    requires |nbrs| == 4 && OpenExact(w)
    requires r.board.openPositions == b3.openPositions - {pos}
    requires w2.board.grid == w.board.grid[pos := t] && pos !in w.board.grid
    requires r.board.grid == w2.board.grid && r.board.size == w.board.size && w2.board.size == w.board.size
    requires r.catalog == w.catalog && w2.catalog == w.catalog
    requires r.tiles == w2.tiles && w2.tiles.Keys == w.tiles.Keys
    requires forall u :: u in w.tiles ==> SameContent(w2.tiles[u], w.tiles[u])
    requires forall q :: AddedSide(w2.board, pos, nbrs, 0, q) ==> q in b3.openPositions && b3.openPositions[q] == OpenSig(w2, q)
    requires forall q :: q in w.board.openPositions && !AddedSide(w2.board, pos, nbrs, 0, q) ==>
               q in b3.openPositions && b3.openPositions[q] == w.board.openPositions[q]
    requires forall q :: q in b3.openPositions <==> q in w.board.openPositions || AddedSide(w2.board, pos, nbrs, 0, q)
    requires forall q :: AddedSide(w2.board, pos, nbrs, 0, q) <==> InBounds(w.board, q) && q !in w.board.grid && Adjacent(pos, q)
    requires q in r.board.openPositions
    ensures r.board.openPositions[q] == OpenSig(r, q)
  {
    OpenSigLocal(w2, r, q);
    if !AddedSide(w2.board, pos, nbrs, 0, q) {
      assert q in w.board.openPositions;
      assert !Adjacent(pos, q);
      forall u | u in w.tiles ensures w2.tiles[u].reference == w.tiles[u].reference {
        assert SameContent(w2.tiles[u], w.tiles[u]);
      }
      OpenSigAwayFrom(w, w2, pos, t, q);
    }
  }

  /** A cell not next to `pos` keeps its signature when a tile goes on `pos`. */
  lemma OpenSigAwayFrom(w: World, w2: World, pos: Point, t: TileId, q: Point)
    requires w2.board.grid == w.board.grid[pos := t] && w2.board.size == w.board.size
    requires w2.catalog == w.catalog && w2.tiles.Keys == w.tiles.Keys
    requires forall u :: u in w.tiles ==> w2.tiles[u].reference == w.tiles[u].reference
    requires !Adjacent(pos, q)
    ensures OpenSig(w2, q) == OpenSig(w, q)
  {
    forall d: Direction ensures TileAt(w2.board, EdgePos(q, d)) == TileAt(w.board, EdgePos(q, d)) {
      EdgePosConverse(pos, q, d);
    }
    OpenSigLocal(w, w2, q);
  }
}
