/** What the corrected removal keeps: the open positions stay exactly the
    frontier with fresh signatures, and removing a tile just placed gives
    back the open positions the board had before. */
module RemovalFacts {
  import opened Wrappers
  import opened Directions
  import opened Points
  import opened EdgeSignatures
  import opened Arena
  import opened Boards
  import opened BoardFacts
  import opened BoardRemoval

  /** Whether a cell is on the frontier depends only on the grid and the size. */
  lemma FrontierOnGrid(b: Board, b': Board, q: Point)
    requires b'.grid == b.grid && b'.size == b.size
    ensures Frontier(b', q) == Frontier(b, q)
  {
  }

  /** After RefreshAll, each refreshed cell is open exactly when it is on
      the frontier, with its fresh signature; every other cell keeps its
      open status and signature. */
  lemma RefreshAllEffect(w: World, b: Board, qs: seq<Point>, i: nat)
    requires i <= |qs|
    ensures var r := RefreshAll(w, b, qs, i);
      && (forall q :: q in qs[i..] ==> (q in r.openPositions <==> Frontier(b, q)))
      && (forall q :: q in qs[i..] && q in r.openPositions ==> r.openPositions[q] == OpenSig(w, q))
      && (forall q :: q !in qs[i..] ==> (q in r.openPositions <==> q in b.openPositions))
      && (forall q :: q !in qs[i..] && q in r.openPositions ==> r.openPositions[q] == b.openPositions[q])
  {
    forall q | q in qs[i..] {
      RefreshAllRefreshes(w, b, qs, i, q);
    }
    forall q | q !in qs[i..] {
      RefreshAllKeeps(w, b, qs, i, q);
    }
  }

  /** RefreshAll leaves a cell it does not refresh as it was. */
  lemma {:induction false} RefreshAllKeeps(w: World, b: Board, qs: seq<Point>, i: nat, q: Point)
    requires i <= |qs| && q !in qs[i..]
    ensures var r := RefreshAll(w, b, qs, i);
      && (q in r.openPositions <==> q in b.openPositions)
      && (q in r.openPositions ==> r.openPositions[q] == b.openPositions[q])
    decreases |qs| - i
  {
    if i < |qs| {
      assert qs[i] == qs[i..][0] && qs[i + 1..] == qs[i..][1..];
      RefreshAllKeeps(w, Refresh(w, b, qs[i]), qs, i + 1, q);
    }
  }

  /** RefreshAll opens a cell it refreshes exactly when that cell is on the
      frontier, with its fresh signature. */
  lemma {:induction false} RefreshAllRefreshes(w: World, b: Board, qs: seq<Point>, i: nat, q: Point)
    requires i <= |qs| && q in qs[i..]
    ensures var r := RefreshAll(w, b, qs, i);
      && (q in r.openPositions <==> Frontier(b, q))
      && (q in r.openPositions ==> r.openPositions[q] == OpenSig(w, q))
    decreases |qs| - i
  {
    var b1 := Refresh(w, b, qs[i]);
    assert qs[i] == qs[i..][0] && qs[i + 1..] == qs[i..][1..];
    FrontierOnGrid(b, b1, q);
    if q in qs[i + 1..] {
      RefreshAllRefreshes(w, b1, qs, i + 1, q);
    } else {
      RefreshAllKeeps(w, b1, qs, i + 1, q);
    }
  }

  /** The cells the corrected removal refreshes are `pos` and the cells next to it. */
  lemma RefreshedCells(pos: Point, q: Point)
    ensures q in [pos] + OrthogonalNeighbours(pos) <==> q == pos || Adjacent(pos, q)
  {
  }

  /** The corrected removal of an occupied cell, in terms of its parts. */
  lemma RemovalParts(w: World, pos: Point)
    requires Shaped(w.tiles) && GridIn(w.board, w.tiles) && InBounds(w.board, pos) && pos in w.board.grid
    ensures var t := w.board.grid[pos];
      var w1 := Detached(w, pos, t);
      && CorrectedRemoveTileAt(w, pos) == w1.(board := RefreshAll(w1, w1.board, [pos] + OrthogonalNeighbours(pos), 0))
      && w.board.grid == w1.board.grid[pos := t] && pos !in w1.board.grid
      && w1.board.openPositions == w.board.openPositions && w1.board.size == w.board.size
  {
    var t := w.board.grid[pos];
    var w1 := Detached(w, pos, t);
    assert w.board.grid == w1.board.grid[pos := t];
  }

  /** The corrected removal keeps the open positions exactly the frontier,
      each once in the list and each with the signature of the board it
      leaves. */
  lemma CorrectedRemoveKeepsOpen(w: World, pos: Point)
    requires OpenExact(w) && Shaped(w.tiles) && GridIn(w.board, w.tiles) && InBounds(w.board, pos)
    ensures OpenExact(CorrectedRemoveTileAt(w, pos))
  {
    CorrectedRemoveKeys(w, pos);
    CorrectedRemoveValues(w, pos);
  }

  lemma CorrectedRemoveKeys(w: World, pos: Point)
    requires OpenExact(w) && Shaped(w.tiles) && GridIn(w.board, w.tiles) && InBounds(w.board, pos)
    ensures ListMatches(CorrectedRemoveTileAt(w, pos).board)
    ensures forall q :: q in CorrectedRemoveTileAt(w, pos).board.openPositions <==> Frontier(CorrectedRemoveTileAt(w, pos).board, q)
  {
    if pos in w.board.grid {
      var t := w.board.grid[pos];
      var w1 := Detached(w, pos, t);
      var qs := [pos] + OrthogonalNeighbours(pos);
      var r := CorrectedRemoveTileAt(w, pos);
      RemovalParts(w, pos);
      RefreshAllEffect(w1, w1.board, qs, 0);
      assert qs[0..] == qs;
      FrontierAfterPlace(w1.board, w.board, pos, t);
      forall q ensures q in r.board.openPositions <==> Frontier(r.board, q) {
        RefreshedCells(pos, q);
        FrontierOnGrid(w1.board, r.board, q);
      }
    }
  }

  lemma CorrectedRemoveValues(w: World, pos: Point)
    requires OpenExact(w) && Shaped(w.tiles) && GridIn(w.board, w.tiles) && InBounds(w.board, pos)
    ensures forall q :: q in CorrectedRemoveTileAt(w, pos).board.openPositions ==>
              CorrectedRemoveTileAt(w, pos).board.openPositions[q] == OpenSig(CorrectedRemoveTileAt(w, pos), q)
  {
    if pos in w.board.grid {
      var t := w.board.grid[pos];
      var w1 := Detached(w, pos, t);
      var qs := [pos] + OrthogonalNeighbours(pos);
      var r := CorrectedRemoveTileAt(w, pos);
      RemovalParts(w, pos);
      RefreshAllEffect(w1, w1.board, qs, 0);
      assert qs[0..] == qs;
      forall q | q in r.board.openPositions ensures r.board.openPositions[q] == OpenSig(r, q) {
        RefreshedCells(pos, q);
        RemovedValue(w, w1, r, pos, t, q, q in qs);
      }
    }
  }

  /** One open position after the corrected removal carries its fresh
      signature: a refreshed cell got it from Refresh, and any other cell
      is not next to `pos`, so its old signature is still right. */
  lemma RemovedValue(w: World, w1: World, r: World, pos: Point, t: TileId, q: Point, refreshed: bool)
    requires w.board.grid == w1.board.grid[pos := t] && w1.board.size == w.board.size
    requires w1.catalog == w.catalog && w1.tiles.Keys == w.tiles.Keys
    requires forall u :: u in w.tiles ==> w1.tiles[u].reference == w.tiles[u].reference
    requires r.board.grid == w1.board.grid && r.board.size == w1.board.size
    requires r.catalog == w1.catalog && r.tiles == w1.tiles
    requires q in r.board.openPositions
    requires refreshed ==> r.board.openPositions[q] == OpenSig(w1, q)
    requires !refreshed ==> !Adjacent(pos, q) && q in w.board.openPositions
    requires !refreshed ==> r.board.openPositions[q] == w.board.openPositions[q] && w.board.openPositions[q] == OpenSig(w, q)
    ensures r.board.openPositions[q] == OpenSig(r, q)
  {
    OpenSigLocal(w1, r, q);
    if !refreshed {
      OpenSigAwayFrom(w1, w, pos, t, q);
    }
  }

  /** Two lists without duplicates holding the same points are permutations
      of each other. */
  lemma SameMembersPermutation(l1: seq<Point>, l2: seq<Point>)
    requires NoDupList(l1) && NoDupList(l2)
    requires forall q :: q in l1 <==> q in l2
    ensures multiset(l1) == multiset(l2)
  {
    forall q ensures multiset(l1)[q] == multiset(l2)[q] {
      assert multiset(l1)[q] <= 1 && multiset(l2)[q] <= 1;
      assert (q in l1) == (q in multiset(l1)) && (q in l2) == (q in multiset(l2));
    }
  }

  /** The open positions are determined by the grid, the catalog and the
      tiles' references: two worlds that agree on these and both keep the
      open positions exact have the same open map, and lists that are
      permutations of each other. */
  lemma OpenExactUnique(w: World, w': World)
    requires OpenExact(w) && OpenExact(w')
    requires w'.board.grid == w.board.grid && w'.board.size == w.board.size && w'.catalog == w.catalog
    requires w'.tiles.Keys == w.tiles.Keys
    requires forall u :: u in w.tiles ==> w'.tiles[u].reference == w.tiles[u].reference
    ensures w'.board.openPositions == w.board.openPositions
    ensures multiset(w'.board.openList) == multiset(w.board.openList)
  {
    SameOpenKeys(w, w');
    SameOpenValues(w, w');
    SameMembersPermutation(w'.board.openList, w.board.openList);
  }

  lemma SameOpenKeys(w: World, w': World)
    requires forall q :: q in w.board.openPositions <==> Frontier(w.board, q)
    requires forall q :: q in w'.board.openPositions <==> Frontier(w'.board, q)
    requires w'.board.grid == w.board.grid && w'.board.size == w.board.size
    ensures w'.board.openPositions.Keys == w.board.openPositions.Keys
  {
    forall q ensures q in w'.board.openPositions <==> q in w.board.openPositions {
      FrontierOnGrid(w.board, w'.board, q);
    }
  }

  lemma SameOpenValues(w: World, w': World)
    requires forall q :: q in w.board.openPositions ==> w.board.openPositions[q] == OpenSig(w, q)
    requires forall q :: q in w'.board.openPositions ==> w'.board.openPositions[q] == OpenSig(w', q)
    requires w'.board.openPositions.Keys == w.board.openPositions.Keys
    requires w'.board.grid == w.board.grid && w'.board.size == w.board.size && w'.catalog == w.catalog
    requires w'.tiles.Keys == w.tiles.Keys
    requires forall u :: u in w.tiles ==> w'.tiles[u].reference == w.tiles[u].reference
    ensures w'.board.openPositions == w.board.openPositions
  {
    forall q | q in w.board.openPositions ensures w'.board.openPositions[q] == w.board.openPositions[q] {
      OpenSigLocal(w, w', q);
    }
  }

  /** PlaceTile changes no tile's reference. */
  lemma PlaceKeepsReferences(w: World, pos: Point, t: TileId)
    requires Shaped(w.tiles) && t in w.tiles
    ensures PlaceTile(w, pos, t).tiles.Keys == w.tiles.Keys
    ensures forall u :: u in w.tiles ==> PlaceTile(w, pos, t).tiles[u].reference == w.tiles[u].reference
  {
    PlaceTileTiles(w, pos, t);
  }

  lemma UndoPut(g: map<Point, TileId>, pos: Point, t: TileId)
    requires pos !in g
    ensures g[pos := t] - {pos} == g
  {
  }

  /** Placing a tile not yet on the board on a vacant cell and then removing
      it with the corrected removal gives back the grid, the tile count and
      the open positions (the list up to order). This is the hypothetical
      placement the AI evaluator makes for every candidate. */
  lemma PlaceThenRemove(w: World, pos: Point, t: TileId)
    requires NeighboursMatchGrid(w) && OpenExact(w) && t in w.tiles && t !in w.board.grid.Values
    requires InBounds(w.board, pos) && pos !in w.board.grid
    ensures NeighboursMatchGrid(PlaceTile(w, pos, t))
    ensures var r := CorrectedRemoveTileAt(PlaceTile(w, pos, t), pos);
      && r.board.grid == w.board.grid && r.board.size == w.board.size
      && r.board.placedTileCount == w.board.placedTileCount
      && r.board.openPositions == w.board.openPositions
      && multiset(r.board.openList) == multiset(w.board.openList)
  {
    PlaceKeepsNeighbours(w, pos, t);
    PlaceKeepsOpen(w, pos, t);
    PlaceKeepsReferences(w, pos, t);
    RemovePlaced(w, PlaceTile(w, pos, t), pos, t);
  }

  /** Removing, from a world `p` that is `w` with `t` put on the vacant
      cell `pos`, gives back the board of `w`. */
  lemma RemovePlaced(w: World, p: World, pos: Point, t: TileId)
    requires OpenExact(w) && OpenExact(p) && Shaped(p.tiles) && GridIn(p.board, p.tiles)
    requires InBounds(w.board, pos) && pos !in w.board.grid
    requires p.board.grid == w.board.grid[pos := t] && p.board.size == w.board.size
    requires p.board.placedTileCount == w.board.placedTileCount + 1 && p.catalog == w.catalog
    requires p.tiles.Keys == w.tiles.Keys
    requires forall u :: u in w.tiles ==> p.tiles[u].reference == w.tiles[u].reference
    ensures var r := CorrectedRemoveTileAt(p, pos);
      && r.board.grid == w.board.grid && r.board.size == w.board.size
      && r.board.placedTileCount == w.board.placedTileCount
      && r.board.openPositions == w.board.openPositions
      && multiset(r.board.openList) == multiset(w.board.openList)
  {
    CorrectedRemoveKeepsOpen(p, pos);
    var r := CorrectedRemoveTileAt(p, pos);
    UndoPut(w.board.grid, pos, t);
    OpenExactUnique(w, r);
  }
}
