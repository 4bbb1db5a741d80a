/** Small boards on which RemoveTileAt as written leaves the open positions
    wrong, while the corrected removal keeps them exact. All tiles are
    crossroads (Road on every side). */
module RemovalFindings {
  import opened Wrappers
  import opened Directions
  import opened Points
  import opened FeatureTypes
  import opened EdgeSignatures
  import opened ReferenceTiles
  import opened Arena
  import opened Boards
  import opened BoardFacts
  import opened BoardRemoval
  import opened RemovalFacts
  import Matrices

  // ---------------------------------------------------------------------
  // Facts about the orphan check
  // ---------------------------------------------------------------------

  /** Once the flag is set, the orphan check drops nothing. */
  lemma {:induction false} OrphanLoopAfterFlag(b: Board, ns: seq<Point>, i: nat)
    requires i <= |ns|
    ensures OrphanLoop(b, ns, i, true) == b
    decreases |ns| - i
  {
    if i < |ns| {
      OrphanLoopAfterFlag(b, ns, i + 1);
    }
  }

  /** The orphan check only ever drops the cells it checks. */
  lemma {:induction false} OrphanLoopKeeps(b: Board, ns: seq<Point>, i: nat, has: bool, q: Point)
    requires i <= |ns| && q in b.openPositions && q !in ns[i..]
    ensures q in OrphanLoop(b, ns, i, has).openPositions
    decreases |ns| - i
  {
    if i < |ns| {
      assert ns[i..] == [ns[i]] + ns[i + 1..];
      var has' := has || HasPlacedNeighbour(b, ns[i]);
      var b' := if has' then b else DropOpen(b, ns[i]);
      OrphanLoopKeeps(b', ns, i + 1, has', q);
    }
  }

  /** RemoveTileAt as written on an occupied cell, in terms of its parts. */
  lemma RemoveTileAtParts(w: World, pos: Point)
    requires Shaped(w.tiles) && GridIn(w.board, w.tiles) && InBounds(w.board, pos) && pos in w.board.grid
    ensures var w1 := Detached(w, pos, w.board.grid[pos]);
      RemoveTileAt(w, pos).board
        == OrphanLoop(w1.board.(openList := w1.board.openList + [pos],
                                openPositions := w1.board.openPositions[pos := OpenSig(w1, pos)]),
                      OrthogonalNeighbours(pos), 0, false)
  {
  }

  /** RemoveTileAt as written, on an occupied cell whose northern cell has
      a placed neighbour once the tile is gone, drops no open position: it
      only adds the vacated cell. */
  lemma NorthFlagKeepsAll(w: World, pos: Point)
    requires Shaped(w.tiles) && GridIn(w.board, w.tiles) && InBounds(w.board, pos) && pos in w.board.grid
    requires HasPlacedNeighbour(w.board.(grid := w.board.grid - {pos}), EdgePos(pos, North))
    ensures RemoveTileAt(w, pos).board.openPositions
            == w.board.openPositions[pos := OpenSig(Detached(w, pos, w.board.grid[pos]), pos)]
  {
    var w1 := Detached(w, pos, w.board.grid[pos]);
    var b2 := w1.board.(openList := w1.board.openList + [pos],
                        openPositions := w1.board.openPositions[pos := OpenSig(w1, pos)]);
    RemoveTileAtParts(w, pos);
    PlacedNeighbourOnGrid(w.board.(grid := w.board.grid - {pos}), b2, EdgePos(pos, North));
    FlagFromNorth(b2, pos);
  }

  lemma PlacedNeighbourOnGrid(b: Board, b': Board, p: Point)
    requires b'.grid == b.grid && b'.size == b.size
    ensures HasPlacedNeighbour(b', p) == HasPlacedNeighbour(b, p)
  {
  }

  /** When the northern cell has a placed neighbour, the orphan check
      leaves the board as it is. */
  lemma FlagFromNorth(b: Board, pos: Point)
    requires HasPlacedNeighbour(b, EdgePos(pos, North))
    ensures OrphanLoop(b, OrthogonalNeighbours(pos), 0, false) == b
  {
    var ns := OrthogonalNeighbours(pos);
    assert ns[0] == EdgePos(pos, North);
    OrphanLoopAfterFlag(b, ns, 1);
  }

  // ---------------------------------------------------------------------
  // The example boards
  // ---------------------------------------------------------------------

  const Crossroads: ReferenceTile :=
    ReferenceTile("Crossroads", 0, Matrices.Matrix(0, []), [], [], [Road, Road, Road, Road])

  function ExampleCatalog(): Catalog
  {
    Catalog(map[], map[0 := Crossroads], map[])
  }

  function Crossing(p: Point, nbrs: seq<Option<TileId>>): Tile
  {
    Tile(p, 0, [], [None, None, None, None], nbrs, map[])
  }

  /** A 3x3 board with tile 0 on (0,0), tile 2 on (1,0) and tile 1 on
      (1,1), linked as PlaceTile links them, before the open positions are
      filled in. */
  function LBase(): (w: World)
    ensures w.catalog == ExampleCatalog() && w.board.size == 3
    ensures w.board.grid == map[Point(0, 0) := 0, Point(1, 0) := 2, Point(1, 1) := 1]
    ensures 1 in w.tiles && w.tiles[1].reference == 0
    ensures Shaped(w.tiles) && GridIn(w.board, w.tiles)
  {
    World(ExampleCatalog(),
          map[0 := Crossing(Point(0, 0), [None, Some(2), None, None]),
              1 := Crossing(Point(1, 1), [Some(2), None, None, None]),
              2 := Crossing(Point(1, 0), [None, None, Some(1), Some(0)])],
          map[], 3, 0,
          Board(3, map[Point(0, 0) := 0, Point(1, 0) := 2, Point(1, 1) := 1], 3, map[], []))
  }

  const LOpen: seq<Point> := [Point(2, 0), Point(0, 1), Point(2, 1), Point(1, 2)]

  /** The world `b` with the points of `l` opened, each with the signature
      its neighbours give it. */
  function WithOpen(b: World, l: seq<Point>): (w: World)
    ensures w.board.openList == l && w.board.grid == b.board.grid && w.board.size == b.board.size
    ensures w.catalog == b.catalog && w.tiles == b.tiles
    ensures forall q :: q in w.board.openPositions <==> q in l
    ensures forall q :: q in l ==> w.board.openPositions[q] == OpenSig(b, q)
  {
    b.(board := b.board.(openPositions := map q | q in l :: OpenSig(b, q), openList := l))
  }

  /** Opening exactly the frontier, each cell once, makes the open
      positions exact. */
  lemma WithOpenExact(b: World, l: seq<Point>)
    requires NoDupList(l)
    requires forall q :: Frontier(b.board, q) <==> q in l
    ensures OpenExact(WithOpen(b, l))
  {
    var w := WithOpen(b, l);
    forall q | q in w.board.openPositions ensures w.board.openPositions[q] == OpenSig(w, q) {
      OpenSigLocal(b, w, q);
    }
  }

  /** The L-shaped board with its open positions. */
  function LWorld(): World
  {
    WithOpen(LBase(), LOpen)
  }

  /** One tile on the middle cell of a 3x3 board. */
  function SingleBase(): (w: World)
    ensures w.board.grid == map[Point(1, 1) := 0] && w.board.size == 3
    ensures Shaped(w.tiles) && GridIn(w.board, w.tiles)
  {
    World(ExampleCatalog(), map[0 := Crossing(Point(1, 1), NoNeighbours)], map[], 1, 0,
          Board(3, map[Point(1, 1) := 0], 1, map[], []))
  }

  const SingleOpen: seq<Point> := [Point(1, 0), Point(1, 2), Point(2, 1), Point(0, 1)]

  function SingleWorld(): World
  {
    WithOpen(SingleBase(), SingleOpen)
  }

  /** A cell of a 3x3 board has one of nine positions. */
  lemma CellsOfThree(b: Board, q: Point)
    requires b.size == 3 && InBounds(b, q)
    ensures q.x == 0 || q.x == 1 || q.x == 2
    ensures q.y == 0 || q.y == 1 || q.y == 2
  {
  }

  lemma LWorldExact()
    ensures OpenExact(LWorld())
  {
    var b := LBase().board;
    forall q ensures Frontier(b, q) <==> q in LOpen {
      if InBounds(b, q) {
        CellsOfThree(b, q);
        LFrontierCell(b, q.x, q.y);
      }
    }
    assert NoDupList(LOpen) by {
      forall q ensures multiset(LOpen)[q] <= 1 {
      }
    }
    WithOpenExact(LBase(), LOpen);
  }

  lemma LFrontierCell(b: Board, x: int, y: int)
    requires b.grid == map[Point(0, 0) := 0, Point(1, 0) := 2, Point(1, 1) := 1] && b.size == 3
    requires 0 <= x < 3 && 0 <= y < 3
    ensures Frontier(b, Point(x, y)) <==> Point(x, y) in LOpen
  {
    if x == 0 && y == 0 {
    } else if x == 1 && y == 0 {
    } else if x == 2 && y == 0 {
    } else if x == 0 && y == 1 {
    } else if x == 1 && y == 1 {
    } else if x == 2 && y == 1 {
    } else if x == 0 && y == 2 {
    } else if x == 1 && y == 2 {
    } else {
    }
  }

  lemma SingleFrontierCell(b: Board, x: int, y: int)
    requires b.grid == map[Point(1, 1) := 0] && b.size == 3
    requires 0 <= x < 3 && 0 <= y < 3
    ensures Frontier(b, Point(x, y)) <==> Point(x, y) in SingleOpen
  {
    if x == 0 && y == 0 {
    } else if x == 1 && y == 0 {
    } else if x == 2 && y == 0 {
    } else if x == 0 && y == 1 {
    } else if x == 1 && y == 1 {
    } else if x == 2 && y == 1 {
    } else if x == 0 && y == 2 {
    } else if x == 1 && y == 2 {
    } else {
    }
  }

  lemma SingleWorldExact()
    ensures OpenExact(SingleWorld())
  {
    var b := SingleBase().board;
    forall q ensures Frontier(b, q) <==> q in SingleOpen {
      if InBounds(b, q) {
        CellsOfThree(b, q);
        SingleFrontierCell(b, q.x, q.y);
      }
    }
    assert NoDupList(SingleOpen) by {
      forall q ensures multiset(SingleOpen)[q] <= 1 {
      }
    }
    WithOpenExact(SingleBase(), SingleOpen);
  }

  // ---------------------------------------------------------------------
  // The counterexamples
  // ---------------------------------------------------------------------

  const LGrid: map<Point, TileId> := map[Point(0, 0) := 0, Point(1, 0) := 2, Point(1, 1) := 1]

  /** The L-shaped grid without (1,1). */
  lemma LGridLessMiddle()
    ensures LGrid - {Point(1, 1)} == map[Point(0, 0) := 0, Point(1, 0) := 2]
  {
  }

  /** On the grid with (0,0) and (1,0) only, (1,0) has a placed neighbour,
      (0,1) is still on the frontier and (1,2) is not. */
  lemma LAfterFrontier(b: Board)
    requires b.grid == map[Point(0, 0) := 0, Point(1, 0) := 2] && b.size == 3
    ensures HasPlacedNeighbour(b, Point(1, 0))
    ensures !Frontier(b, Point(1, 2)) && !Frontier(b, Point(2, 1))
  {
    assert OccupiedAcross(b, Point(1, 0), West);
  }

  /** The side of `p` facing a crossroads tile is Road. */
  lemma FacingCrossroads(w: World, p: Point, d: Direction, u: TileId)
    requires w.catalog == ExampleCatalog() && InBounds(w.board, EdgePos(p, d))
    requires EdgePos(p, d) in w.board.grid && w.board.grid[EdgePos(p, d)] == u
    requires u in w.tiles && w.tiles[u].reference == 0
    ensures FacingKind(w, p, d) == Road
  {
  }

  /** The side of `p` facing a vacant cell is Blank. */
  lemma FacingVacant(w: World, p: Point, d: Direction, q: Point)
    requires q == EdgePos(p, d) && q !in w.board.grid
    ensures FacingKind(w, p, d) == Blank
  {
  }

  /** Before the removal, the eastern side of (0,1) faces tile 1. */
  lemma LBaseFacing()
    ensures FacingKind(LBase(), Point(0, 1), East) == Road
  {
    var w := LBase();
    var q := EdgePos(Point(0, 1), East);
    assert q == Point(1, 1);
    assert q in w.board.grid && w.board.grid[q] == 1;
    FacingCrossroads(w, Point(0, 1), East, 1);
  }

  /** RemoveTileAt as written always re-opens the cell it empties. */
  lemma RemoveReopensPos(w: World, pos: Point)
    requires Shaped(w.tiles) && GridIn(w.board, w.tiles) && InBounds(w.board, pos) && pos in w.board.grid
    ensures pos in RemoveTileAt(w, pos).board.openPositions
  {
    var t := w.board.grid[pos];
    var w1 := Detached(w, pos, t);
    var b2 := w1.board.(openList := w1.board.openList + [pos],
                        openPositions := w1.board.openPositions[pos := OpenSig(w1, pos)]);
    var ns := OrthogonalNeighbours(pos);
    assert pos !in ns[0..] by {
      assert ns[0..] == ns;
      forall d: Direction ensures EdgePos(pos, d) != pos {
        EdgePosDistinct(pos, d, d);
      }
    }
    OrphanLoopKeeps(b2, ns, 0, false, pos);
  }

  /** In an exact world with the L-shaped grid, (0,1) and (1,2) are open. */
  lemma LOpenCells(w: World)
    requires forall q :: q in w.board.openPositions <==> Frontier(w.board, q)
    requires w.board.grid == LGrid && w.board.size == 3
    ensures Point(0, 1) in w.board.openPositions && Point(1, 2) in w.board.openPositions
  {
    assert OccupiedAcross(w.board, Point(0, 1), North);
    assert OccupiedAcross(w.board, Point(1, 2), North);
  }

  /** Removing (1,1) from a world with the L-shaped grid, as written. */
  lemma LRemoval(w: World)
    requires Shaped(w.tiles) && GridIn(w.board, w.tiles) && w.board.grid == LGrid && w.board.size == 3
    ensures RemoveTileAt(w, Point(1, 1)).board.grid == map[Point(0, 0) := 0, Point(1, 0) := 2]
    ensures RemoveTileAt(w, Point(1, 1)).board.openPositions
            == w.board.openPositions[Point(1, 1) := OpenSig(Detached(w, Point(1, 1), 1), Point(1, 1))]
  {
    LGridLessMiddle();
    LAfterFrontier(w.board.(grid := w.board.grid - {Point(1, 1)}));
    assert EdgePos(Point(1, 1), North) == Point(1, 0);
    NorthFlagKeepsAll(w, Point(1, 1));
  }

  /** Removing tile 1 from (1,1) of the L-shaped board: the flag is set by
      the northern cell (1,0), which still touches (0,0), so (1,2) stays open
      although no tile touches it any more; the corrected removal drops it. */
  lemma StickyFlagKeepsOrphan()
    ensures OpenExact(LWorld())
    ensures var r := RemoveTileAt(LWorld(), Point(1, 1));
      Point(1, 2) in r.board.openPositions && !Frontier(r.board, Point(1, 2)) && !OpenExact(r)
    ensures var c := CorrectedRemoveTileAt(LWorld(), Point(1, 1));
      OpenExact(c) && Point(1, 2) !in c.board.openPositions
  {
    LWorldExact();
    StickyFlagOn(LWorld());
    StickyCorrected(LWorld());
  }

  /** The removal of (1,1) as written, from any exact world with the
      L-shaped grid. */
  lemma StickyFlagOn(w: World)
    requires OpenExact(w) && Shaped(w.tiles) && GridIn(w.board, w.tiles)
    requires w.board.grid == LGrid && w.board.size == 3
    ensures var r := RemoveTileAt(w, Point(1, 1));
      Point(1, 2) in r.board.openPositions && !Frontier(r.board, Point(1, 2)) && !OpenExact(r)
  {
    LOpenCells(w);
    LRemoval(w);
    LAfterFrontier(RemoveTileAt(w, Point(1, 1)).board);
  }

  /** The corrected removal of (1,1) from the same worlds. */
  lemma StickyCorrected(w: World)
    requires OpenExact(w) && Shaped(w.tiles) && GridIn(w.board, w.tiles)
    requires w.board.grid == LGrid && w.board.size == 3
    ensures var c := CorrectedRemoveTileAt(w, Point(1, 1));
      OpenExact(c) && Point(1, 2) !in c.board.openPositions
  {
    LGridLessMiddle();
    CorrectedRemoveKeepsOpen(w, Point(1, 1));
    LAfterFrontier(CorrectedRemoveTileAt(w, Point(1, 1)).board);
  }

  /** On the same removal, the open cell (0,1) keeps the Road its eastern
      side had against tile 1, while the cell east of it is now vacant, so
      its signature ought to be Blank there. */
  lemma SignatureGoesStale(w: World)
    requires w == LWorld()
    ensures OpenExact(w)
    ensures var r := RemoveTileAt(w, Point(1, 1));
      && Point(0, 1) in r.board.openPositions
      && r.board.openPositions[Point(0, 1)][East] == Road
      && OpenSig(r, Point(0, 1))[East] == Blank
  {
    LWorldExact();
    LWorldOpensWest(w);
    StaleFrom(w);
  }

  /** In the L-shaped world, the open cell (0,1) has a Road on its eastern
      side. */
  lemma LWorldOpensWest(w: World)
    requires w == LWorld()
    ensures Shaped(w.tiles) && GridIn(w.board, w.tiles) && w.board.grid == LGrid && w.board.size == 3
    ensures Point(0, 1) in w.board.openPositions && w.board.openPositions[Point(0, 1)][East] == Road
  {
    LBaseFacing();
    assert Point(0, 1) in LOpen;
    assert w.board.openPositions[Point(0, 1)] == OpenSig(LBase(), Point(0, 1));
  }

  lemma StaleOn(w: World)
    requires OpenExact(w) && Shaped(w.tiles) && GridIn(w.board, w.tiles)
    requires w.board.grid == LGrid && w.board.size == 3
    requires FacingKind(w, Point(0, 1), East) == Road
    ensures var r := RemoveTileAt(w, Point(1, 1));
      && Point(0, 1) in r.board.openPositions
      && r.board.openPositions[Point(0, 1)][East] == Road
      && OpenSig(r, Point(0, 1))[East] == Blank
  {
    LOpenCells(w);
    assert w.board.openPositions[Point(0, 1)] == OpenSig(w, Point(0, 1));
    StaleFrom(w);
  }

  /** The same removal, from the open entry of (0,1) alone. */
  lemma StaleFrom(w: World)
    requires Shaped(w.tiles) && GridIn(w.board, w.tiles)
    requires w.board.grid == LGrid && w.board.size == 3
    requires Point(0, 1) in w.board.openPositions && w.board.openPositions[Point(0, 1)][East] == Road
    ensures var r := RemoveTileAt(w, Point(1, 1));
      && Point(0, 1) in r.board.openPositions
      && r.board.openPositions[Point(0, 1)][East] == Road
      && OpenSig(r, Point(0, 1))[East] == Blank
  {
    LRemoval(w);
    KeptSignature(w, RemoveTileAt(w, Point(1, 1)), Point(0, 1), OpenSig(Detached(w, Point(1, 1), 1), Point(1, 1)));
  }

  /** A cell whose open entry survives a removal of (1,1) untouched keeps a
      Road on its eastern side, while that side now faces a vacant cell. */
  lemma KeptSignature(w: World, r: World, q: Point, s: Signature)
    requires q == Point(0, 1) && q in w.board.openPositions && w.board.openPositions[q][East] == Road
    requires r.board.openPositions == w.board.openPositions[Point(1, 1) := s]
    requires r.board.grid == map[Point(0, 0) := 0, Point(1, 0) := 2]
    ensures q in r.board.openPositions && r.board.openPositions[q][East] == Road
    ensures OpenSig(r, q)[East] == Blank
  {
    FacingVacant(r, q, East, Point(1, 1));
  }

  /** Removing the only tile re-opens its cell although nothing is placed
      next to it; the corrected removal leaves no open position. */
  lemma VacatedCellReopened()
    ensures OpenExact(SingleWorld())
    ensures var r := RemoveTileAt(SingleWorld(), Point(1, 1));
      r.board.grid == map[] && Point(1, 1) in r.board.openPositions && !OpenExact(r)
    ensures var c := CorrectedRemoveTileAt(SingleWorld(), Point(1, 1));
      OpenExact(c) && c.board.openPositions == map[]
  {
    SingleWorldExact();
    ReopenedOn(SingleWorld());
    ReopenedCorrected(SingleWorld());
  }

  lemma SingleLessMiddle()
    ensures map[Point(1, 1) := 0] - {Point(1, 1)} == map[]
  {
  }

  lemma EmptyGridNoFrontier(b: Board, q: Point)
    requires b.grid == map[]
    ensures !Frontier(b, q)
  {
  }

  /** With no tile on the board, an exact world has no open position. */
  lemma EmptyGridNoOpen(w: World)
    requires OpenExact(w) && w.board.grid == map[]
    ensures w.board.openPositions == map[]
  {
    forall q | q in w.board.openPositions ensures false {
      EmptyGridNoFrontier(w.board, q);
    }
  }

  lemma ReopenedOn(w: World)
    requires Shaped(w.tiles) && GridIn(w.board, w.tiles)
    requires w.board.grid == map[Point(1, 1) := 0] && w.board.size == 3
    ensures var r := RemoveTileAt(w, Point(1, 1));
      r.board.grid == map[] && Point(1, 1) in r.board.openPositions && !OpenExact(r)
  {
    SingleLessMiddle();
    RemoveReopensPos(w, Point(1, 1));
    EmptyGridNoFrontier(RemoveTileAt(w, Point(1, 1)).board, Point(1, 1));
  }

  lemma ReopenedCorrected(w: World)
    requires OpenExact(w) && Shaped(w.tiles) && GridIn(w.board, w.tiles)
    requires w.board.grid == map[Point(1, 1) := 0] && w.board.size == 3
    ensures var c := CorrectedRemoveTileAt(w, Point(1, 1));
      OpenExact(c) && c.board.openPositions == map[]
  {
    SingleLessMiddle();
    CorrectedRemoveKeepsOpen(w, Point(1, 1));
    EmptyGridNoOpen(CorrectedRemoveTileAt(w, Point(1, 1)));
  }
}
