/** The board of engine/board/board.go: the grid of placed tiles, the open
    positions (vacant cells next to a placed tile) with the signature a tile
    must match there, the neighbour references between placed tiles and
    the links between features that meet across a shared edge. */
module Boards {
  import opened Wrappers
  import opened Directions
  import opened Points
  import opened FeatureTypes
  import opened EdgeSignatures
  import opened ReferenceTiles
  import Matrices
  import opened Arena

  /** NewBoard: no tiles and no open positions. */
  function NewBoard(size: nat): Board
  {
    Board(size, map[], 0, map[], [])
  }

  /** The tile on a cell, nil when the cell is vacant. */
  function TileAt(b: Board, p: Point): (r: Option<TileId>)
    ensures r.Some? <==> p in b.grid
    ensures r.Some? ==> r.value == b.grid[p]
  {
    if p in b.grid then Some(b.grid[p]) else None
  }

  /** The cell across side `d` of `p` is on the board and holds a tile. */
  predicate OccupiedAcross(b: Board, p: Point, d: Direction)
  {
    InBounds(b, EdgePos(p, d)) && EdgePos(p, d) in b.grid
  }

  /** Some cell next to `p` on the board holds a tile. */
  predicate HasPlacedNeighbour(b: Board, p: Point)
  {
    OccupiedAcross(b, p, North) || OccupiedAcross(b, p, East) || OccupiedAcross(b, p, South) || OccupiedAcross(b, p, West)
  }

  /** A cell that ought to be open: on the board, vacant, and next to a tile. */
  predicate Frontier(b: Board, p: Point)
  {
    InBounds(b, p) && p !in b.grid && HasPlacedNeighbour(b, p)
  }

  // ---------------------------------------------------------------------
  // Open-position signatures
  // ---------------------------------------------------------------------

  /** The kind on the side of the tile across side `d` of `p` that faces
      `p`, or Blank when no tile is there (or the cell is off the board). */
  function FacingKind(w: World, p: Point, d: Direction): FeatureType
  {
    var q := EdgePos(p, d);
    if InBounds(w.board, q) && q in w.board.grid && w.board.grid[q] in w.tiles
       && w.tiles[w.board.grid[q]].reference in w.catalog.tiles
    then w.catalog.tiles[w.tiles[w.board.grid[q]].reference].edgeSignature[Compliment(d)]
    else Blank
  }

  /** createOpenPositonSignature: side `d` of an open position carries the
      facing side of the tile across it, and is Blank where there is none. */
  function OpenSig(w: World, p: Point): (s: Signature)
    ensures forall d: Direction :: s[d] == FacingKind(w, p, d)
  {
    [FacingKind(w, p, North), FacingKind(w, p, East), FacingKind(w, p, South), FacingKind(w, p, West)]
  }

  /** Two worlds that agree on the catalog, on which tile sits on each cell
      next to `p`, and on every tile's reference give `p` the same signature. */
  lemma OpenSigLocal(w: World, w': World, p: Point)
    requires w'.catalog == w.catalog && w'.board.size == w.board.size
    requires forall d: Direction :: TileAt(w'.board, EdgePos(p, d)) == TileAt(w.board, EdgePos(p, d))
    requires w'.tiles.Keys == w.tiles.Keys
    requires forall u :: u in w.tiles ==> w'.tiles[u].reference == w.tiles[u].reference
    ensures OpenSig(w', p) == OpenSig(w, p)
  {
    FacingKindLocal(w, w', p, North);
    FacingKindLocal(w, w', p, East);
    FacingKindLocal(w, w', p, South);
    FacingKindLocal(w, w', p, West);
  }

  lemma FacingKindLocal(w: World, w': World, p: Point, d: Direction)
    requires w'.catalog == w.catalog && w'.board.size == w.board.size
    requires TileAt(w'.board, EdgePos(p, d)) == TileAt(w.board, EdgePos(p, d))
    requires w'.tiles.Keys == w.tiles.Keys
    requires forall u :: u in w.tiles ==> w'.tiles[u].reference == w.tiles[u].reference
    ensures FacingKind(w', p, d) == FacingKind(w, p, d)
  {
    var q := EdgePos(p, d);
    if q in w.board.grid {
      var u := w.board.grid[q];
      assert w'.board.grid[q] == u;
    }
  }

  /** A tile fits an open position exactly when each side it shares with a
      placed tile matches that tile's facing side, wherever that side is not
      Blank; a position with no tile around accepts every tile. */
  lemma OpenSigFits(w: World, p: Point, sig: Signature)
    ensures Compatible(sig, OpenSig(w, p)) <==>
              forall d: Direction :: FacingKind(w, p, d) != Blank ==> sig[d] == FacingKind(w, p, d)
    ensures !HasPlacedNeighbour(w.board, p) ==> OpenSig(w, p) == Unconstrained && Compatible(sig, OpenSig(w, p))
  {
    if !HasPlacedNeighbour(w.board, p) {
      CompatibleWithUnconstrained(sig, Unconstrained, North, Blank);
    }
  }

  // ---------------------------------------------------------------------
  // Edge pixels
  // ---------------------------------------------------------------------

  /** edgePix: the raster cells along side `d` of a 7x7 feature raster,
      North and South left to right, East and West top to bottom. */
  function EdgePix(d: Direction): (pix: seq<Point>)
    ensures |pix| == RasterSize
    ensures forall i :: 0 <= i < RasterSize ==> 0 <= pix[i].x < RasterSize && 0 <= pix[i].y < RasterSize
  {
    seq(RasterSize, i requires 0 <= i < RasterSize =>
      if d == North then Point(i, 0)
      else if d == East then Point(RasterSize - 1, i)
      else if d == South then Point(i, RasterSize - 1)
      else Point(0, i))
  }

  /** Where raster cell `px` of the tile at `pos` sits on the board-wide
      raster. */
  function GlobalCell(pos: Point, px: Point): Point
  {
    Point(RasterSize * pos.x + px.x, RasterSize * pos.y + px.y)
  }

  /** The i-th pixel of side `d` and the i-th pixel of the opposite side of
      the neighbour across `d` are adjacent cells of the board-wide raster,
      so the pairs PlaceTile compares are the cells that touch. */
  lemma EdgePixFacing(pos: Point, d: Direction, i: int)
    requires 0 <= i < RasterSize
    ensures EdgePos(GlobalCell(pos, EdgePix(d)[i]), d) == GlobalCell(EdgePos(pos, d), EdgePix(Compliment(d))[i])
  {
  }

  // ---------------------------------------------------------------------
  // Neighbour references
  // ---------------------------------------------------------------------

  predicate Shaped(tiles: map<TileId, Tile>)
  {
    forall u :: u in tiles ==> |tiles[u].neighbours| == 4
  }

  /** Two tile maps that differ at most in the neighbour references. */
  predicate SameButNeighbours(tiles: map<TileId, Tile>, r: map<TileId, Tile>)
  {
    r.Keys == tiles.Keys && forall u :: u in tiles ==> r[u] == tiles[u].(neighbours := r[u].neighbours)
  }

  /** `t` sits on `pos` and on no other cell. */
  predicate Alone(b: Board, t: TileId, pos: Point)
  {
    pos in b.grid && b.grid[pos] == t && forall p :: p in b.grid && b.grid[p] == t ==> p == pos
  }

  /** Every neighbour reference names a tile of the arena. */
  predicate NeighboursResolve(tiles: map<TileId, Tile>)
  {
    forall u, d :: u in tiles && 0 <= d < |tiles[u].neighbours| && tiles[u].neighbours[d].Some? ==>
      tiles[u].neighbours[d].value in tiles
  }

  /** Every occupied cell holds a tile of the arena. */
  predicate GridIn(b: Board, tiles: map<TileId, Tile>)
  {
    forall p :: p in b.grid ==> b.grid[p] in tiles
  }

  /** One round of linkNeighbours: if the cell across side `d` is on the
      board, `t` takes it as neighbour (nil when vacant) and a tile there
      takes `t` on its opposite side. */
  function LinkSide(tiles: map<TileId, Tile>, b: Board, t: TileId, pos: Point, d: Direction): (r: map<TileId, Tile>)
    requires Shaped(tiles) && t in tiles
    ensures Shaped(r) && SameButNeighbours(tiles, r)
  {
    var q := EdgePos(pos, d);
    if !InBounds(b, q) then tiles
    else
      var n := TileAt(b, q);
      var r1 := tiles[t := tiles[t].(neighbours := tiles[t].neighbours[d := n])];
      if n.None? || n.value !in r1 then r1
      else r1[n.value := r1[n.value].(neighbours := r1[n.value].neighbours[Compliment(d) := Some(t)])]
  }

  /** linkNeighbours, from side `d` on. */
  function LinkNeighboursFrom(tiles: map<TileId, Tile>, b: Board, t: TileId, pos: Point, d: nat): (r: map<TileId, Tile>)
    requires Shaped(tiles) && t in tiles && d <= 4
    ensures Shaped(r) && SameButNeighbours(tiles, r)
    decreases 4 - d
  {
    if d == 4 then tiles else LinkNeighboursFrom(LinkSide(tiles, b, t, pos, d), b, t, pos, d + 1)
  }

  /** linkNeighbours. */
  function LinkNeighbours(tiles: map<TileId, Tile>, b: Board, t: TileId, pos: Point): (r: map<TileId, Tile>)
    requires Shaped(tiles) && t in tiles
    ensures Shaped(r) && SameButNeighbours(tiles, r)
  {
    LinkNeighboursFrom(tiles, b, t, pos, 0)
  }

  /** Neighbour references written by linkNeighbours name tiles of the
      arena when the grid does. */
  lemma {:induction false} LinkNeighboursResolve(tiles: map<TileId, Tile>, b: Board, t: TileId, pos: Point, d: nat)
    requires Shaped(tiles) && t in tiles && d <= 4
    requires NeighboursResolve(tiles) && GridIn(b, tiles)
    ensures NeighboursResolve(LinkNeighboursFrom(tiles, b, t, pos, d))
    decreases 4 - d
  {
    if d < 4 {
      var t1 := LinkSide(tiles, b, t, pos, d);
      forall u, e | u in t1 && 0 <= e < |t1[u].neighbours| && t1[u].neighbours[e].Some?
        ensures t1[u].neighbours[e].value in t1
      {
        if t1[u].neighbours[e] != tiles[u].neighbours[e] {
          assert t1[u].neighbours[e] == TileAt(b, EdgePos(pos, d)) || t1[u].neighbours[e] == Some(t);
        }
      }
      LinkNeighboursResolve(t1, b, t, pos, d + 1);
    }
  }

  lemma LinkSideEffect(tiles: map<TileId, Tile>, b: Board, t: TileId, pos: Point, d: Direction)
    requires Shaped(tiles) && t in tiles && Alone(b, t, pos)
    ensures forall e: Direction ::
              LinkSide(tiles, b, t, pos, d)[t].neighbours[e]
                == if e == d && InBounds(b, EdgePos(pos, e)) then TileAt(b, EdgePos(pos, e)) else tiles[t].neighbours[e]
    ensures forall u, e: Direction :: u in tiles && u != t ==>
              LinkSide(tiles, b, t, pos, d)[u].neighbours[e]
                == if Compliment(e) == d && InBounds(b, EdgePos(pos, d)) && TileAt(b, EdgePos(pos, d)) == Some(u)
                   then Some(t) else tiles[u].neighbours[e]
  {
    var q := EdgePos(pos, d);
    EdgePosDistinct(pos, d, d);
    if InBounds(b, q) && q in b.grid {
      assert b.grid[q] != t;
    }
    forall u, e: Direction | u in tiles && u != t && Compliment(e) == d
      ensures e == Compliment(d)
    {
      ComplimentIsHalfTurn(e);
    }
  }

  /** What linkNeighbours does when `t` sits alone on `pos`: each on-board
      side of `t` from `d` on names the tile across it (nil when vacant), a
      tile across such a side names `t` on its opposite side, and every other
      reference stays. */
  lemma {:induction false} LinkNeighboursEffect(tiles: map<TileId, Tile>, b: Board, t: TileId, pos: Point, d: nat)
    requires Shaped(tiles) && t in tiles && d <= 4 && Alone(b, t, pos)
    ensures forall e: Direction ::
              LinkNeighboursFrom(tiles, b, t, pos, d)[t].neighbours[e]
                == if d <= e && InBounds(b, EdgePos(pos, e)) then TileAt(b, EdgePos(pos, e)) else tiles[t].neighbours[e]
    ensures forall u, e: Direction :: u in tiles && u != t ==>
              LinkNeighboursFrom(tiles, b, t, pos, d)[u].neighbours[e]
                == if d <= Compliment(e) && InBounds(b, EdgePos(pos, Compliment(e)))
                      && TileAt(b, EdgePos(pos, Compliment(e))) == Some(u)
                   then Some(t) else tiles[u].neighbours[e]
    decreases 4 - d
  {
    if d < 4 {
      LinkSideEffect(tiles, b, t, pos, d);
      LinkNeighboursEffect(LinkSide(tiles, b, t, pos, d), b, t, pos, d + 1);
    }
  }

  // ---------------------------------------------------------------------
  // The open-position list and map
  // ---------------------------------------------------------------------

  /** No point occurs twice in the list. */
  ghost predicate NoDupList(l: seq<Point>)
  {
    forall q :: multiset(l)[q] <= 1
  }

  /** The list and the map hold the same positions, each once. */
  ghost predicate ListMatches(b: Board)
  {
    (forall q :: q in b.openList <==> q in b.openPositions) && NoDupList(b.openList)
  }

  /** Open `q` with signature `s`, appending it to the list only when the
      map did not hold it yet. */
  function AddOpen(b: Board, q: Point, s: Signature): (r: Board)
    ensures r == b.(openList := r.openList, openPositions := b.openPositions[q := s])
    ensures q in b.openPositions ==> r.openList == b.openList
    ensures q !in b.openPositions ==> multiset(r.openList) == multiset(b.openList) + multiset{q}
    ensures ListMatches(b) ==> ListMatches(r)
  {
    if q in b.openPositions then b.(openPositions := b.openPositions[q := s])
    else b.(openList := b.openList + [q], openPositions := b.openPositions[q := s])
  }

  /** The first index at or after `i` holding `p`, or |l| when none does. */
  function IndexOf(l: seq<Point>, p: Point, i: nat): (k: nat)
    requires i <= |l|
    ensures i <= k <= |l|
    ensures k < |l| ==> l[k] == p
    ensures forall j :: i <= j < k ==> l[j] != p
    decreases |l| - i
  {
    if i == |l| || l[i] == p then i else IndexOf(l, p, i + 1)
  }

  /** The source's removal from the list: the first occurrence of `p` is
      overwritten by the last element and the list shrinks by one. */
  function SwapRemove(l: seq<Point>, p: Point): (r: seq<Point>)
    ensures multiset(r) == multiset(l) - multiset{p}
  {
    var k := IndexOf(l, p, 0);
    if k == |l| then
      assert p !in multiset(l);
      l
    else
      SwapRemoveCount(l, k);
      l[k := l[|l| - 1]][..|l| - 1]
  }

  lemma SwapRemoveCount(l: seq<Point>, k: nat)
    requires k < |l|
    ensures multiset(l[k := l[|l| - 1]][..|l| - 1]) == multiset(l) - multiset{l[k]}
  {
    var n := |l| - 1;
    if k == n {
      assert l[k := l[n]][..n] == l[..n];
      assert l == l[..n] + [l[n]];
    } else {
      assert l[k := l[n]][..n] == l[..k] + [l[n]] + l[k + 1..n];
      assert l == l[..k] + [l[k]] + l[k + 1..n] + [l[n]];
    }
  }

  /** Removing a position from both list and map keeps them matched. */
  lemma RemoveOpenKeepsMatch(b: Board, p: Point)
    ensures ListMatches(b) ==>
              ListMatches(b.(openList := SwapRemove(b.openList, p), openPositions := b.openPositions - {p}))
              && p !in SwapRemove(b.openList, p)
  {
    if ListMatches(b) {
      var r := SwapRemove(b.openList, p);
      forall q ensures q in r <==> q in b.openPositions - {p} {
        assert q in r <==> q in multiset(r);
        assert q in b.openList <==> q in multiset(b.openList);
      }
    }
  }

  /** A direction from `d` on whose side of `pos` has no neighbour and lies
      on the board, and whose cell is `q`. */
  predicate AddedSide(b: Board, pos: Point, nbrs: seq<Option<TileId>>, d: nat, q: Point)
    requires |nbrs| == 4
  {
    exists e: Direction :: d <= e && nbrs[e].None? && InBounds(b, EdgePos(pos, e)) && q == EdgePos(pos, e)
  }

  /** The open-position half of PlaceTile's loop over the sides, from side
      `d` on: each on-board side with no neighbour opens, with the signature
      the world `w` gives it. */
  function OpenSidesFrom(w: World, b: Board, pos: Point, nbrs: seq<Option<TileId>>, d: nat): (r: Board)
    requires |nbrs| == 4 && d <= 4
    ensures r == b.(openList := r.openList, openPositions := r.openPositions)
    decreases 4 - d
  {
    if d == 4 then b
    else
      var q := EdgePos(pos, d);
      var b1 := if nbrs[d].None? && InBounds(b, q) then AddOpen(b, q, OpenSig(w, q)) else b;
      OpenSidesFrom(w, b1, pos, nbrs, d + 1)
  }

  /** The open positions after the loop are the old ones and the sides it
      opened. */
  lemma OpenSidesKeys(w: World, b: Board, pos: Point, nbrs: seq<Option<TileId>>, d: nat)
    requires |nbrs| == 4 && d <= 4
    ensures forall q :: q in OpenSidesFrom(w, b, pos, nbrs, d).openPositions <==> q in b.openPositions || AddedSide(b, pos, nbrs, d, q)
  {
    forall q {
      OpenSidesAt(w, b, pos, nbrs, d, q);
    }
  }

  /** An opened side carries the signature `w` gives it, and every other
      open position keeps its own. */
  lemma OpenSidesValues(w: World, b: Board, pos: Point, nbrs: seq<Option<TileId>>, d: nat)
    requires |nbrs| == 4 && d <= 4
    ensures forall q :: AddedSide(b, pos, nbrs, d, q) ==>
              q in OpenSidesFrom(w, b, pos, nbrs, d).openPositions
              && OpenSidesFrom(w, b, pos, nbrs, d).openPositions[q] == OpenSig(w, q)
    ensures forall q :: q in b.openPositions && !AddedSide(b, pos, nbrs, d, q) ==>
              q in OpenSidesFrom(w, b, pos, nbrs, d).openPositions
              && OpenSidesFrom(w, b, pos, nbrs, d).openPositions[q] == b.openPositions[q]
  {
    forall q {
      OpenSidesAt(w, b, pos, nbrs, d, q);
    }
  }

  /** The loop's effect on the open status and signature of one cell. */
  lemma {:induction false} OpenSidesAt(w: World, b: Board, pos: Point, nbrs: seq<Option<TileId>>, d: nat, q: Point)
    requires |nbrs| == 4 && d <= 4
    ensures var r := OpenSidesFrom(w, b, pos, nbrs, d);
      && (q in r.openPositions <==> q in b.openPositions || AddedSide(b, pos, nbrs, d, q))
      && (AddedSide(b, pos, nbrs, d, q) ==> q in r.openPositions && r.openPositions[q] == OpenSig(w, q))
      && (q in b.openPositions && !AddedSide(b, pos, nbrs, d, q) ==> q in r.openPositions && r.openPositions[q] == b.openPositions[q])
    decreases 4 - d
  {
    if d < 4 {
      var e := EdgePos(pos, d);
      var b1 := if nbrs[d].None? && InBounds(b, e) then AddOpen(b, e, OpenSig(w, e)) else b;
      assert OpenSidesFrom(w, b, pos, nbrs, d) == OpenSidesFrom(w, b1, pos, nbrs, d + 1);
      OpenSidesAt(w, b1, pos, nbrs, d + 1, q);
      AddedSideStep(b, b1, pos, nbrs, d);
    }
  }

  /** The list gains only the sides the loop opened, and stays matched
      with the map. */
  lemma OpenSidesList(w: World, b: Board, pos: Point, nbrs: seq<Option<TileId>>, d: nat)
    requires |nbrs| == 4 && d <= 4
    ensures forall q :: !AddedSide(b, pos, nbrs, d, q) ==>
              multiset(OpenSidesFrom(w, b, pos, nbrs, d).openList)[q] == multiset(b.openList)[q]
    ensures ListMatches(b) ==> ListMatches(OpenSidesFrom(w, b, pos, nbrs, d))
  {
    forall q | !AddedSide(b, pos, nbrs, d, q) {
      OpenSidesListAt(w, b, pos, nbrs, d, q);
    }
    OpenSidesMatched(w, b, pos, nbrs, d);
  }

  /** A cell the loop does not open keeps its count in the list. */
  lemma {:induction false} OpenSidesListAt(w: World, b: Board, pos: Point, nbrs: seq<Option<TileId>>, d: nat, q: Point)
    requires |nbrs| == 4 && d <= 4 && !AddedSide(b, pos, nbrs, d, q)
    ensures multiset(OpenSidesFrom(w, b, pos, nbrs, d).openList)[q] == multiset(b.openList)[q]
    decreases 4 - d
  {
    if d < 4 {
      var e := EdgePos(pos, d);
      var b1 := if nbrs[d].None? && InBounds(b, e) then AddOpen(b, e, OpenSig(w, e)) else b;
      assert OpenSidesFrom(w, b, pos, nbrs, d) == OpenSidesFrom(w, b1, pos, nbrs, d + 1);
      AddedSideStep(b, b1, pos, nbrs, d);
      OpenSidesListAt(w, b1, pos, nbrs, d + 1, q);
    }
  }

  /** The loop keeps the list matched with the map. */
  lemma {:induction false} OpenSidesMatched(w: World, b: Board, pos: Point, nbrs: seq<Option<TileId>>, d: nat)
    requires |nbrs| == 4 && d <= 4
    ensures ListMatches(b) ==> ListMatches(OpenSidesFrom(w, b, pos, nbrs, d))
    decreases 4 - d
  {
    if d < 4 {
      var e := EdgePos(pos, d);
      var b1 := if nbrs[d].None? && InBounds(b, e) then AddOpen(b, e, OpenSig(w, e)) else b;
      assert OpenSidesFrom(w, b, pos, nbrs, d) == OpenSidesFrom(w, b1, pos, nbrs, d + 1);
      OpenSidesMatched(w, b1, pos, nbrs, d + 1);
    }
  }

  lemma AddedSideStep(b: Board, b1: Board, pos: Point, nbrs: seq<Option<TileId>>, d: nat)
    requires |nbrs| == 4 && d < 4 && b1.size == b.size
    ensures forall q :: AddedSide(b, pos, nbrs, d, q) <==>
              (AddedSide(b1, pos, nbrs, d + 1, q) || (nbrs[d].None? && InBounds(b, EdgePos(pos, d)) && q == EdgePos(pos, d)))
  {
  }

  // ---------------------------------------------------------------------
  // Feature links across an edge
  // ---------------------------------------------------------------------

  /** A raster cell of a reference tile. Reading outside a well-formed 7x7
      raster cannot happen; it reads as an empty cell here. */
  function RasterCell(m: Matrices.Matrix<Option<RefFeatureId>>, p: Point): Option<RefFeatureId>
  {
    if Matrices.Valid(m) && Matrices.InRange(m, p.x, p.y) then Matrices.Get(m, p.x, p.y) else None
  }

  /** The pair of live features PlaceTile links at pixel `i` of side `d` of
      tile `t`: the side must have a neighbour, both facing cells must hold
      a reference feature, the two must be of one kind, and each tile maps
      its reference feature to a live one. */
  function CellPair(w: World, t: TileId, d: Direction, i: nat): Option<(FeatureId, FeatureId)>
    requires i < RasterSize
  {
    if t !in w.tiles || |w.tiles[t].neighbours| != 4 || w.tiles[t].neighbours[d].None? then None
    else
      var tt := w.tiles[t];
      var n := tt.neighbours[d].value;
      if n !in w.tiles then None
      else
        var nt := w.tiles[n];
        if tt.reference !in w.catalog.tiles || nt.reference !in w.catalog.tiles then None
        else
          var rf := RasterCell(w.catalog.tiles[tt.reference].featureMatrix, EdgePix(d)[i]);
          var nrf := RasterCell(w.catalog.tiles[nt.reference].featureMatrix, EdgePix(Compliment(d))[i]);
          if rf.None? || nrf.None? || rf.value !in w.catalog.features || nrf.value !in w.catalog.features then None
          else if w.catalog.features[rf.value].ftype != w.catalog.features[nrf.value].ftype then None
          else
            var a := Lookup(tt.referenceFeatureMap, rf.value);
            var c := Lookup(nt.referenceFeatureMap, nrf.value);
            if a.None? || c.None? then None else Some((a.value, c.value))
  }

  /** The pairs of side `d`, pixel `i` on. */
  function SidePairs(w: World, t: TileId, d: Direction, i: nat): (ps: seq<(FeatureId, FeatureId)>)
    requires i <= RasterSize
    decreases RasterSize - i
  {
    if i == RasterSize then []
    else (if CellPair(w, t, d, i).Some? then [CellPair(w, t, d, i).value] else []) + SidePairs(w, t, d, i + 1)
  }

  /** The pairs PlaceTile links, side by side from `d` on, in the source's
      order. */
  function CrossPairsFrom(w: World, t: TileId, d: nat): (ps: seq<(FeatureId, FeatureId)>)
    requires d <= 4
    decreases 4 - d
  {
    if d == 4 then [] else SidePairs(w, t, d, 0) + CrossPairsFrom(w, t, d + 1)
  }

  /** Some pixel of side `d` from `i` on yields the pair. */
  predicate SideYields(w: World, t: TileId, d: Direction, i: nat, pr: (FeatureId, FeatureId))
  {
    exists k :: i <= k < RasterSize && CellPair(w, t, d, k) == Some(pr)
  }

  /** Some side from `d` on yields the pair at one of its pixels. */
  predicate CrossYields(w: World, t: TileId, d: nat, pr: (FeatureId, FeatureId))
  {
    exists e: Direction :: d <= e && SideYields(w, t, e, 0, pr)
  }

  /** A pair is listed for side `d` exactly when some pixel from `i` on
      yields it. */
  lemma {:induction false} SidePairsMember(w: World, t: TileId, d: Direction, i: nat, pr: (FeatureId, FeatureId))
    requires i <= RasterSize
    ensures pr in SidePairs(w, t, d, i) <==> SideYields(w, t, d, i, pr)
    decreases RasterSize - i
  {
    if i < RasterSize {
      SidePairsMember(w, t, d, i + 1, pr);
      var c := CellPair(w, t, d, i);
      var here := if c.Some? then [c.value] else [];
      assert SidePairs(w, t, d, i) == here + SidePairs(w, t, d, i + 1);
      SideYieldsStep(w, t, d, i, pr);
    }
  }

  /** Pixel `i` or a later one yields the pair. */
  lemma SideYieldsStep(w: World, t: TileId, d: Direction, i: nat, pr: (FeatureId, FeatureId))
    requires i < RasterSize
    ensures SideYields(w, t, d, i, pr) <==> CellPair(w, t, d, i) == Some(pr) || SideYields(w, t, d, i + 1, pr)
  {
    if SideYields(w, t, d, i, pr) && CellPair(w, t, d, i) != Some(pr) {
      var k :| i <= k < RasterSize && CellPair(w, t, d, k) == Some(pr);
      assert i + 1 <= k;
    }
  }

  /** A pair is linked exactly when some side from `d` on and some pixel of
      it yield the pair. */
  lemma CrossPairsMembers(w: World, t: TileId, d: nat)
    requires d <= 4
    ensures forall pr :: pr in CrossPairsFrom(w, t, d) <==> CrossYields(w, t, d, pr)
  {
    forall pr
      ensures pr in CrossPairsFrom(w, t, d) <==> CrossYields(w, t, d, pr)
    {
      CrossPairsMember(w, t, d, pr);
    }
  }

  /** The same for one pair. */
  lemma {:induction false} CrossPairsMember(w: World, t: TileId, d: nat, pr: (FeatureId, FeatureId))
    requires d <= 4
    ensures pr in CrossPairsFrom(w, t, d) <==> CrossYields(w, t, d, pr)
    decreases 4 - d
  {
    if d < 4 {
      SidePairsMember(w, t, d, 0, pr);
      CrossPairsMember(w, t, d + 1, pr);
      assert CrossPairsFrom(w, t, d) == SidePairs(w, t, d, 0) + CrossPairsFrom(w, t, d + 1);
      CrossYieldsStep(w, t, d, pr);
    } else {
      assert !CrossYields(w, t, d, pr);
    }
  }

  /** Side `d` or a later one yields the pair. */
  lemma CrossYieldsStep(w: World, t: TileId, d: Direction, pr: (FeatureId, FeatureId))
    ensures CrossYields(w, t, d, pr) <==> SideYields(w, t, d, 0, pr) || CrossYields(w, t, d + 1, pr)
  {
    if CrossYields(w, t, d, pr) && !SideYields(w, t, d, 0, pr) {
      var e: Direction :| d <= e && SideYields(w, t, e, 0, pr);
      assert d + 1 <= e;
    }
    if SideYields(w, t, d, 0, pr) {
      assert d <= d;
    }
  }

  /** Link two live features both ways. */
  function AddLink(fs: map<FeatureId, Feature>, pr: (FeatureId, FeatureId)): (r: map<FeatureId, Feature>)
    ensures r.Keys == fs.Keys
    ensures forall f :: f in fs ==> r[f] == fs[f].(links := r[f].links)
  {
    if pr.0 in fs && pr.1 in fs then
      var f1 := fs[pr.0 := fs[pr.0].(links := fs[pr.0].links + {pr.1})];
      f1[pr.1 := f1[pr.1].(links := f1[pr.1].links + {pr.0})]
    else fs
  }

  /** Link every pair, in order. */
  function AddLinks(fs: map<FeatureId, Feature>, ps: seq<(FeatureId, FeatureId)>): (r: map<FeatureId, Feature>)
    ensures r.Keys == fs.Keys
    ensures forall f :: f in fs ==> r[f] == fs[f].(links := r[f].links)
    decreases |ps|
  {
    if ps == [] then fs else AddLinks(AddLink(fs, ps[0]), ps[1..])
  }

  /** A feature gains exactly the partners the pairs give it, in either
      position, provided both ends are features of the arena. */
  lemma {:induction false} AddLinksMembers(fs: map<FeatureId, Feature>, ps: seq<(FeatureId, FeatureId)>)
    ensures forall f, g :: f in fs ==>
              (g in AddLinks(fs, ps)[f].links <==> g in fs[f].links || (g in fs && ((f, g) in ps || (g, f) in ps)))
    decreases |ps|
  {
    if ps != [] {
      AddLinksMembers(AddLink(fs, ps[0]), ps[1..]);
      assert forall pr :: pr in ps <==> pr == ps[0] || pr in ps[1..];
    }
  }

  // ---------------------------------------------------------------------
  // PlaceTile
  // ---------------------------------------------------------------------

  /** The part of the board linkNeighbours reads: the grid and its size. */
  function GridOnly(b: Board): (g: Board)
    ensures g.size == b.size && g.grid == b.grid
  {
    Board(b.size, b.grid, 0, map[], [])
  }

  /** The first steps of PlaceTile: the cell takes the tile, the count goes
      up, the tile records its position, and neighbours are linked. */
  function Linked(w: World, pos: Point, t: TileId): (r: World)
    requires Shaped(w.tiles) && t in w.tiles
    ensures r.board == w.board.(grid := w.board.grid[pos := t], placedTileCount := w.board.placedTileCount + 1)
    ensures r.catalog == w.catalog && r.features == w.features
    ensures r.nextTile == w.nextTile && r.nextFeature == w.nextFeature
    ensures Shaped(r.tiles) && r.tiles.Keys == w.tiles.Keys
  {
    var b1 := w.board.(grid := w.board.grid[pos := t], placedTileCount := w.board.placedTileCount + 1);
    var tiles1 := w.tiles[t := w.tiles[t].(position := pos)];
    w.(board := b1, tiles := LinkNeighbours(tiles1, GridOnly(b1), t, pos))
  }

  /** PlaceTile: put tile `t` on `pos`, link it with its neighbours, open
      the vacant cells around it, link the features that meet across each
      shared edge, and take `pos` off the open positions. */
  function PlaceTile(w: World, pos: Point, t: TileId): (r: World)
    requires Shaped(w.tiles) && t in w.tiles
    ensures r.board.grid == w.board.grid[pos := t]
    ensures r.board.placedTileCount == w.board.placedTileCount + 1
    ensures r.board.size == w.board.size && r.catalog == w.catalog
    ensures r.nextTile == w.nextTile && r.nextFeature == w.nextFeature
    ensures r.tiles.Keys == w.tiles.Keys && r.tiles[t].position == pos
    ensures pos !in r.board.openPositions
    ensures NoDupList(w.board.openList) ==> pos !in r.board.openList
  {
    var w2 := Linked(w, pos, t);
    w2.(features := AddLinks(w2.features, CrossPairsFrom(w2, t, 0)), board := Reopened(w2, pos, t))
  }

  /** The board half of PlaceTile after linking: open the vacant sides, then
      take `pos` off the list and the map. */
  function Reopened(w2: World, pos: Point, t: TileId): (b: Board)
    requires t in w2.tiles && |w2.tiles[t].neighbours| == 4
    ensures b.grid == w2.board.grid && b.size == w2.board.size && b.placedTileCount == w2.board.placedTileCount
    ensures pos !in b.openPositions
    ensures NoDupList(w2.board.openList) ==> pos !in b.openList
  {
    var b3 := OpenSidesFrom(w2, w2.board, pos, w2.tiles[t].neighbours, 0);
    PlaceTileRemovesPos(w2.board, w2, b3, pos, t);
    b3.(openList := SwapRemove(b3.openList, pos), openPositions := b3.openPositions - {pos})
  }

  lemma PlaceTileRemovesPos(b: Board, w2: World, b3: Board, pos: Point, t: TileId)
    requires t in w2.tiles && |w2.tiles[t].neighbours| == 4
    requires w2.board.openList == b.openList && w2.board.size == b.size
    requires b3 == OpenSidesFrom(w2, w2.board, pos, w2.tiles[t].neighbours, 0)
    ensures NoDupList(b.openList) ==> pos !in SwapRemove(b3.openList, pos)
  {
    forall e: Direction ensures EdgePos(pos, e) != pos {
      EdgePosDistinct(pos, e, e);
    }
    OpenSidesList(w2, w2.board, pos, w2.tiles[t].neighbours, 0);
    assert !AddedSide(w2.board, pos, w2.tiles[t].neighbours, 0, pos);
    assert multiset(b3.openList)[pos] == multiset(b.openList)[pos];
    var r := SwapRemove(b3.openList, pos);
    assert multiset(r) == multiset(b3.openList) - multiset{pos};
    if NoDupList(b.openList) {
      assert multiset(r)[pos] == 0;
    }
  }

  // ---------------------------------------------------------------------
  // PlaceTile keeps the world valid
  // ---------------------------------------------------------------------

  lemma ValidShaped(w: World)
    requires Valid(w)
    ensures Shaped(w.tiles) && GridIn(w.board, w.tiles) && NeighboursResolve(w.tiles)
  {
    forall u | u in w.tiles ensures |w.tiles[u].neighbours| == 4 {
      assert TileValid(w, w.tiles[u]);
    }
    forall u, d | u in w.tiles && 0 <= d < |w.tiles[u].neighbours| && w.tiles[u].neighbours[d].Some?
      ensures w.tiles[u].neighbours[d].value in w.tiles
    {
      assert TileValid(w, w.tiles[u]);
    }
  }

  /** The parts of a tile that the board never changes. */
  predicate SameContent(x: Tile, y: Tile)
  {
    x.reference == y.reference && x.features == y.features && x.edgeFeatures == y.edgeFeatures
    && x.referenceFeatureMap == y.referenceFeatureMap
  }

  /** Changing only positions and neighbour references, with every
      neighbour reference resolving, keeps the tiles valid. */
  lemma TilesStayValid(w: World, r: World)
    requires TilesValid(w) && r.catalog == w.catalog && r.nextTile == w.nextTile
    requires r.tiles.Keys == w.tiles.Keys && r.features.Keys == w.features.Keys
    requires forall u :: u in w.tiles ==> SameContent(r.tiles[u], w.tiles[u])
    requires Shaped(r.tiles) && NeighboursResolve(r.tiles)
    ensures TilesValid(r)
  {
    forall u | u in r.tiles ensures TileValid(r, r.tiles[u]) {
      assert TileValid(w, w.tiles[u]);
      assert SameContent(r.tiles[u], w.tiles[u]);
    }
  }

  /** Adding links between existing features keeps the features valid. */
  lemma FeaturesStayValid(w: World, r: World)
    requires FeaturesValid(w) && r.nextFeature == w.nextFeature
    requires r.tiles.Keys == w.tiles.Keys && r.features.Keys == w.features.Keys
    requires forall f :: f in w.features ==> r.features[f].parentTile == w.features[f].parentTile
    requires forall f, g :: f in w.features && g in r.features[f].links ==> g in w.features[f].links || g in w.features
    ensures FeaturesValid(r)
  {
    forall f | f in r.features
      ensures r.features[f].parentTile in r.tiles && r.features[f].links <= r.features.Keys
    {
      assert w.features[f].parentTile in w.tiles && w.features[f].links <= w.features.Keys;
    }
  }

  /** Placing a tile on the board keeps every id resolving. */
  lemma PlaceTileValid(w: World, pos: Point, t: TileId)
    requires Valid(w) && t in w.tiles && InBounds(w.board, pos)
    ensures Shaped(w.tiles) && Valid(PlaceTile(w, pos, t))
  {
    ValidShaped(w);
    var r := PlaceTile(w, pos, t);
    PlaceTileParts(w, pos, t);
    LinkedResolve(w, pos, t);
    LinkedSameContent(w, pos, t);
    TilesStayValid(w, r);
    AddLinksOnlyExisting(w.features, CrossPairsFrom(Linked(w, pos, t), t, 0));
    FeaturesStayValid(w, r);
    GridStaysValid(w, r, pos, t);
  }

  /** The tiles and features PlaceTile produces. */
  lemma PlaceTileParts(w: World, pos: Point, t: TileId)
    requires Shaped(w.tiles) && t in w.tiles
    ensures PlaceTile(w, pos, t).tiles == Linked(w, pos, t).tiles
    ensures PlaceTile(w, pos, t).features == AddLinks(w.features, CrossPairsFrom(Linked(w, pos, t), t, 0))
  {
  }

  /** Linking neighbours keeps every reference resolving. */
  lemma LinkedResolve(w: World, pos: Point, t: TileId)
    requires t in w.tiles
    requires Shaped(w.tiles) && GridIn(w.board, w.tiles) && NeighboursResolve(w.tiles)
    ensures NeighboursResolve(Linked(w, pos, t).tiles)
  {
    var b1 := w.board.(grid := w.board.grid[pos := t], placedTileCount := w.board.placedTileCount + 1);
    var tiles1 := w.tiles[t := w.tiles[t].(position := pos)];
    assert NeighboursResolve(tiles1);
    assert GridIn(GridOnly(b1), tiles1);
    LinkNeighboursResolve(tiles1, GridOnly(b1), t, pos, 0);
    LinkedTiles(w, pos, t);
  }

  lemma LinkedTiles(w: World, pos: Point, t: TileId)
    requires t in w.tiles && Shaped(w.tiles)
    ensures Shaped(w.tiles[t := w.tiles[t].(position := pos)])
    ensures Linked(w, pos, t).tiles
            == LinkNeighboursFrom(w.tiles[t := w.tiles[t].(position := pos)],
                 Board(w.board.size, w.board.grid[pos := t], 0, map[], []), t, pos, 0)
  {
    ShapedMove(w.tiles, t, pos);
  }

  lemma ShapedMove(tiles: map<TileId, Tile>, t: TileId, pos: Point)
    requires Shaped(tiles) && t in tiles
    ensures Shaped(tiles[t := tiles[t].(position := pos)])
  {
  }


  /** Linking neighbours changes no tile's content. */
  lemma LinkedSameContent(w: World, pos: Point, t: TileId)
    requires t in w.tiles && Shaped(w.tiles)
    ensures forall u :: u in w.tiles ==> SameContent(Linked(w, pos, t).tiles[u], w.tiles[u])
  {
    var w2 := Linked(w, pos, t);
    var tiles1 := w.tiles[t := w.tiles[t].(position := pos)];
    assert SameButNeighbours(tiles1, w2.tiles);
    forall u | u in w.tiles ensures SameContent(w2.tiles[u], w.tiles[u]) {
      assert w2.tiles[u] == tiles1[u].(neighbours := w2.tiles[u].neighbours);
    }
  }

  lemma GridStaysValid(w: World, r: World, pos: Point, t: TileId)
    requires GridValid(w) && InBounds(w.board, pos) && t in r.tiles && w.tiles.Keys <= r.tiles.Keys
    requires r.board.grid == w.board.grid[pos := t] && r.board.size == w.board.size
    ensures GridValid(r)
  {
  }

  lemma AddLinksOnlyExisting(fs: map<FeatureId, Feature>, ps: seq<(FeatureId, FeatureId)>)
    ensures forall f :: f in fs ==> AddLinks(fs, ps)[f].parentTile == fs[f].parentTile
    ensures forall f, g :: f in fs && g in AddLinks(fs, ps)[f].links ==> g in fs[f].links || g in fs
  {
    AddLinksMembers(fs, ps);
  }
}
