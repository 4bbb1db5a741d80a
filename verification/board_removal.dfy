/** RemoveTileAt of engine/board/board.go, as the code does it and as it
    is evidently meant to work, with the facts that tell the two apart. */
module BoardRemoval {
  import opened Wrappers
  import opened Directions
  import opened Points
  import opened EdgeSignatures
  import opened Arena
  import opened Boards
  import opened BoardFacts

  // ---------------------------------------------------------------------
  // Steps shared by both versions
  // ---------------------------------------------------------------------

  /** One round of the neighbour clearing: the tile across side `d` forgets
      `t` on its opposite side, and `t` forgets side `d`. */
  function ClearSide(tiles: map<TileId, Tile>, t: TileId, d: Direction): (r: map<TileId, Tile>)
    requires Shaped(tiles) && t in tiles
    ensures Shaped(r) && SameButNeighbours(tiles, r)
  {
    var n := tiles[t].neighbours[d];
    var r1 := if n.Some? && n.value in tiles
              then tiles[n.value := tiles[n.value].(neighbours := tiles[n.value].neighbours[Compliment(d) := None])]
              else tiles;
    r1[t := r1[t].(neighbours := r1[t].neighbours[d := None])]
  }

  /** The neighbour clearing of RemoveTileAt, from side `d` on. */
  function ClearNeighboursFrom(tiles: map<TileId, Tile>, t: TileId, d: nat): (r: map<TileId, Tile>)
    requires Shaped(tiles) && t in tiles && d <= 4
    ensures Shaped(r) && SameButNeighbours(tiles, r)
    decreases 4 - d
  {
    if d == 4 then tiles else ClearNeighboursFrom(ClearSide(tiles, t, d), t, d + 1)
  }

  /** Take `q` off the open list and the open map (a no-op when absent). */
  function DropOpen(b: Board, q: Point): (r: Board)
    ensures r.grid == b.grid && r.size == b.size && r.placedTileCount == b.placedTileCount
    ensures r.openPositions == b.openPositions - {q}
    ensures ListMatches(b) ==> ListMatches(r)
  {
    RemoveOpenKeepsMatch(b, q);
    b.(openList := SwapRemove(b.openList, q), openPositions := b.openPositions - {q})
  }

  /** The link clearing for one feature `f`: every feature `f` links to
      drops `f`, and `f` drops all its links. */
  function ClearFeatureLinks(fs: map<FeatureId, Feature>, f: FeatureId): (r: map<FeatureId, Feature>)
    ensures r.Keys == fs.Keys
  {
    if f !in fs then fs
    else
      var fs1 := map g | g in fs :: if g in fs[f].links then fs[g].(links := fs[g].links - {f}) else fs[g];
      fs1[f := fs1[f].(links := {})]
  }

  /** The link clearing over the tile's features, in order. */
  function ClearLinks(fs: map<FeatureId, Feature>, feats: seq<FeatureId>): (r: map<FeatureId, Feature>)
    ensures r.Keys == fs.Keys
  {
    if feats == [] then fs else ClearLinks(ClearFeatureLinks(fs, feats[0]), feats[1..])
  }

  /** The steps both versions take before the open positions are touched:
      clear the neighbour references, vacate the cell, count down, reset
      the tile's position, and clear the tile's feature links. */
  function Detached(w: World, pos: Point, t: TileId): (r: World)
    requires Shaped(w.tiles) && t in w.tiles
    ensures r.board == w.board.(grid := w.board.grid - {pos}, placedTileCount := w.board.placedTileCount - 1)
    ensures r.catalog == w.catalog && r.nextTile == w.nextTile && r.nextFeature == w.nextFeature
    ensures r.tiles.Keys == w.tiles.Keys && r.features.Keys == w.features.Keys && Shaped(r.tiles)
    ensures forall u :: u in w.tiles ==> r.tiles[u].reference == w.tiles[u].reference
  {
    var tiles1 := ClearNeighboursFrom(w.tiles, t, 0);
    w.(tiles := tiles1[t := tiles1[t].(position := Point(0, 0))],
       features := ClearLinks(w.features, w.tiles[t].features),
       board := w.board.(grid := w.board.grid - {pos}, placedTileCount := w.board.placedTileCount - 1))
  }

  // ---------------------------------------------------------------------
  // RemoveTileAt as written
  // ---------------------------------------------------------------------

  /** The orphan check of RemoveTileAt over the cells `ns` next to the
      removed tile, from index `i` on. The flag `has` says whether some cell
      checked so far had a placed neighbour; it is set and never reset, so
      once one cell has a neighbour no later cell is dropped. */
  function OrphanLoop(b: Board, ns: seq<Point>, i: nat, has: bool): (r: Board)
    requires i <= |ns|
    ensures r.grid == b.grid && r.size == b.size && r.placedTileCount == b.placedTileCount
    ensures r.openPositions.Keys <= b.openPositions.Keys
    ensures forall q :: q in r.openPositions ==> r.openPositions[q] == b.openPositions[q]
    decreases |ns| - i
  {
    if i == |ns| then b
    else
      var has' := has || HasPlacedNeighbour(b, ns[i]);
      var b' := if has' then b else DropOpen(b, ns[i]);
      OrphanLoop(b', ns, i + 1, has')
  }

  /** RemoveTileAt as written. The cell must be on the board (the matrix
      read panics or reads another cell otherwise). A vacant cell is left
      alone. Otherwise the tile is detached, `pos` is appended to the open
      list and opened with the signature of the emptied board, and the
      orphan check runs over North, South, East and West of `pos`. */
  function RemoveTileAt(w: World, pos: Point): (r: World)
    requires Shaped(w.tiles) && GridIn(w.board, w.tiles) && InBounds(w.board, pos)
    ensures pos !in w.board.grid ==> r == w
    ensures pos in w.board.grid ==> r.board.grid == w.board.grid - {pos}
    ensures pos in w.board.grid ==> r.board.placedTileCount == w.board.placedTileCount - 1
    ensures r.board.size == w.board.size && r.catalog == w.catalog && r.tiles.Keys == w.tiles.Keys
  {
    if pos !in w.board.grid then w
    else
      var t := w.board.grid[pos];
      var w1 := Detached(w, pos, t);
      var b2 := w1.board.(openList := w1.board.openList + [pos],
                          openPositions := w1.board.openPositions[pos := OpenSig(w1, pos)]);
      w1.(board := OrphanLoop(b2, OrthogonalNeighbours(pos), 0, false))
  }

  // ---------------------------------------------------------------------
  // RemoveTileAt as intended
  // ---------------------------------------------------------------------

  /** Bring one cell's open status up to date: open it with a fresh
      signature when it is on the frontier, drop it otherwise. */
  function Refresh(w: World, b: Board, q: Point): (r: Board)
    ensures r.grid == b.grid && r.size == b.size && r.placedTileCount == b.placedTileCount
    ensures q in r.openPositions <==> Frontier(b, q)
    ensures q in r.openPositions ==> r.openPositions[q] == OpenSig(w, q)
    ensures forall p :: p != q ==> (p in r.openPositions <==> p in b.openPositions)
    ensures forall p :: p != q && p in r.openPositions ==> r.openPositions[p] == b.openPositions[p]
    ensures ListMatches(b) ==> ListMatches(r)
  {
    if Frontier(b, q) then AddOpen(b, q, OpenSig(w, q)) else DropOpen(b, q)
  }

  /** Refresh every cell of `qs` from index `i` on. */
  function RefreshAll(w: World, b: Board, qs: seq<Point>, i: nat): (r: Board)
    requires i <= |qs|
    ensures r.grid == b.grid && r.size == b.size && r.placedTileCount == b.placedTileCount
    ensures ListMatches(b) ==> ListMatches(r)
    decreases |qs| - i
  {
    if i == |qs| then b else RefreshAll(w, Refresh(w, b, qs[i]), qs, i + 1)
  }

  /** RemoveTileAt as intended: the tile is detached as in the source, then
      the emptied cell and the four cells next to it are refreshed, each
      opened with the signature of the emptied board exactly when it is on
      the new frontier. */
  function CorrectedRemoveTileAt(w: World, pos: Point): (r: World)
    requires Shaped(w.tiles) && GridIn(w.board, w.tiles) && InBounds(w.board, pos)
    ensures pos !in w.board.grid ==> r == w
    ensures pos in w.board.grid ==> r.board.grid == w.board.grid - {pos}
    ensures pos in w.board.grid ==> r.board.placedTileCount == w.board.placedTileCount - 1
    ensures r.board.size == w.board.size && r.catalog == w.catalog && r.tiles.Keys == w.tiles.Keys
    ensures ListMatches(w.board) ==> ListMatches(r.board)
    ensures forall u :: u in w.tiles ==> r.tiles[u].reference == w.tiles[u].reference
  {
    if pos !in w.board.grid then w
    else
      var t := w.board.grid[pos];
      var w1 := Detached(w, pos, t);
      w1.(board := RefreshAll(w1, w1.board, [pos] + OrthogonalNeighbours(pos), 0))
  }
}
