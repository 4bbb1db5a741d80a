/** Placement enumeration of engine/placement.go: where a drawn tile group
    can go on the board, in which orientation, and which features of the
    neighbouring tiles each candidate would meet. */
module Placements {
  import opened Wrappers
  import opened Directions
  import opened Points
  import opened EdgeSignatures
  import opened ReferenceTiles
  import opened Arena
  import opened Boards

  /** A side of the candidate (its reference feature there) meeting the
      live feature on the facing side of an existing neighbour. */
  datatype Connection = Connection(featureA: RefFeatureId, edgeA: Direction, featureB: Option<FeatureId>, edgeB: Direction)

  datatype Placement = Placement(position: Point, referenceTile: RefTileId, connectedFeatures: seq<Connection>)

  /** The catalog shape placement relies on: the group's four orientations
      resolve, and each has a feature on every side. */
  predicate GroupReady(c: Catalog, g: ReferenceTileGroup)
  {
    |g.orientations| == 4
    && forall i :: 0 <= i < 4 ==> g.orientations[i] in c.tiles && |c.tiles[g.orientations[i]].edgeFeatures| == 4
  }

  /** What placement reads of a world: every occupied cell holds a tile. */
  predicate Readable(w: World)
  {
    GridIn(w.board, w.tiles)
  }

  /** The feature on side `d` of a live tile (nil when the tile has none). */
  function EdgeFeature(t: Tile, d: Direction): Option<FeatureId>
  {
    if d < |t.edgeFeatures| then t.edgeFeatures[d] else None
  }

  /** The tile on the cell across side `d` of `pos`. */
  function TileAcross(w: World, pos: Point, d: Direction): Tile
    requires Readable(w) && OccupiedAcross(w.board, pos, d)
  {
    w.tiles[w.board.grid[EdgePos(pos, d)]]
  }

  /** The connection a candidate with reference tile `rt` makes on side `d`
      of `pos`, when that side faces a tile. */
  predicate IsConnection(w: World, pos: Point, rt: ReferenceTile, c: Connection)
    requires Readable(w) && |rt.edgeFeatures| == 4
  {
    && OccupiedAcross(w.board, pos, c.edgeA)
    && c.edgeB == Compliment(c.edgeA)
    && c.featureA == rt.edgeFeatures[c.edgeA]
    && c.featureB == EdgeFeature(TileAcross(w, pos, c.edgeA), c.edgeB)
  }

  /** The inner loop of getPlaceableOrientations: side by side from `d`,
      skipping sides off the board and sides facing a vacant cell. */
  function ConnectionsFrom(w: World, pos: Point, rt: ReferenceTile, d: nat): (cs: seq<Connection>)
    requires Readable(w) && |rt.edgeFeatures| == 4 && d <= 4
    ensures |cs| <= 4 - d
    ensures forall i :: 0 <= i < |cs| ==> d <= cs[i].edgeA && IsConnection(w, pos, rt, cs[i])
    ensures forall i, j :: 0 <= i < j < |cs| ==> cs[i].edgeA < cs[j].edgeA
    decreases 4 - d
  {
    if d == 4 then []
    else
      var rest := ConnectionsFrom(w, pos, rt, d + 1);
      if OccupiedAcross(w.board, pos, d) then
        var e: Direction := d;
        var c := Connection(rt.edgeFeatures[d], e, EdgeFeature(TileAcross(w, pos, d), Compliment(d)), Compliment(d));
        assert IsConnection(w, pos, rt, c);
        [c] + rest
      else rest
  }

  /** Every side from `d` on that faces a tile yields a connection. */
  lemma {:induction false} ConnectionsFromComplete(w: World, pos: Point, rt: ReferenceTile, d: nat, e: Direction)
    requires Readable(w) && |rt.edgeFeatures| == 4 && d <= e
    requires OccupiedAcross(w.board, pos, e)
    ensures exists c :: c in ConnectionsFrom(w, pos, rt, d) && c.edgeA == e
    decreases 4 - d
  {
    if d < e {
      ConnectionsFromComplete(w, pos, rt, d + 1, e);
      var c :| c in ConnectionsFrom(w, pos, rt, d + 1) && c.edgeA == e;
      assert c in ConnectionsFrom(w, pos, rt, d);
    } else {
      assert ConnectionsFrom(w, pos, rt, d)[0].edgeA == e;
    }
  }

  /** The connections one orientation makes at `pos`: one per side that
      faces a placed tile, in direction order. */
  function Connections(w: World, pos: Point, rt: ReferenceTile): (cs: seq<Connection>)
    requires Readable(w) && |rt.edgeFeatures| == 4
    ensures forall c :: c in cs ==> IsConnection(w, pos, rt, c)
    ensures forall e: Direction :: OccupiedAcross(w.board, pos, e) <==> exists c :: c in cs && c.edgeA == e
    ensures forall i, j :: 0 <= i < j < |cs| ==> cs[i].edgeA < cs[j].edgeA
  {
    var cs := ConnectionsFrom(w, pos, rt, 0);
    forall e: Direction | OccupiedAcross(w.board, pos, e)
      ensures exists c :: c in cs && c.edgeA == e
    {
      ConnectionsFromComplete(w, pos, rt, 0, e);
    }
    cs
  }

  /** The open-position signature at `pos`. */
  function OpenAt(b: Board, pos: Point): Signature
    requires pos in b.openPositions
  {
    b.openPositions[pos]
  }

  /** Whether orientation `i` of the group fits the open position. */
  predicate Fits(w: World, pos: Point, g: ReferenceTileGroup, i: Direction)
    requires GroupReady(w.catalog, g) && pos in w.board.openPositions
  {
    Compatible(w.catalog.tiles[g.orientations[i]].edgeSignature, OpenAt(w.board, pos))
  }

  /** The orientation buffer getPlaceableOrientations fills: slot `i` holds
      orientation `i` when it fits, nil otherwise. */
  function PlaceableOrientations(w: World, pos: Point, g: ReferenceTileGroup): (os: seq<Option<RefTileId>>)
    requires GroupReady(w.catalog, g) && pos in w.board.openPositions
    ensures |os| == 4
    ensures forall i: Direction :: os[i].Some? <==> Fits(w, pos, g, i)
    ensures forall i: Direction :: os[i].Some? ==> os[i].value == g.orientations[i]
  {
    seq(4, (i: int) requires 0 <= i < 4 =>
      if Fits(w, pos, g, i) then Some(g.orientations[i]) else None)
  }

  /** The connections the buffer gains at `pos`: those of every fitting
      orientation, in orientation order. */
  function SharedConnectionsFrom(w: World, pos: Point, g: ReferenceTileGroup, i: nat): (cs: seq<Connection>)
    requires Readable(w) && GroupReady(w.catalog, g) && pos in w.board.openPositions && i <= 4
    ensures forall c :: c in cs ==>
              exists k: Direction :: i <= k && Fits(w, pos, g, k) && IsConnection(w, pos, w.catalog.tiles[g.orientations[k]], c)
    decreases 4 - i
  {
    if i == 4 then []
    else
      var rest := SharedConnectionsFrom(w, pos, g, i + 1);
      if Fits(w, pos, g, i) then Connections(w, pos, w.catalog.tiles[g.orientations[i]]) + rest else rest
  }

  function SharedConnections(w: World, pos: Point, g: ReferenceTileGroup): (cs: seq<Connection>)
    requires Readable(w) && GroupReady(w.catalog, g) && pos in w.board.openPositions
    ensures forall c :: c in cs ==>
              exists k: Direction :: Fits(w, pos, g, k) && IsConnection(w, pos, w.catalog.tiles[g.orientations[k]], c)
  {
    SharedConnectionsFrom(w, pos, g, 0)
  }

  /** The placements the orientation buffer yields at `pos`, slot `i` on:
      one per filled slot, all sharing the connections `cs`. */
  function FromBuffer(pos: Point, os: seq<Option<RefTileId>>, cs: seq<Connection>, i: nat): (ps: seq<Placement>)
    requires i <= |os|
    ensures forall p :: p in ps ==> p.position == pos && p.connectedFeatures == cs
    ensures forall p :: p in ps ==> exists k :: i <= k < |os| && os[k] == Some(p.referenceTile)
    ensures forall k :: i <= k < |os| && os[k].Some? ==> Placement(pos, os[k].value, cs) in ps
    decreases |os| - i
  {
    if i == |os| then []
    else (if os[i].Some? then [Placement(pos, os[i].value, cs)] else []) + FromBuffer(pos, os, cs, i + 1)
  }

  /** The filled slots of a buffer from `i` on, in ascending order. */
  function FilledFrom(os: seq<Option<RefTileId>>, i: nat): (ks: seq<nat>)
    requires i <= |os|
    ensures forall j :: 0 <= j < |ks| ==> i <= ks[j] < |os| && os[ks[j]].Some?
    ensures forall j1, j2 :: 0 <= j1 < j2 < |ks| ==> ks[j1] < ks[j2]
    ensures forall k :: i <= k < |os| && os[k].Some? ==> k in ks
    decreases |os| - i
  {
    if i == |os| then []
    else (if os[i].Some? then [i] else []) + FilledFrom(os, i + 1)
  }

  /** The buffer is read in slot order: the `j`-th placement comes from the
      `j`-th filled slot. */
  lemma {:induction false} FromBufferInSlotOrder(pos: Point, os: seq<Option<RefTileId>>, cs: seq<Connection>, i: nat)
    requires i <= |os|
    ensures var ps := FromBuffer(pos, os, cs, i);
      var ks := FilledFrom(os, i);
      |ps| == |ks| && forall j :: 0 <= j < |ps| ==> ps[j] == Placement(pos, os[ks[j]].value, cs)
    decreases |os| - i
  {
    if i < |os| {
      FromBufferInSlotOrder(pos, os, cs, i + 1);
      var ps, rest := FromBuffer(pos, os, cs, i), FromBuffer(pos, os, cs, i + 1);
      var ks, kr := FilledFrom(os, i), FilledFrom(os, i + 1);
      if os[i].Some? {
        assert ps == [Placement(pos, os[i].value, cs)] + rest;
        assert ks == [i] + kr;
        forall j | 1 <= j < |ps| ensures ps[j] == Placement(pos, os[ks[j]].value, cs) {
          assert ps[j] == rest[j - 1] && ks[j] == kr[j - 1];
        }
      } else {
        assert ps == rest && ks == kr;
      }
    }
  }

  /** The placements at one open position: one per fitting orientation,
      in orientation order, all sharing the position's connections. */
  function PlacementsAt(w: World, pos: Point, g: ReferenceTileGroup): (ps: seq<Placement>)
    requires Readable(w) && GroupReady(w.catalog, g) && pos in w.board.openPositions
    ensures forall p :: p in ps ==> p.position == pos && p.connectedFeatures == SharedConnections(w, pos, g)
    ensures forall p :: p in ps ==> exists k: Direction :: p.referenceTile == g.orientations[k] && Fits(w, pos, g, k)
    ensures forall k: Direction :: Fits(w, pos, g, k) ==> Placement(pos, g.orientations[k], SharedConnections(w, pos, g)) in ps
  {
    var os := PlaceableOrientations(w, pos, g);
    var ps := FromBuffer(pos, os, SharedConnections(w, pos, g), 0);
    assert forall p :: p in ps ==> exists k: Direction :: os[k] == Some(p.referenceTile);
    ps
  }

  /** The open positions of a list all carry a signature. */
  predicate ListedOpen(b: Board, l: seq<Point>)
  {
    forall i :: 0 <= i < |l| ==> l[i] in b.openPositions
  }

  /** TilePlacementAgent.PossibleTilePlacements: the placements at each
      listed open position, in list order. */
  function AgentPlacements(w: World, g: ReferenceTileGroup, l: seq<Point>): (ps: seq<Placement>)
    requires Readable(w) && GroupReady(w.catalog, g) && ListedOpen(w.board, l)
    ensures forall p :: p in ps ==> p.position in l
  {
    if l == [] then []
    else PlacementsAt(w, l[0], g) + AgentPlacements(w, g, l[1..])
  }

  /** The enumeration follows the open list: splitting the list splits the
      output, so positions come out in list order. */
  lemma {:induction false} AgentPlacementsSplit(w: World, g: ReferenceTileGroup, l1: seq<Point>, l2: seq<Point>)
    requires Readable(w) && GroupReady(w.catalog, g) && ListedOpen(w.board, l1) && ListedOpen(w.board, l2)
    ensures ListedOpen(w.board, l1 + l2)
    ensures AgentPlacements(w, g, l1 + l2) == AgentPlacements(w, g, l1) + AgentPlacements(w, g, l2)
    decreases |l1|
  {
    if l1 != [] {
      var l := l1 + l2;
      assert l[0] == l1[0];
      assert l[1..] == l1[1..] + l2;
      assert ListedOpen(w.board, l1[1..]);
      AgentPlacementsSplit(w, g, l1[1..], l2);
      calc {
        AgentPlacements(w, g, l);
        PlacementsAt(w, l1[0], g) + AgentPlacements(w, g, l1[1..] + l2);
        PlacementsAt(w, l1[0], g) + (AgentPlacements(w, g, l1[1..]) + AgentPlacements(w, g, l2));
      }
    } else {
      assert l1 + l2 == l2;
    }
  }

  /** Every enumerated placement sits on a listed open position, fits its
      signature, and carries that position's shared connections. */
  lemma {:induction false} AgentPlacementsSound(w: World, g: ReferenceTileGroup, l: seq<Point>)
    requires Readable(w) && GroupReady(w.catalog, g) && ListedOpen(w.board, l)
    ensures forall p :: p in AgentPlacements(w, g, l) ==>
      && p.position in w.board.openPositions
      && p.referenceTile in w.catalog.tiles
      && Compatible(w.catalog.tiles[p.referenceTile].edgeSignature, OpenAt(w.board, p.position))
      && p.connectedFeatures == SharedConnections(w, p.position, g)
  {
    if l != [] {
      AgentPlacementsSound(w, g, l[1..]);
    }
  }

  /** Every fitting orientation of every listed position is enumerated. */
  lemma {:induction false} AgentPlacementsComplete(w: World, g: ReferenceTileGroup, l: seq<Point>, pos: Point, k: Direction)
    requires Readable(w) && GroupReady(w.catalog, g) && ListedOpen(w.board, l)
    requires pos in l && Fits(w, pos, g, k)
    ensures Placement(pos, g.orientations[k], SharedConnections(w, pos, g)) in AgentPlacements(w, g, l)
    decreases |l|
  {
    if l[0] != pos {
      AgentPlacementsComplete(w, g, l[1..], pos, k);
    }
  }

  /** Every orientation at one position carries the same connections: the
      list is built once per position and shared by all its placements. */
  lemma ConnectionsShared(w: World, pos: Point, g: ReferenceTileGroup, p: Placement, q: Placement)
    requires Readable(w) && GroupReady(w.catalog, g) && pos in w.board.openPositions
    requires p in PlacementsAt(w, pos, g) && q in PlacementsAt(w, pos, g)
    ensures p.connectedFeatures == q.connectedFeatures
  {
  }

  // ---------------------------------------------------------------------
  // The first tile
  // ---------------------------------------------------------------------

  /** The seed cell of quadrant `i`: rows 0, 1 are the top, even columns
      the left, each a quarter of the board from the middle. */
  function SeedCell(size: nat, i: nat): (p: Point)
    ensures p.y == if i < 2 then size / 2 - size / 4 else size / 2 + size / 4
    ensures p.x == if i % 2 == 0 then size / 2 - size / 4 else size / 2 + size / 4
  {
    var middle := size / 2;
    var quarter := size / 4;
    var top := i < 2;
    var left := i % 2 == 0;
    Point(if left then middle - quarter else middle + quarter, if top then middle - quarter else middle + quarter)
  }

  /** The two seed placements of quadrant `i`, facing the board's centre. */
  function SeedPair(b: Board, g: ReferenceTileGroup, i: nat): (ps: seq<Placement>)
    requires |g.orientations| == 4
    ensures |ps| == 2
  {
    var dirs := Inner(i < 2, i % 2 == 0);
    [Placement(SeedCell(b.size, i), g.orientations[dirs[0]], []),
     Placement(SeedCell(b.size, i), g.orientations[dirs[1]], [])]
  }

  /** firstTilePlacement: two placements for each of the four quadrants. */
  function FirstTilePlacement(b: Board, g: ReferenceTileGroup): (ps: seq<Placement>)
    requires |g.orientations| == 4
    ensures |ps| == 8
    ensures forall k :: 0 <= k < 8 ==> ps[k].position == SeedCell(b.size, k / 2) && ps[k].connectedFeatures == []
    ensures forall k :: 0 <= k < 8 ==> ps[k].referenceTile == g.orientations[Inner(k / 2 < 2, (k / 2) % 2 == 0)[k % 2]]
  {
    SeedPair(b, g, 0) + SeedPair(b, g, 1) + SeedPair(b, g, 2) + SeedPair(b, g, 3)
  }

  /** The seed cells lie on a non-empty board, and on a board of size four
      or more the four quadrants use four different cells. */
  lemma SeedCellsOnBoard(b: Board, g: ReferenceTileGroup)
    requires |g.orientations| == 4
    ensures b.size >= 1 ==> forall p :: p in FirstTilePlacement(b, g) ==> InBounds(b, p.position)
    ensures b.size >= 4 ==> forall i, j :: 0 <= i < j < 4 ==> SeedCell(b.size, i) != SeedCell(b.size, j)
  {
  }

  /** Each quadrant's pair turns towards the centre: the top-left quadrant
      uses orientations North and West, the bottom-right South and East. */
  lemma SeedOrientations(b: Board, g: ReferenceTileGroup)
    requires |g.orientations| == 4
    ensures var ps := FirstTilePlacement(b, g);
      && ps[0].referenceTile == g.orientations[North] && ps[1].referenceTile == g.orientations[West]
      && ps[2].referenceTile == g.orientations[North] && ps[3].referenceTile == g.orientations[East]
      && ps[4].referenceTile == g.orientations[South] && ps[5].referenceTile == g.orientations[West]
      && ps[6].referenceTile == g.orientations[South] && ps[7].referenceTile == g.orientations[East]
  {
  }

  /** TilePlacementManager.PossibleTilePlacements: the seed placements on
      an empty board, otherwise the agent's enumeration of the open list. */
  function PossibleTilePlacements(w: World, g: ReferenceTileGroup): (ps: seq<Placement>)
    requires Readable(w) && GroupReady(w.catalog, g) && ListedOpen(w.board, w.board.openList)
  {
    if w.board.placedTileCount < 1 then FirstTilePlacement(w.board, g)
    else AgentPlacements(w, g, w.board.openList)
  }

  /** Once a tile is down, the candidates are exactly the fitting
      orientations of the listed open positions. */
  lemma PossibleAfterFirst(w: World, g: ReferenceTileGroup, pos: Point, k: Direction)
    requires Readable(w) && GroupReady(w.catalog, g) && ListedOpen(w.board, w.board.openList)
    requires w.board.placedTileCount >= 1
    ensures forall p :: p in PossibleTilePlacements(w, g) ==>
      && p.position in w.board.openList
      && p.referenceTile in w.catalog.tiles
      && Compatible(w.catalog.tiles[p.referenceTile].edgeSignature, OpenAt(w.board, p.position))
    ensures pos in w.board.openList && Fits(w, pos, g, k) ==>
      exists p :: p in PossibleTilePlacements(w, g) && p.position == pos && p.referenceTile == g.orientations[k]
  {
    AgentPlacementsSound(w, g, w.board.openList);
    if pos in w.board.openList && Fits(w, pos, g, k) {
      AgentPlacementsComplete(w, g, w.board.openList, pos, k);
    }
  }

  /** RandomPlacement: nil for no placements, otherwise the one the draw
      (a non-negative random integer) selects. */
  function RandomPlacement(ps: seq<Placement>, draw: nat): (r: Option<Placement>)
    ensures r.None? <==> ps == []
    ensures r.Some? ==> r.value in ps
  {
    if |ps| == 0 then None else Some(ps[draw % |ps|])
  }

  /** Every placement can be drawn. */
  lemma RandomPlacementReachesAll(ps: seq<Placement>, k: nat)
    requires k < |ps|
    ensures RandomPlacement(ps, k) == Some(ps[k])
  {
  }
}
