/** The live game objects of the engine generation (engine/tile/tile.go,
    engine/tile/feature.go, engine/board/board.go) kept in an arena: tiles
    and features are values in maps keyed by ids, so pointer identity is id
    equality and a link set is a set of ids. */
module Arena {
  import opened Wrappers
  import opened Directions
  import opened Points
  import opened FeatureTypes
  import opened EdgeSignatures
  import opened ReferenceTiles

  type TileId = nat
  type FeatureId = nat

  /** A feature of a placed tile: its kind, its tile, the reference feature
      it was cloned from, and the features of neighbouring tiles it joins. */
  datatype Feature = Feature(ftype: FeatureType, parentTile: TileId, parentFeature: RefFeatureId, links: set<FeatureId>)

  /** A placed (or hypothetical) tile. `edgeFeatures` and `neighbours` are
      indexed by direction. */
  datatype Tile = Tile(
    position: Point,
    reference: RefTileId,
    features: seq<FeatureId>,
    edgeFeatures: seq<Option<FeatureId>>,
    neighbours: seq<Option<TileId>>,
    referenceFeatureMap: map<RefFeatureId, FeatureId>)

  /** The board: the occupied cells, the count of placed tiles and the open
      positions, both as a map to their signature and as a list. */
  datatype Board = Board(
    size: nat,
    grid: map<Point, TileId>,
    placedTileCount: int,
    openPositions: map<Point, Signature>,
    openList: seq<Point>)

  datatype World = World(
    catalog: Catalog,
    tiles: map<TileId, Tile>,
    features: map<FeatureId, Feature>,
    nextTile: TileId,
    nextFeature: FeatureId,
    board: Board)

  /** matrix.IsInBounds on the board. */
  predicate InBounds(b: Board, p: Point)
  {
    0 <= p.x < b.size && 0 <= p.y < b.size
  }

  predicate TileValid(w: World, t: Tile)
  {
    && t.reference in w.catalog.tiles
    && (forall i :: 0 <= i < |t.features| ==> t.features[i] in w.features)
    && |t.edgeFeatures| == 4 && |t.neighbours| == 4
    && (forall d :: 0 <= d < 4 && t.edgeFeatures[d].Some? ==> t.edgeFeatures[d].value in w.features)
    && (forall d :: 0 <= d < 4 && t.neighbours[d].Some? ==> t.neighbours[d].value in w.tiles)
    && (forall rf :: rf in t.referenceFeatureMap ==> t.referenceFeatureMap[rf] in w.features)
  }

  /** Every id resolves, ids below the counters are the only ones in use,
      and occupied cells are on the board. (The catalog's own shape is
      `ReferenceTiles.WellFormed`, required separately where it matters.) */
  predicate Valid(w: World)
  {
    TilesValid(w) && FeaturesValid(w) && GridValid(w)
  }

  predicate TilesValid(w: World)
  {
    && (forall t :: t in w.tiles ==> t < w.nextTile)
    && (forall t {:trigger w.tiles[t]} :: t in w.tiles ==> TileValid(w, w.tiles[t]))
  }

  predicate FeaturesValid(w: World)
  {
    && (forall f :: f in w.features ==> f < w.nextFeature)
    && (forall f {:trigger w.features[f]} :: f in w.features ==>
          w.features[f].parentTile in w.tiles && w.features[f].links <= w.features.Keys)
  }

  predicate GridValid(w: World)
  {
    forall p :: p in w.board.grid ==> InBounds(w.board, p) && w.board.grid[p] in w.tiles
  }

  /** Tile.HasFeature. */
  function HasFeature(t: Tile, f: FeatureId): (r: bool)
    ensures r <==> f in t.features
  {
    HasFeatureFrom(t.features, f)
  }

  function HasFeatureFrom(fs: seq<FeatureId>, f: FeatureId): (r: bool)
    ensures r <==> f in fs
  {
    if fs == [] then false else fs[0] == f || HasFeatureFrom(fs[1..], f)
  }

  /** The reference-to-live feature map of the factory: each reference
      feature maps to the live feature made for its last occurrence. */
  function RefMap(rfs: seq<RefFeatureId>, base: FeatureId): (m: map<RefFeatureId, FeatureId>)
    ensures forall rf :: rf in m <==> rf in rfs
    ensures forall rf :: rf in m ==> base <= m[rf] < base + |rfs|
    ensures forall i {:trigger LastOccurrence(rfs, i)} :: 0 <= i < |rfs| && LastOccurrence(rfs, i) ==> m[rfs[i]] == base + i
  {
    if rfs == [] then map[]
    else
      var last := |rfs| - 1;
      var prev := RefMap(rfs[..last], base);
      RefMapStep(rfs, rfs[..last], base, prev);
      prev[rfs[last] := base + last]
  }

  /** No later entry repeats entry `i`. */
  predicate LastOccurrence(rfs: seq<RefFeatureId>, i: int)
    requires 0 <= i < |rfs|
  {
    forall j :: i < j < |rfs| ==> rfs[j] != rfs[i]
  }

  lemma RefMapStep(rfs: seq<RefFeatureId>, init: seq<RefFeatureId>, base: FeatureId, prev: map<RefFeatureId, FeatureId>)
    requires |rfs| > 0 && init == rfs[..|rfs| - 1]
    requires forall rf :: rf in prev <==> rf in init
    requires forall i {:trigger LastOccurrence(init, i)} :: 0 <= i < |init| && LastOccurrence(init, i) ==> prev[init[i]] == base + i
    ensures forall i {:trigger LastOccurrence(rfs, i)} :: 0 <= i < |rfs| && LastOccurrence(rfs, i) ==>
              prev[rfs[|rfs| - 1] := base + |rfs| - 1][rfs[i]] == base + i
    ensures forall rf :: rf in prev[rfs[|rfs| - 1] := base + |rfs| - 1] <==> rf in rfs
  {
    var last := |rfs| - 1;
    assert rfs == init + [rfs[last]];
    forall i | 0 <= i < |rfs| && LastOccurrence(rfs, i)
      ensures prev[rfs[last] := base + last][rfs[i]] == base + i
    {
      if i < last {
        assert rfs[last] != rfs[i];
        assert init[i] == rfs[i];
        forall j | i < j < last ensures init[j] != init[i] {
          assert init[j] == rfs[j];
        }
        assert LastOccurrence(init, i);
      }
    }
  }

  /** One live feature per reference feature, with consecutive ids, no
      links and `t` as parent. */
  function NewFeatures(c: Catalog, rfs: seq<RefFeatureId>, t: TileId, base: FeatureId): (fs: map<FeatureId, Feature>)
    requires forall i :: 0 <= i < |rfs| ==> rfs[i] in c.features
    ensures forall f :: f in fs <==> base <= f < base + |rfs|
    ensures forall i :: 0 <= i < |rfs| ==> fs[base + i] == Feature(c.features[rfs[i]].ftype, t, rfs[i], {})
  {
    if rfs == [] then map[]
    else
      var last := |rfs| - 1;
      NewFeatures(c, rfs[..last], t, base)[base + last := Feature(c.features[rfs[last]].ftype, t, rfs[last], {})]
  }

  /** The live feature for a reference feature, nil when the map has none. */
  function Lookup(m: map<RefFeatureId, FeatureId>, rf: RefFeatureId): (r: Option<FeatureId>)
    ensures r.Some? <==> rf in m
    ensures r.Some? ==> r.value == m[rf]
  {
    if rf in m then Some(m[rf]) else None
  }

  const NoNeighbours: seq<Option<TileId>> := [None, None, None, None]

  /** TileFactory.NewTileFromReference: a fresh tile for reference tile `rt`
      with fresh features, one per reference feature. A nil reference
      panics. The tile is not on the board yet. */
  function NewTileFromReference(w: World, rt: Option<RefTileId>): (r: Result<(World, TileId)>)
    requires Valid(w) && ReferenceTiles.WellFormed(w.catalog)
    requires rt.Some? ==> rt.value in w.catalog.tiles
    ensures r.Err? <==> rt.None?
    ensures r.Ok? ==> FreshTile(w, r.value.0, r.value.1, rt.value)
  {
    if rt.None? then Err("Dont send this a null reference tile")
    else
      var ref := w.catalog.tiles[rt.value];
      assert TileWellFormed(w.catalog, ref);
      var t := w.nextTile;
      var w' := w.(tiles := w.tiles[t := FreshTileValue(ref, rt.value, w.nextFeature)],
                   features := w.features + NewFeatures(w.catalog, ref.features, t, w.nextFeature),
                   nextTile := t + 1,
                   nextFeature := w.nextFeature + |ref.features|);
      FreshTileIsValid(w, w', t, rt.value);
      Ok((w', t))
  }

  /** What the factory promises about the tile `t` it adds for `rt`. */
  ghost predicate FreshTile(w: World, w': World, t: TileId, rt: RefTileId)
    requires rt in w.catalog.tiles
  {
    FreshTileFrame(w, w', t) && FreshTileFeatures(w, w', t, rt) && FreshTileMap(w, w', t, rt)
  }

  /** The world stays valid, gains tile `t`, and nothing else changes. */
  ghost predicate FreshTileFrame(w: World, w': World, t: TileId)
  {
    && Valid(w')
    && t !in w.tiles && t in w'.tiles
    && w'.catalog == w.catalog && w'.board == w.board
    && (forall u :: u in w.tiles ==> u in w'.tiles && w'.tiles[u] == w.tiles[u])
    && (forall f :: f in w.features ==> f in w'.features && w'.features[f] == w.features[f])
  }

  /** One new feature per reference feature, of the same kind, with the new
      tile as parent, no links, and no two of them the same; the tile sits at
      the zero point with no neighbours. */
  ghost predicate FreshTileFeatures(w: World, w': World, t: TileId, rt: RefTileId)
    requires rt in w.catalog.tiles
  {
    var ref := w.catalog.tiles[rt];
    && t in w'.tiles
    && var tile := w'.tiles[t];
    && tile.reference == rt && tile.position == Point(0, 0)
    && tile.neighbours == NoNeighbours
    && |tile.features| == |ref.features|
    && (forall i :: 0 <= i < |tile.features| ==> tile.features[i] !in w.features && tile.features[i] in w'.features)
    && (forall i :: 0 <= i < |tile.features| && ref.features[i] in w.catalog.features ==>
          w'.features[tile.features[i]] == Feature(w.catalog.features[ref.features[i]].ftype, t, ref.features[i], {}))
    && (forall i, j :: 0 <= i < j < |tile.features| ==> tile.features[i] != tile.features[j])
  }

  /** The map points each reference feature at the clone of its last
      occurrence, and the sides go through the map. */
  ghost predicate FreshTileMap(w: World, w': World, t: TileId, rt: RefTileId)
    requires rt in w.catalog.tiles
  {
    var ref := w.catalog.tiles[rt];
    && t in w'.tiles
    && var tile := w'.tiles[t];
    && |tile.features| == |ref.features| && |tile.edgeFeatures| == 4 && |ref.edgeFeatures| == 4
    && (forall rf :: rf in tile.referenceFeatureMap <==> rf in ref.features)
    && (forall i {:trigger LastOccurrence(ref.features, i)} :: 0 <= i < |ref.features| && LastOccurrence(ref.features, i) ==>
          tile.referenceFeatureMap[ref.features[i]] == tile.features[i])
    && (forall d :: 0 <= d < 4 ==> tile.edgeFeatures[d] == Lookup(tile.referenceFeatureMap, ref.edgeFeatures[d]))
  }

  /** The tile the factory builds for reference `ref` with features from `base`. */
  function FreshTileValue(ref: ReferenceTile, rt: RefTileId, base: FeatureId): Tile
    requires |ref.edgeFeatures| == 4
  {
    var rmap := RefMap(ref.features, base);
    Tile(Point(0, 0), rt,
         seq(|ref.features|, i => base + i),
         seq(4, i requires 0 <= i < 4 => Lookup(rmap, ref.edgeFeatures[i])),
         NoNeighbours,
         rmap)
  }

  lemma FreshTileIsValid(w: World, w': World, t: TileId, rt: RefTileId)
    requires Valid(w) && rt in w.catalog.tiles
    requires TileWellFormed(w.catalog, w.catalog.tiles[rt])
    requires t == w.nextTile
    requires var ref := w.catalog.tiles[rt];
      w' == w.(tiles := w.tiles[t := FreshTileValue(ref, rt, w.nextFeature)],
               features := w.features + NewFeatures(w.catalog, ref.features, t, w.nextFeature),
               nextTile := t + 1,
               nextFeature := w.nextFeature + |ref.features|)
    ensures FreshTile(w, w', t, rt)
  {
    FreshTileFrameHolds(w, w', t, rt);
    FreshTileFeaturesHold(w, w', t, rt, w.nextFeature);
    FreshTileMapHolds(w, w', t, rt, w.nextFeature);
  }

  lemma FreshTileFrameHolds(w: World, w': World, t: TileId, rt: RefTileId)
    requires Valid(w) && rt in w.catalog.tiles
    requires TileWellFormed(w.catalog, w.catalog.tiles[rt])
    requires t == w.nextTile
    requires var ref := w.catalog.tiles[rt];
      w' == w.(tiles := w.tiles[t := FreshTileValue(ref, rt, w.nextFeature)],
               features := w.features + NewFeatures(w.catalog, ref.features, t, w.nextFeature),
               nextTile := t + 1,
               nextFeature := w.nextFeature + |ref.features|)
    ensures FreshTileFrame(w, w', t)
  {
    var ref := w.catalog.tiles[rt];
    var base := w.nextFeature;
    var nf := NewFeatures(w.catalog, ref.features, t, base);
    var tile := FreshTileValue(ref, rt, base);
    FreshParts(w.catalog, ref, rt, t, base, nf, tile);
    AddTileValid(w, w', t, tile, nf, base + |ref.features|);
  }

  /** The fresh features and the fresh tile only refer to each other. */
  lemma FreshParts(c: Catalog, ref: ReferenceTile, rt: RefTileId, t: TileId, base: FeatureId,
                   nf: map<FeatureId, Feature>, tile: Tile)
    requires TileWellFormed(c, ref) && rt in c.tiles
    requires nf == NewFeatures(c, ref.features, t, base)
    requires tile == FreshTileValue(ref, rt, base)
    ensures forall f :: f in nf ==> base <= f < base + |ref.features| && nf[f].parentTile == t && nf[f].links == {}
    ensures tile.reference in c.tiles && |tile.edgeFeatures| == 4 && tile.neighbours == NoNeighbours
    ensures forall i :: 0 <= i < |tile.features| ==> tile.features[i] in nf
    ensures forall d :: 0 <= d < 4 && tile.edgeFeatures[d].Some? ==> tile.edgeFeatures[d].value in nf
    ensures forall rf :: rf in tile.referenceFeatureMap ==> tile.referenceFeatureMap[rf] in nf
  {
    forall f | f in nf ensures nf[f].parentTile == t && nf[f].links == {} {
      var i := f - base;
      assert 0 <= i < |ref.features| && f == base + i;
      assert nf[base + i] == Feature(c.features[ref.features[i]].ftype, t, ref.features[i], {});
    }
  }

  /** Adding a tile with no neighbours and features that belong to it keeps
      the world valid. */
  lemma AddTileValid(w: World, w': World, t: TileId, tile: Tile, nf: map<FeatureId, Feature>, next: FeatureId)
    requires Valid(w) && t == w.nextTile && w.nextFeature <= next
    requires w' == w.(tiles := w.tiles[t := tile], features := w.features + nf, nextTile := t + 1, nextFeature := next)
    requires forall f :: f in nf ==> w.nextFeature <= f < next && nf[f].parentTile == t && nf[f].links == {}
    requires tile.reference in w.catalog.tiles && |tile.edgeFeatures| == 4 && tile.neighbours == NoNeighbours
    requires forall i :: 0 <= i < |tile.features| ==> tile.features[i] in nf
    requires forall d :: 0 <= d < 4 && tile.edgeFeatures[d].Some? ==> tile.edgeFeatures[d].value in nf
    requires forall rf :: rf in tile.referenceFeatureMap ==> tile.referenceFeatureMap[rf] in nf
    ensures FreshTileFrame(w, w', t)
  {
    assert TileValid(w', tile);
    TilesValidAfterAdd(w, w', t, tile);
    FeaturesValidAfterAdd(w, w', t, nf);
  }

  /** `TileValid` only looks at which ids exist, so it survives growth. */
  lemma TileValidGrows(w: World, w': World, x: Tile)
    requires TileValid(w, x)
    requires w'.catalog.tiles == w.catalog.tiles
    requires w.features.Keys <= w'.features.Keys && w.tiles.Keys <= w'.tiles.Keys
    ensures TileValid(w', x)
  {
  }

  lemma TilesValidAfterAdd(w: World, w': World, t: TileId, tile: Tile)
    requires TilesValid(w) && t == w.nextTile
    requires w'.tiles == w.tiles[t := tile] && w'.nextTile == t + 1
    requires w'.catalog == w.catalog && w.features.Keys <= w'.features.Keys
    requires TileValid(w', tile)
    ensures TilesValid(w') && t !in w.tiles
  {
    forall u | u in w'.tiles ensures TileValid(w', w'.tiles[u]) {
      if u != t {
        TileValidGrows(w, w', w.tiles[u]);
      }
    }
  }

  lemma FeaturesValidAfterAdd(w: World, w': World, t: TileId, nf: map<FeatureId, Feature>)
    requires FeaturesValid(w) && w.tiles.Keys <= w'.tiles.Keys && t in w'.tiles
    requires w'.features == w.features + nf && w.nextFeature <= w'.nextFeature
    requires forall f :: f in nf ==> w.nextFeature <= f < w'.nextFeature && nf[f].parentTile == t && nf[f].links == {}
    ensures FeaturesValid(w')
    ensures forall f :: f in w.features ==> f in w'.features && w'.features[f] == w.features[f]
  {
    forall f | f in w'.features
      ensures w'.features[f].parentTile in w'.tiles && w'.features[f].links <= w'.features.Keys
    {
      if f in nf {
        assert w'.features[f] == nf[f];
      } else {
        assert w'.features[f] == w.features[f];
      }
    }
    forall f | f in w.features ensures f in w'.features && w'.features[f] == w.features[f] {
      assert f !in nf;
    }
  }

  lemma FreshTileFeaturesHold(w: World, w': World, t: TileId, rt: RefTileId, base: FeatureId)
    requires rt in w.catalog.tiles && |w.catalog.tiles[rt].edgeFeatures| == 4
    requires forall i :: 0 <= i < |w.catalog.tiles[rt].features| ==> w.catalog.tiles[rt].features[i] in w.catalog.features
    requires forall f :: f in w.features ==> f < base
    requires t in w'.tiles && w'.tiles[t] == FreshTileValue(w.catalog.tiles[rt], rt, base)
    requires w'.features == w.features + NewFeatures(w.catalog, w.catalog.tiles[rt].features, t, base)
    ensures FreshTileFeatures(w, w', t, rt)
  {
    FreshFeaturesShape(w, w', t, w.catalog.tiles[rt], base);
  }

  lemma FreshTileMapHolds(w: World, w': World, t: TileId, rt: RefTileId, base: FeatureId)
    requires rt in w.catalog.tiles && |w.catalog.tiles[rt].edgeFeatures| == 4
    requires t in w'.tiles && w'.tiles[t] == FreshTileValue(w.catalog.tiles[rt], rt, base)
    ensures FreshTileMap(w, w', t, rt)
  {
  }


  lemma FreshFeaturesShape(w: World, w': World, t: TileId, ref: ReferenceTile, base: FeatureId)
    requires forall f :: f in w.features ==> f < base
    requires |ref.edgeFeatures| == 4
    requires forall i :: 0 <= i < |ref.features| ==> ref.features[i] in w.catalog.features
    requires t in w'.tiles && w'.tiles[t].features == seq(|ref.features|, i => base + i)
    requires w'.features == w.features + NewFeatures(w.catalog, ref.features, t, base)
    ensures forall i :: 0 <= i < |ref.features| ==>
              && w'.tiles[t].features[i] !in w.features && w'.tiles[t].features[i] in w'.features
              && w'.features[w'.tiles[t].features[i]] == Feature(w.catalog.features[ref.features[i]].ftype, t, ref.features[i], {})
  {
    forall i | 0 <= i < |ref.features|
      ensures w'.tiles[t].features[i] !in w.features && w'.tiles[t].features[i] in w'.features
      ensures w'.features[w'.tiles[t].features[i]] == Feature(w.catalog.features[ref.features[i]].ftype, t, ref.features[i], {})
    {
      assert w'.tiles[t].features[i] == base + i;
    }
  }
}
