/** Feature kinds in the arena of engine/tile/tile.go and
    engine/board/board.go. The factory gives every live feature the kind of
    the reference feature it is cloned from, and PlaceTile links two live
    features only when their reference features are of one kind. So in
    every arena the engine builds, each tile's map sends a reference
    feature to a live feature of that kind, and links join features of one
    kind only. */
module FeatureKinds {
  import opened Wrappers
  import opened Directions
  import opened Points
  import opened ReferenceTiles
  import opened Arena
  import opened Boards
  import opened FeatureChains

  /** Every live feature a tile's map names has the kind of the reference
      feature it stands for. */
  ghost predicate KindsFollowReferences(w: World)
  {
    forall u, rf ::
      (u in w.tiles && rf in w.tiles[u].referenceFeatureMap && rf in w.catalog.features
       && w.tiles[u].referenceFeatureMap[rf] in w.features) ==>
        w.features[w.tiles[u].referenceFeatureMap[rf]].ftype == w.catalog.features[rf].ftype
  }

  /** The two kind facts together. */
  ghost predicate KindsHold(w: World)
  {
    KindsFollowReferences(w) && LinksSameKind(w.features)
  }

  /** Every listed pair whose ends are features of the arena joins two
      features of one kind. */
  ghost predicate PairsSameKind(fs: map<FeatureId, Feature>, ps: seq<(FeatureId, FeatureId)>)
  {
    forall pr :: pr in ps && pr.0 in fs && pr.1 in fs ==> fs[pr.0].ftype == fs[pr.1].ftype
  }

  /** A pair PlaceTile finds at one edge pixel joins two features of one
      kind: the reference features agree in kind, and each tile maps its
      reference feature to a live feature of that kind. */
  lemma CellPairSameKind(w: World, t: TileId, d: Direction, i: nat, pr: (FeatureId, FeatureId))
    requires i < RasterSize && KindsFollowReferences(w)
    requires CellPair(w, t, d, i) == Some(pr) && pr.0 in w.features && pr.1 in w.features
    ensures w.features[pr.0].ftype == w.features[pr.1].ftype
  {
    var tt := w.tiles[t];
    var n := tt.neighbours[d].value;
    var nt := w.tiles[n];
    var rf := RasterCell(w.catalog.tiles[tt.reference].featureMatrix, EdgePix(d)[i]).value;
    var nrf := RasterCell(w.catalog.tiles[nt.reference].featureMatrix, EdgePix(Compliment(d))[i]).value;
    assert pr == (tt.referenceFeatureMap[rf], nt.referenceFeatureMap[nrf]);
    assert w.features[pr.0].ftype == w.catalog.features[rf].ftype;
    assert w.features[pr.1].ftype == w.catalog.features[nrf].ftype;
  }

  /** Every pair PlaceTile links across the sides of `t` joins two features
      of one kind. */
  lemma CrossPairsSameKind(w: World, t: TileId)
    requires KindsFollowReferences(w)
    ensures PairsSameKind(w.features, CrossPairsFrom(w, t, 0))
  {
    forall pr | pr in CrossPairsFrom(w, t, 0) && pr.0 in w.features && pr.1 in w.features
      ensures w.features[pr.0].ftype == w.features[pr.1].ftype
    {
      CrossPairSameKind(w, t, pr);
    }
  }

  /** The same for one pair: some side yields it. */
  lemma CrossPairSameKind(w: World, t: TileId, pr: (FeatureId, FeatureId))
    requires KindsFollowReferences(w)
    requires pr in CrossPairsFrom(w, t, 0) && pr.0 in w.features && pr.1 in w.features
    ensures w.features[pr.0].ftype == w.features[pr.1].ftype
  {
    CrossPairsMember(w, t, 0, pr);
    var e: Direction :| 0 <= e && SideYields(w, t, e, 0, pr);
    SidePairSameKind(w, t, e, pr);
  }

  /** The same for a pair some pixel of side `e` yields. */
  lemma SidePairSameKind(w: World, t: TileId, e: Direction, pr: (FeatureId, FeatureId))
    requires KindsFollowReferences(w)
    requires SideYields(w, t, e, 0, pr) && pr.0 in w.features && pr.1 in w.features
    ensures w.features[pr.0].ftype == w.features[pr.1].ftype
  {
    var k :| 0 <= k < RasterSize && CellPair(w, t, e, k) == Some(pr);
    CellPairSameKind(w, t, e, k, pr);
  }

  /** Linking pairs of one kind keeps links of one kind. */
  lemma AddLinksKeepsSameKind(fs: map<FeatureId, Feature>, ps: seq<(FeatureId, FeatureId)>)
    requires LinksSameKind(fs) && PairsSameKind(fs, ps)
    ensures LinksSameKind(AddLinks(fs, ps))
  {
    AddLinksMembers(fs, ps);
  }

  /** PlaceTile keeps both kind facts: it moves no map entry and changes no
      kind, and every link it adds joins one kind. */
  lemma PlaceKeepsKinds(w: World, pos: Point, t: TileId)
    requires Shaped(w.tiles) && t in w.tiles && KindsHold(w)
    ensures KindsHold(PlaceTile(w, pos, t))
  {
    var w2 := Linked(w, pos, t);
    PlaceTileParts(w, pos, t);
    LinkedKeepsKinds(w, pos, t);
    CrossPairsSameKind(w2, t);
    AddLinksKeepsSameKind(w.features, CrossPairsFrom(w2, t, 0));
  }

  /** Linking neighbours touches no map and no feature. */
  lemma LinkedKeepsKinds(w: World, pos: Point, t: TileId)
    requires Shaped(w.tiles) && t in w.tiles && KindsFollowReferences(w)
    ensures KindsFollowReferences(Linked(w, pos, t))
  {
    var w2 := Linked(w, pos, t);
    LinkedTiles(w, pos, t);
    var tiles1 := w.tiles[t := w.tiles[t].(position := pos)];
    assert SameButNeighbours(tiles1, w2.tiles);
    assert forall u :: u in w2.tiles ==> w2.tiles[u].referenceFeatureMap == w.tiles[u].referenceFeatureMap;
  }

  /** Every entry of a sequence is repeated at a last occurrence, at or
      after it. */
  lemma {:induction false} LastOccurrenceOf(rfs: seq<RefFeatureId>, j: nat) returns (i: nat)
    requires j < |rfs|
    ensures j <= i < |rfs| && rfs[i] == rfs[j] && LastOccurrence(rfs, i)
    decreases |rfs| - j
  {
    if LastOccurrence(rfs, j) {
      i := j;
    } else {
      var k :| j < k < |rfs| && rfs[k] == rfs[j];
      i := LastOccurrenceOf(rfs, k);
    }
  }

  /** The factory keeps both kind facts: the new tile's map sends each
      reference feature to the clone of its last occurrence, which has its
      kind, and the new features have no links. */
  lemma FreshTileKeepsKinds(w: World, rt: RefTileId)
    requires Valid(w) && WellFormed(w.catalog) && rt in w.catalog.tiles && KindsHold(w)
    ensures KindsHold(NewTileFromReference(w, Some(rt)).value.0)
  {
    var ref := w.catalog.tiles[rt];
    assert TileWellFormed(w.catalog, ref);
    var t := w.nextTile;
    var base := w.nextFeature;
    var nf := NewFeatures(w.catalog, ref.features, t, base);
    var tile := FreshTileValue(ref, rt, base);
    FreshParts(w.catalog, ref, rt, t, base, nf, tile);
    var w' := NewTileFromReference(w, Some(rt)).value.0;
    assert w'.tiles == w.tiles[t := tile] && w'.features == w.features + nf && w'.catalog == w.catalog;
    FreshMapKinds(w, w', rt, t, nf, tile);
    FreshLinksKinds(w, w'.features, nf);
  }

  /** The new tile's map sends each reference feature to a clone of its
      kind, and the old tiles' maps name old features, which keep theirs. */
  lemma FreshMapKinds(w: World, w': World, rt: RefTileId, t: TileId, nf: map<FeatureId, Feature>, tile: Tile)
    requires Valid(w) && rt in w.catalog.tiles && KindsFollowReferences(w)
    requires TileWellFormed(w.catalog, w.catalog.tiles[rt])
    requires nf == NewFeatures(w.catalog, w.catalog.tiles[rt].features, t, w.nextFeature)
    requires tile == FreshTileValue(w.catalog.tiles[rt], rt, w.nextFeature)
    requires w'.tiles == w.tiles[t := tile] && w'.features == w.features + nf && w'.catalog == w.catalog
    ensures KindsFollowReferences(w')
  {
    var rfs := w.catalog.tiles[rt].features;
    var base := w.nextFeature;
    forall u, rf | u in w'.tiles && rf in w'.tiles[u].referenceFeatureMap && rf in w'.catalog.features
        && w'.tiles[u].referenceFeatureMap[rf] in w'.features
      ensures w'.features[w'.tiles[u].referenceFeatureMap[rf]].ftype == w'.catalog.features[rf].ftype
    {
      if u == t {
        assert tile.referenceFeatureMap == RefMap(rfs, base);
        NewTileMapKind(w.catalog, rfs, t, base, rf);
      } else {
        var x := w.tiles[u].referenceFeatureMap[rf];
        assert TileValid(w, w.tiles[u]);
        assert x in w.features && x < base;
        assert x !in nf;
      }
    }
  }

  /** The clone the factory's map names for a reference feature has that
      feature's kind. */
  lemma NewTileMapKind(c: Catalog, rfs: seq<RefFeatureId>, t: TileId, base: FeatureId, rf: RefFeatureId)
    requires forall i :: 0 <= i < |rfs| ==> rfs[i] in c.features
    requires rf in rfs && rf in c.features
    ensures RefMap(rfs, base)[rf] in NewFeatures(c, rfs, t, base)
    ensures NewFeatures(c, rfs, t, base)[RefMap(rfs, base)[rf]].ftype == c.features[rf].ftype
  {
    var j :| 0 <= j < |rfs| && rfs[j] == rf;
    var i := LastOccurrenceOf(rfs, j);
    var m := RefMap(rfs, base);
    var nf := NewFeatures(c, rfs, t, base);
    assert m[rfs[i]] == base + i;
    assert nf[base + i] == Feature(c.features[rfs[i]].ftype, t, rfs[i], {});
  }

  /** Adding features without links to a valid arena keeps links of one
      kind: old links name old features only. */
  lemma FreshLinksKinds(w: World, fs': map<FeatureId, Feature>, nf: map<FeatureId, Feature>)
    requires Valid(w) && LinksSameKind(w.features)
    requires forall f :: f in nf ==> w.nextFeature <= f && nf[f].links == {}
    requires fs' == w.features + nf
    ensures LinksSameKind(fs')
  {
    forall f, g | f in fs' && g in fs'[f].links && g in fs'
      ensures fs'[g].ftype == fs'[f].ftype
    {
      if f !in nf {
        assert w.features[f].links <= w.features.Keys;
        assert g !in nf;
      }
    }
  }
}
