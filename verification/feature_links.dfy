/** Feature links of engine/board/board.go stay symmetric: PlaceTile adds
    each link in both directions, and RemoveTileAt takes every link of the
    removed tile's features away at both ends. */
module FeatureLinks {
  import opened Points
  import opened Arena
  import opened Boards
  import opened BoardRemoval

  /** Every link is mirrored, and names a feature of the arena. */
  ghost predicate LinksSymmetric(fs: map<FeatureId, Feature>)
  {
    forall f, g :: f in fs && g in fs[f].links ==> g in fs && f in fs[g].links
  }

  /** Adding links pair by pair keeps them symmetric. */
  lemma AddLinksSymmetric(fs: map<FeatureId, Feature>, ps: seq<(FeatureId, FeatureId)>)
    requires LinksSymmetric(fs)
    ensures LinksSymmetric(AddLinks(fs, ps))
  {
    AddLinksMembers(fs, ps);
  }

  /** Clearing one feature's links: it ends with none, no feature links to
      it any more, and every other link stays. */
  lemma ClearFeatureLinksEffect(fs: map<FeatureId, Feature>, f: FeatureId)
    requires LinksSymmetric(fs)
    ensures var r := ClearFeatureLinks(fs, f);
      && LinksSymmetric(r)
      && (f in fs ==> r[f].links == {})
      && (forall g :: g in r ==> f !in r[g].links)
      && (forall g, h :: g in fs && g != f && h != f ==> (h in r[g].links <==> h in fs[g].links))
      && (forall g :: g in fs ==> r[g] == fs[g].(links := r[g].links))
  {
  }

  /** Clearing the links of each feature of `feats`, in order: each of them
      ends with no links, no feature links to any of them, and every link
      between two other features stays. */
  lemma {:induction false} ClearLinksEffect(fs: map<FeatureId, Feature>, feats: seq<FeatureId>)
    requires LinksSymmetric(fs)
    ensures var r := ClearLinks(fs, feats);
      && LinksSymmetric(r)
      && (forall f :: f in feats && f in fs ==> r[f].links == {})
      && (forall f, g :: f in feats && g in r ==> f !in r[g].links)
      && (forall g, h :: g in fs && g !in feats && h !in feats ==> (h in r[g].links <==> h in fs[g].links))
      && (forall g :: g in fs ==> r[g] == fs[g].(links := r[g].links))
    decreases |feats|
  {
    if feats != [] {
      var fs1 := ClearFeatureLinks(fs, feats[0]);
      ClearFeatureLinksEffect(fs, feats[0]);
      ClearLinksEffect(fs1, feats[1..]);
      assert forall f :: f in feats <==> f == feats[0] || f in feats[1..];
      var r := ClearLinks(fs, feats);
      assert r == ClearLinks(fs1, feats[1..]);
      forall f | f in feats && f in fs ensures r[f].links == {} {
        if f !in feats[1..] {
          forall h ensures h !in r[f].links {
            if h !in feats[1..] {
              assert h !in fs1[f].links;
            }
          }
        }
      }
    }
  }

  /** PlaceTile keeps the links symmetric. */
  lemma PlaceKeepsLinksSymmetric(w: World, pos: Point, t: TileId)
    requires Shaped(w.tiles) && t in w.tiles && LinksSymmetric(w.features)
    ensures LinksSymmetric(PlaceTile(w, pos, t).features)
  {
    PlaceTileParts(w, pos, t);
    AddLinksSymmetric(w.features, CrossPairsFrom(Linked(w, pos, t), t, 0));
  }

  /** RemoveTileAt (as written and corrected alike) leaves the removed
      tile's features without links, no feature linking to them, every
      other link in place, and the links symmetric. */
  lemma RemoveClearsLinks(w: World, pos: Point)
    requires Shaped(w.tiles) && GridIn(w.board, w.tiles) && InBounds(w.board, pos) && pos in w.board.grid
    requires LinksSymmetric(w.features)
    ensures var feats := w.tiles[w.board.grid[pos]].features;
      forall r :: r == RemoveTileAt(w, pos) || r == CorrectedRemoveTileAt(w, pos) ==>
      && LinksSymmetric(r.features)
      && (forall f :: f in feats && f in w.features ==> r.features[f].links == {})
      && (forall f, g :: f in feats && g in r.features ==> f !in r.features[g].links)
      && (forall g, h :: g in w.features && g !in feats && h !in feats ==>
            (h in r.features[g].links <==> h in w.features[g].links))
  {
    var t := w.board.grid[pos];
    ClearLinksEffect(w.features, w.tiles[t].features);
    assert RemoveTileAt(w, pos).features == Detached(w, pos, t).features;
    assert CorrectedRemoveTileAt(w, pos).features == Detached(w, pos, t).features;
  }
}
