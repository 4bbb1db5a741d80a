/** The reference catalog of engine/tile/tile.go: reference features, the
    reference tile of each orientation, and the tile groups a deck is made
    of. The catalog is read-only input; pointers become ids into its maps. */
module ReferenceTiles {
  import opened Wrappers
  import opened FeatureTypes
  import opened EdgeSignatures
  import Matrices

  type RefFeatureId = nat
  type RefTileId = nat
  type GroupId = nat

  /** A feature of a reference tile, and the group it was loaded for. */
  datatype RefFeature = RefFeature(ftype: FeatureType, parentGroup: GroupId)

  /** One orientation of a tile design: its 7x7 feature raster, its
      features, the feature touching each side and the side kinds. */
  datatype ReferenceTile = ReferenceTile(
    name: string,
    orientation: int,
    featureMatrix: Matrices.Matrix<Option<RefFeatureId>>,
    features: seq<RefFeatureId>,
    edgeFeatures: seq<RefFeatureId>,
    edgeSignature: Signature)

  /** A tile design and its four orientations, indexed by quarter turns. */
  datatype ReferenceTileGroup = ReferenceTileGroup(name: string, features: seq<RefFeatureId>, orientations: seq<RefTileId>)

  datatype Catalog = Catalog(
    features: map<RefFeatureId, RefFeature>,
    tiles: map<RefTileId, ReferenceTile>,
    groups: map<GroupId, ReferenceTileGroup>)

  /** The side length of a feature raster. */
  const RasterSize: nat := 7

  /** The shape the loader gives the catalog: every id resolves, rasters are
      7x7, every side has a feature of the tile, every raster cell names a
      feature of the tile, and every group has four orientations. */
  predicate WellFormed(c: Catalog)
  {
    && (forall rf :: rf in c.features ==> c.features[rf].parentGroup in c.groups)
    && (forall rt :: rt in c.tiles ==> TileWellFormed(c, c.tiles[rt]))
    && (forall g :: g in c.groups ==>
          |c.groups[g].orientations| == 4
          && forall i :: 0 <= i < 4 ==> c.groups[g].orientations[i] in c.tiles)
  }

  predicate TileWellFormed(c: Catalog, t: ReferenceTile)
  {
    && (forall i :: 0 <= i < |t.features| ==> t.features[i] in c.features)
    && |t.edgeFeatures| == 4
    && (forall i :: 0 <= i < 4 ==> t.edgeFeatures[i] in t.features)
    && Matrices.Valid(t.featureMatrix) && t.featureMatrix.size == RasterSize
    && (forall x, y :: 0 <= x < RasterSize && 0 <= y < RasterSize && Matrices.Get(t.featureMatrix, x, y).Some? ==>
          Matrices.Get(t.featureMatrix, x, y).value in t.features)
  }

  /** `pat` occurs in `s` starting at index `k`. */
  predicate OccursAt(s: string, pat: string, k: nat)
  {
    k + |pat| <= |s| && s[k..k + |pat|] == pat
  }

  /** Whether `pat` occurs in `s` at position `i` or later. */
  function ContainsFrom(s: string, pat: string, i: nat): (r: bool)
    requires i <= |s|
    ensures r <==> exists k: nat :: i <= k && OccursAt(s, pat, k)
    decreases |s| - i
  {
    if i + |pat| > |s| then false
    else if OccursAt(s, pat, i) then true
    else ContainsFrom(s, pat, i + 1)
  }

  /** strings.Contains. */
  function ContainsString(s: string, pat: string): (r: bool)
    ensures r <==> exists k: nat :: OccursAt(s, pat, k)
  {
    ContainsFrom(s, pat, 0)
  }

  const RiverName: string := "River"
  const TerminusName: string := "RiverTerminus"

  /** A river group is one whose name mentions "River". */
  function IsRiverTile(g: ReferenceTileGroup): (r: bool)
    ensures r <==> exists k: nat :: OccursAt(g.name, RiverName, k)
  {
    ContainsString(g.name, RiverName)
  }

  /** The river's source and mouth tile, which is one of the river tiles:
      the deck builders take it out of the river groups by this test. */
  function IsRiverTerminus(g: ReferenceTileGroup): (r: bool)
    ensures r <==> g.name == TerminusName
    ensures r ==> IsRiverTile(g)
  {
    var r := g.name == TerminusName;
    assert r ==> OccursAt(g.name, RiverName, 0);
    r
  }

  /** Names that show which groups count as river tiles. */
  lemma RiverNameExamples()
    ensures IsRiverTile(ReferenceTileGroup("RiverStraight", [], []))
    ensures !IsRiverTile(ReferenceTileGroup("Rive", [], []))
    ensures !IsRiverTerminus(ReferenceTileGroup("RiverStraight", [], []))
  {
    assert OccursAt("RiverStraight", RiverName, 0);
  }
}
