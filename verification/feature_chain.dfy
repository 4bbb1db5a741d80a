/** The feature-chain resolver of engine/featureChain.go: the features a
    feature is joined to through links, the tiles they lie on, whether the
    chain is closed, what it scores and which players own it. */
module FeatureChains {
  import opened Wrappers
  import opened Directions
  import opened FeatureTypes
  import opened Arena
  import opened Graphs
  import opened Players

  // ---------------------------------------------------------------------
  // Components of the link graph
  // ---------------------------------------------------------------------

  /** The links as a graph over the features of the arena. */
  function LinkGraph(fs: map<FeatureId, Feature>): (g: Graph)
    ensures g.Keys == fs.Keys
    ensures forall f :: f in fs ==> g[f] == fs[f].links
  {
    map f | f in fs :: fs[f].links
  }

  /** Every link names a feature of the arena. */
  predicate LinksResolve(fs: map<FeatureId, Feature>)
  {
    forall f :: f in fs ==> fs[f].links <= fs.Keys
  }

  lemma ResolvedGraphIsClosed(fs: map<FeatureId, Feature>)
    requires LinksResolve(fs)
    ensures Closed(LinkGraph(fs))
  {
  }

  /** One round of widening: `s` and every successor of a member. */
  function Widen(g: Graph, s: set<Node>): (r: set<Node>)
    requires Closed(g) && s <= g.Keys
    ensures s <= r <= g.Keys
    ensures forall v, w :: v in s && w in g[v] ==> w in r
    ensures forall w :: w in r ==> w in s || exists v :: v in s && w in g[v]
  {
    s + set v, w | v in s && w in g[v] :: w
  }

  /** Widening until nothing changes: the least closed set around `s`. */
  function Closure(g: Graph, s: set<Node>): (r: set<Node>)
    requires Closed(g) && s <= g.Keys
    ensures s <= r <= g.Keys && ClosedSet(g, r)
    decreases |g.Keys - s|
  {
    var s' := Widen(g, s);
    if s' == s then s
    else
      GrowingShrinksRest(g.Keys, s, s');
      Closure(g, s')
  }

  lemma GrowingShrinksRest(keys: set<Node>, s: set<Node>, s': set<Node>)
    requires s <= s' <= keys && s' != s
    ensures |keys - s'| < |keys - s|
  {
    var x :| x in s' && x !in s;
    CardinalityOfSubset(keys - s', (keys - s) - {x});
    assert (keys - s) == ((keys - s) - {x}) + {x};
  }

  /** The features reachable from `start`: what the traversal visits. */
  function Component(g: Graph, start: Node): (r: set<Node>)
    requires Closed(g) && start in g
    ensures start in r && r <= g.Keys && ClosedSet(g, r)
  {
    Closure(g, {start})
  }

  /** Everything the closure adds is reachable from a member of `s`. */
  lemma {:induction false} ClosureReachable(g: Graph, start: Node, s: set<Node>)
    requires Closed(g) && s <= g.Keys
    requires forall v :: v in s ==> Reachable(g, start, v)
    ensures forall v :: v in Closure(g, s) ==> Reachable(g, start, v)
    decreases |g.Keys - s|
  {
    var s' := Widen(g, s);
    if s' != s {
      forall w | w in s' ensures Reachable(g, start, w) {
        if w !in s {
          var v :| v in s && w in g[v];
          ReachStep(g, start, v, w);
        }
      }
      GrowingShrinksRest(g.Keys, s, s');
      ClosureReachable(g, start, s');
    }
  }

  /** The component is exactly the set of features reachable from `start`. */
  lemma ComponentIsReachable(g: Graph, start: Node, v: Node)
    requires Closed(g) && start in g
    ensures v in Component(g, start) <==> Reachable(g, start, v)
  {
    ReachSelf(g, start);
    ClosureReachable(g, start, {start});
    if Reachable(g, start, v) {
      ClosedHoldsReachable(g, start, Component(g, start), v);
    }
  }

  /** A set that holds `start`, is closed and holds only reachable
      features is the component. */
  lemma ComponentUnique(g: Graph, start: Node, visited: set<Node>)
    requires Closed(g) && start in g
    requires start in visited && ClosedSet(g, visited)
    requires forall v :: v in visited ==> Reachable(g, start, v)
    ensures visited == Component(g, start)
  {
    forall v | v in visited ensures v in Component(g, start) {
      ComponentIsReachable(g, start, v);
    }
    forall v | v in Component(g, start) ensures v in visited {
      ComponentIsReachable(g, start, v);
      ClosedHoldsReachable(g, start, visited, v);
    }
  }

  /** traverseFeatureLinks (and VisitFeatureLinks of engine/player.go,
      which repeats it): the stack traversal visits exactly the component
      of the start feature. */
  method TraverseFeatureLinks(fs: map<FeatureId, Feature>, start: FeatureId) returns (visited: set<FeatureId>)
    requires LinksResolve(fs) && start in fs
    ensures visited == Component(LinkGraph(fs), start)
  {
    var g := LinkGraph(fs);
    visited := VisitLinks(g, start);
    ComponentUnique(g, start, visited);
  }

  // ---------------------------------------------------------------------
  // The chain
  // ---------------------------------------------------------------------

  /** What the chain reads of the arena: links resolve, and every feature's
      tile is in the arena. */
  predicate Resolvable(fs: map<FeatureId, Feature>, tiles: map<TileId, Tile>)
  {
    LinksResolve(fs) && forall f :: f in fs ==> fs[f].parentTile in tiles
  }

  /** The tiles a set of features lies on. */
  function TilesOf(fs: map<FeatureId, Feature>, vs: set<FeatureId>): (r: set<TileId>)
    requires vs <= fs.Keys
    ensures forall t :: t in r <==> exists f :: f in vs && fs[f].parentTile == t
  {
    set f | f in vs :: fs[f].parentTile
  }

  /** How many sides of tile `t` carry feature `f`. */
  function EdgeCount(t: Tile, f: FeatureId): (n: nat)
    ensures n <= 4
    ensures n == 0 <==> forall d: Direction :: d < |t.edgeFeatures| ==> t.edgeFeatures[d] != Some(f)
  {
    EdgeCountFrom(t, f, 0)
  }

  function EdgeCountFrom(t: Tile, f: FeatureId, d: nat): (n: nat)
    requires d <= 4
    ensures n <= 4 - d
    ensures n == 0 <==> forall e: Direction :: d <= e < |t.edgeFeatures| ==> t.edgeFeatures[e] != Some(f)
    decreases 4 - d
  {
    if d == 4 then 0
    else (if d < |t.edgeFeatures| && t.edgeFeatures[d] == Some(f) then 1 else 0) + EdgeCountFrom(t, f, d + 1)
  }

  /** determineCompleteness: every visited feature has as many links as
      sides of its tile it touches. */
  predicate Complete(fs: map<FeatureId, Feature>, tiles: map<TileId, Tile>, vs: set<FeatureId>)
    requires Resolvable(fs, tiles) && vs <= fs.Keys
  {
    forall f :: f in vs ==> |fs[f].links| == EdgeCount(tiles[fs[f].parentTile], f)
  }

  /** FeatureType.Score: Road 1, Castle 2, nothing for the other kinds. */
  function TypeScore(t: FeatureType): (s: nat)
    ensures s > 0 <==> t == Road || t == Castle
  {
    match t
    case Road => 1
    case Castle => 2
    case _ => 0
  }

  /** The Shield features among `vs`. */
  function ShieldsIn(fs: map<FeatureId, Feature>, vs: set<FeatureId>): (r: set<FeatureId>)
    requires vs <= fs.Keys
    ensures r <= vs && forall f :: f in vs ==> (f in r <==> fs[f].ftype == Shield)
  {
    set f | f in vs && fs[f].ftype == Shield
  }

  /** computeScore, as written: a road scores per tile; a castle scores
      twice per tile and twice per Shield feature visited; every other
      kind scores nothing. */
  function ChainScore(fs: map<FeatureId, Feature>, start: FeatureId, vs: set<FeatureId>): (s: nat)
    requires start in fs && vs <= fs.Keys
    ensures fs[start].ftype == Road ==> s == |TilesOf(fs, vs)|
    ensures fs[start].ftype == Castle ==> s == 2 * |TilesOf(fs, vs)| + 2 * |ShieldsIn(fs, vs)|
    ensures fs[start].ftype != Road && fs[start].ftype != Castle ==> s == 0
  {
    var ft := fs[start].ftype;
    if ft == Road then TypeScore(ft) * |TilesOf(fs, vs)|
    else if ft == Castle then TypeScore(ft) * |TilesOf(fs, vs)| + TypeScore(ft) * |ShieldsIn(fs, vs)|
    else 0
  }

  /** The meeples on the visited features. */
  function ChainMeeples(ms: map<MeepleId, Meeple>, vs: set<FeatureId>): (r: set<MeepleId>)
    ensures forall m :: m in r <==> m in ms && ms[m].feature.Some? && ms[m].feature.value in vs
  {
    set m | m in ms && ms[m].feature.Some? && ms[m].feature.value in vs
  }

  /** How many of `meeples` belong to player `p`. */
  function CountOf(ms: map<MeepleId, Meeple>, meeples: set<MeepleId>, p: PlayerId): (n: nat)
    requires meeples <= ms.Keys
    ensures n <= |meeples|
    ensures n > 0 <==> exists m :: m in meeples && ms[m].player == p
  {
    var mine := set m | m in meeples && ms[m].player == p;
    CardinalityOfSubset(mine, meeples);
    assert forall m :: m in meeples && ms[m].player == p ==> m in mine;
    |mine|
  }

  lemma CardinalityOfSubset<T>(a: set<T>, b: set<T>)
    requires a <= b
    ensures |a| <= |b|
  {
    assert b == a + (b - a);
  }

  /** The largest count over players `0 .. n-1` (0 when nobody has one). */
  function MostOf(ms: map<MeepleId, Meeple>, meeples: set<MeepleId>, n: nat): (top: nat)
    requires meeples <= ms.Keys
    ensures forall p :: 0 <= p < n ==> CountOf(ms, meeples, p) <= top
    ensures top == 0 || exists p :: 0 <= p < n && CountOf(ms, meeples, p) == top
  {
    if n == 0 then 0
    else
      var rest := MostOf(ms, meeples, n - 1);
      var c := CountOf(ms, meeples, n - 1);
      if c > rest then c else rest
  }

  /** computeOwners: two nil slots, then every player (of `0 .. n-1`, in
      id order) whose count reaches the most any player has. */
  function Owners(ms: map<MeepleId, Meeple>, meeples: set<MeepleId>, n: nat): (os: seq<Option<PlayerId>>)
    requires meeples <= ms.Keys
    ensures |os| >= 2 && os[0] == None && os[1] == None
    ensures forall p: PlayerId :: Some(p) in os <==> p < n && CountOf(ms, meeples, p) > 0 && CountOf(ms, meeples, p) == MostOf(ms, meeples, n)
  {
    [None, None] + TiedFrom(ms, meeples, n, MostOf(ms, meeples, n), 0)
  }

  /** The players from `p` up to `n` whose non-zero count is `top`. */
  function TiedFrom(ms: map<MeepleId, Meeple>, meeples: set<MeepleId>, n: nat, top: nat, p: nat): (os: seq<Option<PlayerId>>)
    requires meeples <= ms.Keys
    ensures forall q: PlayerId :: Some(q) in os <==> p <= q < n && CountOf(ms, meeples, q) > 0 && CountOf(ms, meeples, q) == top
    ensures None !in os
    decreases n - p
  {
    if p >= n then []
    else
      var rest := TiedFrom(ms, meeples, n, top, p + 1);
      var c := CountOf(ms, meeples, p);
      if c > 0 && c == top then [Some(p)] + rest else rest
  }

  /** An engine-level feature chain: the start feature, what it visits,
      whether it is closed, its score, its meeples and owners. */
  datatype Chain = Chain(
    feature: FeatureId,
    featuresVisited: set<FeatureId>,
    tilesVisited: set<TileId>,
    isComplete: bool,
    score: nat,
    meeples: set<MeepleId>,
    owners: seq<Option<PlayerId>>)

  /** newFeatureChain followed by computeScore, computeMeeples,
      computePlayerMeeplesMap and computeOwners, for `n` players. The
      score is the corrected one, which counts the Shields on the castle's
      tiles (ChainScore is the score as written). */
  function NewChain(fs: map<FeatureId, Feature>, tiles: map<TileId, Tile>, ms: map<MeepleId, Meeple>, n: nat, start: FeatureId): (c: Chain)
    requires Resolvable(fs, tiles) && start in fs
    ensures c.feature == start && start in c.featuresVisited && c.featuresVisited <= fs.Keys
    ensures forall v :: v in c.featuresVisited <==> Reachable(LinkGraph(fs), start, v)
    ensures c.tilesVisited == TilesOf(fs, c.featuresVisited)
    ensures c.isComplete == Complete(fs, tiles, c.featuresVisited)
    ensures c.score == CorrectedChainScore(fs, start, c.featuresVisited)
    ensures c.meeples == ChainMeeples(ms, c.featuresVisited)
    ensures c.owners == Owners(ms, c.meeples, n)
  {
    var g := LinkGraph(fs);
    var vs := Component(g, start);
    forall v ensures v in vs <==> Reachable(g, start, v) {
      ComponentIsReachable(g, start, v);
    }
    var meeples := ChainMeeples(ms, vs);
    Chain(start, vs, TilesOf(fs, vs), Complete(fs, tiles, vs), CorrectedChainScore(fs, start, vs), meeples, Owners(ms, meeples, n))
  }

  /** direct: the score once the chain is closed, nothing before. */
  function Direct(c: Chain): (s: nat)
  {
    if !c.isComplete then 0 else c.score
  }

  /** potential: the score while the chain is open, nothing after. */
  function Potential(c: Chain): (s: nat)
  {
    if c.isComplete then 0 else c.score
  }

  /** Exactly one of the two carries the score. */
  lemma DirectPlusPotential(c: Chain)
    ensures Direct(c) + Potential(c) == c.score
    ensures Direct(c) == 0 || Potential(c) == 0
  {
  }

  /** hasOwner: some meeple sits on the chain. */
  function HasOwner(c: Chain): (r: bool)
  {
    |c.meeples| > 0
  }

  /** isOwner: the player is among the owners (the nil slots match no one). */
  function IsOwner(c: Chain, p: PlayerId): (r: bool)
  {
    Some(p) in c.owners
  }

  /** distanceFromOwner: how many meeples the player lacks to the most any
      player has on the chain; never negative. */
  function DistanceFromOwner(ms: map<MeepleId, Meeple>, c: Chain, n: nat, p: PlayerId): (d: int)
    requires c.meeples <= ms.Keys
    ensures p < n ==> d >= 0
    ensures p < n ==> (d == 0 <==> CountOf(ms, c.meeples, p) == MostOf(ms, c.meeples, n))
  {
    MostOf(ms, c.meeples, n) - CountOf(ms, c.meeples, p)
  }

  /** The owners are exactly the players with a meeple on the chain whose
      distance to the most is zero, and a chain with a meeple of a player
      of the game has an owner. */
  lemma {:induction false} OwnersAreClosest(ms: map<MeepleId, Meeple>, c: Chain, n: nat, p: PlayerId)
    requires c.meeples <= ms.Keys && c.owners == Owners(ms, c.meeples, n) && p < n
    ensures IsOwner(c, p) <==> CountOf(ms, c.meeples, p) > 0 && DistanceFromOwner(ms, c, n, p) == 0
    ensures (exists m :: m in c.meeples && ms[m].player < n) ==> exists q :: IsOwner(c, q)
  {
    if m :| m in c.meeples && ms[m].player < n {
      OwnerExists(ms, c.meeples, n, m);
      var q: PlayerId :| Some(q) in c.owners;
      assert IsOwner(c, q);
    }
  }

  /** A chain has an owner exactly when some player of the game owns it,
      provided every meeple on it belongs to a player of the game. */
  lemma HasOwnerIffSomeOwner(ms: map<MeepleId, Meeple>, c: Chain, n: nat)
    requires c.meeples <= ms.Keys && c.owners == Owners(ms, c.meeples, n)
    requires forall m :: m in c.meeples ==> ms[m].player < n
    ensures HasOwner(c) <==> exists q :: IsOwner(c, q)
  {
    if HasOwner(c) {
      var m :| m in c.meeples;
      OwnerExists(ms, c.meeples, n, m);
      var q: PlayerId :| Some(q) in c.owners;
      assert IsOwner(c, q);
    } else {
      forall q ensures !IsOwner(c, q) {
        assert CountOf(ms, c.meeples, q) == 0;
      }
    }
  }

  lemma OwnerExists(ms: map<MeepleId, Meeple>, meeples: set<MeepleId>, n: nat, m: MeepleId)
    requires meeples <= ms.Keys && m in meeples && ms[m].player < n
    ensures exists q: PlayerId :: Some(q) in Owners(ms, meeples, n)
  {
    var q := ms[m].player;
    assert CountOf(ms, meeples, q) > 0;
    var top := MostOf(ms, meeples, n);
    var r: PlayerId :| 0 <= r < n && CountOf(ms, meeples, r) == top;
    assert Some(r) in Owners(ms, meeples, n);
  }

  /** A feature that touches no side and has no links is a closed chain
      on its own (a cloister, say); one that touches a side and has no
      links is open. */
  lemma LoneFeatureClosedIffNoSide(fs: map<FeatureId, Feature>, tiles: map<TileId, Tile>, ms: map<MeepleId, Meeple>, n: nat, f: FeatureId)
    requires Resolvable(fs, tiles) && f in fs && fs[f].links == {}
    ensures NewChain(fs, tiles, ms, n, f).featuresVisited == {f}
    ensures NewChain(fs, tiles, ms, n, f).isComplete <==> EdgeCount(tiles[fs[f].parentTile], f) == 0
  {
    var g := LinkGraph(fs);
    var vs := Component(g, f);
    assert ClosedSet(g, {f});
    forall v | v in vs ensures v == f {
      ComponentIsReachable(g, f, v);
      ClosedHoldsReachable(g, f, {f}, v);
    }
  }

  // ---------------------------------------------------------------------
  // Shields
  // ---------------------------------------------------------------------

  /** Links only join features of one kind. PlaceTile links a pair only
      when both reference features are of one kind. */
  predicate LinksSameKind(fs: map<FeatureId, Feature>)
  {
    forall f, g :: f in fs && g in fs[f].links && g in fs ==> fs[g].ftype == fs[f].ftype
  }

  /** With links of one kind, a chain holds features of its start's kind only. */
  lemma ChainIsOneKind(fs: map<FeatureId, Feature>, start: FeatureId, v: FeatureId)
    requires LinksResolve(fs) && LinksSameKind(fs) && start in fs
    requires v in Component(LinkGraph(fs), start)
    ensures fs[v].ftype == fs[start].ftype
  {
    var g := LinkGraph(fs);
    var kind := set f | f in fs && fs[f].ftype == fs[start].ftype;
    assert ClosedSet(g, kind);
    ComponentIsReachable(g, start, v);
    ClosedHoldsReachable(g, start, kind, v);
  }

  /** So the Shield bonus of computeScore never applies: a castle chain
      visits no Shield feature and scores twice its tiles. */
  lemma ShieldBonusUnreachable(fs: map<FeatureId, Feature>, start: FeatureId)
    requires LinksResolve(fs) && LinksSameKind(fs) && start in fs && fs[start].ftype == Castle
    ensures ShieldsIn(fs, Component(LinkGraph(fs), start)) == {}
    ensures ChainScore(fs, start, Component(LinkGraph(fs), start)) == 2 * |TilesOf(fs, Component(LinkGraph(fs), start))|
  {
    var vs := Component(LinkGraph(fs), start);
    forall v | v in vs ensures fs[v].ftype == Castle {
      ChainIsOneKind(fs, start, v);
    }
  }

  /** The Shield features lying on the visited tiles. */
  function ShieldsOnTiles(fs: map<FeatureId, Feature>, ts: set<TileId>): (r: set<FeatureId>)
    ensures forall f :: f in r <==> f in fs && fs[f].ftype == Shield && fs[f].parentTile in ts
  {
    set f | f in fs && fs[f].ftype == Shield && fs[f].parentTile in ts
  }

  /** The score computeScore evidently means: a castle also earns twice
      per Shield feature on the tiles the castle covers. */
  function CorrectedChainScore(fs: map<FeatureId, Feature>, start: FeatureId, vs: set<FeatureId>): (s: nat)
    requires start in fs && vs <= fs.Keys
    ensures fs[start].ftype == Road ==> s == |TilesOf(fs, vs)|
    ensures fs[start].ftype == Castle ==> s == 2 * |TilesOf(fs, vs)| + 2 * |ShieldsOnTiles(fs, TilesOf(fs, vs))|
    ensures fs[start].ftype != Road && fs[start].ftype != Castle ==> s == 0
  {
    var ft := fs[start].ftype;
    var ts := TilesOf(fs, vs);
    if ft == Road then TypeScore(ft) * |ts|
    else if ft == Castle then TypeScore(ft) * |ts| + TypeScore(ft) * |ShieldsOnTiles(fs, ts)|
    else 0
  }

  /** The corrected score never falls below the written one when links are
      of one kind, and agrees with it on roads. */
  lemma CorrectedScoreDominates(fs: map<FeatureId, Feature>, start: FeatureId)
    requires LinksResolve(fs) && LinksSameKind(fs) && start in fs
    ensures var vs := Component(LinkGraph(fs), start);
      ChainScore(fs, start, vs) <= CorrectedChainScore(fs, start, vs)
      && (fs[start].ftype != Castle ==> ChainScore(fs, start, vs) == CorrectedChainScore(fs, start, vs))
  {
    if fs[start].ftype == Castle {
      ShieldBonusUnreachable(fs, start);
    }
  }

  /** The chain NewChain builds scores what computeScore as written gives,
      plus, for a castle, the bonus for the Shields on its tiles that the
      written traversal never visits. */
  lemma NewChainScoreAgainstWritten(fs: map<FeatureId, Feature>, tiles: map<TileId, Tile>, ms: map<MeepleId, Meeple>, n: nat, start: FeatureId)
    requires Resolvable(fs, tiles) && LinksSameKind(fs) && start in fs
    ensures var c := NewChain(fs, tiles, ms, n, start);
      c.score == ChainScore(fs, start, c.featuresVisited)
        + (if fs[start].ftype == Castle then 2 * |ShieldsOnTiles(fs, c.tilesVisited)| else 0)
  {
    var c := NewChain(fs, tiles, ms, n, start);
    assert c.featuresVisited == Component(LinkGraph(fs), start);
    if fs[start].ftype == Castle {
      ShieldBonusUnreachable(fs, start);
    }
  }

  /** Two castle halves joined by a link, one of them on a tile that also
      carries a Shield: the written score is 4, the evidently meant 6. */
  const CastleA: FeatureId := 0
  const CastleB: FeatureId := 1
  const ShieldB: FeatureId := 2

  function ShieldWorld(): (fs: map<FeatureId, Feature>)
    ensures fs.Keys == {CastleA, CastleB, ShieldB}
    ensures fs[CastleA] == Feature(Castle, 0, 0, {CastleB})
    ensures fs[CastleB] == Feature(Castle, 1, 0, {CastleA})
    ensures fs[ShieldB] == Feature(Shield, 1, 1, {})
  {
    map[CastleA := Feature(Castle, 0, 0, {CastleB}),
        CastleB := Feature(Castle, 1, 0, {CastleA}),
        ShieldB := Feature(Shield, 1, 1, {})]
  }

  lemma ShieldExample()
    ensures var fs := ShieldWorld();
      && LinksResolve(fs) && LinksSameKind(fs)
      && Component(LinkGraph(fs), CastleA) == {CastleA, CastleB}
      && ChainScore(fs, CastleA, {CastleA, CastleB}) == 4
      && CorrectedChainScore(fs, CastleA, {CastleA, CastleB}) == 6
  {
    var fs := ShieldWorld();
    ShieldExampleComponent(fs, LinkGraph(fs));
    ShieldExampleKinds(fs);
    ShieldExampleScores(fs);
  }

  /** The example's features, as the lemmas below read them. */
  predicate IsShieldWorld(fs: map<FeatureId, Feature>)
  {
    && fs.Keys == {CastleA, CastleB, ShieldB}
    && fs[CastleA] == Feature(Castle, 0, 0, {CastleB})
    && fs[CastleB] == Feature(Castle, 1, 0, {CastleA})
    && fs[ShieldB] == Feature(Shield, 1, 1, {})
  }

  /** The example's scores, read off its tiles and shields. */
  lemma ShieldExampleScores(fs: map<FeatureId, Feature>)
    requires IsShieldWorld(fs)
    ensures ChainScore(fs, CastleA, {CastleA, CastleB}) == 4
    ensures CorrectedChainScore(fs, CastleA, {CastleA, CastleB}) == 6
  {
    ShieldExampleWritten(fs);
    ShieldExampleCorrected(fs);
  }

  lemma ShieldExampleWritten(fs: map<FeatureId, Feature>)
    requires IsShieldWorld(fs)
    ensures ChainScore(fs, CastleA, {CastleA, CastleB}) == 4
  {
    var vs := {CastleA, CastleB};
    assert Castle == fs[CastleA].ftype && vs <= fs.Keys;
    assert |TilesOf(fs, vs)| == 2 by {
      ShieldExampleTiles(fs);
    }
    assert ShieldsIn(fs, vs) == {} by {
      ShieldExampleNoShieldVisited(fs);
    }
    WrittenScoreOf(fs, vs);
  }

  lemma ShieldExampleCorrected(fs: map<FeatureId, Feature>)
    requires IsShieldWorld(fs)
    ensures CorrectedChainScore(fs, CastleA, {CastleA, CastleB}) == 6
  {
    var vs := {CastleA, CastleB};
    assert Castle == fs[CastleA].ftype && vs <= fs.Keys;
    assert |TilesOf(fs, vs)| == 2 && |ShieldsOnTiles(fs, TilesOf(fs, vs))| == 1 by {
      ShieldExampleTiles(fs);
      ShieldExampleShields(fs);
    }
    CorrectedScoreOf(fs, vs);
  }

  lemma WrittenScoreOf(fs: map<FeatureId, Feature>, vs: set<FeatureId>)
    requires CastleA in fs && fs[CastleA].ftype == Castle && vs <= fs.Keys
    requires |TilesOf(fs, vs)| == 2 && ShieldsIn(fs, vs) == {}
    ensures ChainScore(fs, CastleA, vs) == 4
  {
  }

  lemma CorrectedScoreOf(fs: map<FeatureId, Feature>, vs: set<FeatureId>)
    requires CastleA in fs && fs[CastleA].ftype == Castle && vs <= fs.Keys
    requires |TilesOf(fs, vs)| == 2 && |ShieldsOnTiles(fs, TilesOf(fs, vs))| == 1
    ensures CorrectedChainScore(fs, CastleA, vs) == 6
  {
  }

  lemma ExampleSizes()
    ensures |TileSet()| == 2 && |{ShieldB}| == 1 && TileSet() == {0, 1}
  {
  }

  function TileSet(): (ts: set<TileId>)
    ensures ts == {0, 1}
  {
    {0, 1}
  }

  lemma ShieldExampleKinds(fs: map<FeatureId, Feature>)
    requires IsShieldWorld(fs)
    ensures LinksResolve(fs) && LinksSameKind(fs)
  {
    forall f, g | f in fs && g in fs[f].links && g in fs ensures fs[g].ftype == fs[f].ftype {
      assert f == CastleA || f == CastleB || f == ShieldB;
    }
  }

  lemma ShieldExampleTiles(fs: map<FeatureId, Feature>)
    requires IsShieldWorld(fs)
    ensures TilesOf(fs, {CastleA, CastleB}) == TileSet() && |TilesOf(fs, {CastleA, CastleB})| == 2
  {
    ExampleSizes();
    var ts := TilesOf(fs, {CastleA, CastleB});
    assert fs[CastleA].parentTile == 0 && fs[CastleB].parentTile == 1;
    assert 0 in ts && 1 in ts;
    forall t | t in ts ensures t == 0 || t == 1 {
      var f :| f in {CastleA, CastleB} && fs[f].parentTile == t;
    }
  }

  lemma ShieldExampleNoShieldVisited(fs: map<FeatureId, Feature>)
    requires IsShieldWorld(fs)
    ensures ShieldsIn(fs, {CastleA, CastleB}) == {}
  {
  }

  lemma ShieldExampleShields(fs: map<FeatureId, Feature>)
    requires IsShieldWorld(fs)
    ensures ShieldsOnTiles(fs, TileSet()) == {ShieldB} && |ShieldsOnTiles(fs, TileSet())| == 1
  {
    var sh := ShieldsOnTiles(fs, {0, 1});
    assert ShieldB in sh;
    forall f | f in sh ensures f == ShieldB {
      assert f == CastleA || f == CastleB || f == ShieldB;
    }
  }

  lemma ShieldExampleComponent(fs: map<FeatureId, Feature>, g: Graph)
    requires fs == ShieldWorld() && g == LinkGraph(fs)
    ensures LinksResolve(fs) && Component(g, CastleA) == {CastleA, CastleB}
  {
    var vs := {CastleA, CastleB};
    assert ClosedSet(g, vs);
    ReachSelf(g, CastleA);
    ReachStep(g, CastleA, CastleA, CastleB);
    ComponentUnique(g, CastleA, vs);
  }
}
