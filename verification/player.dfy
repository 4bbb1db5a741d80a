/** Players and meeples of engine/player.go and engine/meeple.go. A
    meeple is in its owner's pool exactly when it is attached to no
    feature; a feature's attached meeples are those whose feature is it,
    so the two directions of the source's attachment can never disagree. */
module Players {
  import opened Wrappers
  import opened Arena

  type PlayerId = nat
  type MeepleId = nat

  datatype Meeple = Meeple(power: int, player: PlayerId, feature: Option<FeatureId>)

  datatype Player = Player(name: string, score: int, meeples: seq<MeepleId>)

  /** The size of every player's pool. */
  const MeepleCount: nat := 7

  /** NewPlayer: a player with no score and seven fresh meeples of power 1,
      none of them on a feature. The meeples take the ids from `base`. */
  function NewPlayer(name: string, p: PlayerId, base: MeepleId): (r: (Player, map<MeepleId, Meeple>))
    ensures r.0.name == name && r.0.score == 0
    ensures |r.0.meeples| == MeepleCount
    ensures forall i, j :: 0 <= i < j < |r.0.meeples| ==> r.0.meeples[i] != r.0.meeples[j]
    ensures forall m :: m in r.1 <==> m in r.0.meeples
    ensures forall m :: m in r.1 ==> r.1[m] == Meeple(1, p, None)
    ensures r.0.meeples[0] == base
  {
    var ids := seq(MeepleCount, i => base + i);
    (Player(name, 0, ids), map i | 0 <= i < |ids| :: ids[i] := Meeple(1, p, None))
  }

  /** The meeples a player has not placed. */
  function Pool(ms: map<MeepleId, Meeple>, pl: Player): (r: seq<MeepleId>)
    ensures forall m :: m in r <==> m in pl.meeples && m in ms && ms[m].feature.None?
    decreases |pl.meeples|
  {
    if pl.meeples == [] then []
    else
      var m := pl.meeples[0];
      var rest := Pool(ms, pl.(meeples := pl.meeples[1..]));
      if m in ms && ms[m].feature.None? then [m] + rest else rest
  }

  /** The meeples attached to feature `f`. */
  function AttachedMeeples(ms: map<MeepleId, Meeple>, f: FeatureId): (r: set<MeepleId>)
    ensures forall m :: m in r <==> m in ms && ms[m].feature == Some(f)
  {
    set m | m in ms && ms[m].feature == Some(f)
  }

  /** GetAvailableMeepleWithPower: the first pooled meeple of the player
      with at least the asked power, nil when there is none. */
  function AvailableMeepleWithPower(ms: map<MeepleId, Meeple>, ids: seq<MeepleId>, power: int): (r: Option<MeepleId>)
    ensures r.Some? ==> r.value in ids && r.value in ms && ms[r.value].feature.None? && ms[r.value].power >= power
    ensures r.None? <==> forall m :: m in ids && m in ms && ms[m].feature.None? ==> ms[m].power < power
    decreases |ids|
  {
    if ids == [] then None
    else if ids[0] in ms && ms[ids[0]].feature.None? && ms[ids[0]].power >= power then Some(ids[0])
    else AvailableMeepleWithPower(ms, ids[1..], power)
  }

  /** A fresh player has a meeple for any cost up to 1, and none for more. */
  lemma {:induction false} FreshPlayerHasMeeple(name: string, p: PlayerId, base: MeepleId)
    ensures var r := NewPlayer(name, p, base);
      && AvailableMeepleWithPower(r.1, r.0.meeples, 1) == Some(base)
      && AvailableMeepleWithPower(r.1, r.0.meeples, 2).None?
      && |Pool(r.1, r.0)| == MeepleCount
  {
    var r := NewPlayer(name, p, base);
    var ids := r.0.meeples;
    assert ids[0] in r.1 && r.1[ids[0]] == Meeple(1, p, None);
    assert AvailableMeepleWithPower(r.1, ids, 1) == Some(ids[0]);
    PoolOfFresh(r.1, ids, p);
    assert r.0 == Player(name, 0, ids);
    PoolIgnoresName(r.1, r.0);
  }

  lemma {:induction false} PoolOfFresh(ms: map<MeepleId, Meeple>, ids: seq<MeepleId>, p: PlayerId)
    requires forall m :: m in ids ==> m in ms && ms[m].feature.None?
    ensures Pool(ms, Player("", 0, ids)) == ids
    decreases |ids|
  {
    if ids != [] {
      PoolOfFresh(ms, ids[1..], p);
      assert Player("", 0, ids).(meeples := ids[1..]) == Player("", 0, ids[1..]);
    }
  }

  /** The pool depends only on the player's meeples. */
  lemma {:induction false} PoolIgnoresName(ms: map<MeepleId, Meeple>, pl: Player)
    ensures Pool(ms, pl) == Pool(ms, Player("", 0, pl.meeples))
    decreases |pl.meeples|
  {
    if pl.meeples != [] {
      PoolIgnoresName(ms, pl.(meeples := pl.meeples[1..]));
      assert Player("", 0, pl.meeples).(meeples := pl.meeples[1..]) == Player("", 0, pl.meeples[1..]);
    }
  }

  /** The older DeterminePlacement of engine/player.go: the option holding
      the first strictly best feature score above zero, or, when no option
      scores, the one the random draw selects; nil with no options.
      `scores(i)` stands for the feature scores the older evaluation finds
      for option `i`. */
  function OlderDeterminePlacement(n: nat, scores: nat -> seq<int>, draw: nat): (r: Option<nat>)
    ensures r.None? <==> n == 0
    ensures r.Some? ==> r.value < n
  {
    if n == 0 then None
    else
      var best := BestScoring(n, scores, 0, 0, None);
      if best.1.Some? then best.1 else Some(draw % n)
  }

  /** What the scan keeps: a best score of 0 with no option yet, or a
      score that the kept option reaches. */
  predicate Kept(scores: nat -> seq<int>, bestScore: int, best: Option<nat>)
  {
    if best.None? then bestScore == 0 else bestScore > 0 && bestScore in scores(best.value)
  }

  /** The scan over options from `i`, keeping the best score so far and
      the option that first reached it. */
  function BestScoring(n: nat, scores: nat -> seq<int>, i: nat, bestScore: int, best: Option<nat>): (r: (int, Option<nat>))
    requires i <= n && (best.Some? ==> best.value < n)
    requires Kept(scores, bestScore, best)
    ensures r.0 >= bestScore && Kept(scores, r.0, r.1)
    ensures r.1.Some? ==> r.1.value < n
    ensures forall j, k :: i <= j < n && 0 <= k < |scores(j)| ==> scores(j)[k] <= r.0
    decreases n - i
  {
    if i == n then (bestScore, best)
    else
      var step := BestIn(scores(i), 0, bestScore, best, i);
      BestScoring(n, scores, i + 1, step.0, step.1)
  }

  /** The scan over the feature scores of option `i`: a strictly greater
      score makes `i` the kept option. */
  function BestIn(s: seq<int>, k: nat, bestScore: int, best: Option<nat>, i: nat): (r: (int, Option<nat>))
    requires k <= |s| && bestScore >= 0
    ensures r.0 >= bestScore
    ensures (r.0 == bestScore && r.1 == best) || (r.1 == Some(i) && r.0 in s && r.0 > bestScore)
    ensures forall j :: k <= j < |s| ==> s[j] <= r.0
    decreases |s| - k
  {
    if k == |s| then (bestScore, best)
    else if s[k] > bestScore then BestIn(s, k + 1, s[k], Some(i), i)
    else BestIn(s, k + 1, bestScore, best, i)
  }

  /** The largest entry, 0 for none. */
  function MaxScore(s: seq<int>): (m: int)
    ensures forall j :: 0 <= j < |s| ==> s[j] <= m
    ensures m == 0 || m in s
  {
    if s == [] then 0
    else
      var rest := MaxScore(s[1..]);
      if s[0] > rest then s[0] else rest
  }

  /** When some option scores above zero, the choice is an option whose
      best feature score is at least every score of every option. */
  lemma OlderChoosesBest(n: nat, scores: nat -> seq<int>, draw: nat, i: nat, k: nat)
    requires i < n && k < |scores(i)| && scores(i)[k] > 0
    ensures OlderDeterminePlacement(n, scores, draw).Some?
    ensures var c := OlderDeterminePlacement(n, scores, draw).value;
      forall j, l :: 0 <= j < n && 0 <= l < |scores(j)| ==> scores(j)[l] <= MaxScore(scores(c))
  {
    var best := BestScoring(n, scores, 0, 0, None);
    assert best.0 >= scores(i)[k] > 0;
  }

  /** When no option scores above zero, the random draw decides. */
  lemma OlderFallsBackToDraw(n: nat, scores: nat -> seq<int>, draw: nat)
    requires n > 0
    requires forall j, l :: 0 <= j < n && 0 <= l < |scores(j)| ==> scores(j)[l] <= 0
    ensures OlderDeterminePlacement(n, scores, draw) == Some(draw % n)
  {
  }
}
