/** Edge signatures (engine/tile/edgeSignature.go): the feature kind on each
    of the four sides of a tile, indexed by direction. An open board
    position carries one too, with `Blank` on every side that has no placed
    neighbour. */
module EdgeSignatures {
  import opened Directions
  import opened FeatureTypes

  type Signature = s: seq<FeatureType> | |s| == 4 witness [Blank, Blank, Blank, Blank]

  /** The signature with no constraint on any side. */
  const Unconstrained: Signature := [Blank, Blank, Blank, Blank]

  /** A tile signature `sig` fits an open position whose signature is
      `open` when every constrained side of the position matches. */
  function Compatible(sig: Signature, open: Signature): (r: bool)
    ensures r <==> forall j :: 0 <= j < 4 && open[j] != Blank ==> sig[j] == open[j]
  {
    CompatibleFrom(sig, open, 0)
  }

  /** The source's loop over `open`, from index `j` on. */
  function CompatibleFrom(sig: Signature, open: Signature, j: nat): (r: bool)
    requires j <= 4
    ensures r <==> forall k :: j <= k < 4 && open[k] != Blank ==> sig[k] == open[k]
    decreases 4 - j
  {
    if j == 4 then true
    else if open[j] == Blank then CompatibleFrom(sig, open, j + 1)
    else if open[j] != sig[j] then false
    else CompatibleFrom(sig, open, j + 1)
  }

  /** A position with no placed neighbour accepts every tile, and a blank
      side of the position never decides the outcome. */
  lemma CompatibleWithUnconstrained(sig: Signature, open: Signature, j: Direction, t: FeatureType)
    ensures Compatible(sig, Unconstrained)
    ensures open[j] == Blank ==> (Compatible(sig, open) <==> Compatible(sig[j := t], open))
  {
    if open[j] == Blank {
      assert forall k :: 0 <= k < 4 && k != j ==> sig[j := t][k] == sig[k];
    }
  }

  /** How many sides of `sig`, from index `i` on, are river. */
  function RiverCount(sig: Signature, i: nat): (n: nat)
    requires i <= 4
    ensures n >= 1 <==> exists k :: i <= k < 4 && sig[k] == River
    ensures n >= 2 <==> TwoRiversFrom(sig, i)
    decreases 4 - i
  {
    if i == 4 then 0
    else
      var n := RiverCount(sig, i + 1);
      if sig[i] == River then
        assert n >= 1 ==> TwoRiversFrom(sig, i) by {
          if n >= 1 {
            var l :| i + 1 <= l < 4 && sig[l] == River;
            assert i < l && sig[i] == River;
          }
        }
        1 + n
      else
        n
  }

  /** Two different sides, both from index `i` on, are river. */
  predicate TwoRiversFrom(sig: Signature, i: nat)
  {
    exists k, l :: i <= k < l < 4 && sig[k] == River && sig[l] == River
  }

  /** Some river side from index `i` on faces a side that is not river. */
  function UnpairedRiverFrom(sig: Signature, i: nat): (r: bool)
    requires i <= 4
    ensures r <==> exists k :: i <= k < 4 && Unpaired(sig, k)
    decreases 4 - i
  {
    if i == 4 then false
    else if Unpaired(sig, i) then true
    else UnpairedRiverFrom(sig, i + 1)
  }

  /** A river tile turns when it has at least two river sides and one of
      them is not matched by a river on the opposite side. */
  function IsRiverCurving(sig: Signature): (r: bool)
    ensures r <==> TwoRiversFrom(sig, 0) && exists k :: 0 <= k < 4 && Unpaired(sig, k)
  {
    if RiverCount(sig, 0) < 2 then false
    else UnpairedRiverFrom(sig, 0)
  }

  function Contains(sig: Signature, t: FeatureType): (r: bool)
    ensures r <==> exists k :: 0 <= k < 4 && sig[k] == t
  {
    t in sig
  }

  /** The signature of the same tile turned a quarter turn clockwise: each
      side moves to the next direction (north to east, east to south, ...). */
  function Turn(sig: Signature): (r: Signature)
    ensures forall d: Direction :: r[(d + 1) % 4] == sig[d]
  {
    [sig[3], sig[0], sig[1], sig[2]]
  }

  /** Four quarter turns restore a signature. */
  lemma FourTurnsRestore(sig: Signature)
    ensures Turn(Turn(Turn(Turn(sig)))) == sig
  {
  }

  /** Turning a tile and the open position together preserves fit. */
  lemma CompatibleUnderTurn(sig: Signature, open: Signature)
    ensures Compatible(Turn(sig), Turn(open)) == Compatible(sig, open)
  {
    var ts, to := Turn(sig), Turn(open);
    if Compatible(sig, open) {
      forall j | 0 <= j < 4 && to[j] != Blank
        ensures ts[j] == to[j]
      {
        var d: Direction := (j + 3) % 4;
        assert ts[(d + 1) % 4] == sig[d] && to[(d + 1) % 4] == open[d];
      }
    } else {
      var j :| 0 <= j < 4 && open[j] != Blank && sig[j] != open[j];
      var d: Direction := j;
      assert ts[(d + 1) % 4] == sig[d] && to[(d + 1) % 4] == open[d];
    }
  }

  /** Whether a river turns does not depend on how the tile is oriented. */
  lemma {:induction false} CurvingUnderTurn(sig: Signature)
    ensures IsRiverCurving(Turn(sig)) == IsRiverCurving(sig)
  {
    TurnKeepsRiverPairs(sig);
    TurnKeepsUnpaired(sig);
  }

  lemma TurnKeepsRiverPairs(sig: Signature)
    ensures TwoRiversFrom(Turn(sig), 0) <==> TwoRiversFrom(sig, 0)
  {
    var t := Turn(sig);
    if TwoRiversFrom(sig, 0) {
      var k, l :| 0 <= k < l < 4 && sig[k] == River && sig[l] == River;
      var k', l' := (k + 1) % 4, (l + 1) % 4;
      assert t[k'] == River && t[l'] == River && k' != l';
      if k' < l' {
        assert TwoRiversFrom(t, 0);
      } else {
        assert l' < k';
      }
    }
    if TwoRiversFrom(t, 0) {
      var k, l :| 0 <= k < l < 4 && t[k] == River && t[l] == River;
      var k', l' := (k + 3) % 4, (l + 3) % 4;
      assert sig[k'] == River && sig[l'] == River && k' != l';
      if k' < l' {
        assert TwoRiversFrom(sig, 0);
      } else {
        assert l' < k';
      }
    }
  }

  predicate Unpaired(sig: Signature, k: Direction)
  {
    sig[k] == River && sig[Compliment(k)] != River
  }

  lemma TurnKeepsUnpaired(sig: Signature)
    ensures (exists k :: 0 <= k < 4 && Unpaired(Turn(sig), k)) <==> (exists k :: 0 <= k < 4 && Unpaired(sig, k))
  {
    var t := Turn(sig);
    if k :| 0 <= k < 4 && Unpaired(sig, k) {
      var d: Direction := (k + 1) % 4;
      assert Unpaired(t, d);
    }
    if k :| 0 <= k < 4 && Unpaired(t, k) {
      var d: Direction := (k + 3) % 4;
      assert Unpaired(sig, d);
    }
  }

  /** A straight river (north and south) does not turn; a river entering from
      the north and leaving to the east does; a lone river mouth does not. */
  lemma CurvingExamples()
    ensures !IsRiverCurving([River, Farm, River, Farm])
    ensures IsRiverCurving([River, River, Farm, Farm])
    ensures !IsRiverCurving([River, Farm, Farm, Farm])
  {
    var curve: Signature := [River, River, Farm, Farm];
    assert Unpaired(curve, 0);
  }
}
