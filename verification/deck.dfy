/** The tile deck of engine/deck/deck.go: a sequence of tile groups taken
    from the front. The deck holds group ids of the catalog. */
module Decks {
  import opened Wrappers
  import opened ReferenceTiles
  import opened Randoms

  datatype Deck = Deck(tiles: seq<GroupId>)

  /** Scry: the front group without taking it; an error on an empty deck. */
  function Scry(d: Deck): (r: Result<GroupId>)
    ensures r.Err? <==> |d.tiles| == 0
    ensures r.Ok? ==> r.value == d.tiles[0]
  {
    if |d.tiles| < 1 then Err("Deck is Empty") else Ok(d.tiles[0])
  }

  /** Pop: the front group and the deck without it; an error on an empty
      deck, which is left as it was. */
  function Pop(d: Deck): (r: Result<(GroupId, Deck)>)
    ensures r.Err? <==> |d.tiles| == 0
    ensures r.Ok? ==> [r.value.0] + r.value.1.tiles == d.tiles
  {
    if |d.tiles| < 1 then Err("Deck is Empty") else Ok((d.tiles[0], Deck(d.tiles[1..])))
  }

  function Remaining(d: Deck): (n: nat)
    ensures n == 0 <==> d.tiles == []
  {
    |d.tiles|
  }

  function Prepend(d: Deck, g: GroupId): (r: Deck)
    ensures |r.tiles| == |d.tiles| + 1 && r.tiles[0] == g && r.tiles[1..] == d.tiles
  {
    Deck([g] + d.tiles)
  }

  function Append(d: Deck, g: GroupId): (r: Deck)
    ensures |r.tiles| == |d.tiles| + 1 && r.tiles[..|d.tiles|] == d.tiles && r.tiles[|d.tiles|] == g
  {
    Deck(d.tiles + [g])
  }

  /** Scry shows what Pop takes. */
  lemma ScryIsPopFront(d: Deck)
    ensures Scry(d).Ok? <==> Pop(d).Ok?
    ensures Pop(d).Ok? ==> Scry(d).value == Pop(d).value.0
  {
  }

  /** Pop undoes Prepend, and takes one group off the count. */
  lemma PopUndoesPrepend(d: Deck, g: GroupId)
    ensures Pop(Prepend(d, g)) == Ok((g, d))
    ensures Remaining(Prepend(d, g)) == Remaining(d) + 1
  {
    assert Prepend(d, g).tiles[1..] == d.tiles;
  }

  /** Append leaves the front of a non-empty deck alone: the group goes
      to the back. */
  lemma AppendKeepsFront(d: Deck, g: GroupId)
    requires d.tiles != []
    ensures Pop(Append(d, g)).Ok? && Pop(d).Ok?
    ensures Pop(Append(d, g)).value.0 == Pop(d).value.0
    ensures Pop(Append(d, g)).value.1 == Append(Pop(d).value.1, g)
  {
    assert Append(d, g).tiles[1..] == d.tiles[1..] + [g];
  }

  // ---------------------------------------------------------------------
  // Shuffle
  // ---------------------------------------------------------------------

  /** The swap the shuffle's callback performs. */
  function Swap<T>(s: seq<T>, i: nat, j: nat): (r: seq<T>)
    requires i < |s| && j < |s|
    ensures |r| == |s| && r[i] == s[j] && r[j] == s[i]
    ensures forall k :: 0 <= k < |s| && k != i && k != j ==> r[k] == s[k]
  {
    s[i := s[j]][j := s[i]]
  }

  lemma SwapKeepsMultiset<T>(s: seq<T>, i: nat, j: nat)
    requires i < |s| && j < |s|
    ensures multiset(Swap(s, i, j)) == multiset(s)
  {
  }

  /** rand.Shuffle from index `i` down: position `i` swaps with a drawn
      position at or below it, then the same for `i - 1`, down to 1. */
  function ShuffleFrom<T>(s: seq<T>, i: nat, r: Rng): (res: (seq<T>, Rng))
    requires i < |s|
    ensures |res.0| == |s|
    ensures res.1.stream == r.stream && res.1.pos == r.pos + i
    decreases i
  {
    if i == 0 then (s, r)
    else
      var (j, r') := Below(r, i + 1);
      ShuffleFrom(Swap(s, i, j), i - 1, r')
  }

  /** Shuffle: the deck in an order the draws decide; one draw per
      position above the first. */
  function Shuffle(d: Deck, r: Rng): (res: (Deck, Rng))
    ensures |res.0.tiles| == |d.tiles|
    ensures res.1.stream == r.stream
    ensures res.1.pos == r.pos + (if |d.tiles| == 0 then 0 else |d.tiles| - 1)
  {
    if |d.tiles| == 0 then (d, r)
    else
      var (s, r') := ShuffleFrom(d.tiles, |d.tiles| - 1, r);
      (Deck(s), r')
  }

  lemma {:induction false} ShuffleFromPermutes<T>(s: seq<T>, i: nat, r: Rng)
    requires i < |s|
    ensures multiset(ShuffleFrom(s, i, r).0) == multiset(s)
    decreases i
  {
    if i > 0 {
      var (j, r') := Below(r, i + 1);
      SwapKeepsMultiset(s, i, j);
      ShuffleFromPermutes(Swap(s, i, j), i - 1, r');
    }
  }

  /** Shuffling keeps every group and its number of copies. */
  lemma ShufflePermutes(d: Deck, r: Rng)
    ensures multiset(Shuffle(d, r).0.tiles) == multiset(d.tiles)
  {
    if |d.tiles| > 0 {
      ShuffleFromPermutes(d.tiles, |d.tiles| - 1, r);
    }
  }

  /** Draws that always pick the position itself leave the order alone:
      the draw at stream position `t` is the one for index `r.pos + i - t`. */
  lemma {:induction false} ShuffleFromFixed<T>(s: seq<T>, i: nat, r: Rng)
    requires i < |s|
    requires forall t :: r.pos <= t < r.pos + i ==> r.stream(t) % (r.pos + i - t + 1) == r.pos + i - t
    ensures ShuffleFrom(s, i, r).0 == s
    decreases i
  {
    if i > 0 {
      var (j, r') := Below(r, i + 1);
      assert r.stream(r.pos) % (i + 1) == i;
      assert Swap(s, i, j) == s;
      ShuffleFromFixed(s, i - 1, r');
    }
  }
}
