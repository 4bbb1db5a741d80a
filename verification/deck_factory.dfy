/** The deck builders of engine/deck/deck_factory.go. The game data's
    groups are visited in `order` (the iteration order of its group map);
    `counts` is the deck list, from a group's name to its number of copies.
    A name missing from the list counts as zero, as a Go map read does,
    and a negative count adds no copy. */
module DeckFactory {
  import opened Wrappers
  import opened ReferenceTiles
  import opened Randoms
  import opened Decks

  /** The copies the deck list asks for. */
  function CountFor(counts: map<string, int>, name: string): (n: nat)
    ensures name in counts && counts[name] > 0 ==> n == counts[name]
    ensures (name !in counts || counts[name] <= 0) ==> n == 0
  {
    if name in counts && counts[name] > 0 then counts[name] else 0
  }

  /** The copies of `g` appended one by one. */
  function Copies(g: GroupId, n: nat): (s: seq<GroupId>)
    ensures |s| == n && forall i :: 0 <= i < n ==> s[i] == g
  {
    seq(n, _ => g)
  }

  /** Every group listed is in the catalog. */
  predicate Listed(c: Catalog, order: seq<GroupId>)
  {
    forall i :: 0 <= i < |order| ==> order[i] in c.groups
  }

  /** The river groups other than the terminus, in visiting order. */
  function RiverGroups(c: Catalog, order: seq<GroupId>): (gs: seq<GroupId>)
    requires Listed(c, order)
    ensures forall g :: g in gs <==> g in order && IsRiverTile(c.groups[g]) && !IsRiverTerminus(c.groups[g])
  {
    if order == [] then []
    else
      var g := order[0];
      var rest := RiverGroups(c, order[1..]);
      if IsRiverTerminus(c.groups[g]) then rest
      else if IsRiverTile(c.groups[g]) then [g] + rest
      else rest
  }

  /** The groups that are not river tiles, in visiting order. */
  function LandGroups(c: Catalog, order: seq<GroupId>): (gs: seq<GroupId>)
    requires Listed(c, order)
    ensures forall g :: g in gs <==> g in order && !IsRiverTile(c.groups[g])
  {
    if order == [] then []
    else
      var g := order[0];
      var rest := LandGroups(c, order[1..]);
      if !IsRiverTile(c.groups[g]) then [g] + rest else rest
  }

  /** Each group of `gs` appended as many times as the deck list says. */
  function Stacked(c: Catalog, counts: map<string, int>, gs: seq<GroupId>): (s: seq<GroupId>)
    requires forall g :: g in gs ==> g in c.groups
    ensures forall g :: g in s ==> g in gs
  {
    if gs == [] then []
    else Copies(gs[0], CountFor(counts, c.groups[gs[0]].name)) + Stacked(c, counts, gs[1..])
  }

  /** The total the deck list asks for over `gs`. */
  function Total(c: Catalog, counts: map<string, int>, gs: seq<GroupId>): (n: nat)
    requires forall g :: g in gs ==> g in c.groups
  {
    if gs == [] then 0
    else CountFor(counts, c.groups[gs[0]].name) + Total(c, counts, gs[1..])
  }

  /** Stacking a group that occurs once gives it exactly the copies its
      count asks for; the stack is as long as the total. */
  lemma {:induction false} StackedCounts(c: Catalog, counts: map<string, int>, gs: seq<GroupId>, g: GroupId)
    requires forall h :: h in gs ==> h in c.groups
    ensures |Stacked(c, counts, gs)| == Total(c, counts, gs)
    ensures g !in gs ==> multiset(Stacked(c, counts, gs))[g] == 0
    ensures g in gs && Distinct(gs) ==>
      multiset(Stacked(c, counts, gs))[g] == CountFor(counts, c.groups[g].name)
  {
    if gs != [] {
      StackedCounts(c, counts, gs[1..], g);
      var cp := Copies(gs[0], CountFor(counts, c.groups[gs[0]].name));
      assert Stacked(c, counts, gs) == cp + Stacked(c, counts, gs[1..]);
      CopiesCount(gs[0], CountFor(counts, c.groups[gs[0]].name), g);
      if g in gs && Distinct(gs) {
        DistinctTail(gs);
        if g == gs[0] {
        } else {
          assert g in gs[1..];
        }
      }
    }
  }

  lemma CopiesCount(h: GroupId, n: nat, g: GroupId)
    ensures multiset(Copies(h, n))[g] == if g == h then n else 0
    decreases n
  {
    if n > 0 {
      assert Copies(h, n) == Copies(h, n - 1) + [h];
      CopiesCount(h, n - 1, g);
    }
  }

  /** The group the game data files as "RiverTerminus", the first such
      group met in visiting order. */
  function FindTerminus(c: Catalog, order: seq<GroupId>): (r: Option<GroupId>)
    requires Listed(c, order)
    ensures r.Some? ==> r.value in order && IsRiverTerminus(c.groups[r.value])
    ensures r.None? <==> forall g :: g in order ==> !IsRiverTerminus(c.groups[g])
  {
    if order == [] then None
    else if IsRiverTerminus(c.groups[order[0]]) then Some(order[0])
    else FindTerminus(c, order[1..])
  }

  /** BuildRiverDeck: the non-terminus river groups stacked and shuffled,
      with the terminus put on top and at the bottom. A game data without
      a terminus group would put nil tiles in the deck; that is an error
      here. */
  function BuildRiverDeck(c: Catalog, order: seq<GroupId>, counts: map<string, int>, r: Rng): (res: Result<(Deck, Rng)>)
    requires Listed(c, order)
    ensures res.Err? <==> FindTerminus(c, order).None?
  {
    match FindTerminus(c, order)
    case None => Err("RiverTerminus group missing from the game data")
    case Some(t) =>
      var (d, r') := Shuffle(Deck(Stacked(c, counts, RiverGroups(c, order))), r);
      Ok((Append(Prepend(d, t), t), r'))
  }

  /** BuildDeck: the groups that are not river tiles, stacked and shuffled. */
  function BuildDeck(c: Catalog, order: seq<GroupId>, counts: map<string, int>, r: Rng): (res: (Deck, Rng))
    requires Listed(c, order)
  {
    Shuffle(Deck(Stacked(c, counts, LandGroups(c, order))), r)
  }

  /** The river deck starts and ends with the terminus; between the two,
      every tile is a river group other than the terminus, each with the
      copies the deck list asks for. */
  lemma RiverDeckShape(c: Catalog, order: seq<GroupId>, counts: map<string, int>, r: Rng, g: GroupId)
    requires Listed(c, order) && FindTerminus(c, order).Some? && Distinct(order)
    ensures var d := BuildRiverDeck(c, order, counts, r).value.0.tiles;
      var t := FindTerminus(c, order).value;
      && |d| == 2 + Total(c, counts, RiverGroups(c, order))
      && d[0] == t && d[|d| - 1] == t
      && (forall i :: 0 < i < |d| - 1 ==> d[i] in order && IsRiverTile(c.groups[d[i]]) && !IsRiverTerminus(c.groups[d[i]]))
      && multiset(d[1..|d| - 1])[g] == if g in RiverGroups(c, order) then CountFor(counts, c.groups[g].name) else 0
  {
    var gs := RiverGroups(c, order);
    var stack := Stacked(c, counts, gs);
    var (sh, r') := Shuffle(Deck(stack), r);
    var t := FindTerminus(c, order).value;
    var d := BuildRiverDeck(c, order, counts, r).value.0.tiles;
    assert d == [t] + sh.tiles + [t];
    assert d[1..|d| - 1] == sh.tiles;
    ShufflePermutes(Deck(stack), r);
    DistinctFilter(c, order);
    StackedCounts(c, counts, gs, g);
    forall i | 0 < i < |d| - 1
      ensures d[i] in order && IsRiverTile(c.groups[d[i]]) && !IsRiverTerminus(c.groups[d[i]])
    {
      assert d[i] == sh.tiles[i - 1];
      assert d[i] in multiset(stack);
    }
  }

  /** No group is visited twice. */
  predicate Distinct(s: seq<GroupId>)
  {
    forall i, j :: 0 <= i < j < |s| ==> s[i] != s[j]
  }

  /** A sequence without repeats: its head is not in its tail, and the
      tail has no repeats; and conversely. */
  lemma DistinctTail(s: seq<GroupId>)
    requires s != []
    ensures Distinct(s) <==> s[0] !in s[1..] && Distinct(s[1..])
  {
    if Distinct(s) {
      forall k | 0 <= k < |s| - 1 ensures s[1..][k] != s[0] {
        assert s[k + 1] != s[0];
      }
    }
    if s[0] !in s[1..] && Distinct(s[1..]) {
      forall i, j | 0 <= i < j < |s| ensures s[i] != s[j] {
        if i == 0 {
          assert s[j] == s[1..][j - 1];
        } else {
          assert s[i] == s[1..][i - 1] && s[j] == s[1..][j - 1];
        }
      }
    }
  }

  /** The filters keep the visiting order's groups distinct. */
  lemma {:induction false} DistinctFilter(c: Catalog, order: seq<GroupId>)
    requires Listed(c, order) && Distinct(order)
    ensures Distinct(RiverGroups(c, order)) && Distinct(LandGroups(c, order))
  {
    if order != [] {
      DistinctTail(order);
      DistinctFilter(c, order[1..]);
      var g := order[0];
      var rs := RiverGroups(c, order[1..]);
      var ls := LandGroups(c, order[1..]);
      assert g !in rs && g !in ls;
      if RiverGroups(c, order) != rs {
        assert RiverGroups(c, order) == [g] + rs;
        DistinctTail([g] + rs);
      }
      if LandGroups(c, order) != ls {
        assert LandGroups(c, order) == [g] + ls;
        DistinctTail([g] + ls);
      }
    }
  }

  /** The main deck holds only groups that are not river tiles, each with
      the copies the deck list asks for. */
  lemma LandDeckShape(c: Catalog, order: seq<GroupId>, counts: map<string, int>, r: Rng, g: GroupId)
    requires Listed(c, order) && Distinct(order)
    ensures var d := BuildDeck(c, order, counts, r).0.tiles;
      && |d| == Total(c, counts, LandGroups(c, order))
      && (forall i :: 0 <= i < |d| ==> d[i] in order && !IsRiverTile(c.groups[d[i]]))
      && multiset(d)[g] == if g in order && !IsRiverTile(c.groups[g]) then CountFor(counts, c.groups[g].name) else 0
  {
    var gs := LandGroups(c, order);
    var stack := Stacked(c, counts, gs);
    var d := BuildDeck(c, order, counts, r).0.tiles;
    ShufflePermutes(Deck(stack), r);
    DistinctFilter(c, order);
    StackedCounts(c, counts, gs, g);
    forall i | 0 <= i < |d| ensures d[i] in order && !IsRiverTile(c.groups[d[i]]) {
      assert d[i] in multiset(stack);
    }
  }
}
