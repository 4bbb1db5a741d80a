/** The random source of math/rand as the model sees it: an unending
    stream of draws read from a position. Each call that asks for a value
    below a bound takes the next draw modulo the bound. */
module Randoms {

  datatype Rng = Rng(stream: nat -> nat, pos: nat)

  /** rand.Intn(bound): the next draw brought below `bound`, and the
      source advanced by one draw. */
  function Below(r: Rng, bound: nat): (res: (nat, Rng))
    requires bound > 0
    ensures res.0 < bound
    ensures res.1.stream == r.stream && res.1.pos == r.pos + 1
  {
    (r.stream(r.pos) % bound, Rng(r.stream, r.pos + 1))
  }

  /** Every value below the bound is the outcome of some stream. */
  lemma BelowReachesAll(r: Rng, bound: nat, k: nat)
    requires k < bound
    ensures Below(Rng(_ => k, r.pos), bound).0 == k
  {
  }
}
