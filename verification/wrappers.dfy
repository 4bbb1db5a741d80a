/** Failure-carrying values used throughout the model: `Option` for the
    nil pointers of the Go source and `Result` for its error returns and
    panics. */
module Wrappers {

  datatype Option<+T> = None | Some(value: T)

  /** `Err` stands for both a returned Go `error` and a `panic`: the message
      says which one the source raises. */
  datatype Result<+T> = Ok(value: T) | Err(msg: string)
}

/** Go's integer division and remainder truncate toward zero, unlike
    Dafny's Euclidean `/` and `%`. */
module GoInt {

  function Abs(a: int): nat
  {
    if a < 0 then -a else a
  }

  /** `a / b` as Go evaluates it on `int`: the quotient of the magnitudes,
      negated when the signs differ. */
  function Div(a: int, b: int): int
    requires b != 0
  {
    var q := Abs(a) / Abs(b);
    if (a < 0) != (b < 0) then -q else q
  }

  /** `a % b` as Go evaluates it on `int`: the remainder takes the sign of `a`. */
  function Rem(a: int, b: int): (r: int)
    requires b != 0
    ensures a == b * Div(a, b) + r
    ensures Abs(r) < Abs(b)
    ensures a >= 0 ==> r >= 0
    ensures a <= 0 ==> r <= 0
  {
    MagnitudeSplit(Abs(a), Abs(b));
    var m := Abs(a) % Abs(b);
    if a >= 0 then m else -m
  }

  lemma MagnitudeSplit(x: nat, y: nat)
    requires y > 0
    ensures x == y * (x / y) + x % y && 0 <= x % y < y
  {
  }

  const MinInt64: int := -0x8000_0000_0000_0000
  const MaxInt64: int := 0x7fff_ffff_ffff_ffff

  /** The values of Go's 64-bit `int`. */
  predicate IsInt64(a: int)
  {
    MinInt64 <= a <= MaxInt64
  }

  /** The 64-bit `int` an overflowing product wraps to: the one value in
      range that agrees with `a` modulo 2^64. */
  function Wrap64(a: int): (r: int)
    ensures IsInt64(r)
    ensures (a - r) % 0x1_0000_0000_0000_0000 == 0
    ensures IsInt64(a) ==> r == a
  {
    (a - MinInt64) % 0x1_0000_0000_0000_0000 + MinInt64
  }

  /** Go's conversion `uint16(a)`: the low sixteen bits, so the value in
      range that agrees with `a` modulo 2^16. */
  function ToUint16(a: int): (r: nat)
    ensures r < 0x1_0000
    ensures (a - r) % 0x1_0000 == 0
    ensures 0 <= a < 0x1_0000 ==> r == a
  {
    a % 0x1_0000
  }

  /** On non-negative operands Go and Dafny agree. */
  lemma NonNegativeAgrees(a: nat, b: nat)
    requires b > 0
    ensures Div(a, b) == a / b && Rem(a, b) == a % b
  {
  }
}
