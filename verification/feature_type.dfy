/** The kinds of feature a tile can carry (engine/tile/feature.go). */
module FeatureTypes {

  /** `Blank` is the source's `None`: no feature, code 0. */
  datatype FeatureType = Blank | Farm | Road | Castle | Cloister | River | Shield

  /** The `iota` value the source gives each kind; `Blank` is the zero value
      that marks an unconstrained side in an open-position signature. */
  function Code(t: FeatureType): (c: nat)
    ensures c < 7
    ensures (c == 0) <==> t == Blank
  {
    match t
    case Blank => 0
    case Farm => 1
    case Road => 2
    case Castle => 3
    case Cloister => 4
    case River => 5
    case Shield => 6
  }

  /** Distinct kinds have distinct codes, so comparing codes (as the Go code
      does) is comparing kinds. */
  lemma CodeIsInjective(a: FeatureType, b: FeatureType)
    ensures Code(a) == Code(b) <==> a == b
  {
  }
}
