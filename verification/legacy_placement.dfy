/** Helpers of the older board generation that still carry tests:
    orientation arithmetic (tile/orientation.go), edge-feature arrays and
    the serial placement search (board/board_placement.go), and the mapping
    from grid direction to tile direction (src/tile/placement.go). That
    generation numbers its feature kinds differently from the engine, so it
    keeps its own enumeration. */
module LegacyPlacement {
  import opened Wrappers
  import opened Directions
  import opened Points
  import GoInt
  import Orientations

  /** `Blank` is that generation's `None`, code 0. */
  datatype FeatureType = Blank | Grass | River | Castle | Road | Cloister

  /** A tile's cached edge-feature array, one kind per direction. */
  type EdgeArray = s: seq<FeatureType> | |s| == 4 witness [Blank, Blank, Blank, Blank]

  /** An open position's requirement, a slice indexed by direction. The
      board of that generation builds these with four entries; the model
      keeps them within four, so that indexing the tile's array never
      leaves it. */
  type OpenSignature = s: seq<FeatureType> | |s| <= 4

  const OrientationList: seq<nat> := [0, 90, 180, 270]

  /** A rotation count as an orientation in degrees; a negative count
      panics. The count is a 64-bit `int`: the product by 90 wraps around
      when it overflows, and the conversion keeps the low sixteen bits of
      the remainder, which is negative after a wrap. */
  function LimitToOrientation(n: int): (r: Result<nat>)
    requires GoInt.IsInt64(n)
    ensures r.Err? <==> n < 0
    ensures r.Ok? ==> r.value < 0x1_0000
    ensures r.Ok? && n <= GoInt.MaxInt64 / 90 ==> r.value in OrientationList && r.value == 90 * (n % 4)
  {
    if n < 0 then Err("Was not expecting a negative number")
    else
      var product := GoInt.Wrap64(n * 90);
      var degrees := GoInt.Rem(product, 360);
      assert n <= GoInt.MaxInt64 / 90 ==> product == n * 90 && degrees == (n * 90) % 360 by {
        if n <= GoInt.MaxInt64 / 90 {
          GoInt.NonNegativeAgrees(n * 90, 360);
        }
      }
      Ok(GoInt.ToUint16(degrees))
  }

  /** Only the count modulo four matters, while the product stays in range. */
  lemma LimitToOrientationIsPeriodic(n: nat)
    requires n <= GoInt.MaxInt64 / 90
    ensures LimitToOrientation(n) == LimitToOrientation(n % 4)
  {
  }

  /** The smallest count whose product by 90 overflows: the wrapped
      product leaves a negative remainder, and its low sixteen bits are
      no orientation at all. */
  lemma LimitToOrientationOverflows()
    ensures GoInt.IsInt64(102481911520608621)
    ensures LimitToOrientation(102481911520608621) == Ok(65250)
    ensures 65250 !in OrientationList
  {
    assert GoInt.Wrap64(102481911520608621 * 90) == -9223372036854775726;
    assert GoInt.Rem(-9223372036854775726, 360) == -286;
  }

  /** Rotates the array a quarter turn. */
  function ShiftEft(e: EdgeArray): EdgeArray
  {
    [e[3], e[0], e[1], e[2]]
  }

  /** One shift moves slot j to slot j + 1 mod 4. */
  lemma ShiftMovesSlots(e: EdgeArray)
    ensures forall j: Direction :: ShiftEft(e)[(j + 1) % 4] == e[j]
  {
  }

  /** The array after `i` quarter turns. */
  function ShiftTimes(e: EdgeArray, i: nat): EdgeArray
  {
    if i == 0 then e else ShiftEft(ShiftTimes(e, i - 1))
  }

  /** Four quarter turns restore the array. */
  lemma FourShiftsAreIdentity(e: EdgeArray)
    ensures ShiftEft(ShiftEft(ShiftEft(ShiftEft(e)))) == e
  {
  }

  /** An open signature accepts an array when every non-blank requirement
      is met; blank requirements are ignored. */
  function CompareEft(op: OpenSignature, eft: EdgeArray): (r: bool)
    ensures r <==> forall j :: 0 <= j < |op| && op[j] != Blank ==> op[j] == eft[j]
  {
    CompareFrom(op, eft, 0)
  }

  function CompareFrom(op: OpenSignature, eft: EdgeArray, j: nat): (r: bool)
    requires j <= |op|
    ensures r <==> forall k :: j <= k < |op| && op[k] != Blank ==> op[k] == eft[k]
    decreases |op| - j
  {
    if j == |op| then true
    else if op[j] == Blank then CompareFrom(op, eft, j + 1)
    else if op[j] != eft[j] then false
    else CompareFrom(op, eft, j + 1)
  }

  /** The requirement stored for a position; a missing key reads as Go's
      nil slice, which requires nothing. */
  function Requirement(openPositions: map<Point, OpenSignature>, pos: Point): OpenSignature
  {
    if pos in openPositions then openPositions[pos] else []
  }

  /** Whether `i` quarter turns of the tile meet the requirement. */
  predicate Fits(op: OpenSignature, eft: EdgeArray, i: nat)
  {
    CompareEft(op, ShiftTimes(eft, i))
  }

  /** `i` quarter turns fit and no smaller count below it does. */
  predicate FirstFitIs(op: OpenSignature, eft: EdgeArray, i: nat)
  {
    i < 4 && Fits(op, eft, i) && forall k :: 0 <= k < i ==> !Fits(op, eft, k)
  }

  /** None of the four quarter-turn counts fits. */
  predicate NothingFits(op: OpenSignature, eft: EdgeArray)
  {
    forall k :: 0 <= k < 4 ==> !Fits(op, eft, k)
  }

  /** The first number of quarter turns, from `i` on and below four, that fits. */
  function FirstFit(op: OpenSignature, eft: EdgeArray, i: nat): (r: Option<nat>)
    requires i <= 4
    requires forall k :: 0 <= k < i ==> !Fits(op, eft, k)
    ensures r.None? <==> NothingFits(op, eft)
    ensures r.Some? ==> FirstFitIs(op, eft, r.value)
    decreases 4 - i
  {
    if i == 4 then None
    else if Fits(op, eft, i) then Some(i)
    else FirstFit(op, eft, i + 1)
  }

  /** The orientation of the first quarter-turn count that fits, or an
      error when none of the four does. The source converts the count with
      `LimitToOrientation`, which for a count below four is 90 times it. */
  function IsTilePlaceable(openPositions: map<Point, OpenSignature>, eft: EdgeArray, pos: Point): (r: Result<nat>)
    ensures r.Err? <==> NothingFits(Requirement(openPositions, pos), eft)
    ensures r.Ok? ==> exists i :: r.value == 90 * i && FirstFitIs(Requirement(openPositions, pos), eft, i)
  {
    match FirstFit(Requirement(openPositions, pos), eft, 0)
    case None => Err("Not Placable")
    case Some(i) => Ok(90 * i)
  }

  /** The orientations of all fitting quarter-turn counts from `i` on, in order. */
  function FittingFrom(op: OpenSignature, eft: EdgeArray, i: nat): (os: seq<nat>)
    requires i <= 4
    ensures forall o :: o in os <==> exists k :: o == 90 * k && i <= k < 4 && Fits(op, eft, k)
    ensures forall a, b :: 0 <= a < b < |os| ==> os[a] < os[b]
    ensures forall a :: 0 <= a < |os| ==> 90 * i <= os[a]
    decreases 4 - i
  {
    if i == 4 then []
    else
      var rest := FittingFrom(op, eft, i + 1);
      if Fits(op, eft, i) then [90 * i] + rest else rest
  }

  /** Every orientation at which the tile fits the position, ascending. */
  function PlaceableOrientations(openPositions: map<Point, OpenSignature>, eft: EdgeArray, pos: Point): (os: seq<nat>)
    ensures forall o :: o in os <==> exists k :: o == 90 * k && 0 <= k < 4 && Fits(Requirement(openPositions, pos), eft, k)
    ensures forall a, b :: 0 <= a < b < |os| ==> os[a] < os[b]
  {
    FittingFrom(Requirement(openPositions, pos), eft, 0)
  }

  /** `IsTilePlaceable` answers with the smallest of the placeable
      orientations, and fails exactly when there are none. */
  lemma PlaceableAgrees(openPositions: map<Point, OpenSignature>, eft: EdgeArray, pos: Point)
    ensures IsTilePlaceable(openPositions, eft, pos).Err? <==> PlaceableOrientations(openPositions, eft, pos) == []
    ensures IsTilePlaceable(openPositions, eft, pos).Ok? ==>
              PlaceableOrientations(openPositions, eft, pos)[0] == IsTilePlaceable(openPositions, eft, pos).value
  {
    var r := IsTilePlaceable(openPositions, eft, pos);
    var os := PlaceableOrientations(openPositions, eft, pos);
    var op := Requirement(openPositions, pos);
    assert os != [] ==> os[0] in os;
    if r.Ok? {
      var i :| r.value == 90 * i && FirstFitIs(op, eft, i);
      assert r.value in os;
      var idx :| 0 <= idx < |os| && os[idx] == r.value;
      assert os[0] <= r.value;
      var k0 :| os[0] == 90 * k0 && 0 <= k0 < 4 && Fits(op, eft, k0);
      assert i <= k0;
    }
  }

  datatype Placement = Placement(position: Point, orientation: nat)

  /** One placement per open position and fitting orientation, positions
      in the given order and orientations ascending within each. */
  function Ptp(openPositions: map<Point, OpenSignature>, eft: EdgeArray, positions: seq<Point>): (ps: seq<Placement>)
    ensures forall p :: p in ps <==> p.position in positions && p.orientation in PlaceableOrientations(openPositions, eft, p.position)
  {
    if positions == [] then []
    else
      AtPosition(positions[0], PlaceableOrientations(openPositions, eft, positions[0]))
        + Ptp(openPositions, eft, positions[1..])
  }

  /** One placement at `pos` per orientation of `os`, in order. */
  function AtPosition(pos: Point, os: seq<nat>): (ps: seq<Placement>)
    ensures forall p :: p in ps <==> p.position == pos && p.orientation in os
  {
    var ps := seq(|os|, k requires 0 <= k < |os| => Placement(pos, os[k]));
    assert forall p: Placement :: p.position == pos && p.orientation in os ==> p in ps by {
      forall p: Placement | p.position == pos && p.orientation in os
        ensures p in ps
      {
        var k :| 0 <= k < |os| && os[k] == p.orientation;
        assert ps[k] == p;
      }
    }
    ps
  }

  /** Which tile side faces grid direction `direction` for a tile placed
      with `orientation` degrees: `(direction + 4 - orientation / 90) % 4`
      with Go's truncating `%`. */
  function TileDirection(orientation: nat, direction: Direction): (r: int)
    requires orientation < 0x1_0000
    ensures -4 < r < 4
    ensures orientation < 450 ==> 0 <= r < 4
    ensures (r - direction + orientation / 90) % 4 == 0
  {
    var shift := orientation / 90;
    var v := direction + 4 - shift;
    var r := GoInt.Rem(v, 4);
    assert v == 4 * GoInt.Div(v, 4) + r;
    r
  }

  /** Orientation 0 leaves every direction alone and 180 swaps opposite
      sides, as placement_test.go expects. */
  lemma TileDirectionAgreesWithTest()
    ensures forall d: Direction :: TileDirection(0, d) == d
    ensures TileDirection(180, North) == South && TileDirection(180, East) == West
    ensures TileDirection(180, South) == North && TileDirection(180, West) == East
  {
  }

  /** At 90 and 270 degrees the code turns the other way from the rows of
      placement_test.go, which expect North to map to East at 90 and to
      West at 270. */
  lemma TileDirectionQuarterTurns()
    ensures TileDirection(90, North) == West && TileDirection(90, East) == North
    ensures TileDirection(270, North) == East && TileDirection(270, East) == South
  {
  }

  /** The turn the rows of src/tile/placement_test.go describe: the
      direction is shifted forward by the quarter-turn count. */
  function CorrectedTileDirection(orientation: nat, direction: Direction): (r: Direction)
    requires orientation < 0x1_0000
    ensures (r - direction - orientation / 90) % 4 == 0
  {
    (direction + orientation / 90) % 4
  }

  /** The corrected turn meets every row of the test. */
  lemma CorrectedTileDirectionMatchesTest()
    ensures forall d: Direction :: CorrectedTileDirection(0, d) == d
    ensures CorrectedTileDirection(90, North) == East && CorrectedTileDirection(90, East) == South
    ensures CorrectedTileDirection(90, South) == West && CorrectedTileDirection(90, West) == North
    ensures forall d: Direction :: CorrectedTileDirection(180, d) == Compliment(d)
    ensures CorrectedTileDirection(270, North) == West && CorrectedTileDirection(270, East) == North
    ensures CorrectedTileDirection(270, South) == East && CorrectedTileDirection(270, West) == South
  {
  }

  /** On the four legal orientations the written turn is the grid-to-tile
      mapping of the tile package, and the corrected one is its
      tile-to-grid mapping; so each undoes the other. */
  lemma WrittenAndCorrectedTileDirection(o: Orientations.Orientation, d: Direction)
    ensures TileDirection(o, d) == Orientations.GridToTile(o, d)
    ensures CorrectedTileDirection(o, d) == Orientations.TileToGrid(o, d)
    ensures CorrectedTileDirection(o, Orientations.GridToTile(o, d)) == d
  {
    var q := Orientations.Quarters(o);
    assert o / 90 == q;
    if d >= q {
      assert TileDirection(o, d) == d - q;
    } else {
      assert TileDirection(o, d) == d + 4 - q;
    }
    Orientations.GridToTileUndoesTileToGrid(o, d);
  }
}
