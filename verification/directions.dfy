/** The four compass directions of util/directions, indexed so that they
    rotate together: North 0, East 1, South 2, West 3. Every `EdgeArray`
    of the source is indexed by these values. */
module Directions {

  type Direction = d: int | 0 <= d < 4

  const North: Direction := 0
  const East: Direction := 1
  const South: Direction := 2
  const West: Direction := 3

  /** The fixed iteration order of the source's `List`. */
  const List: seq<Direction> := [North, East, South, West]

  /** The opposite direction, as the source's `Compliment` map states it
      pair by pair. */
  function Compliment(d: Direction): Direction
  {
    if d == North then South
    else if d == South then North
    else if d == East then West
    else East
  }

  /** The two inward-facing directions of a corner of a square, as the code
      computes them (the doc comment of the source describes the opposite
      pair for the top-left corner; the code is followed here). */
  function Inner(top: bool, left: bool): (dirs: seq<Direction>)
    ensures |dirs| == 2
    ensures (dirs[0] == North) == top && (dirs[0] == South) == !top
    ensures (dirs[1] == West) == left && (dirs[1] == East) == !left
  {
    [if !top then South else North, if !left then East else West]
  }

  lemma ListIsInOrder()
    ensures |List| == 4
    ensures forall i :: 0 <= i < 4 ==> List[i] == i
    ensures List[0] == North && List[1] == East && List[2] == South && List[3] == West
  {
  }

  /** `Compliment` is a fixed-point-free involution and agrees with the
      arithmetic rule "turn by two quarter turns". */
  lemma ComplimentIsHalfTurn(d: Direction)
    ensures Compliment(d) == (d + 2) % 4
    ensures Compliment(Compliment(d)) == d
    ensures Compliment(d) != d
  {
  }

  /** The corner the first seed placement uses: top-left yields North then
      West, not the South/East pair the doc comment names. */
  lemma InnerTopLeftIsNorthWest()
    ensures Inner(true, true) == [North, West]
    ensures Inner(true, true) != [South, East]
  {
  }
}
