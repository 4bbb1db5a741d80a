/** Integer grid points of util/point.go. Y grows southward: North is one
    row up. */
module Points {
  import opened Directions

  datatype Point = Point(x: int, y: int)

  function NorthOf(p: Point): Point { Point(p.x, p.y - 1) }
  function SouthOf(p: Point): Point { Point(p.x, p.y + 1) }
  function EastOf(p: Point): Point { Point(p.x + 1, p.y) }
  function WestOf(p: Point): Point { Point(p.x - 1, p.y) }

  /** The neighbouring point across edge `d`. The source panics on a value
      that is not a direction; the `Direction` type rules that out. */
  function EdgePos(p: Point, d: Direction): Point
  {
    match d
    case 0 => NorthOf(p)
    case 2 => SouthOf(p)
    case 3 => WestOf(p)
    case 1 => EastOf(p)
  }

  /** The four neighbours in the source's order: North, South, East, West. */
  function OrthogonalNeighbours(p: Point): (ns: seq<Point>)
    ensures |ns| == 4
    ensures ns == [EdgePos(p, North), EdgePos(p, South), EdgePos(p, East), EdgePos(p, West)]
    ensures forall q :: q in ns <==> exists d: Direction :: q == EdgePos(p, d)
  {
    var ns := [NorthOf(p), SouthOf(p), EastOf(p), WestOf(p)];
    assert forall d: Direction :: EdgePos(p, d) in ns;
    ns
  }

  /** North lowers y, South raises it, East raises x, West lowers it; every
      step moves exactly one unit along one axis. */
  lemma StepOffsets(p: Point)
    ensures EdgePos(p, North) == Point(p.x, p.y - 1)
    ensures EdgePos(p, South) == Point(p.x, p.y + 1)
    ensures EdgePos(p, East) == Point(p.x + 1, p.y)
    ensures EdgePos(p, West) == Point(p.x - 1, p.y)
  {
  }

  /** Stepping across an edge and back across the opposite edge returns to
      the start. */
  lemma EdgePosRoundTrip(p: Point, d: Direction)
    ensures EdgePos(EdgePos(p, d), Compliment(d)) == p
  {
  }

  /** The neighbour relation read from the other side: q lies across edge
      `d` of p exactly when p lies across the opposite edge of q. */
  lemma EdgePosConverse(p: Point, q: Point, d: Direction)
    ensures EdgePos(q, d) == p <==> q == EdgePos(p, Compliment(d))
  {
  }

  /** The four neighbours of a point are distinct from it and from each other. */
  lemma EdgePosDistinct(p: Point, d1: Direction, d2: Direction)
    ensures EdgePos(p, d1) != p
    ensures d1 != d2 ==> EdgePos(p, d1) != EdgePos(p, d2)
  {
  }
}
