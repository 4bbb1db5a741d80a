/** Conversions between image pixels and flat pixel indices
    (imageHelpers/coordinate.go). The image enters only through its width,
    `img.Bounds().Dx()`. */
module ImageCoordinates {
  import opened Wrappers
  import opened Points
  import GoInt

  /** Row-major flat index of a pixel. */
  function PointToIndex(width: int, p: Point): int
  {
    p.y * width + p.x
  }

  /** The pixel of a flat index, using Go's truncating `%` and `/`; a zero
      width divides by zero, which panics in Go. */
  function IndexToPoint(width: int, idx: int): (r: Result<Point>)
    ensures r.Err? <==> width == 0
    ensures r.Ok? ==> idx == r.value.y * width + r.value.x
    ensures r.Ok? && idx >= 0 && width > 0 ==> 0 <= r.value.x < width && r.value.y >= 0
  {
    if width == 0 then Err("integer divide by zero")
    else
      var p := Point(GoInt.Rem(idx, width), GoInt.Div(idx, width));
      assert idx == width * p.y + p.x;
      Ok(p)
  }

  /** Moving one pixel right adds one to the index; one pixel down adds a row. */
  lemma RowMajor(width: int, p: Point)
    ensures PointToIndex(width, EastOf(p)) == PointToIndex(width, p) + 1
    ensures PointToIndex(width, SouthOf(p)) == PointToIndex(width, p) + width
  {
  }

  /** Every index survives the trip to a pixel and back. */
  lemma IndexRoundTrip(width: int, idx: int)
    requires width != 0
    ensures IndexToPoint(width, idx).Ok?
    ensures PointToIndex(width, IndexToPoint(width, idx).value) == idx
  {
  }

  /** A pixel inside a row of the image survives the trip to an index and back. */
  lemma PointRoundTrip(width: int, p: Point)
    requires 0 <= p.x < width && p.y >= 0
    ensures IndexToPoint(width, PointToIndex(width, p)) == Ok(p)
  {
    var i := PointToIndex(width, p);
    assert i >= 0 by {
      assert p.y * width >= 0 by { NonNegativeProduct(p.y, width); }
    }
    GoInt.NonNegativeAgrees(i, width);
    DivModUnique(i, width, p.y, p.x);
  }

  lemma DivModUnique(i: int, s: int, q: int, r: int)
    requires s > 0 && 0 <= r < s && i == q * s + r
    ensures i / s == q && i % s == r
  {
    var q', r' := i / s, i % s;
    assert (q - q') * s == r' - r by {
      assert q * s - q' * s == (q - q') * s;
    }
    if q > q' {
      AtLeastOnce(q - q', s);
      assert false;
    } else if q < q' {
      AtLeastOnce(q' - q, s);
      assert false;
    }
  }

  lemma AtLeastOnce(k: int, s: int)
    requires k >= 1 && s > 0
    ensures k * s >= s
  {
  }

  lemma NonNegativeProduct(a: nat, b: nat)
    ensures a * b >= 0
  {
  }
}
