/** The square matrix of matrix/matrix.go: `size` cells per side. The Go
    type keeps the cells in one flat slice addressed by `Index`; here the
    cells are kept row by row, and `Index` is kept as the slot number a cell
    occupies in that flat layout. Operations that mutate the Go matrix in
    place return a new value. */
module Matrices {
  import opened Wrappers
  import GoInt
  import ImageCoordinates

  datatype Matrix<T> = Matrix(size: nat, rows: seq<seq<T>>)

  /** `size` rows of `size` cells each, as `NewMatrix` allocates them. */
  predicate Valid<T>(m: Matrix<T>)
  {
    |m.rows| == m.size && forall y :: 0 <= y < m.size ==> |m.rows[y]| == m.size
  }

  predicate InRange<T>(m: Matrix<T>, x: int, y: int)
  {
    0 <= x < m.size && 0 <= y < m.size
  }

  /** A matrix of `size` by `size` cells, each holding Go's zero value `zero`. */
  function NewMatrix<T>(size: nat, zero: T): (m: Matrix<T>)
    ensures Valid(m) && m.size == size
    ensures forall x, y {:trigger Get(m, x, y)} :: InRange(m, x, y) ==> Get(m, x, y) == zero
  {
    Matrix(size, seq(size, _ => seq(size, _ => zero)))
  }

  /** The slot of cell (x, y) in the source's row-major flat storage. */
  function Index<T>(m: Matrix<T>, x: int, y: int): int
  {
    y * m.size + x
  }

  function Get<T>(m: Matrix<T>, x: int, y: int): T
    requires Valid(m) && InRange(m, x, y)
  {
    m.rows[y][x]
  }

  /** Writing goes through the flat slot `Index(m, x, y)`, which the
      source bounds only by the length of its storage: the coordinates
      themselves need not be on the matrix. Every cell whose slot is that
      one receives `d`, and every other cell is unchanged. */
  function Set<T>(m: Matrix<T>, x: int, y: int, d: T): (r: Matrix<T>)
    requires Valid(m) && 0 <= Index(m, x, y) < m.size * m.size
    ensures Valid(r) && r.size == m.size
    ensures forall x', y' {:trigger Get(r, x', y')} :: InRange(m, x', y') ==>
      Get(r, x', y') == if Index(m, x', y') == Index(m, x, y) then d else Get(m, x', y')
  {
    var i := Index(m, x, y);
    SlotCell(m, i);
    var cx, cy := i % m.size, i / m.size;
    m.(rows := m.rows[cy := m.rows[cy][cx := d]])
  }

  /** A slot of the flat storage belongs to exactly one cell, the one at
      column `i % size` of row `i / size`. */
  lemma SlotCell<T>(m: Matrix<T>, i: int)
    requires Valid(m) && 0 <= i < m.size * m.size
    ensures m.size > 0 && InRange(m, i % m.size, i / m.size)
    ensures forall x, y {:trigger Index(m, x, y)} :: InRange(m, x, y) ==>
      (Index(m, x, y) == i <==> x == i % m.size && y == i / m.size)
  {
    var s := m.size;
    if s == 0 {
      assert false;
    }
    var q, r := i / s, i % s;
    if q >= s {
      assert false;
    }
    forall x, y | InRange(m, x, y) && Index(m, x, y) == i
      ensures x == r && y == q
    {
      ImageCoordinates.DivModUnique(i, s, y, x);
    }
  }

  /** The source's bound check is on the slot alone, so writing one
      column past the end of row 0 lands on the first cell of row 1. */
  lemma SetPastRowEnd<T>(m: Matrix<T>, d: T)
    requires Valid(m) && m.size >= 2
    ensures Index(m, m.size, 0) < m.size * m.size
    ensures Get(Set(m, m.size, 0, d), 0, 1) == d
  {
    ImageCoordinates.AtLeastOnce(m.size, m.size);
  }

  /** The slot numbers pinned down by matrix_test.go for a size-7 matrix:
      consecutive cells of a row are adjacent and rows follow one another. */
  lemma IndexTestRows<T>(m: Matrix<T>)
    requires m.size == 7
    ensures Index(m, 0, 0) == 0 && Index(m, 1, 0) == 1 && Index(m, 6, 0) == 6
    ensures Index(m, 0, 1) == 7 && Index(m, 1, 1) == 8 && Index(m, 6, 1) == 13
    ensures Index(m, 0, 2) == 14 && Index(m, 1, 2) == 15
  {
  }

  /** Two valid matrices of one size that agree on every cell are the same value. */
  lemma Extensionality<T>(a: Matrix<T>, b: Matrix<T>)
    requires Valid(a) && Valid(b) && a.size == b.size
    requires forall x, y {:trigger Get(a, x, y)} :: InRange(a, x, y) ==> Get(a, x, y) == Get(b, x, y)
    ensures a == b
  {
    forall y | 0 <= y < a.size
      ensures a.rows[y] == b.rows[y]
    {
      forall x | 0 <= x < a.size
        ensures a.rows[y][x] == b.rows[y][x]
      {
        assert Get(a, x, y) == Get(b, x, y);
      }
    }
  }

  /** After transposing, cell (y, x) holds what cell (x, y) held. */
  function Transpose<T>(m: Matrix<T>): (r: Matrix<T>)
    requires Valid(m)
    ensures Valid(r) && r.size == m.size
    ensures forall x, y {:trigger Get(r, y, x)} :: InRange(m, x, y) ==> Get(r, y, x) == Get(m, x, y)
  {
    Matrix(m.size, seq(m.size, y requires 0 <= y < m.size =>
      seq(m.size, x requires 0 <= x < m.size => m.rows[x][y])))
  }

  /** Mirrors every row: cell (x, y) receives the cell at the other end of its row. */
  function ReverseRows<T>(m: Matrix<T>): (r: Matrix<T>)
    requires Valid(m)
    ensures Valid(r) && r.size == m.size
    ensures forall x, y {:trigger Get(r, x, y)} :: InRange(m, x, y) ==> Get(r, x, y) == Get(m, m.size - 1 - x, y)
  {
    Matrix(m.size, seq(m.size, y requires 0 <= y < m.size =>
      seq(m.size, x requires 0 <= x < m.size => m.rows[y][m.size - 1 - x])))
  }

  /** Mirrors every column: cell (x, y) receives the cell at the other end of its column. */
  function ReverseColumns<T>(m: Matrix<T>): (r: Matrix<T>)
    requires Valid(m)
    ensures Valid(r) && r.size == m.size
    ensures forall x, y {:trigger Get(r, x, y)} :: InRange(m, x, y) ==> Get(r, x, y) == Get(m, x, m.size - 1 - y)
  {
    Matrix(m.size, seq(m.size, y requires 0 <= y < m.size => m.rows[m.size - 1 - y]))
  }

  /** A quarter turn clockwise: transpose, then mirror the rows. */
  function Rotate90<T>(m: Matrix<T>): (r: Matrix<T>)
    requires Valid(m)
    ensures Valid(r) && r.size == m.size
    ensures forall x, y {:trigger Get(r, x, y)} :: InRange(m, x, y) ==> Get(r, x, y) == Get(m, y, m.size - 1 - x)
  {
    ReverseRows(Transpose(m))
  }

  /** A half turn: mirror the rows, then the columns. */
  function Rotate180<T>(m: Matrix<T>): (r: Matrix<T>)
    requires Valid(m)
    ensures Valid(r) && r.size == m.size
    ensures forall x, y {:trigger Get(r, x, y)} :: InRange(m, x, y) ==> Get(r, x, y) == Get(m, m.size - 1 - x, m.size - 1 - y)
  {
    ReverseColumns(ReverseRows(m))
  }

  /** Three quarter turns: mirror the rows, then transpose. */
  function Rotate270<T>(m: Matrix<T>): (r: Matrix<T>)
    requires Valid(m)
    ensures Valid(r) && r.size == m.size
    ensures forall x, y {:trigger Get(r, x, y)} :: InRange(m, x, y) ==> Get(r, x, y) == Get(m, m.size - 1 - y, x)
  {
    Transpose(ReverseRows(m))
  }

  /** `Rotate(n)` reduces `n` with Go's truncating `%`. Only the positive
      quarter turns act: the cases -270, -180 and -90 have empty bodies in
      the source (a Go `case` does not fall through), and any angle that is
      not a multiple of 90 panics. */
  function Rotate<T>(m: Matrix<T>, n: int): (r: Result<Matrix<T>>)
    requires Valid(m)
    ensures r.Err? <==> n % 90 != 0
    ensures GoInt.Rem(n, 360) in {0, -90, -180, -270} ==> r == Ok(m)
    ensures GoInt.Rem(n, 360) == 90 ==> r == Ok(Rotate90(m))
    ensures GoInt.Rem(n, 360) == 180 ==> r == Ok(Rotate180(m))
    ensures GoInt.Rem(n, 360) == 270 ==> r == Ok(Rotate270(m))
  {
    var k := GoInt.Rem(n, 360);
    QuarterTurnsSurviveReduction(n);
    match k
    case 0 => Ok(m)
    case -270 => Ok(m)
    case 90 => Ok(Rotate90(m))
    case -180 => Ok(m)
    case 180 => Ok(Rotate180(m))
    case -90 => Ok(m)
    case 270 => Ok(Rotate270(m))
    case _ => Err("Invalid rotation. All rotations must be multiples of 90")
  }

  /** Reducing an angle modulo 360 keeps it a multiple of 90 or not; the
      reduced angle lies strictly between -360 and 360. */
  lemma QuarterTurnsSurviveReduction(n: int)
    ensures -360 < GoInt.Rem(n, 360) < 360
    ensures (n % 90 == 0) <==> GoInt.Rem(n, 360) in {0, 90, 180, 270, -90, -180, -270}
  {
    var k := GoInt.Rem(n, 360);
    var q := GoInt.Div(n, 360);
    assert n == 360 * q + k;
    assert n % 90 == k % 90 by {
      assert n == 90 * (4 * q) + k;
    }
  }

  /** A fresh matrix of the same size holding the same cells. */
  function Copy<T>(m: Matrix<T>): (r: Matrix<T>)
    requires Valid(m)
    ensures Valid(r) && r.size == m.size
    ensures Equal(r, m) && r == m
  {
    var r := Matrix(m.size, seq(m.size, y requires 0 <= y < m.size =>
      seq(m.size, x requires 0 <= x < m.size => m.rows[y][x])));
    Extensionality(r, m);
    EqualIsEquality(r, m);
    r
  }

  /** Cell-by-cell comparison in the source's scan order: row by row, each
      row left to right, stopping at the first difference. */
  function Equal<T(==)>(m: Matrix<T>, m2: Matrix<T>): bool
    requires Valid(m) && Valid(m2) && m2.size == m.size
  {
    EqualFrom(m, m2, 0, 0)
  }

  function EqualFrom<T(==)>(m: Matrix<T>, m2: Matrix<T>, x: nat, y: nat): (r: bool)
    requires Valid(m) && Valid(m2) && m2.size == m.size && x <= m.size
    ensures r <==> forall x', y' {:trigger Get(m, x', y')} :: InRange(m, x', y') && (y' > y || (y' == y && x' >= x)) ==> Get(m, x', y') == Get(m2, x', y')
    decreases m.size - y, m.size - x
  {
    if y >= m.size then true
    else if x == m.size then EqualFrom(m, m2, 0, y + 1)
    else if Get(m, x, y) != Get(m2, x, y) then false
    else EqualFrom(m, m2, x + 1, y)
  }

  /** `Equal` holds exactly when the two matrices are the same value. */
  lemma EqualIsEquality<T>(m: Matrix<T>, m2: Matrix<T>)
    requires Valid(m) && Valid(m2) && m2.size == m.size
    ensures Equal(m, m2) <==> m == m2
  {
    if Equal(m, m2) {
      Extensionality(m, m2);
    }
  }

  /** Four quarter turns restore the matrix (TestMatrix_Rotation90). */
  lemma {:induction false} FourQuarterTurnsAreIdentity<T>(m: Matrix<T>)
    requires Valid(m)
    ensures Rotate90(Rotate90(Rotate90(Rotate90(m)))) == m
  {
    TwoQuartersAreAHalf(m);
    TwoQuartersAreAHalf(Rotate180(m));
    TwoHalfTurnsAreIdentity(m);
  }

  /** Two half turns restore the matrix (TestMatrix_Rotation180). */
  lemma {:induction false} TwoHalfTurnsAreIdentity<T>(m: Matrix<T>)
    requires Valid(m)
    ensures Rotate180(Rotate180(m)) == m
  {
    var r := Rotate180(Rotate180(m));
    forall x, y | InRange(m, x, y)
      ensures Get(r, x, y) == Get(m, x, y)
    {
      assert Get(r, x, y) == Get(Rotate180(m), m.size - 1 - x, m.size - 1 - y);
    }
    Extensionality(r, m);
  }

  /** Three quarter turns followed by one restore the matrix (TestMatrix_Rotation270). */
  lemma {:induction false} ThreeQuartersThenOneIsIdentity<T>(m: Matrix<T>)
    requires Valid(m)
    ensures Rotate90(Rotate270(m)) == m
  {
    var r := Rotate90(Rotate270(m));
    forall x, y | InRange(m, x, y)
      ensures Get(r, x, y) == Get(m, x, y)
    {
      assert Get(r, x, y) == Get(Rotate270(m), y, m.size - 1 - x);
    }
    Extensionality(r, m);
  }

  /** Two quarter turns are a half turn. */
  lemma {:induction false} TwoQuartersAreAHalf<T>(m: Matrix<T>)
    requires Valid(m)
    ensures Rotate90(Rotate90(m)) == Rotate180(m)
  {
    forall x, y | InRange(m, x, y)
      ensures Get(Rotate90(Rotate90(m)), x, y) == Get(Rotate180(m), x, y)
    {
      TwoQuartersCell(m, x, y);
    }
    Extensionality(Rotate90(Rotate90(m)), Rotate180(m));
  }

  lemma TwoQuartersCell<T>(m: Matrix<T>, x: int, y: int)
    requires Valid(m) && InRange(m, x, y)
    ensures Get(Rotate90(Rotate90(m)), x, y) == Get(m, m.size - 1 - x, m.size - 1 - y)
  {
    var q := Rotate90(m);
    Rotate90At(q, x, y);
    Rotate90At(m, y, m.size - 1 - x);
  }

  lemma Rotate90At<T>(m: Matrix<T>, x: int, y: int)
    requires Valid(m) && InRange(m, x, y)
    ensures InRange(m, y, m.size - 1 - x)
    ensures Get(Rotate90(m), x, y) == Get(m, y, m.size - 1 - x)
  {
  }

  /** The sequence of TestMatrix_Rotation: turning by 270 then 90 restores
      the matrix, and so does turning by 180 twice. */
  lemma {:induction false} RotateByAnglesRestores<T>(m: Matrix<T>)
    requires Valid(m)
    ensures Rotate(m, 270).Ok? && Rotate(Rotate(m, 270).value, 90) == Ok(m)
    ensures Rotate(m, 180).Ok? && Rotate(Rotate(m, 180).value, 180) == Ok(m)
  {
    ThreeQuartersThenOneIsIdentity(m);
    TwoHalfTurnsAreIdentity(m);
  }

  /** Transposing twice restores the matrix. */
  lemma {:induction false} TransposeIsInvolution<T>(m: Matrix<T>)
    requires Valid(m)
    ensures Transpose(Transpose(m)) == m
  {
    var r := Transpose(Transpose(m));
    forall x, y | InRange(m, x, y)
      ensures Get(r, x, y) == Get(m, x, y)
    {
      assert Get(r, x, y) == Get(Transpose(m), y, x);
    }
    Extensionality(r, m);
  }
}
