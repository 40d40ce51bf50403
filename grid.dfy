/** Row-major addressing shared by the mesh builder and the map generator:
    the cell in row `row`, column `col` of a grid `width` cells wide lives at
    flat index `row * width + col`.

    The index and its inverse are defined by repeated addition and
    subtraction of whole rows, and proved equal to the closed forms
    `row * width + col`, `v / width` and `v % width`; proofs about the loops
    then stay in linear arithmetic. */
module Grid {

  /** The flat index of a cell: `row` whole rows, then `col` more cells. */
  function Flat(width: nat, row: nat, col: nat): nat {
    if row == 0 then col else Flat(width, row - 1, col) + width
  }

  /** The row of a flat index: how many whole rows precede it. */
  function RowOf(width: nat, v: nat): nat
    requires width > 0
    decreases v
  {
    if v < width then 0 else RowOf(width, v - width) + 1
  }

  /** The column of a flat index: what is left after the whole rows. */
  function ColOf(width: nat, v: nat): nat
    requires width > 0
    decreases v
  {
    if v < width then v else ColOf(width, v - width)
  }

  // ---------------------------------------------------------------------
  // Agreement with the closed forms

  lemma {:induction false} FlatIsRowMajor(width: nat, row: nat, col: nat)
    ensures Flat(width, row, col) == row * width + col
  {
    if row > 0 {
      FlatIsRowMajor(width, row - 1, col);
      assert (row - 1) * width + width == row * width;
    }
  }

  /** Euclidean division by a positive divisor is unique. */
  lemma {:induction false} DivModUnique(n: nat, d: nat, q: nat, r: nat)
    requires d > 0 && r < d && n == q * d + r
    ensures n / d == q && n % d == r
  {
    var q', r' := n / d, n % d;
    assert n == q' * d + r';
    if q' > q {
      assert (q' - q) * d == r - r';
      MulAtLeast(q' - q, d);
    } else if q' < q {
      assert (q - q') * d == r' - r;
      MulAtLeast(q - q', d);
    }
  }

  lemma MulAtLeast(a: nat, d: nat)
    requires a >= 1
    ensures a * d >= d
  {
  }

  lemma MulMono(a: nat, b: nat, c: nat)
    requires a <= b
    ensures a * c <= b * c
  {
  }

  /** Row and column of a flat index are its quotient and remainder. */
  lemma {:induction false} RowColAreDivMod(width: nat, v: nat)
    requires width > 0
    ensures RowOf(width, v) == v / width && ColOf(width, v) == v % width
  {
    FlatUnflat(width, v);
    FlatIsRowMajor(width, RowOf(width, v), ColOf(width, v));
    DivModUnique(v, width, RowOf(width, v), ColOf(width, v));
  }

  // ---------------------------------------------------------------------
  // Round trips

  /** Splitting a cell's flat index gives back its row and column. */
  lemma {:induction false} UnflatFlat(width: nat, row: nat, col: nat)
    requires col < width
    ensures RowOf(width, Flat(width, row, col)) == row
    ensures ColOf(width, Flat(width, row, col)) == col
  {
    if row > 0 {
      UnflatFlat(width, row - 1, col);
    }
  }

  /** Rebuilding a flat index from its row and column gives it back. */
  lemma {:induction false} FlatUnflat(width: nat, v: nat)
    requires width > 0
    ensures ColOf(width, v) < width
    ensures Flat(width, RowOf(width, v), ColOf(width, v)) == v
    decreases v
  {
    if v >= width {
      FlatUnflat(width, v - width);
    }
  }

  // ---------------------------------------------------------------------
  // Walking the grid in row-major order

  /** Moving one column right moves one index forward. */
  lemma {:induction false} FlatNextCol(width: nat, row: nat, col: nat)
    ensures Flat(width, row, col + 1) == Flat(width, row, col) + 1
  {
    if row > 0 {
      FlatNextCol(width, row - 1, col);
    }
  }

  /** One past the last cell of a row is the first cell of the next. */
  lemma {:induction false} NextRowStart(width: nat, row: nat)
    ensures Flat(width, row, width) == Flat(width, row + 1, 0)
  {
    if row > 0 {
      NextRowStart(width, row - 1);
    }
  }

  /** Every cell of a `width` by `height` grid has a flat index below
      `width * height`. */
  lemma {:induction false} FlatInRange(width: nat, height: nat, row: nat, col: nat)
    requires row < height && col < width
    ensures Flat(width, row, col) < width * height
  {
    FlatIsRowMajor(width, row, col);
    assert row * width + col < (row + 1) * width;
    MulMono(row + 1, height, width);
  }

  /** The first cell of row `row`, or the end of the grid when `row` is
      `height`, is within `width * height`. */
  lemma {:induction false} RowStartInRange(width: nat, height: nat, row: nat)
    requires row <= height
    ensures Flat(width, row, 0) <= width * height
  {
    FlatIsRowMajor(width, row, 0);
    MulMono(row, height, width);
  }

  /** Every flat index below `width * height` lies in one of the `height` rows. */
  lemma {:induction false} RowInRange(width: nat, height: nat, v: nat)
    requires width > 0 && v < width * height
    ensures RowOf(width, v) < height
    decreases v
  {
    if v >= width {
      assert width * (height - 1) == width * height - width;
      RowInRange(width, height - 1, v - width);
    }
  }
}
