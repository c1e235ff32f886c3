/**
 * Cantera's Array2D: a two-dimensional array of doubles kept in one flat
 * buffer in column-major order, so entry (i, j) -- row i, column j -- lives at
 * flat index nRows*j + i and every column is a contiguous run of nRows
 * entries.  The buffer is a std::vector, modelled as a seq field that the
 * methods reassign; doubles are modelled as reals.
 */
module Arrays {
  import opened ThermoTypes

  // ---------------------------------------------------------------------
  // Index arithmetic
  // ---------------------------------------------------------------------

  /** A non-zero multiple of a positive a is at least a away from zero. */
  lemma MulAtLeast(a: int, b: int)
    requires a > 0
    ensures b >= 1 ==> a * b >= a
    ensures b <= -1 ==> a * b <= -a
  {
    if b >= 1 {
      assert a * b == a * (b - 1) + a;
      assert a * (b - 1) >= 0;
    } else if b <= -1 {
      assert a * b == a * (b + 1) - a;
      assert a * (b + 1) <= 0;
    }
  }

  /** Flat index nRows*j + n, with n a row, splits back into column j and row n. */
  lemma RowIndex(nrows: int, j: int, n: int)
    requires 0 <= n < nrows && 0 <= j
    ensures (nrows * j + n) / nrows == j && (nrows * j + n) % nrows == n
  {
    var k := nrows * j + n;
    var q, r := k / nrows, k % nrows;
    assert k == nrows * q + r;
    assert nrows * (q - j) == nrows * q - nrows * j;
    MulAtLeast(nrows, q - j);
  }

  /** Column m of an nRows-by-nCols array ends inside the buffer. */
  lemma ColumnFits(nrows: nat, ncols: nat, m: nat)
    requires m < ncols
    ensures nrows * m + nrows <= nrows * ncols
  {
    if nrows > 0 {
      MulAtLeast(nrows, ncols - m);
      assert nrows * (ncols - m) == nrows * ncols - nrows * m;
    }
  }

  /** Columns that come earlier lie wholly before later ones. */
  lemma ColumnsOrdered(nrows: nat, m1: nat, m2: nat)
    requires m1 < m2
    ensures nrows * m1 + nrows <= nrows * m2
  {
    if nrows > 0 {
      MulAtLeast(nrows, m2 - m1);
      assert nrows * (m2 - m1) == nrows * m2 - nrows * m1;
    }
  }

  // ---------------------------------------------------------------------
  // The buffer as a value
  // ---------------------------------------------------------------------

  /** Row n read across the first ncols columns: entry j is value(n, j). */
  function Row(d: seq<real>, nrows: nat, ncols: nat, n: nat): (r: seq<real>)
    requires n < nrows && |d| == nrows * ncols
    ensures |r| == ncols
  {
    seq(ncols, j requires 0 <= j < ncols =>
      ColumnFits(nrows, ncols, j);
      d[nrows * j + n])
  }

  /** Column m of an nRows-by-nCols buffer: entry i is value(i, m). */
  function Column(d: seq<real>, nrows: nat, ncols: nat, m: nat): (r: seq<real>)
    requires m < ncols && |d| == nrows * ncols
    ensures |r| == nrows
  {
    seq(nrows, i requires 0 <= i < nrows =>
      ColumnFits(nrows, ncols, m);
      d[nrows * m + i])
  }

  /**
   * d with row n of its first `upto` columns replaced by rw: a flat index
   * changes iff it lies in row n (index mod nRows is n) of such a column.
   */
  function WithRow(d: seq<real>, nrows: nat, n: nat, rw: seq<real>, upto: nat): (r: seq<real>)
    requires n < nrows && upto <= |rw|
    ensures |r| == |d|
  {
    seq(|d|, k requires 0 <= k < |d| =>
      if k % nrows == n && k / nrows < upto then rw[k / nrows] else d[k])
  }

  /** Every entry multiplied by a. */
  function Scaled(d: seq<real>, a: real): (r: seq<real>)
    ensures |r| == |d|
  {
    seq(|d|, k requires 0 <= k < |d| => d[k] * a)
  }

  /** Each entry of d with the matching entry of e added. */
  function SumEach(d: seq<real>, e: seq<real>): (r: seq<real>)
    requires |d| <= |e|
    ensures |r| == |d|
  {
    seq(|d|, k requires 0 <= k < |d| => d[k] + e[k])
  }

  /** a*x + y over the first n entries. */
  function AxpyOf(a: real, x: seq<real>, y: seq<real>, n: nat): (r: seq<real>)
    requires n <= |x| && n <= |y|
    ensures |r| == n
  {
    seq(n, k requires 0 <= k < n => a * x[k] + y[k])
  }

  /**
   * The writes of appendColumn as the source has them, from the m-th on:
   * entry m of c goes to value(nCols, m), flat index nRows*m + nCols, where
   * nCols is already the incremented count.  A write past the end of the
   * buffer is an error.
   */
  function AsWrittenWrites(d: seq<real>, nrows: nat, ncols: nat, c: seq<real>, m: nat): (r: Result<seq<real>>)
    requires nrows <= |c|
    ensures r.Ok? ==> |r.value| == |d|
    decreases nrows - m
  {
    if m >= nrows then Ok(d)
    else if nrows * m + ncols >= |d| then Err(OutOfRange("appendColumn writes past the end of the buffer"))
    else AsWrittenWrites(d[nrows * m + ncols := c[m]], nrows, ncols, c, m + 1)
  }

  /** appendColumn as written, on values: count bumped, buffer resized with zeros, then the writes. */
  function AppendColumnAsWrittenOf(d: seq<real>, nrows: nat, ncols: nat, c: seq<real>): Result<seq<real>>
    requires nrows <= |c|
  {
    AsWrittenWrites(Resized(d, nrows * (ncols + 1), 0.0), nrows, ncols + 1, c, 0)
  }

  // ---------------------------------------------------------------------
  // What the operations promise
  // ---------------------------------------------------------------------

  /** setRow(n, rw) followed by getRow(n) gives back rw. */
  lemma {:induction false} SetRowThenGetRow(d: seq<real>, nrows: nat, ncols: nat, n: nat, rw: seq<real>)
    requires n < nrows && |d| == nrows * ncols && ncols <= |rw|
    ensures Row(WithRow(d, nrows, n, rw, ncols), nrows, ncols, n) == rw[..ncols]
  {
    var e := WithRow(d, nrows, n, rw, ncols);
    forall j | 0 <= j < ncols
      ensures Row(e, nrows, ncols, n)[j] == rw[j]
    {
      RowIndex(nrows, j, n);
      ColumnFits(nrows, ncols, j);
    }
  }

  /** setRow(n, rw) leaves every other row as it was. */
  lemma {:induction false} SetRowKeepsOtherRows(d: seq<real>, nrows: nat, ncols: nat, n: nat, rw: seq<real>, n2: nat)
    requires n < nrows && n2 < nrows && n2 != n && |d| == nrows * ncols && ncols <= |rw|
    ensures Row(WithRow(d, nrows, n, rw, ncols), nrows, ncols, n2) == Row(d, nrows, ncols, n2)
  {
    var e := WithRow(d, nrows, n, rw, ncols);
    forall j | 0 <= j < ncols
      ensures Row(e, nrows, ncols, n2)[j] == Row(d, nrows, ncols, n2)[j]
    {
      RowIndex(nrows, j, n2);
      ColumnFits(nrows, ncols, j);
    }
  }

  /** Writing s over d from lo on and reading the same run back gives s. */
  lemma SpliceReadsBack(d: seq<real>, lo: nat, s: seq<real>)
    requires lo + |s| <= |d|
    ensures (d[..lo] + s + d[lo + |s|..])[lo..lo + |s|] == s
  {
    var e := d[..lo] + s + d[lo + |s|..];
    assert forall i :: 0 <= i < |s| ==> e[lo + i] == s[i];
  }

  /** Writing s over d from lo on leaves any run [a, a+n) clear of it unchanged. */
  lemma SpliceKeepsOutside(d: seq<real>, lo: nat, s: seq<real>, a: nat, n: nat)
    requires lo + |s| <= |d| && a + n <= |d|
    requires a + n <= lo || lo + |s| <= a
    ensures (d[..lo] + s + d[lo + |s|..])[a..a + n] == d[a..a + n]
  {
    var e := d[..lo] + s + d[lo + |s|..];
    assert forall i :: a <= i < a + n ==> e[i] == d[i];
  }

  /**
   * setColumn(m, col) replaces exactly the run [nRows*m, nRows*(m+1)):
   * getColumn(m) afterwards gives back col and every other column is kept.
   */
  lemma SetColumnThenGetColumn(d: seq<real>, nrows: nat, ncols: nat, m: nat, col: seq<real>)
    requires m < ncols && |d| == nrows * ncols && nrows <= |col|
    ensures (ColumnFits(nrows, ncols, m);
             var e := d[..nrows * m] + col[..nrows] + d[nrows * m + nrows..];
             && |e| == |d|
             && Column(e, nrows, ncols, m) == col[..nrows]
             && forall m2 :: 0 <= m2 < ncols && m2 != m ==> Column(e, nrows, ncols, m2) == Column(d, nrows, ncols, m2))
  {
    ColumnFits(nrows, ncols, m);
    var lo := nrows * m;
    var e := d[..lo] + col[..nrows] + d[lo + nrows..];
    SpliceReadsBack(d, lo, col[..nrows]);
    ColumnIsContiguous(e, nrows, ncols, m);
    forall m2 | 0 <= m2 < ncols && m2 != m
      ensures Column(e, nrows, ncols, m2) == Column(d, nrows, ncols, m2)
    {
      SetColumnKeepsColumn(d, nrows, ncols, m, col, m2);
    }
  }

  /** One column other than m, untouched by writing column m. */
  lemma SetColumnKeepsColumn(d: seq<real>, nrows: nat, ncols: nat, m: nat, col: seq<real>, m2: nat)
    requires m < ncols && m2 < ncols && m2 != m && |d| == nrows * ncols && nrows <= |col|
    ensures (ColumnFits(nrows, ncols, m);
             var e := d[..nrows * m] + col[..nrows] + d[nrows * m + nrows..];
             |e| == |d| && Column(e, nrows, ncols, m2) == Column(d, nrows, ncols, m2))
  {
    ColumnFits(nrows, ncols, m);
    var lo := nrows * m;
    var e := d[..lo] + col[..nrows] + d[lo + nrows..];
    ColumnIsContiguous(e, nrows, ncols, m2);
    ColumnIsContiguous(d, nrows, ncols, m2);
    if m2 < m {
      ColumnsOrdered(nrows, m2, m);
    } else {
      ColumnsOrdered(nrows, m, m2);
    }
    SpliceKeepsOutside(d, lo, col[..nrows], nrows * m2, nrows);
  }

  /** ptrColumn(m) points at column m: the nRows entries from nRows*m on are that column. */
  lemma ColumnIsContiguous(d: seq<real>, nrows: nat, ncols: nat, m: nat)
    requires m < ncols && |d| == nrows * ncols
    ensures nrows * m + nrows <= |d|
    ensures d[nrows * m..nrows * m + nrows] == Column(d, nrows, ncols, m)
  {
    ColumnFits(nrows, ncols, m);
  }

  /** ColumnIsContiguous for any buffer that has the shape. */
  lemma ColumnAt(d: seq<real>, nrows: nat, ncols: nat, m: nat)
    ensures m < ncols && |d| == nrows * ncols ==>
              0 <= nrows * m && nrows * m + nrows <= |d| &&
              d[nrows * m..nrows * m + nrows] == Column(d, nrows, ncols, m)
  {
    if m < ncols && |d| == nrows * ncols {
      ColumnIsContiguous(d, nrows, ncols, m);
    }
  }

  /** axpy is a scaling of x followed by an elementwise sum with y. */
  lemma AxpyIsScaleThenSum(a: real, x: seq<real>, y: seq<real>, n: nat)
    requires n <= |x| && n <= |y|
    ensures AxpyOf(a, x, y, n) == SumEach(Scaled(x[..n], a), y)
  {
    var s := SumEach(Scaled(x[..n], a), y);
    forall k | 0 <= k < n
      ensures AxpyOf(a, x, y, n)[k] == s[k]
    {
      assert x[..n][k] == x[k];
    }
  }

  /**
   * The corrected appendColumn, on values: the buffer grows by exactly the
   * new column, which reads back as c, and the old columns are kept.
   */
  lemma AppendColumnThenGetColumn(d: seq<real>, nrows: nat, ncols: nat, c: seq<real>)
    requires |d| == nrows * ncols && nrows <= |c|
    ensures nrows * (ncols + 1) == nrows * ncols + nrows
    ensures var e := d + c[..nrows];
            && |e| == nrows * (ncols + 1)
            && Column(e, nrows, ncols + 1, ncols) == c[..nrows]
            && forall m :: 0 <= m < ncols ==> Column(e, nrows, ncols + 1, m) == Column(d, nrows, ncols, m)
  {
    var e := d + c[..nrows];
    assert nrows * (ncols + 1) == nrows * ncols + nrows;
    ColumnIsContiguous(e, nrows, ncols + 1, ncols);
    assert e[|d|..] == c[..nrows];
    forall m | 0 <= m < ncols
      ensures Column(e, nrows, ncols + 1, m) == Column(d, nrows, ncols, m)
    {
      ColumnIsContiguous(e, nrows, ncols + 1, m);
      ColumnIsContiguous(d, nrows, ncols, m);
      assert e[..|d|] == d;
    }
  }

  /** One more entry of s written after the prefix p: the run grows by s[i]. */
  lemma WriteNext(p: seq<real>, s: seq<real>, i: nat, rest: seq<real>)
    requires i < |s| && 1 <= |rest|
    ensures (p + s[..i] + rest)[|p| + i := s[i]] == p + s[..i + 1] + rest[1..]
  {
    assert s[..i + 1] == s[..i] + [s[i]];
  }

  /**
   * appendColumn as written, on a 2-by-2 array [1, 2, 3, 4] given the column
   * [5, 6]: it overwrites entry (1, 1) and leaves the new entry (0, 2) zero,
   * where the documented result is [1, 2, 3, 4, 5, 6].
   */
  lemma AppendColumnAsWrittenClobbers()
    ensures AppendColumnAsWrittenOf([1.0, 2.0, 3.0, 4.0], 2, 2, [5.0, 6.0]) == Ok([1.0, 2.0, 3.0, 5.0, 0.0, 6.0])
    ensures [1.0, 2.0, 3.0, 4.0] + [5.0, 6.0][..2] == [1.0, 2.0, 3.0, 4.0, 5.0, 6.0]
  {
    var d := Resized([1.0, 2.0, 3.0, 4.0], 6, 0.0);
    assert d == [1.0, 2.0, 3.0, 4.0, 0.0, 0.0];
    assert d[3 := 5.0][5 := 6.0] == [1.0, 2.0, 3.0, 5.0, 0.0, 6.0];
  }

  /**
   * appendColumn as written on any one-row array writes its single entry at
   * flat index nCols, one past the end of the grown buffer.
   */
  lemma AppendColumnAsWrittenOneRow(d: seq<real>, ncols: nat, c: seq<real>)
    requires |d| == ncols && 1 <= |c|
    ensures AppendColumnAsWrittenOf(d, 1, ncols, c).Err?
  {
  }

  // ---------------------------------------------------------------------
  // The class
  // ---------------------------------------------------------------------

  class Array2D {
    var data: seq<real>
    var nrows: nat
    var ncols: nat

    /** The buffer holds exactly nRows*nCols entries. */
    ghost predicate Valid()
      reads this
    {
      |data| == nrows * ncols
    }

    /** An empty array: no rows, no columns, no entries. */
    constructor Empty()
      ensures nrows == 0 && ncols == 0 && data == [] && Valid()
    {
      data, nrows, ncols := [], 0, 0;
    }

    /** An m-by-n array with every entry v. */
    constructor Filled(m: nat, n: nat, v: real)
      ensures nrows == m && ncols == n && Valid()
      ensures forall k :: 0 <= k < |data| ==> data[k] == v
    {
      nrows, ncols := m, n;
      var buf := Resized([], n * m, 0.0);
      // std::fill over the freshly sized buffer
      var k := 0;
      while k < |buf|
        invariant 0 <= k <= |buf| == n * m
        invariant forall i :: 0 <= i < k ==> buf[i] == v
      {
        buf := buf[k := v];
        k := k + 1;
      }
      data := buf;
    }

    /** The copy constructor: the dimensions and the buffer of y. */
    constructor Copy(y: Array2D)
      ensures nrows == y.nrows && ncols == y.ncols && data == y.data
    {
      nrows, ncols := y.nrows, y.ncols;
      data := Resized([], y.nrows * y.ncols, 0.0);
      data := y.data;
    }

    /** operator=: take y's dimensions and buffer; assigning to itself changes nothing. */
    method Assign(y: Array2D)
      modifies this
      ensures nrows == old(y.nrows) && ncols == old(y.ncols) && data == old(y.data)
    {
      if y == this {
        return;
      }
      nrows, ncols := y.nrows, y.ncols;
      data := Resized(data, nrows * ncols, 0.0);
      data := y.data;
    }

    /** resize(n, m, v): n rows, m columns; the flat prefix is kept and new entries are v. */
    method Resize(n: nat, m: nat, v: real)
      modifies this
      ensures nrows == n && ncols == m && Valid()
      ensures data == Resized(old(data), n * m, v)
    {
      nrows, ncols := n, m;
      data := Resized(data, n * m, v);
    }

    /**
     * appendColumn as the source writes it: the column count goes up and the
     * buffer grows with zeros, then entry m of c is written to
     * value(nCols, m) -- flat index nRows*m + nCols.  Err when a write falls
     * past the end of the buffer.
     */
    method AppendColumnAsWritten(c: seq<real>) returns (r: Result<()>)
      requires nrows <= |c|
      modifies this
      ensures nrows == old(nrows) && ncols == old(ncols) + 1
      ensures var w := AppendColumnAsWrittenOf(old(data), nrows, old(ncols), c);
              r.Ok? == w.Ok? && (w.Ok? ==> data == w.value)
    {
      ncols := ncols + 1;
      data := Resized(data, nrows * ncols, 0.0);
      var m := 0;
      while m < nrows
        invariant 0 <= m <= nrows && nrows == old(nrows) && ncols == old(ncols) + 1
        invariant AsWrittenWrites(data, nrows, ncols, c, m) == AppendColumnAsWrittenOf(old(data), nrows, old(ncols), c)
      {
        if nrows * m + ncols >= |data| {
          return Err(OutOfRange("appendColumn writes past the end of the buffer"));
        }
        data := data[nrows * m + ncols := c[m]];
        m := m + 1;
      }
      r := Ok(());
    }

    /**
     * appendColumn as documented: entry m of c is written to value(m, nCols-1),
     * so the buffer grows by exactly the new column.
     */
    method AppendColumn(c: seq<real>)
      requires Valid() && nrows <= |c|
      modifies this
      ensures nrows == old(nrows) && ncols == old(ncols) + 1 && Valid()
      ensures data == old(data) + c[..nrows]
    {
      ncols := ncols + 1;
      assert nrows * ncols == |data| + nrows;
      data := Resized(data, nrows * ncols, 0.0);
      var m := 0;
      while m < nrows
        invariant 0 <= m <= nrows && nrows == old(nrows) && ncols == old(ncols) + 1
        invariant |data| == nrows * ncols
        invariant data == old(data) + c[..m] + seq(nrows - m, _ => 0.0)
      {
        data := data[nrows * (ncols - 1) + m := c[m]];
        m := m + 1;
      }
    }

    /** setRow(n, rw): value(n, j) := rw[j] for every column j. */
    method SetRow(n: nat, rw: seq<real>)
      requires Valid() && n < nrows && ncols <= |rw|
      modifies this
      ensures nrows == old(nrows) && ncols == old(ncols) && Valid()
      ensures data == WithRow(old(data), nrows, n, rw, ncols)
    {
      for j := 0 to ncols
        invariant nrows == old(nrows) && ncols == old(ncols) && |data| == nrows * ncols
        invariant data == WithRow(old(data), nrows, n, rw, j)
      {
        ColumnFits(nrows, ncols, j);
        RowIndex(nrows, j, n);
        data := data[nrows * j + n := rw[j]];
      }
    }

    /** getRow(n, rw): rw[j] := value(n, j) for every column j; rw beyond nCols is untouched. */
    method GetRow(n: nat, rw: array<real>)
      requires Valid() && n < nrows && ncols <= rw.Length
      modifies rw
      ensures rw[..ncols] == Row(data, nrows, ncols, n)
      ensures rw[ncols..] == old(rw[ncols..])
    {
      for j := 0 to ncols
        invariant rw[..j] == Row(data, nrows, ncols, n)[..j]
        invariant rw[ncols..] == old(rw[ncols..])
      {
        ColumnFits(nrows, ncols, j);
        rw[j] := data[nrows * j + n];
      }
    }

    /** setColumn(m, col): value(i, m) := col[i]; only column m's run of the buffer changes. */
    method SetColumn(m: nat, col: seq<real>)
      requires Valid() && m < ncols && nrows <= |col|
      modifies this
      ensures nrows == old(nrows) && ncols == old(ncols) && Valid()
      ensures (ColumnFits(nrows, ncols, m);
               data == old(data)[..nrows * m] + col[..nrows] + old(data)[nrows * m + nrows..])
    {
      ColumnFits(nrows, ncols, m);
      WriteRun(nrows * m, col, nrows);
    }

    /** The loop of setColumn: data[lo + i] := col[i] for i < n. */
    method WriteRun(lo: nat, col: seq<real>, n: nat)
      requires lo + n <= |data| && n <= |col|
      modifies this
      ensures nrows == old(nrows) && ncols == old(ncols)
      ensures data == old(data)[..lo] + col[..n] + old(data)[lo + n..]
    {
      for i := 0 to n
        invariant nrows == old(nrows) && ncols == old(ncols) && |data| == |old(data)|
        invariant data == old(data)[..lo] + col[..i] + old(data)[lo + i..]
      {
        WriteNext(old(data)[..lo], col, i, old(data)[lo + i..]);
        assert old(data)[lo + i..][1..] == old(data)[lo + i + 1..];
        data := data[lo + i := col[i]];
      }
    }

    /** getColumn(m, col): col[i] := value(i, m); col beyond nRows is untouched. */
    method GetColumn(m: nat, col: array<real>)
      requires Valid() && m < ncols && nrows <= col.Length
      modifies col
      ensures col[..nrows] == Column(data, nrows, ncols, m)
      ensures col[nrows..] == old(col[nrows..])
    {
      ColumnFits(nrows, ncols, m);
      for i := 0 to nrows
        invariant col[..i] == Column(data, nrows, ncols, m)[..i]
        invariant col[nrows..] == old(col[nrows..])
      {
        col[i] := data[nrows * m + i];
      }
    }

    /**
     * axpy(a, x, y): entry k := a*x[k] + y[k] over this array's own length;
     * x and y are not checked and must be at least as long.
     */
    method Axpy(a: real, x: Array2D, y: Array2D)
      requires |data| <= |x.data| && |data| <= |y.data|
      modifies this
      ensures nrows == old(nrows) && ncols == old(ncols)
      ensures data == AxpyOf(a, old(x.data), old(y.data), |old(data)|)
    {
      // Entry k of x and y is read before entry k of this array is written,
      // so the snapshots agree with the source even when x or y is this array.
      var xs, ys := x.data, y.data;
      for k := 0 to |data|
        invariant nrows == old(nrows) && ncols == old(ncols) && |data| == |old(data)|
        invariant forall i :: 0 <= i < k ==> data[i] == a * xs[i] + ys[i]
        invariant forall i :: k <= i < |data| ==> data[i] == old(data)[i]
      {
        data := data[k := a * xs[k] + ys[k]];
      }
      assert forall i :: 0 <= i < |data| ==> data[i] == AxpyOf(a, xs, ys, |data|)[i];
    }

    /** A(i, j): the entry at flat index nRows*j + i, which must lie inside the buffer. */
    function Value(i: int, j: int): (v: real)
      reads this
      requires 0 <= nrows * j + i < |data|
      ensures 0 <= i < nrows && 0 <= j < ncols && Valid() ==>
                v == Column(data, nrows, ncols, j)[i] && v == Row(data, nrows, ncols, i)[j]
    {
      data[nrows * j + i]
    }

    /** A(i, j) = x through the reference value(i, j) returns. */
    method SetValue(i: int, j: int, x: real)
      requires 0 <= nrows * j + i < |data|
      modifies this
      ensures nrows == old(nrows) && ncols == old(ncols)
      ensures data == old(data)[nrows * j + i := x]
    {
      data := data[nrows * j + i := x];
    }

    function NRows(): nat
      reads this
    {
      nrows
    }

    function NColumns(): nat
      reads this
    {
      ncols
    }

    /** ptrColumn(j): the offset of column j's first entry; its nRows entries follow contiguously. */
    function PtrColumn(j: nat): (p: int)
      reads this
      requires nrows * j <= |data|
      ensures Valid() && j < ncols ==>
                0 <= p && p + nrows <= |data| && data[p..p + nrows] == Column(data, nrows, ncols, j)
    {
      ColumnAt(data, nrows, ncols, j);
      nrows * j
    }

    /** operator*=: every entry scaled by a. */
    method ScaleBy(a: real)
      modifies this
      ensures nrows == old(nrows) && ncols == old(ncols)
      ensures data == Scaled(old(data), a)
    {
      for k := 0 to |data|
        invariant nrows == old(nrows) && ncols == old(ncols) && |data| == |old(data)|
        invariant forall i :: 0 <= i < k ==> data[i] == old(data)[i] * a
        invariant forall i :: k <= i < |data| ==> data[i] == old(data)[i]
      {
        data := data[k := data[k] * a];
      }
      assert forall i :: 0 <= i < |data| ==> data[i] == Scaled(old(data), a)[i];
    }

    /** operator+=: y's entries added into this array's, over this array's length. */
    method AddEach(y: Array2D)
      requires |data| <= |y.data|
      modifies this
      ensures nrows == old(nrows) && ncols == old(ncols)
      ensures data == SumEach(old(data), old(y.data))
    {
      // As in Axpy, entry k of y is read before entry k of this array changes.
      var ys := y.data;
      for k := 0 to |data|
        invariant nrows == old(nrows) && ncols == old(ncols) && |data| == |old(data)|
        invariant forall i :: 0 <= i < k ==> data[i] == old(data)[i] + ys[i]
        invariant forall i :: k <= i < |data| ==> data[i] == old(data)[i]
      {
        data := data[k := data[k] + ys[k]];
      }
    }
  }
}
