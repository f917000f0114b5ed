/**
 * The row-major matrix helpers of utils/matrixutil.cc over an idealised
 * `real` element type. A matrix with `col` columns is a flat array; cell
 * (i, j) sits at `i * col + j`. The source computes that position in 64
 * bits from 32-bit operands, which never wraps, so it is plain `nat`
 * arithmetic here.
 */
module MatrixUtil {

  /** The position of cell (i, j) in a row-major matrix with `col` columns. */
  function Cell(i: nat, j: nat, col: nat): (k: nat)
    ensures j < col ==> i * col <= k < i * col + col
  {
    i * col + j
  }

  /** Row `i` of a matrix with `col` columns lies within `len` cells. */
  predicate RowIn(len: int, i: nat, col: nat)
  {
    i * col + col <= len
  }

  /** Row `i` as a sequence of `col` values. */
  function Row(m: seq<real>, i: nat, col: nat): (r: seq<real>)
    requires RowIn(|m|, i, col)
    ensures |r| == col && forall j :: 0 <= j < col ==> r[j] == m[Cell(i, j, col)]
  {
    m[i * col .. i * col + col]
  }

  /** The sum of the products of corresponding entries, accumulated from the left. */
  function Dot(a: seq<real>, b: seq<real>): real
    requires |a| == |b|
  {
    if a == [] then 0.0 else Dot(a[..|a| - 1], b[..|b| - 1]) + a[|a| - 1] * b[|b| - 1]
  }

  /** The entrywise product: a vector under a dropout mask. */
  function Times(a: seq<real>, b: seq<real>): (r: seq<real>)
    requires |a| <= |b|
    ensures |r| == |a| && forall j :: 0 <= j < |a| ==> r[j] == a[j] * b[j]
  {
    seq(|a|, j requires 0 <= j < |a| => a[j] * b[j])
  }

  /** `a + rate * v`, entry by entry. */
  function AddScaled(a: seq<real>, v: seq<real>, rate: real): (r: seq<real>)
    requires |a| == |v|
    ensures |r| == |a| && forall j :: 0 <= j < |a| ==> r[j] == a[j] + rate * v[j]
  {
    seq(|a|, j requires 0 <= j < |a| => a[j] + rate * v[j])
  }

  /**
   * The matrix after `rate * v` is added into row `i`: the cells of that
   * row move by `rate * v[j]`, every other cell keeps its value.
   */
  function AddToRow(m: seq<real>, i: nat, col: nat, v: seq<real>, rate: real): (r: seq<real>)
    requires |v| == col && RowIn(|m|, i, col)
    ensures |r| == |m|
    ensures forall k :: 0 <= k < |m| && (k < i * col || k >= i * col + col) ==> r[k] == m[k]
    ensures forall j :: 0 <= j < col ==> r[Cell(i, j, col)] == m[Cell(i, j, col)] + rate * v[j]
  {
    var row := AddScaled(Row(m, i, col), v, rate);
    SpliceRow(m, i, col, row);
    m[..i * col] + row + m[i * col + col..]
  }

  /** Replacing the cells of row `i` by `row` changes those cells only. */
  lemma SpliceRow(m: seq<real>, i: nat, col: nat, row: seq<real>)
    requires |row| == col && RowIn(|m|, i, col)
    ensures var r := m[..i * col] + row + m[i * col + col..];
      |r| == |m|
      && (forall k :: 0 <= k < |m| && (k < i * col || k >= i * col + col) ==> r[k] == m[k])
      && (forall j :: 0 <= j < col ==> r[Cell(i, j, col)] == row[j])
  {
  }

  // ---------------------------------------------------------------------
  // Facts about the specification

  lemma DotSnoc(a: seq<real>, b: seq<real>, n: nat)
    requires |a| == |b| && n < |a|
    ensures Dot(a[..n + 1], b[..n + 1]) == Dot(a[..n], b[..n]) + a[n] * b[n]
  {
    assert a[..n + 1][..n] == a[..n] && b[..n + 1][..n] == b[..n];
  }

  /** A sum of squares is never negative, so the norm of a row is defined. */
  lemma {:induction false} SumOfSquaresNonNegative(a: seq<real>)
    ensures Dot(a, a) >= 0.0
  {
    if a != [] {
      SumOfSquaresNonNegative(a[..|a| - 1]);
    }
  }

  /** The dot product does not depend on the order of its operands. */
  lemma {:induction false} DotSymmetric(a: seq<real>, b: seq<real>)
    requires |a| == |b|
    ensures Dot(a, b) == Dot(b, a)
  {
    if a != [] {
      DotSymmetric(a[..|a| - 1], b[..|b| - 1]);
    }
  }

  /** Masking a vector and then taking a dot product is the three-way product of the source's loops. */
  lemma {:induction false} DotTimes(a: seq<real>, v: seq<real>, mask: seq<real>)
    requires |a| == |v| <= |mask|
    ensures Dot(a, Times(v, mask)) == Dot3(a, v, mask)
  {
    if a != [] {
      var n := |a| - 1;
      assert forall j :: 0 <= j < n ==> Times(v, mask)[..n][j] == Times(v[..n], mask)[j];
      assert Times(v, mask)[..n] == Times(v[..n], mask);
      DotTimes(a[..n], v[..n], mask);
    }
  }

  /** Σ a[j] * v[j] * mask[j], accumulated from the left. */
  function Dot3(a: seq<real>, v: seq<real>, mask: seq<real>): real
    requires |a| == |v| <= |mask|
  {
    if a == [] then 0.0 else Dot3(a[..|a| - 1], v[..|v| - 1], mask) + a[|a| - 1] * v[|v| - 1] * mask[|a| - 1]
  }

  lemma Dot3Snoc(a: seq<real>, v: seq<real>, mask: seq<real>, n: nat)
    requires |a| == |v| <= |mask| && n < |a|
    ensures Dot3(a[..n + 1], v[..n + 1], mask) == Dot3(a[..n], v[..n], mask) + a[n] * v[n] * mask[n]
  {
    assert a[..n + 1][..n] == a[..n] && v[..n + 1][..n] == v[..n];
  }

  /** Rows that differ occupy disjoint ranges of cells. */
  lemma {:induction false} RowsApart(k: nat, i: nat, col: nat)
    requires k < i
    ensures k * col + col <= i * col
    decreases i - k
  {
    if k + 1 < i {
      RowsApart(k + 1, i, col);
    }
    assert (k + 1) * col == k * col + col;
  }

  /** Every row of a `row` by `col` matrix lies within its `row * col` cells. */
  lemma AllRowsIn(len: nat, row: nat, col: nat)
    requires row * col <= len
    ensures forall i :: 0 <= i < row ==> RowIn(len, i, col)
  {
    forall i | 0 <= i < row
      ensures RowIn(len, i, col)
    {
      RowsApart(i, row, col);
    }
  }

  lemma NextRow(n: nat, col: nat)
    ensures n * col + col == (n + 1) * col
  {
  }

  /** The first `n` rows of a matrix with `col` columns, in order. */
  function Rows(m: seq<real>, n: nat, col: nat): (rs: seq<seq<real>>)
    requires n * col <= |m|
    ensures |rs| == n
    ensures forall i :: 0 <= i < n ==> RowIn(|m|, i, col) && rs[i] == Row(m, i, col)
  {
    if n == 0 then []
    else
      NextRow(n - 1, col);
      Rows(m, n - 1, col) + [Row(m, n - 1, col)]
  }

  /** Rows laid end to end. */
  function Flat(rs: seq<seq<real>>): (v: seq<real>)
  {
    if rs == [] then [] else Flat(rs[..|rs| - 1]) + rs[|rs| - 1]
  }

  /** Laying the rows of a matrix end to end gives its cells back. */
  lemma {:induction false} FlatRows(m: seq<real>, n: nat, col: nat)
    requires n * col <= |m|
    ensures Flat(Rows(m, n, col)) == m[..n * col]
  {
    if n > 0 {
      NextRow(n - 1, col);
      FlatRows(m, n - 1, col);
      assert Rows(m, n, col)[..n - 1] == Rows(m, n - 1, col);
      assert m[..n * col] == m[..(n - 1) * col] + m[(n - 1) * col .. n * col];
    }
  }

  /** Rows of `col` values each lay out `col` cells per row. */
  lemma {:induction false} FlatLength(rs: seq<seq<real>>, col: nat)
    requires forall i :: 0 <= i < |rs| ==> |rs[i]| == col
    ensures |Flat(rs)| == |rs| * col
  {
    if rs != [] {
      FlatLength(rs[..|rs| - 1], col);
      NextRow(|rs| - 1, col);
    }
  }

  /** Adding into row `i` leaves every other row as it was. */
  lemma AddToRowOtherRows(m: seq<real>, i: nat, col: nat, v: seq<real>, rate: real, k: nat)
    requires |v| == col && RowIn(|m|, i, col) && RowIn(|m|, k, col) && k != i
    ensures Row(AddToRow(m, i, col, v, rate), k, col) == Row(m, k, col)
  {
    if k < i {
      RowsApart(k, i, col);
    } else {
      RowsApart(i, k, col);
    }
  }

  // ---------------------------------------------------------------------
  // The helpers

  /** MatrixDowRow(data1, idx1, data2, idx2, col): the dot product of two rows; reads only. */
  method MatrixDowRow(data1: array<real>, idx1: nat, data2: array<real>, idx2: nat, col: nat) returns (res: real)
    requires RowIn(data1.Length, idx1, col) && RowIn(data2.Length, idx2, col)
    ensures res == Dot(Row(data1[..], idx1, col), Row(data2[..], idx2, col))
  {
    ghost var a, b := Row(data1[..], idx1, col), Row(data2[..], idx2, col);
    res := 0.0;
    var i := 0;
    while i < col
      invariant 0 <= i <= col && res == Dot(a[..i], b[..i])
    {
      DotSnoc(a, b, i);
      res := res + data1[Cell(idx1, i, col)] * data2[Cell(idx2, i, col)];
      i := i + 1;
    }
    assert a[..col] == a && b[..col] == b;
  }

  /** MatrixDowRow(data1, idx1, vec, col): the dot product of a row and a vector of `col` values. */
  method MatrixDowRowVec(data1: array<real>, idx1: nat, vec: seq<real>, col: nat) returns (res: real)
    requires |vec| == col && RowIn(data1.Length, idx1, col)
    ensures res == Dot(Row(data1[..], idx1, col), vec)
  {
    ghost var a := Row(data1[..], idx1, col);
    res := 0.0;
    var i := 0;
    while i < col
      invariant 0 <= i <= col && res == Dot(a[..i], vec[..i])
    {
      DotSnoc(a, vec, i);
      res := res + data1[Cell(idx1, i, col)] * vec[i];
      i := i + 1;
    }
    assert a[..col] == a && vec[..col] == vec;
  }

  /** MatrixDowRow(data1, idx1, vec, col, mask): the dot product of a row and the masked vector. */
  method MatrixDowRowMasked(data1: array<real>, idx1: nat, vec: seq<real>, col: nat, mask: seq<real>) returns (res: real)
    requires |vec| == col == |mask| && RowIn(data1.Length, idx1, col)
    ensures res == Dot(Row(data1[..], idx1, col), Times(vec, mask))
  {
    ghost var a := Row(data1[..], idx1, col);
    res := 0.0;
    var i := 0;
    while i < col
      invariant 0 <= i <= col && res == Dot3(a[..i], vec[..i], mask)
    {
      Dot3Snoc(a, vec, mask, i);
      res := res + data1[Cell(idx1, i, col)] * vec[i] * mask[i];
      i := i + 1;
    }
    assert a[..col] == a && vec[..col] == vec;
    DotTimes(a, vec, mask);
  }

  /**
   * MatrixAdd(dest, dest_idx, vec, col, rate): `rate * vec` is added into
   * row `dest_idx`; no other cell changes.
   */
  method MatrixAddVec(dest: array<real>, destIdx: nat, vec: seq<real>, col: nat, rate: real)
    requires |vec| == col && RowIn(dest.Length, destIdx, col)
    modifies dest
    ensures dest[..] == AddToRow(old(dest[..]), destIdx, col, vec, rate)
  {
    ghost var m := dest[..];
    var base := destIdx * col;
    var i := 0;
    while i < col
      invariant 0 <= i <= col
      invariant forall k :: 0 <= k < dest.Length ==> dest[k] == if base <= k < base + i then m[k] + rate * vec[k - base] else m[k]
    {
      dest[base + i] := dest[base + i] + rate * vec[i];
      i := i + 1;
    }
    ghost var r := AddToRow(m, destIdx, col, vec, rate);
    forall k | 0 <= k < dest.Length
      ensures dest[k] == r[k]
    {
      if base <= k < base + col {
        assert k == Cell(destIdx, k - base, col);
      }
    }
    assert dest[..] == r;
  }

  /**
   * MatrixAdd(dest, dest_idx, src, src_idx, col, rate): `rate` times row
   * `src_idx` of `src` is added into row `dest_idx` of `dest`. Each cell
   * reads only its own source cell, before writing, so the result is the
   * same when both are one matrix: copying the source row first changes
   * nothing.
   */
  method MatrixAdd(dest: array<real>, destIdx: nat, src: array<real>, srcIdx: nat, col: nat, rate: real)
    requires RowIn(dest.Length, destIdx, col) && RowIn(src.Length, srcIdx, col)
    modifies dest
    ensures dest[..] == AddToRow(old(dest[..]), destIdx, col, Row(old(src[..]), srcIdx, col), rate)
  {
    var v := src[srcIdx * col .. srcIdx * col + col];
    assert v == Row(src[..], srcIdx, col);
    MatrixAddVec(dest, destIdx, v, col, rate);
  }

  /** MatrixAdd(dest, dest_idx, vec, col, rate, mask): `rate * vec * mask` is added into row `dest_idx`. */
  method MatrixAddMasked(dest: array<real>, destIdx: nat, vec: seq<real>, col: nat, rate: real, mask: seq<real>)
    requires |vec| == col <= |mask| && RowIn(dest.Length, destIdx, col)
    modifies dest
    ensures dest[..] == AddToRow(old(dest[..]), destIdx, col, Times(vec, mask), rate)
  {
    MatrixAddVec(dest, destIdx, Times(vec, mask), col, rate);
  }

  /** MatrixGetVec(vec, src, src_idx, col, rate): `rate` times row `src_idx` is added into `vec`; the matrix is only read. */
  method MatrixGetVec(vec: seq<real>, src: array<real>, srcIdx: nat, col: nat, rate: real) returns (r: seq<real>)
    requires |vec| == col && RowIn(src.Length, srcIdx, col)
    ensures |r| == col && forall j :: 0 <= j < col ==> r[j] == vec[j] + rate * src[Cell(srcIdx, j, col)]
  {
    r := vec;
    var i := 0;
    while i < col
      invariant 0 <= i <= col && |r| == col
      invariant forall j :: 0 <= j < col ==> r[j] == if j < i then vec[j] + rate * src[Cell(srcIdx, j, col)] else vec[j]
    {
      r := r[i := r[i] + rate * src[Cell(srcIdx, i, col)]];
      i := i + 1;
    }
  }

  /** MatrixGetVec(vec, src, src_idx, col, rate, mask): the masked row, scaled by `rate`, is added into `vec`. */
  method MatrixGetVecMasked(vec: seq<real>, src: array<real>, srcIdx: nat, col: nat, rate: real, mask: seq<real>)
    returns (r: seq<real>)
    requires |vec| == col == |mask| && RowIn(src.Length, srcIdx, col)
    ensures |r| == col && forall j :: 0 <= j < col ==> r[j] == vec[j] + rate * src[Cell(srcIdx, j, col)] * mask[j]
  {
    r := vec;
    var i := 0;
    while i < col
      invariant 0 <= i <= col && |r| == col
      invariant forall j :: 0 <= j < col ==> r[j] == if j < i then vec[j] + rate * src[Cell(srcIdx, j, col)] * mask[j] else vec[j]
    {
      r := r[i := r[i] + rate * src[Cell(srcIdx, i, col)] * mask[i]];
      i := i + 1;
    }
  }

  /**
   * MatrixMul(data, hidden, mask, result, row, col): each entry of
   * `result` gains the product of its row with the masked hidden vector;
   * `result` is not cleared first.
   */
  method MatrixMul(data: array<real>, hidden: seq<real>, mask: seq<real>, result: seq<real>, row: nat, col: nat)
    returns (r: seq<real>)
    requires |hidden| == col <= |mask| && |result| == row && row * col <= data.Length
    ensures |r| == row
    ensures forall i :: 0 <= i < row ==> RowIn(data.Length, i, col) && r[i] == result[i] + Dot(Row(data[..], i, col), Times(hidden, mask))
  {
    AllRowsIn(data.Length, row, col);
    r := result;
    var i := 0;
    while i < row
      invariant 0 <= i <= row && |r| == row
      invariant forall k :: 0 <= k < i ==> r[k] == result[k] + Dot(Row(data[..], k, col), Times(hidden, mask))
      invariant forall k :: i <= k < row ==> r[k] == result[k]
    {
      var acc := AccumulateRow(data, i, hidden, mask, col, r[i]);
      r := r[i := acc];
      i := i + 1;
    }
  }

  /** The inner loop of MatrixMul: row `i` times the masked hidden vector, added to `acc`. */
  method AccumulateRow(data: array<real>, i: nat, hidden: seq<real>, mask: seq<real>, col: nat, acc: real) returns (res: real)
    requires |hidden| == col <= |mask| && RowIn(data.Length, i, col)
    ensures res == acc + Dot(Row(data[..], i, col), Times(hidden, mask))
  {
    ghost var a := Row(data[..], i, col);
    res := acc;
    var j := 0;
    while j < col
      invariant 0 <= j <= col && res == acc + Dot3(a[..j], hidden[..j], mask)
    {
      Dot3Snoc(a, hidden, mask, j);
      res := res + data[Cell(i, j, col)] * hidden[j] * mask[j];
      j := j + 1;
    }
    assert a[..col] == a && hidden[..col] == hidden;
    DotTimes(a, hidden, mask);
  }

  /** MatrixNorm(dest, dest_idx, col): the square root, passed in as `root`, of the sum of squares of one row; reads only. */
  method MatrixNorm(dest: array<real>, destIdx: nat, col: nat, root: real -> real) returns (res: real)
    requires RowIn(dest.Length, destIdx, col)
    ensures res == root(Dot(Row(dest[..], destIdx, col), Row(dest[..], destIdx, col)))
  {
    var sum := MatrixDowRow(dest, destIdx, dest, destIdx, col);
    res := root(sum);
  }

  /** Norm(vec) of utils/vectorutil.cc: the root, passed in as `root`, of the sum of squares. */
  method Norm(vec: seq<real>, root: real -> real) returns (res: real)
    ensures res == root(Dot(vec, vec))
  {
    var sum := 0.0;
    var i := 0;
    while i < |vec|
      invariant 0 <= i <= |vec| && sum == Dot(vec[..i], vec[..i])
    {
      DotSnoc(vec, vec, i);
      sum := sum + vec[i] * vec[i];
      i := i + 1;
    }
    assert vec[..|vec|] == vec;
    res := root(sum);
  }
}
