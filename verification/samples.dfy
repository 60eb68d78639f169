/**
 * Single-precision samples as the depth camera plugin handles them, and the
 * index arithmetic of its row-major buffers.
 */
module Samples {

  /** A float read from a sensor buffer: a finite value or the quiet NaN.
      Rounding to single precision is not modelled. */
  datatype Sample = Num(value: real) | NaN

  /** `s > cutoff` under IEEE 754 comparison: false whenever `s` is NaN. */
  predicate Above(s: Sample, cutoff: real) {
    s.Num? && s.value > cutoff
  }

  /** `s * k`; NaN absorbs the product. */
  function Scale(s: Sample, k: real): (r: Sample)
    ensures r.NaN? <==> s.NaN?
    ensures s.Num? && k == 0.0 ==> r == Num(0.0)
  {
    match s
    case Num(v) => Num(v * k)
    case NaN => NaN
  }
}

/** Facts about the flat index `j * cols + i` of cell (row j, column i). */
module RowMajor {

  /** The flat index of column i of row j in rows of cols cells. */
  function Flat(j: nat, i: nat, cols: nat): nat {
    j * cols + i
  }

  /** Row and column are recovered from the flat index by division. */
  lemma Split(j: nat, i: nat, cols: nat)
    requires i < cols
    ensures (j * cols + i) / cols == j
    ensures (j * cols + i) % cols == i
  {
    var n := j * cols + i;
    var q := n / cols;
    assert n == q * cols + n % cols;
    if q < j {
      MulMono(q + 1, j, cols);
      assert false;
    } else if q > j {
      MulMono(j + 1, q, cols);
      assert false;
    }
  }

  /** Every cell of a rows-by-cols grid has a flat index below rows * cols. */
  lemma InRange(j: nat, i: nat, rows: nat, cols: nat)
    requires j < rows && i < cols
    ensures j * cols + i < rows * cols
  {
    MulMono(j + 1, rows, cols);
  }

  /** A flat index below rows * cols names a cell of the grid. */
  lemma Cell(k: nat, rows: nat, cols: nat)
    requires k < rows * cols
    ensures cols > 0
    ensures k / cols < rows && k % cols < cols
    ensures k == (k / cols) * cols + k % cols
  {
    if k / cols >= rows {
      MulMono(rows, k / cols, cols);
      assert false;
    }
  }

  lemma NextRow(j: nat, cols: nat)
    ensures (j + 1) * cols == j * cols + cols
  {
  }

  lemma MulMono(a: nat, b: nat, c: nat)
    requires a <= b
    ensures a * c <= b * c
  {
  }
}
