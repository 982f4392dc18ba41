/**
  The character grid the word finder searches: its shape, its columns and its
  transpose, and the two ways building it from a list of rows can fail.
 */
module Matrix {

  /** The grid is non-empty and every row has the first row's length (which may be zero). */
  predicate IsMatrix(m: seq<string>) {
    |m| > 0 && forall i :: 0 <= i < |m| ==> |m[i]| == |m[0]|
  }

  /** Number of columns of a grid. */
  function Width(m: seq<string>): nat
    requires IsMatrix(m)
  {
    |m[0]|
  }

  /** Column `c` read top to bottom: character `c` of every row, in row order. */
  function Column(m: seq<string>, c: nat): (r: string)
    requires IsMatrix(m) && c < Width(m)
    ensures |r| == |m|
    ensures forall i :: 0 <= i < |m| ==> r[i] == m[i][c]
  {
    seq(|m|, i requires 0 <= i < |m| => m[i][c])
  }

  /** The grid whose rows are the columns of `m`. */
  function Transpose(m: seq<string>): seq<string>
    requires IsMatrix(m)
  {
    seq(Width(m), c requires 0 <= c < Width(m) => Column(m, c))
  }

  /** Transposing a grid with at least one column twice gives the grid back. */
  lemma TransposeInvolutive(m: seq<string>)
    requires IsMatrix(m) && Width(m) > 0
    ensures IsMatrix(Transpose(m)) && Width(Transpose(m)) == |m|
    ensures Transpose(Transpose(m)) == m
  {
    var t := Transpose(m);
    assert IsMatrix(t);
    forall i | 0 <= i < |m|
      ensures Transpose(t)[i] == m[i]
    {
      assert |Transpose(t)[i]| == |m[i]|;
    }
  }

  /** Why building a grid failed: no rows at all, or the first row whose length differs from row 0's. */
  datatype MatrixError = EmptyMatrix | RowLengthMismatch(row: nat)

  /** `i` is the first row whose length differs from the length of row 0. */
  predicate FirstMismatch(rows: seq<string>, i: nat) {
    0 < i < |rows| && |rows[i]| != |rows[0]| &&
    forall k :: 0 <= k < i ==> |rows[k]| == |rows[0]|
  }
}
