/**
  Counting a word over the whole grid: along every row (left to right), along
  every column (top to bottom), and the total of the two directions.
 */
module Search {
  import opened Matrix
  import opened LineSearch

  /** Sum of the occurrences of `word` over every line of `lines`. */
  function HorizontalCount(lines: seq<string>, word: string): nat {
    if lines == [] then 0
    else HorizontalCount(lines[..|lines| - 1], word) + Occurrences(lines[|lines| - 1], word)
  }

  /** Sum of the occurrences of `word` over the first `n` columns of `m`. */
  function ColumnsCount(m: seq<string>, word: string, n: nat): nat
    requires IsMatrix(m) && n <= Width(m)
  {
    if n == 0 then 0 else ColumnsCount(m, word, n - 1) + Occurrences(Column(m, n - 1), word)
  }

  /** Sum of the occurrences of `word` over every column of `m`. */
  function VerticalCount(m: seq<string>, word: string): nat
    requires IsMatrix(m)
  {
    ColumnsCount(m, word, Width(m))
  }

  /** Total count of a word in the grid: both directions added. */
  function Total(m: seq<string>, word: string): nat
    requires IsMatrix(m)
  {
    HorizontalCount(m, word) + VerticalCount(m, word)
  }

  lemma {:induction false} ColumnsAreTransposedRows(m: seq<string>, word: string, n: nat)
    requires IsMatrix(m) && n <= Width(m)
    ensures ColumnsCount(m, word, n) == HorizontalCount(Transpose(m)[..n], word)
  {
    if n > 0 {
      ColumnsAreTransposedRows(m, word, n - 1);
      assert Transpose(m)[..n][..n - 1] == Transpose(m)[..n - 1];
    }
  }

  /** Searching the columns of a grid is searching the rows of its transpose. */
  lemma VerticalIsHorizontalOfTranspose(m: seq<string>, word: string)
    requires IsMatrix(m)
    ensures VerticalCount(m, word) == HorizontalCount(Transpose(m), word)
  {
    ColumnsAreTransposedRows(m, word, Width(m));
    assert Transpose(m)[..Width(m)] == Transpose(m);
  }

  /** Searching the rows of a grid with a column is searching the columns of its transpose. */
  lemma HorizontalIsVerticalOfTranspose(m: seq<string>, word: string)
    requires IsMatrix(m) && Width(m) > 0
    ensures IsMatrix(Transpose(m))
    ensures HorizontalCount(m, word) == VerticalCount(Transpose(m), word)
  {
    TransposeInvolutive(m);
    VerticalIsHorizontalOfTranspose(Transpose(m), word);
  }

  /** The total count of a word does not change when the grid is transposed. */
  lemma TotalTransposeInvariant(m: seq<string>, word: string)
    requires IsMatrix(m) && Width(m) > 0
    ensures IsMatrix(Transpose(m))
    ensures Total(Transpose(m), word) == Total(m, word)
  {
    VerticalIsHorizontalOfTranspose(m, word);
    HorizontalIsVerticalOfTranspose(m, word);
  }

  /** A word that occurs in no row and no column has total count zero, and conversely. */
  lemma {:induction false} TotalZeroIff(m: seq<string>, word: string)
    requires IsMatrix(m)
    ensures Total(m, word) == 0 <==>
      (forall r, i :: 0 <= r < |m| ==> !MatchesAt(m[r], word, i)) &&
      (forall c, i :: 0 <= c < Width(m) ==> !MatchesAt(Column(m, c), word, i))
  {
    HorizontalZeroIff(m, word);
    ColumnsZeroIff(m, word, Width(m));
  }

  lemma {:induction false} HorizontalZeroIff(lines: seq<string>, word: string)
    ensures HorizontalCount(lines, word) == 0 <==>
      forall r, i :: 0 <= r < |lines| ==> !MatchesAt(lines[r], word, i)
  {
    if lines != [] {
      var init := lines[..|lines| - 1];
      HorizontalZeroIff(init, word);
      OccurrencesZeroIff(lines[|lines| - 1], word);
      assert forall r :: 0 <= r < |init| ==> lines[r] == init[r];
    }
  }

  lemma {:induction false} ColumnsZeroIff(m: seq<string>, word: string, n: nat)
    requires IsMatrix(m) && n <= Width(m)
    ensures ColumnsCount(m, word, n) == 0 <==>
      forall c, i :: 0 <= c < n ==> !MatchesAt(Column(m, c), word, i)
  {
    if n > 0 {
      ColumnsZeroIff(m, word, n - 1);
      OccurrencesZeroIff(Column(m, n - 1), word);
    }
  }
}
