/**
  The word finder object: it builds its grid once from a list of rows, then
  answers `Find` queries over a stream of words by scanning rows and columns.
 */
module WordFinderChallenge {
  import opened Wrappers
  import opened Matrix
  import opened LineSearch
  import opened Search
  import opened Ranker

  class WordFinder {
    /** The grid, fixed at construction and only read afterwards. */
    const matrix: seq<string>

    ghost predicate Valid() {
      IsMatrix(matrix)
    }

    constructor FromMatrix(m: seq<string>)
      requires IsMatrix(m)
      ensures Valid() && matrix == m
    {
      matrix := m;
    }

    /**
      The public constructor: builds the grid from `rows`, or fails with the
      error that building the grid reports.
     */
    static method Create(rows: seq<string>) returns (r: Result<WordFinder, MatrixError>)
      ensures r.Success? <==> IsMatrix(rows)
      ensures r.Success? ==> fresh(r.value) && r.value.Valid() && r.value.matrix == rows
      ensures rows == [] <==> r == Failure(EmptyMatrix)
      ensures r.Failure? && r.error.RowLengthMismatch? ==> FirstMismatch(rows, r.error.row)
    {
      var built := ConvertListToMatrix(rows);
      if built.Failure? {
        return Failure(built.error);
      }
      var finder := new WordFinder.FromMatrix(built.value);
      return Success(finder);
    }

    /**
      Copies the rows into a new grid, one row per step. Fails on an empty list,
      and otherwise on the first row whose length differs from row 0's.
     */
    static method ConvertListToMatrix(rows: seq<string>) returns (r: Result<seq<string>, MatrixError>)
      ensures rows == [] <==> r == Failure(EmptyMatrix)
      ensures r.Success? <==> IsMatrix(rows)
      ensures r.Success? ==> r.value == rows
      ensures r.Failure? && r.error.RowLengthMismatch? ==> FirstMismatch(rows, r.error.row)
    {
      if |rows| == 0 {
        return Failure(EmptyMatrix);
      }
      var rowCount := |rows|;
      var colCount := |rows[0]|;
      var charMatrix := new string[rowCount];
      for i := 0 to rowCount
        invariant forall k :: 0 <= k < i ==> |rows[k]| == colCount
        invariant charMatrix[..i] == rows[..i]
      {
        // The validator's size check: the two lengths differ.
        if |rows[i]| != colCount {
          return Failure(RowLengthMismatch(i));
        }
        charMatrix[i] := rows[i];
      }
      assert rows[..rowCount] == rows;
      return Success(charMatrix[..]);
    }

    /**
      Counts the occurrences of `word` in `input` by repeated `IndexOf`,
      resuming one past each hit so that overlapping occurrences all count.
     */
    method CountWordOccurrences(input: string, word: string) returns (count: nat)
      ensures count == Occurrences(input, word)
      ensures |word| > |input| ==> count == 0
      ensures |word| <= |input| ==> count <= |input| - |word| + 1
    {
      count := 0;
      var index := 0;
      var start := 0;
      var end := |input|;
      while start <= end && index > -1
        invariant 0 <= start <= end + 1 && end == |input|
        invariant index > -1
        invariant count + CountFrom(input, word, start) == Occurrences(input, word)
        decreases end + 1 - start
      {
        index := IndexOf(input, word, start);
        IndexOfAdvances(input, word, start);
        if index == -1 {
          break;
        }
        start := index + 1;
        count := count + 1;
      }
      OccurrencesBound(input, word);
    }

    /** Sum of the occurrences of `word` over every row. */
    method SearchHorizontally(word: string) returns (count: nat)
      requires Valid()
      ensures count == HorizontalCount(matrix, word)
    {
      count := 0;
      for row := 0 to |matrix|
        invariant count == HorizontalCount(matrix[..row], word)
      {
        var rowString := matrix[row];
        var n := CountWordOccurrences(rowString, word);
        assert matrix[..row + 1][..row] == matrix[..row];
        count := count + n;
      }
      assert matrix[..|matrix|] == matrix;
    }

    /** Sum of the occurrences of `word` over every column, each read top to bottom. */
    method SearchVertically(word: string) returns (count: nat)
      requires Valid()
      ensures count == VerticalCount(matrix, word)
      ensures count == HorizontalCount(Transpose(matrix), word)
    {
      count := 0;
      for col := 0 to |matrix[0]|
        invariant count == ColumnsCount(matrix, word, col)
      {
        var colString := Column(matrix, col);
        var n := CountWordOccurrences(colString, word);
        count := count + n;
      }
      VerticalIsHorizontalOfTranspose(matrix, word);
    }

    /**
      One pass over the stream builds the insertion-ordered word-count table
      (a word already in it is skipped; a word whose total is zero is not
      added); the answer is the table's words sorted stably by count,
      descending, cut to ten.
     */
    method Find(wordstream: seq<string>) returns (result: seq<string>)
      requires Valid()
      ensures result == Ranking(matrix, wordstream)
      ensures forall i :: 0 <= i < |result| ==> result[i] in wordstream && Total(matrix, result[i]) > 0
      ensures forall i, j :: 0 <= i < j < |result| ==> Outranks(matrix, wordstream, result[i], result[j])
      ensures forall i, j :: 0 <= i < j < |result| ==> result[i] != result[j]
      ensures |result| == Min(MaxResults, |FoundWords(matrix, wordstream)|)
      ensures forall w :: w in wordstream && Total(matrix, w) > 0 && w !in result ==>
                |result| == MaxResults &&
                forall i :: 0 <= i < MaxResults ==> Outranks(matrix, wordstream, result[i], w)
    {
      var wordCounts: seq<Entry> := [];
      for k := 0 to |wordstream|
        invariant wordCounts == WordCounts(matrix, wordstream[..k])
      {
        var word := wordstream[k];
        assert wordstream[..k + 1][..k] == wordstream[..k];
        var count := 0;
        if word !in Keys(wordCounts) {
          var horizontal := SearchHorizontally(word);
          var vertical := SearchVertically(word);
          count := horizontal + vertical;
          if count > 0 {
            wordCounts := wordCounts + [Entry(word, count)];
          }
        }
      }
      assert wordstream[..|wordstream|] == wordstream;
      result := Top(Keys(SortByCount(wordCounts)));
      RankingCorrect(matrix, wordstream);
    }
  }
}
