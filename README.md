# Word finder — a verified model

This models the `WordFinder` class of the word-search challenge (WordFinder.cs).

A `WordFinder` is built once from an ordered list of equal-length rows of characters.

`Find` answers a query over a stream of words:
- Each distinct word is counted in every row, left to right.
- It is also counted in every column, top to bottom.
- Counting is overlapping: the scan resumes one character past each hit.
- Words that occur nowhere are dropped.
- The words that remain are sorted stably by their total, largest first.
- At most ten are returned.

Modules:

- `Wrappers`: the `Result` type for operations that fail.
- `Matrix`: the grid as a sequence of equal-length strings, its columns and its transpose, and the construction errors.
- `LineSearch`: the ordinal `IndexOf` of C# and the count of overlapping occurrences in one line (`Occurrences`), specified as the number of match positions.
- `Search`: horizontal, vertical and total counts over a grid, and their symmetry under transposition.
- `Ranker`: the insertion-ordered word-count table built by one pass over the stream (`WordCounts`), the stable sort by count, the cut to ten (`Ranking`) and the properties of the result.
- `WordFinderChallenge`: the class `WordFinder`. Its grid is a `const` field, since the C# field is `readonly` and never changed. Its methods are the loops of the source, each proved equal to the specification functions above:
  - `ConvertListToMatrix` fills an array row by row.
  - `CountWordOccurrences` is the `IndexOf` loop.
  - `SearchHorizontally` and `SearchVertically` are the row and column loops.
  - `Find` is the pass over the stream.
- `Demo`: the grid and stream that Program.cs passes to the class, with the result proved.

The C# constructor throws on bad input. It is modelled by a static factory `Create` that returns a `Result`, with the error kinds `EmptyMatrix` and `RowLengthMismatch(row)`.

On the grid and stream of Program.cs, `Find` returns ["cold", "wind", "chill"], not ["chill"] alone. Column 2 of the grid reads "cwind" and column 4 reads "coldy" (`Demo.DemoRanking`).

## Model

| member | source | states |
|---|---|---|
| WordFinderChallenge.WordFinder.Create | WordFinder.cs:13-18 | construction succeeds exactly when the rows are non-empty and all as long as row 0; the new finder holds the rows unchanged; an empty list fails with `EmptyMatrix`; otherwise a failure names the first row whose length differs |
| WordFinderChallenge.WordFinder.ConvertListToMatrix | WordFinder.cs:20-37 | an empty list fails; a list fails exactly when some row's length differs from row 0's, and the error names the first such row; on success the grid has the input's rows in order |
| Matrix.Column | WordFinder.cs:100 | the definition of a column string: one character per row, the `c`-th of each row, in row order; `SearchVertically` and the `Search` lemmas carry its properties |
| Matrix.TransposeInvolutive | WordFinder.cs:98-101 | for a grid with at least one column: reading columns top to bottom gives a rectangular grid with one row per column, and transposing twice gives back the grid |
| LineSearch.IndexOf | WordFinder.cs:122 | the result is -1 or a match position at or after `start`; no match lies between `start` and the result; -1 means no match at or after `start` |
| LineSearch.IndexOfAdvances | WordFinder.cs:120-129 | one `IndexOf` step either ends the scan with nothing left to count or accounts for exactly one occurrence before resuming one past the hit |
| LineSearch.OccurrencesArePositions | WordFinder.cs:113-132 | the overlapping count equals the number of start positions where the word matches |
| LineSearch.OccurrencesZeroIff | WordFinder.cs:113-132 | the count is zero exactly when the word matches at no position |
| LineSearch.OccurrencesBound | WordFinder.cs:113-132 | the count is 0 when the word is longer than the line, and at most `|line| - |word| + 1` otherwise |
| LineSearch.OverlappingExample | WordFinder.cs:127 | overlapping matches all count: "aa" occurs 3 times in "aaaa" |
| LineSearch.EmptyWordCount | WordFinder.cs:120-129 | the empty word is counted `|line| + 1` times in a line |
| WordFinderChallenge.WordFinder.CountWordOccurrences | WordFinder.cs:113-132 | the loop terminates and returns the overlapping count of the word in the line, 0 when the word is longer than the line, and never more than `|input| - |word| + 1` |
| WordFinderChallenge.WordFinder.SearchHorizontally | WordFinder.cs:76-87 | the result is the sum of the line counts over every row |
| WordFinderChallenge.WordFinder.SearchVertically | WordFinder.cs:94-105 | the result is the sum of the line counts over every column read top to bottom, and equals the horizontal count over the transposed grid |
| Search.VerticalIsHorizontalOfTranspose | WordFinder.cs:94-105 | the vertical count on a grid is the horizontal count on its transpose |
| Search.HorizontalIsVerticalOfTranspose | WordFinder.cs:76-87 | the horizontal count on a grid of positive width is the vertical count on its transpose |
| Search.TotalTransposeInvariant | WordFinder.cs:51-59 | for a grid with at least one column, a word's total (horizontal plus vertical) is the same on the grid and on its transpose |
| Search.TotalZeroIff | WordFinder.cs:56-61 | a word's total is zero exactly when it matches in no row and in no column |
| Ranker.FirstIndex | WordFinder.cs:44 | the first position of a word in the stream, which is the stream length exactly when the word is absent |
| Ranker.WordCounts | WordFinder.cs:41-66 | the table built by the pass has no more entries than the stream has words, and no word is recorded twice |
| Ranker.InsertByCount | WordFinder.cs:68 | inserting an entry into a table lengthens it by one and adds exactly that entry, as a multiset |
| Ranker.SortByCount | WordFinder.cs:68 | the sorted table has the same length as the table and is a permutation of it (same multiset of entries) |
| Ranker.Top | WordFinder.cs:68 | the result is the first `min(10, n)` words of the `n` given, in order |
| Ranker.WordCountsTotals | WordFinder.cs:44-66 | every recorded entry is a stream word, carries that word's total, and the total is positive |
| Ranker.WordCountsMembers | WordFinder.cs:48-64 | a word is recorded exactly when it is in the stream and its total is positive |
| Ranker.WordCountsOrder | WordFinder.cs:41-66 | entries are recorded in the order of their words' first occurrences in the stream, so none is recorded twice |
| Ranker.SortByCountDescending | WordFinder.cs:68 | the sorted table is in descending order of count |
| Ranker.SortByCountStable | WordFinder.cs:68 | entries of equal count keep the order of their first occurrences in the stream |
| Ranker.SortDescendingUnchanged | WordFinder.cs:68 | sorting a table already in descending order of count leaves it unchanged |
| Ranker.Ranking | WordFinder.cs:68 | the definition of the result: the table's words, sorted stably by count descending, cut to at most ten; `Find` is proved equal to it and `RankingCorrect` carries its properties |
| Ranker.RankingCorrect | WordFinder.cs:39-69 | the result holds only stream words with a positive total; it is strictly ordered by total, then by first occurrence; its length is the smaller of 10 and the number of distinct found words; a found word left out means ten words were returned, all outranking it |
| Ranker.RepeatedWordIgnored | WordFinder.cs:48 | appending a word already in the stream changes neither the table nor the result |
| WordFinderChallenge.WordFinder.Find | WordFinder.cs:39-69 | the loop computes the ranking of the stream; the result holds only stream words found in the grid, with no repeats, strictly ordered by total and then by first occurrence; it has the smaller of 10 and the number of found words; any found word left out is outranked by all ten returned |
| Demo.DemoRanking | Program.cs:41-61 | on the demonstration grid and stream the result is ["cold", "wind", "chill"] |
| Demo.RepeatedChill | Program.cs:41-51 | on the demonstration grid, ["chill", "chill"] and ["chill"] both give ["chill"] |

## Left out

- Program.cs: the console output, the stopwatch and the CPU counter are I/O and instrumentation. Only its grid and word stream are used, in `Demo`.
- IWordFinder.cs: an interface with one method and no logic. `WordFinder.Find` is that method.
- The `Task.Run` / `Task.WaitAll` fork-join in `Find` is modelled as calling the horizontal and vertical searches one after the other and adding their results. Both only read the grid.
- `WordFinderValidator` is not part of this model. Its size check is modelled as the two lengths differing.
- `string.IndexOf(string, int)` is culture-sensitive in .NET. It is modelled as ordinal search on exact characters, with no collation rules.
- The `Dictionary` is modelled as an insertion-ordered sequence of (word, count) entries. Its enumeration order is then insertion order, which `OrderByDescending` relies on for ties.
- A Dafny `char` stands for one C# UTF-16 `char`. Dafny's `char` is a Unicode scalar value, and C# stores a character outside the Basic Multilingual Plane as two code units. So string lengths, the row-length check (`IsMatrix`, `ConvertListToMatrix`) and matching (`MatchesAt`, `IndexOf`) agree with C# only on text with no such characters. For example, C# accepts the rows "😀" and "ab" as equal in length; the model rejects them.
- Counts are unbounded naturals: the 32-bit `int` overflow of C# on huge grids is not modelled.
- The `char[][]` grid is modelled as an immutable sequence of strings. The source never writes to it after construction.
- Null lists, null rows and null words are not modelled. `ArgumentNullException` has no counterpart.
- An empty list throws `InvalidOperationException` at `matrix.First()`, before any size check. This is modelled as the error result `EmptyMatrix`.
- A row-length mismatch throws `ArgumentException`. This is modelled as `RowLengthMismatch(row)`.
- The empty query word follows the code. `IndexOf` of the empty word returns `start`, so each line counts `|line| + 1` (`LineSearch.EmptyWordCount`). This is stated, not endorsed.
- Grids of width 0 (every row empty) are accepted, as in the code. Every non-empty word then has total 0.
