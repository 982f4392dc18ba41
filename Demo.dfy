/**
  The demonstration grid and word stream of the program's entry point, and
  what a search over them returns. "cold" runs down the last column and "wind"
  down the middle one, so three words are found, each once.
 */
module Demo {
  import opened Matrix
  import opened LineSearch
  import opened Search
  import opened Ranker

  const Grid: seq<string> := ["abcdc", "fgwio", "chill", "pqnsd", "uvdxy"]

  lemma GridColumns()
    ensures IsMatrix(Grid) && Width(Grid) == 5
    ensures Transpose(Grid) == ["afcpu", "bghqv", "cwind", "dilsx", "coldy"]
  {
    assert Column(Grid, 0) == "afcpu";
    assert Column(Grid, 1) == "bghqv";
    assert Column(Grid, 2) == "cwind";
    assert Column(Grid, 3) == "dilsx";
    assert Column(Grid, 4) == "coldy";
  }

  /** A single character that differs rules out an occurrence. */
  lemma MismatchAt(line: string, word: string, i: nat, j: nat)
    requires j < |word| && i + j < |line| && line[i + j] != word[j]
    ensures !MatchesAt(line, word, i)
  {
  }

  /** A word whose first character is not in the line does not occur in it. */
  lemma FirstCharAbsent(line: string, word: string)
    requires |word| > 0 && word[0] !in line
    ensures Occurrences(line, word) == 0
  {
    forall i ensures !MatchesAt(line, word, i) {
      if 0 <= i < |line| { MismatchAt(line, word, i, 0); }
    }
    OccurrencesZeroIff(line, word);
  }

  lemma OnePosition(line: string, word: string)
    requires |line| == |word|
    ensures Occurrences(line, word) == if MatchesAt(line, word, 0) then 1 else 0
  {
    assert CountFrom(line, word, 0) == (if MatchesAt(line, word, 0) then 1 else 0) + CountFrom(line, word, 1);
  }

  lemma TwoPositions(line: string, word: string)
    requires |line| == |word| + 1
    ensures Occurrences(line, word) == (if MatchesAt(line, word, 0) then 1 else 0) + (if MatchesAt(line, word, 1) then 1 else 0)
  {
    assert CountFrom(line, word, 0) == (if MatchesAt(line, word, 0) then 1 else 0) + CountFrom(line, word, 1);
    assert CountFrom(line, word, 1) == (if MatchesAt(line, word, 1) then 1 else 0) + CountFrom(line, word, 2);
  }

  lemma LastLine(lines: seq<string>, k: nat, word: string)
    requires 0 < k <= |lines|
    ensures HorizontalCount(lines[..k], word) == HorizontalCount(lines[..k - 1], word) + Occurrences(lines[k - 1], word)
  {
    assert lines[..k][..k - 1] == lines[..k - 1];
  }

  lemma FiveLines(lines: seq<string>, word: string)
    requires |lines| == 5
    ensures HorizontalCount(lines, word) ==
      Occurrences(lines[0], word) + Occurrences(lines[1], word) + Occurrences(lines[2], word) +
      Occurrences(lines[3], word) + Occurrences(lines[4], word)
  {
    LastLine(lines, 5, word);
    LastLine(lines, 4, word);
    LastLine(lines, 3, word);
    LastLine(lines, 2, word);
    LastLine(lines, 1, word);
    assert lines[..0] == [];
    assert lines[..5] == lines;
  }

  /** The total of a word in the grid is the sum of its counts in the ten lines. */
  lemma GridTotal(word: string)
    ensures IsMatrix(Grid)
    ensures Total(Grid, word) ==
      Occurrences("abcdc", word) + Occurrences("fgwio", word) + Occurrences("chill", word) +
      Occurrences("pqnsd", word) + Occurrences("uvdxy", word) +
      Occurrences("afcpu", word) + Occurrences("bghqv", word) + Occurrences("cwind", word) +
      Occurrences("dilsx", word) + Occurrences("coldy", word)
  {
    GridColumns();
    VerticalIsHorizontalOfTranspose(Grid, word);
    FiveLines(Grid, word);
    FiveLines(Transpose(Grid), word);
  }

  lemma ColdLines()
    ensures Occurrences("abcdc", "cold") == 0
    ensures Occurrences("fgwio", "cold") == 0
    ensures Occurrences("chill", "cold") == 0
    ensures Occurrences("pqnsd", "cold") == 0
    ensures Occurrences("uvdxy", "cold") == 0
    ensures Occurrences("afcpu", "cold") == 0
    ensures Occurrences("bghqv", "cold") == 0
    ensures Occurrences("cwind", "cold") == 0
    ensures Occurrences("dilsx", "cold") == 0
    ensures Occurrences("coldy", "cold") == 1
  {
    TwoPositions("abcdc", "cold");
    MismatchAt("abcdc", "cold", 0, 0);
    MismatchAt("abcdc", "cold", 1, 0);
    FirstCharAbsent("fgwio", "cold");
    TwoPositions("chill", "cold");
    MismatchAt("chill", "cold", 0, 1);
    MismatchAt("chill", "cold", 1, 0);
    FirstCharAbsent("pqnsd", "cold");
    FirstCharAbsent("uvdxy", "cold");
    TwoPositions("afcpu", "cold");
    MismatchAt("afcpu", "cold", 0, 0);
    MismatchAt("afcpu", "cold", 1, 0);
    FirstCharAbsent("bghqv", "cold");
    TwoPositions("cwind", "cold");
    MismatchAt("cwind", "cold", 0, 1);
    MismatchAt("cwind", "cold", 1, 0);
    FirstCharAbsent("dilsx", "cold");
    TwoPositions("coldy", "cold");
    assert "coldy"[0..4] == "cold";
    MismatchAt("coldy", "cold", 1, 0);
  }

  lemma ColdTotal()
    ensures IsMatrix(Grid) && Total(Grid, "cold") == 1
  {
    GridTotal("cold");
    ColdLines();
  }

  lemma WindLines()
    ensures Occurrences("abcdc", "wind") == 0
    ensures Occurrences("fgwio", "wind") == 0
    ensures Occurrences("chill", "wind") == 0
    ensures Occurrences("pqnsd", "wind") == 0
    ensures Occurrences("uvdxy", "wind") == 0
    ensures Occurrences("afcpu", "wind") == 0
    ensures Occurrences("bghqv", "wind") == 0
    ensures Occurrences("cwind", "wind") == 1
    ensures Occurrences("dilsx", "wind") == 0
    ensures Occurrences("coldy", "wind") == 0
  {
    FirstCharAbsent("abcdc", "wind");
    TwoPositions("fgwio", "wind");
    MismatchAt("fgwio", "wind", 0, 0);
    MismatchAt("fgwio", "wind", 1, 0);
    FirstCharAbsent("chill", "wind");
    FirstCharAbsent("pqnsd", "wind");
    FirstCharAbsent("uvdxy", "wind");
    FirstCharAbsent("afcpu", "wind");
    FirstCharAbsent("bghqv", "wind");
    TwoPositions("cwind", "wind");
    MismatchAt("cwind", "wind", 0, 0);
    assert "cwind"[1..5] == "wind";
    FirstCharAbsent("dilsx", "wind");
    FirstCharAbsent("coldy", "wind");
  }

  lemma WindTotal()
    ensures IsMatrix(Grid) && Total(Grid, "wind") == 1
  {
    GridTotal("wind");
    WindLines();
  }

  lemma SnowLines()
    ensures Occurrences("abcdc", "snow") == 0
    ensures Occurrences("fgwio", "snow") == 0
    ensures Occurrences("chill", "snow") == 0
    ensures Occurrences("pqnsd", "snow") == 0
    ensures Occurrences("uvdxy", "snow") == 0
    ensures Occurrences("afcpu", "snow") == 0
    ensures Occurrences("bghqv", "snow") == 0
    ensures Occurrences("cwind", "snow") == 0
    ensures Occurrences("dilsx", "snow") == 0
    ensures Occurrences("coldy", "snow") == 0
  {
    FirstCharAbsent("abcdc", "snow");
    FirstCharAbsent("fgwio", "snow");
    FirstCharAbsent("chill", "snow");
    TwoPositions("pqnsd", "snow");
    MismatchAt("pqnsd", "snow", 0, 0);
    MismatchAt("pqnsd", "snow", 1, 0);
    FirstCharAbsent("uvdxy", "snow");
    FirstCharAbsent("afcpu", "snow");
    FirstCharAbsent("bghqv", "snow");
    FirstCharAbsent("cwind", "snow");
    TwoPositions("dilsx", "snow");
    MismatchAt("dilsx", "snow", 0, 0);
    MismatchAt("dilsx", "snow", 1, 0);
    FirstCharAbsent("coldy", "snow");
  }

  lemma SnowTotal()
    ensures IsMatrix(Grid) && Total(Grid, "snow") == 0
  {
    GridTotal("snow");
    SnowLines();
  }

  lemma ChillLines()
    ensures Occurrences("abcdc", "chill") == 0
    ensures Occurrences("fgwio", "chill") == 0
    ensures Occurrences("chill", "chill") == 1
    ensures Occurrences("pqnsd", "chill") == 0
    ensures Occurrences("uvdxy", "chill") == 0
    ensures Occurrences("afcpu", "chill") == 0
    ensures Occurrences("bghqv", "chill") == 0
    ensures Occurrences("cwind", "chill") == 0
    ensures Occurrences("dilsx", "chill") == 0
    ensures Occurrences("coldy", "chill") == 0
  {
    OnePosition("abcdc", "chill");
    MismatchAt("abcdc", "chill", 0, 0);
    FirstCharAbsent("fgwio", "chill");
    OnePosition("chill", "chill");
    assert "chill"[0..5] == "chill";
    FirstCharAbsent("pqnsd", "chill");
    FirstCharAbsent("uvdxy", "chill");
    OnePosition("afcpu", "chill");
    MismatchAt("afcpu", "chill", 0, 0);
    FirstCharAbsent("bghqv", "chill");
    OnePosition("cwind", "chill");
    MismatchAt("cwind", "chill", 0, 1);
    FirstCharAbsent("dilsx", "chill");
    OnePosition("coldy", "chill");
    MismatchAt("coldy", "chill", 0, 1);
  }

  lemma ChillTotal()
    ensures IsMatrix(Grid) && Total(Grid, "chill") == 1
  {
    GridTotal("chill");
    ChillLines();
  }

  /** One step of the pass: the table after `ws + [w]`, given `w`'s total. */
  lemma WordCountsStep(m: seq<string>, ws: seq<string>, w: string, total: nat)
    requires IsMatrix(m) && Total(m, w) == total
    ensures WordCounts(m, ws + [w]) ==
      if w in Keys(WordCounts(m, ws)) || total == 0 then WordCounts(m, ws)
      else WordCounts(m, ws) + [Entry(w, total)]
  {
    assert (ws + [w])[..|ws|] == ws;
  }

  /**
    The table after a four-word stream whose first, second and fourth words
    (all different) each occur once and whose third word does not occur.
   */
  lemma TableOfFour(m: seq<string>, ws: seq<string>, a: string, b: string, c: string, d: string)
    requires IsMatrix(m) && ws == [a, b, c, d]
    requires Total(m, a) == 1 && Total(m, b) == 1 && Total(m, c) == 0 && Total(m, d) == 1
    requires a != b && a != d && b != d
    ensures WordCounts(m, ws) == [Entry(a, 1), Entry(b, 1), Entry(d, 1)]
  {
    TableOfTwo(m, [a, b], a, b);
    WordCountsStep(m, [a, b], c, 0);
    assert [a, b] + [c] == [a, b, c];
    WordCountsStep(m, [a, b, c], d, 1);
    KeysOfTwo(Entry(a, 1), Entry(b, 1));
    assert [a, b, c] + [d] == ws;
  }

  /** The table after two different words that each occur once. */
  lemma TableOfTwo(m: seq<string>, ws: seq<string>, a: string, b: string)
    requires IsMatrix(m) && ws == [a, b]
    requires Total(m, a) == 1 && Total(m, b) == 1 && a != b
    ensures WordCounts(m, ws) == [Entry(a, 1), Entry(b, 1)]
  {
    TableOfOne(m, a);
    WordCountsStep(m, [a], b, 1);
    assert Keys([Entry(a, 1)]) == [a];
    assert [a] + [b] == ws;
  }

  lemma KeysOfTwo(x: Entry, y: Entry)
    ensures Keys([x, y]) == [x.word, y.word]
  {
  }

  /** The ranking depends on the stream only through its table. */
  lemma RankingOfTable(m: seq<string>, ws: seq<string>, es: seq<Entry>)
    requires IsMatrix(m) && WordCounts(m, ws) == es
    ensures Ranking(m, ws) == Top(Keys(SortByCount(es)))
  {
  }

  /** Three entries of equal count keep their order under the stable sort. */
  lemma TopOfThreeTies(es: seq<Entry>, a: string, b: string, d: string)
    requires es == [Entry(a, 1), Entry(b, 1), Entry(d, 1)]
    ensures Top(Keys(SortByCount(es))) == [a, b, d]
  {
    TiesDescending(a, b, d);
    SortDescendingUnchanged(es);
    KeysOfThree(es[0], es[1], es[2]);
  }

  lemma TiesDescending(a: string, b: string, d: string)
    ensures Descending([Entry(a, 1), Entry(b, 1), Entry(d, 1)])
  {
  }

  lemma KeysOfThree(x: Entry, y: Entry, z: Entry)
    ensures Keys([x, y, z]) == [x.word, y.word, z.word]
  {
  }

  /**
    The demonstration search returns "cold", "wind" and "chill": each occurs
    once, so the stable sort keeps stream order; "snow" occurs nowhere.
   */
  lemma DemoRanking()
    ensures IsMatrix(Grid)
    ensures Ranking(Grid, ["cold", "wind", "snow", "chill"]) == ["cold", "wind", "chill"]
  {
    ColdTotal();
    WindTotal();
    SnowTotal();
    ChillTotal();
    var ws := ["cold", "wind", "snow", "chill"];
    var es := [Entry("cold", 1), Entry("wind", 1), Entry("chill", 1)];
    TableOfFour(Grid, ws, "cold", "wind", "snow", "chill");
    RankingOfTable(Grid, ws, es);
    TopOfThreeTies(es, "cold", "wind", "chill");
  }

  lemma RankingOfSingleEntry(m: seq<string>, ws: seq<string>, e: Entry)
    requires IsMatrix(m) && WordCounts(m, ws) == [e]
    ensures Ranking(m, ws) == [e.word]
  {
    assert [e][..0] == [];
    assert SortByCount([e]) == [e];
  }

  lemma TableOfOne(m: seq<string>, w: string)
    requires IsMatrix(m) && Total(m, w) == 1
    ensures WordCounts(m, [w]) == [Entry(w, 1)]
  {
    WordCountsStep(m, [], w, 1);
    assert [] + [w] == [w];
  }

  /** Repeating a word leaves the result unchanged: ["chill", "chill"] ranks as ["chill"]. */
  lemma RepeatedChill()
    ensures IsMatrix(Grid)
    ensures Ranking(Grid, ["chill", "chill"]) == Ranking(Grid, ["chill"]) == ["chill"]
  {
    ChillTotal();
    TableOfOne(Grid, "chill");
    RepeatedWordIgnored(Grid, ["chill"], "chill");
    assert ["chill"] + ["chill"] == ["chill", "chill"];
    RankingOfSingleEntry(Grid, ["chill"], Entry("chill", 1));
  }
}
