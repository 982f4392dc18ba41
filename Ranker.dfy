/**
  Ranking the words of a stream: the insertion-ordered table of word counts
  that one pass over the stream builds, the stable sort by count (descending),
  and the cut to the ten best.
 */
module Ranker {
  import opened Matrix
  import opened Search

  /** Most words a search reports. */
  const MaxResults: nat := 10

  /** One entry of the word-count table. */
  datatype Entry = Entry(word: string, count: nat)

  /** The words of a table, in table order. */
  function Keys(es: seq<Entry>): seq<string> {
    seq(|es|, i requires 0 <= i < |es| => es[i].word)
  }

  /** Index of the first occurrence of `w` in `ws`, or `|ws|` when `w` is absent. */
  function FirstIndex(ws: seq<string>, w: string): (r: nat)
    ensures r <= |ws|
    ensures r < |ws| <==> w in ws
    ensures r < |ws| ==> ws[r] == w
    ensures forall k :: 0 <= k < r ==> ws[k] != w
  {
    if ws == [] then 0 else if ws[0] == w then 0 else 1 + FirstIndex(ws[1..], w)
  }

  /** Appending to a stream moves no first occurrence; a new word first occurs at the old length. */
  lemma FirstIndexAppend(ws: seq<string>, x: string, w: string)
    ensures w in ws ==> FirstIndex(ws + [x], w) == FirstIndex(ws, w)
    ensures w !in ws && w == x ==> FirstIndex(ws + [x], w) == |ws|
  {
    var r, r' := FirstIndex(ws, w), FirstIndex(ws + [x], w);
    if w in ws {
      assert (ws + [x])[r] == w;
      assert r' < |ws| ==> ws[r'] == w;
    } else if w == x {
      assert (ws + [x])[|ws|] == w;
    }
  }

  /**
    The word-count table after one pass over `ws`: a word already in the table
    is skipped; a new word is appended with its total count when that count is
    positive, and dropped otherwise.
   */
  function WordCounts(m: seq<string>, ws: seq<string>): (r: seq<Entry>)
    requires IsMatrix(m)
    ensures |r| <= |ws|
    ensures forall i, j :: 0 <= i < j < |r| ==> r[i].word != r[j].word
  {
    if ws == [] then []
    else
      var counts := WordCounts(m, ws[..|ws| - 1]);
      var word := ws[|ws| - 1];
      if word in Keys(counts) then counts
      else
        var count := Total(m, word);
        assert forall i :: 0 <= i < |counts| ==> counts[i].word == Keys(counts)[i];
        if count > 0 then counts + [Entry(word, count)] else counts
  }

  /** The words of `es` appear in the order in which they first occur in `ws`. */
  ghost predicate InStreamOrder(ws: seq<string>, es: seq<Entry>) {
    forall i, j :: 0 <= i < j < |es| ==> FirstIndex(ws, es[i].word) < FirstIndex(ws, es[j].word)
  }

  lemma KeysAppend(es: seq<Entry>, e: Entry)
    ensures Keys(es + [e]) == Keys(es) + [e.word]
  {
  }

  /** Every entry of the table is a word of the stream, carrying its total count, which is positive. */
  lemma {:induction false} WordCountsTotals(m: seq<string>, ws: seq<string>)
    requires IsMatrix(m)
    ensures forall i :: 0 <= i < |WordCounts(m, ws)| ==>
              var e := WordCounts(m, ws)[i]; e.word in ws && e.count == Total(m, e.word) && e.count > 0
  {
    if ws != [] {
      var init, word := ws[..|ws| - 1], ws[|ws| - 1];
      var counts := WordCounts(m, init);
      WordCountsTotals(m, init);
      assert forall w :: w in init ==> w in ws;
    }
  }

  /** A word is in the table exactly when it is in the stream and its total is positive. */
  lemma {:induction false} WordCountsMembers(m: seq<string>, ws: seq<string>)
    requires IsMatrix(m)
    ensures forall w :: w in Keys(WordCounts(m, ws)) <==> w in ws && Total(m, w) > 0
  {
    if ws != [] {
      var init, word := ws[..|ws| - 1], ws[|ws| - 1];
      var counts := WordCounts(m, init);
      WordCountsMembers(m, init);
      assert ws == init + [word];
      if word !in Keys(counts) && Total(m, word) > 0 {
        KeysAppend(counts, Entry(word, Total(m, word)));
      }
    }
  }

  /** The table lists its words in the order of their first occurrence in the stream. */
  lemma {:induction false} WordCountsOrder(m: seq<string>, ws: seq<string>)
    requires IsMatrix(m)
    ensures InStreamOrder(ws, WordCounts(m, ws))
  {
    if ws != [] {
      var init, word := ws[..|ws| - 1], ws[|ws| - 1];
      assert ws == init + [word];
      var counts := WordCounts(m, init);
      WordCountsOrder(m, init);
      WordCountsTotals(m, init);
      forall i | 0 <= i < |counts|
        ensures FirstIndex(ws, counts[i].word) == FirstIndex(init, counts[i].word) < |init|
      {
        FirstIndexAppend(init, word, counts[i].word);
      }
      if word !in Keys(counts) && Total(m, word) > 0 {
        WordCountsMembers(m, init);
        FirstIndexAppend(init, word, word);
        var es := counts + [Entry(word, Total(m, word))];
        forall i, j | 0 <= i < j < |es|
          ensures FirstIndex(ws, es[i].word) < FirstIndex(ws, es[j].word)
        {
          assert es[i] == counts[i];
          if j < |counts| {
            assert es[j] == counts[j];
          }
        }
      }
    }
  }

  /** The counts never increase along the table. */
  predicate Descending(es: seq<Entry>) {
    forall i, j :: 0 <= i < j < |es| ==> es[i].count >= es[j].count
  }

  /** Inserts `e` into a table sorted by count, after every entry whose count is at least `e`'s. */
  function InsertByCount(sorted: seq<Entry>, e: Entry): (r: seq<Entry>)
    ensures |r| == |sorted| + 1
    ensures multiset(r) == multiset(sorted) + multiset{e}
  {
    if sorted == [] then [e]
    else if sorted[0].count >= e.count then
      assert sorted == [sorted[0]] + sorted[1..];
      [sorted[0]] + InsertByCount(sorted[1..], e)
    else
      [e] + sorted
  }

  /** Stable sort by count, descending (LINQ `OrderByDescending`): a permutation of the table. */
  function SortByCount(es: seq<Entry>): (r: seq<Entry>)
    ensures |r| == |es|
    ensures multiset(r) == multiset(es)
  {
    if es == [] then []
    else
      assert es == es[..|es| - 1] + [es[|es| - 1]];
      InsertByCount(SortByCount(es[..|es| - 1]), es[|es| - 1])
  }

  /** An entry whose count is at most every count in the table goes last. */
  lemma {:induction false} InsertAtEnd(sorted: seq<Entry>, e: Entry)
    requires forall i :: 0 <= i < |sorted| ==> sorted[i].count >= e.count
    ensures InsertByCount(sorted, e) == sorted + [e]
  {
    if sorted != [] {
      InsertAtEnd(sorted[1..], e);
      assert sorted == [sorted[0]] + sorted[1..];
    }
  }

  /** Sorting a table already in descending order leaves it as it is (stability). */
  lemma {:induction false} SortDescendingUnchanged(es: seq<Entry>)
    requires Descending(es)
    ensures SortByCount(es) == es
  {
    if es != [] {
      var init := es[..|es| - 1];
      assert Descending(init);
      SortDescendingUnchanged(init);
      InsertAtEnd(init, es[|es| - 1]);
      assert init + [es[|es| - 1]] == es;
    }
  }

  lemma InsertMembers(sorted: seq<Entry>, e: Entry, x: Entry)
    ensures x in InsertByCount(sorted, e) <==> x in sorted || x == e
  {
    assert x in InsertByCount(sorted, e) <==> x in multiset(InsertByCount(sorted, e));
    assert x in sorted <==> x in multiset(sorted);
  }

  lemma {:induction false} InsertKeepsDescending(sorted: seq<Entry>, e: Entry)
    requires Descending(sorted)
    ensures Descending(InsertByCount(sorted, e))
  {
    if sorted != [] && sorted[0].count >= e.count {
      var rest := InsertByCount(sorted[1..], e);
      InsertKeepsDescending(sorted[1..], e);
      forall j | 0 <= j < |rest|
        ensures sorted[0].count >= rest[j].count
      {
        InsertMembers(sorted[1..], e, rest[j]);
      }
    }
  }

  /** The sorted table has non-increasing counts. */
  lemma {:induction false} SortByCountDescending(es: seq<Entry>)
    ensures Descending(SortByCount(es))
  {
    if es != [] {
      SortByCountDescending(es[..|es| - 1]);
      InsertKeepsDescending(SortByCount(es[..|es| - 1]), es[|es| - 1]);
    }
  }

  /** `a` comes before `b` in the ranking: a larger count, or the same count and an earlier first occurrence. */
  ghost predicate RanksBefore(ws: seq<string>, a: Entry, b: Entry) {
    a.count > b.count || (a.count == b.count && FirstIndex(ws, a.word) < FirstIndex(ws, b.word))
  }

  /** Every entry of `es` ranks before every later one. */
  ghost predicate StrictlyRanked(ws: seq<string>, es: seq<Entry>) {
    forall i, j :: 0 <= i < j < |es| ==> RanksBefore(ws, es[i], es[j])
  }

  /** A head that ranks before every entry of a strictly ranked tail gives a strictly ranked table. */
  lemma ConsRanked(ws: seq<string>, x: Entry, tail: seq<Entry>)
    requires StrictlyRanked(ws, tail)
    requires forall k :: 0 <= k < |tail| ==> RanksBefore(ws, x, tail[k])
    ensures StrictlyRanked(ws, [x] + tail)
  {
    var r := [x] + tail;
    forall i, j | 0 <= i < j < |r|
      ensures RanksBefore(ws, r[i], r[j])
    {
      assert r[j] == tail[j - 1];
      if i > 0 { assert r[i] == tail[i - 1]; }
    }
  }

  lemma {:induction false} InsertKeepsRanked(ws: seq<string>, sorted: seq<Entry>, e: Entry)
    requires StrictlyRanked(ws, sorted)
    requires forall x :: x in sorted ==> FirstIndex(ws, x.word) < FirstIndex(ws, e.word)
    ensures StrictlyRanked(ws, InsertByCount(sorted, e))
  {
    if sorted != [] {
      var tail := sorted[1..];
      assert StrictlyRanked(ws, tail) by {
        forall i, j | 0 <= i < j < |tail| ensures RanksBefore(ws, tail[i], tail[j]) {
          assert tail[i] == sorted[i + 1] && tail[j] == sorted[j + 1];
        }
      }
      if sorted[0].count >= e.count {
        var rest := InsertByCount(tail, e);
        InsertKeepsRanked(ws, tail, e);
        forall k | 0 <= k < |rest|
          ensures RanksBefore(ws, sorted[0], rest[k])
        {
          InsertMembers(tail, e, rest[k]);
          if rest[k] != e {
            var p :| 0 <= p < |tail| && tail[p] == rest[k];
            assert sorted[p + 1] == rest[k];
          }
        }
        ConsRanked(ws, sorted[0], rest);
      } else {
        forall k | 0 <= k < |sorted|
          ensures RanksBefore(ws, e, sorted[k])
        {
          if k > 0 { assert RanksBefore(ws, sorted[0], sorted[k]); }
        }
        ConsRanked(ws, e, sorted);
      }
    }
  }

  /**
    Stability: when the input table is in order of first occurrence in `ws`,
    entries of equal count keep that order, so the sorted table is strictly
    ranked by (count descending, first occurrence ascending).
   */
  lemma {:induction false} SortByCountStable(ws: seq<string>, es: seq<Entry>)
    requires InStreamOrder(ws, es)
    ensures StrictlyRanked(ws, SortByCount(es))
  {
    if es != [] {
      var init, last := es[..|es| - 1], es[|es| - 1];
      assert InStreamOrder(ws, init) by {
        forall i, j | 0 <= i < j < |init|
          ensures FirstIndex(ws, init[i].word) < FirstIndex(ws, init[j].word)
        {
          assert init[i] == es[i] && init[j] == es[j];
        }
      }
      SortByCountStable(ws, init);
      var sorted := SortByCount(init);
      forall x | x in sorted
        ensures FirstIndex(ws, x.word) < FirstIndex(ws, last.word)
      {
        assert x in multiset(init);
        var k :| 0 <= k < |init| && init[k] == x;
        assert es[k] == x;
      }
      InsertKeepsRanked(ws, sorted, last);
    }
  }

  /** The first `MaxResults` words (LINQ `Take(10)`). */
  function Top(words: seq<string>): (r: seq<string>)
    ensures |r| == Min(MaxResults, |words|)
    ensures r == words[..|r|]
  {
    if |words| <= MaxResults then words else words[..MaxResults]
  }

  /** The result of one search: the table's words, sorted stably by count descending, cut to ten. */
  function Ranking(m: seq<string>, ws: seq<string>): (r: seq<string>)
    requires IsMatrix(m)
    ensures |r| <= MaxResults
  {
    Top(Keys(SortByCount(WordCounts(m, ws))))
  }

  /** `a` outranks `b`: a larger total, or the same total and an earlier first occurrence in `ws`. */
  ghost predicate Outranks(m: seq<string>, ws: seq<string>, a: string, b: string)
    requires IsMatrix(m)
  {
    Total(m, a) > Total(m, b) || (Total(m, a) == Total(m, b) && FirstIndex(ws, a) < FirstIndex(ws, b))
  }

  /** The distinct words of the stream that occur in the grid. */
  ghost function FoundWords(m: seq<string>, ws: seq<string>): set<string>
    requires IsMatrix(m)
  {
    set w | w in ws && Total(m, w) > 0
  }

  function Min(a: nat, b: nat): nat {
    if a <= b then a else b
  }

  lemma {:induction false} DistinctCardinality(s: seq<string>)
    requires forall i, j :: 0 <= i < j < |s| ==> s[i] != s[j]
    ensures |set x | x in s| == |s|
  {
    if s != [] {
      var init := s[..|s| - 1];
      DistinctCardinality(init);
      assert (set x | x in s) == (set x | x in init) + {s[|s| - 1]};
      assert s[|s| - 1] !in init;
    }
  }

  lemma SortMembers(es: seq<Entry>, x: Entry)
    ensures x in SortByCount(es) <==> x in es
  {
    assert x in SortByCount(es) <==> x in multiset(SortByCount(es));
    assert x in es <==> x in multiset(es);
  }

  lemma KeysMembers(es: seq<Entry>, w: string)
    ensures w in Keys(es) <==> exists k :: 0 <= k < |es| && es[k].word == w
  {
    if w in Keys(es) {
      var k :| 0 <= k < |es| && Keys(es)[k] == w;
    }
    if exists k :: 0 <= k < |es| && es[k].word == w {
      var k :| 0 <= k < |es| && es[k].word == w;
      assert Keys(es)[k] == w;
    }
  }

  /** The sorted table: strictly ranked, each entry a stream word carrying its positive total. */
  lemma SortedTableFacts(m: seq<string>, ws: seq<string>)
    requires IsMatrix(m)
    ensures StrictlyRanked(ws, SortByCount(WordCounts(m, ws)))
    ensures forall k :: 0 <= k < |SortByCount(WordCounts(m, ws))| ==>
              var e := SortByCount(WordCounts(m, ws))[k]; e.word in ws && e.count == Total(m, e.word) && e.count > 0
  {
    var es := WordCounts(m, ws);
    var sorted := SortByCount(es);
    WordCountsOrder(m, ws);
    WordCountsTotals(m, ws);
    SortByCountStable(ws, es);
    forall k | 0 <= k < |sorted|
      ensures sorted[k].word in ws && sorted[k].count == Total(m, sorted[k].word) && sorted[k].count > 0
    {
      SortMembers(es, sorted[k]);
      var p :| 0 <= p < |es| && es[p] == sorted[k];
    }
  }

  /** The sorted table holds exactly the stream words with a positive total. */
  lemma SortedTableKeys(m: seq<string>, ws: seq<string>)
    requires IsMatrix(m)
    ensures forall w :: w in Keys(SortByCount(WordCounts(m, ws))) <==> w in ws && Total(m, w) > 0
  {
    var es := WordCounts(m, ws);
    var sorted := SortByCount(es);
    WordCountsMembers(m, ws);
    forall w
      ensures w in Keys(sorted) <==> w in Keys(es)
    {
      KeysMembers(es, w);
      KeysMembers(sorted, w);
      if w in Keys(es) {
        var p :| 0 <= p < |es| && es[p].word == w;
        SortMembers(es, es[p]);
      }
      if w in Keys(sorted) {
        var k :| 0 <= k < |sorted| && sorted[k].word == w;
        SortMembers(es, sorted[k]);
      }
    }
  }

  /** As many words are ranked as there are distinct stream words with a positive total. */
  lemma SortedTableSize(m: seq<string>, ws: seq<string>)
    requires IsMatrix(m)
    ensures |SortByCount(WordCounts(m, ws))| == |FoundWords(m, ws)|
  {
    var sorted := SortByCount(WordCounts(m, ws));
    var ks := Keys(sorted);
    SortedTableFacts(m, ws);
    SortedTableKeys(m, ws);
    forall i, j | 0 <= i < j < |ks|
      ensures ks[i] != ks[j]
    {
      assert RanksBefore(ws, sorted[i], sorted[j]);
    }
    DistinctCardinality(ks);
    assert (set x | x in ks) == FoundWords(m, ws);
  }

  /** Every ranked word is the `i`-th word of the sorted table. */
  lemma RankingIsSortedPrefix(m: seq<string>, ws: seq<string>)
    requires IsMatrix(m)
    ensures |Ranking(m, ws)| == Min(MaxResults, |SortByCount(WordCounts(m, ws))|)
    ensures forall i :: 0 <= i < |Ranking(m, ws)| ==> Ranking(m, ws)[i] == SortByCount(WordCounts(m, ws))[i].word
  {
  }

  /** Every ranked word comes from the stream and occurs in the grid. */
  lemma RankingWordsFound(m: seq<string>, ws: seq<string>)
    requires IsMatrix(m)
    ensures forall i :: 0 <= i < |Ranking(m, ws)| ==> Ranking(m, ws)[i] in ws && Total(m, Ranking(m, ws)[i]) > 0
  {
    RankingIsSortedPrefix(m, ws);
    SortedTableFacts(m, ws);
  }

  /** Ranked words are strictly ordered by total, then by first occurrence (so none is repeated). */
  lemma RankingOrdered(m: seq<string>, ws: seq<string>)
    requires IsMatrix(m)
    ensures forall i, j :: 0 <= i < j < |Ranking(m, ws)| ==> Outranks(m, ws, Ranking(m, ws)[i], Ranking(m, ws)[j])
  {
    var sorted := SortByCount(WordCounts(m, ws));
    var r := Ranking(m, ws);
    RankingIsSortedPrefix(m, ws);
    SortedTableFacts(m, ws);
    forall i, j | 0 <= i < j < |r|
      ensures Outranks(m, ws, r[i], r[j])
    {
      assert RanksBefore(ws, sorted[i], sorted[j]);
    }
  }

  /** Ten words are ranked, or every found word when there are fewer. */
  lemma RankingLength(m: seq<string>, ws: seq<string>)
    requires IsMatrix(m)
    ensures |Ranking(m, ws)| == Min(MaxResults, |FoundWords(m, ws)|)
  {
    RankingIsSortedPrefix(m, ws);
    SortedTableSize(m, ws);
  }

  /** A found word that is not ranked means ten words were ranked, each outranking it. */
  lemma RankingComplete(m: seq<string>, ws: seq<string>, w: string)
    requires IsMatrix(m)
    requires w in ws && Total(m, w) > 0 && w !in Ranking(m, ws)
    ensures |Ranking(m, ws)| == MaxResults
    ensures forall i :: 0 <= i < MaxResults ==> Outranks(m, ws, Ranking(m, ws)[i], w)
  {
    var sorted := SortByCount(WordCounts(m, ws));
    var r := Ranking(m, ws);
    RankingIsSortedPrefix(m, ws);
    SortedTableFacts(m, ws);
    SortedTableKeys(m, ws);
    KeysMembers(sorted, w);
    var k :| 0 <= k < |sorted| && sorted[k].word == w;
    assert k >= |r|;
    forall i | 0 <= i < MaxResults
      ensures Outranks(m, ws, r[i], w)
    {
      assert RanksBefore(ws, sorted[i], sorted[k]);
    }
  }

  /**
    What a search returns: stream words with a positive total, strictly ordered
    by total (descending) and then by first occurrence, as many as there are
    such words but at most ten, and every such word left out ranks below all
    ten that were kept.
   */
  lemma RankingCorrect(m: seq<string>, ws: seq<string>)
    requires IsMatrix(m)
    ensures forall i :: 0 <= i < |Ranking(m, ws)| ==> Ranking(m, ws)[i] in ws && Total(m, Ranking(m, ws)[i]) > 0
    ensures forall i, j :: 0 <= i < j < |Ranking(m, ws)| ==> Outranks(m, ws, Ranking(m, ws)[i], Ranking(m, ws)[j])
    ensures |Ranking(m, ws)| == Min(MaxResults, |FoundWords(m, ws)|)
    ensures forall w :: w in ws && Total(m, w) > 0 && w !in Ranking(m, ws) ==>
              |Ranking(m, ws)| == MaxResults &&
              forall i :: 0 <= i < MaxResults ==> Outranks(m, ws, Ranking(m, ws)[i], w)
  {
    RankingWordsFound(m, ws);
    RankingOrdered(m, ws);
    RankingLength(m, ws);
    forall w | w in ws && Total(m, w) > 0 && w !in Ranking(m, ws)
      ensures |Ranking(m, ws)| == MaxResults
      ensures forall i :: 0 <= i < MaxResults ==> Outranks(m, ws, Ranking(m, ws)[i], w)
    {
      RankingComplete(m, ws, w);
    }
  }

  /** A word seen before in the stream is skipped: repeating it changes neither the table nor the ranking. */
  lemma RepeatedWordIgnored(m: seq<string>, ws: seq<string>, w: string)
    requires IsMatrix(m) && w in ws
    ensures WordCounts(m, ws + [w]) == WordCounts(m, ws)
    ensures Ranking(m, ws + [w]) == Ranking(m, ws)
  {
    WordCountsMembers(m, ws);
    assert (ws + [w])[..|ws|] == ws;
  }
}
