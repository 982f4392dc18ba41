/**
  Counting the occurrences of a word in one line of the grid. An occurrence is a
  start index at which the word's characters appear, compared exactly and
  case-sensitively; occurrences may overlap.
 */
module LineSearch {

  /** `word` occurs in `line` starting at index `i`. */
  predicate MatchesAt(line: string, word: string, i: int) {
    0 <= i && i + |word| <= |line| && line[i..i + |word|] == word
  }

  /** Number of start indices `i >= start` at which `word` occurs in `line`. */
  function CountFrom(line: string, word: string, start: nat): nat
    decreases |line| + 1 - start
  {
    if start + |word| > |line| then 0
    else (if MatchesAt(line, word, start) then 1 else 0) + CountFrom(line, word, start + 1)
  }

  /** Number of (possibly overlapping) occurrences of `word` in `line`. */
  function Occurrences(line: string, word: string): nat {
    CountFrom(line, word, 0)
  }

  /** The start indices of the occurrences of `word` in `line`. */
  function MatchPositions(line: string, word: string): set<int> {
    set i | 0 <= i <= |line| && MatchesAt(line, word, i)
  }

  /**
    Ordinal `string.IndexOf(word, start)`: the first index at or after `start`
    where `word` occurs, or -1 when there is none. The library throws when
    `start` exceeds the length of the line, hence the precondition.
   */
  function IndexOf(line: string, word: string, start: nat): (r: int)
    requires start <= |line|
    ensures r == -1 || (start <= r && MatchesAt(line, word, r))
    ensures r != -1 ==> forall k :: start <= k < r ==> !MatchesAt(line, word, k)
    ensures r == -1 ==> forall k :: start <= k ==> !MatchesAt(line, word, k)
    decreases |line| - start
  {
    if start + |word| > |line| then -1
    else if MatchesAt(line, word, start) then start
    else IndexOf(line, word, start + 1)
  }

  /**
    What one step of the scan loop learns: when `IndexOf` reports no occurrence
    nothing is left to count from `start`; when it reports one at `r`, the count
    from `start` is that one plus the count from `r + 1`.
   */
  lemma {:induction false} IndexOfAdvances(line: string, word: string, start: nat)
    requires start <= |line|
    ensures IndexOf(line, word, start) == -1 ==> CountFrom(line, word, start) == 0
    ensures IndexOf(line, word, start) >= 0 ==>
              CountFrom(line, word, start) == 1 + CountFrom(line, word, IndexOf(line, word, start) + 1)
    decreases |line| - start
  {
    if start + |word| > |line| {
    } else if MatchesAt(line, word, start) {
    } else {
      IndexOfAdvances(line, word, start + 1);
    }
  }

  /** The count from `start` is the number of match positions at or after `start`. */
  lemma {:induction false} CountFromIsPositions(line: string, word: string, start: nat)
    ensures CountFrom(line, word, start) == |set i | start <= i <= |line| && MatchesAt(line, word, i)|
    decreases |line| + 1 - start
  {
    var s := set i | start <= i <= |line| && MatchesAt(line, word, i);
    if start + |word| > |line| {
      assert s == {};
    } else {
      var rest := set i | start + 1 <= i <= |line| && MatchesAt(line, word, i);
      CountFromIsPositions(line, word, start + 1);
      if MatchesAt(line, word, start) {
        assert s == {start} + rest;
        assert start !in rest;
      } else {
        assert s == rest;
      }
    }
  }

  /** The count equals the number of distinct start positions of the word. */
  lemma OccurrencesArePositions(line: string, word: string)
    ensures Occurrences(line, word) == |MatchPositions(line, word)|
  {
    CountFromIsPositions(line, word, 0);
    assert MatchPositions(line, word) == set i | 0 <= i <= |line| && MatchesAt(line, word, i);
  }

  /** A word counts zero exactly when it occurs nowhere in the line. */
  lemma OccurrencesZeroIff(line: string, word: string)
    ensures Occurrences(line, word) == 0 <==> forall i :: !MatchesAt(line, word, i)
  {
    OccurrencesArePositions(line, word);
    if Occurrences(line, word) == 0 {
      forall i ensures !MatchesAt(line, word, i) {
        assert MatchesAt(line, word, i) ==> i in MatchPositions(line, word);
      }
    } else {
      var i :| i in MatchPositions(line, word);
    }
  }

  lemma {:induction false} CountFromBound(line: string, word: string, start: nat)
    ensures start + |word| > |line| ==> CountFrom(line, word, start) == 0
    ensures start + |word| <= |line| ==> CountFrom(line, word, start) <= |line| - |word| + 1 - start
    decreases |line| + 1 - start
  {
    if start + |word| <= |line| {
      CountFromBound(line, word, start + 1);
    }
  }

  /**
    A line holds at most `|line| - |word| + 1` occurrences of a word that fits in
    it, and none of a word longer than the line.
   */
  lemma OccurrencesBound(line: string, word: string)
    ensures |word| > |line| ==> Occurrences(line, word) == 0
    ensures |word| <= |line| ==> Occurrences(line, word) <= |line| - |word| + 1
  {
    CountFromBound(line, word, 0);
  }

  lemma {:induction false} EmptyWordCountFrom(line: string, start: nat)
    requires start <= |line| + 1
    ensures CountFrom(line, "", start) == |line| + 1 - start
    decreases |line| + 1 - start
  {
    if start <= |line| {
      assert MatchesAt(line, "", start) by { assert line[start..start] == ""; }
      EmptyWordCountFrom(line, start + 1);
    }
  }

  /** The empty word "occurs" at every index of the line and after its end: `|line| + 1` times. */
  lemma EmptyWordCount(line: string)
    ensures Occurrences(line, "") == |line| + 1
  {
    EmptyWordCountFrom(line, 0);
  }

  /** Overlapping occurrences all count: "aa" occurs in "aaaa" at 0, 1 and 2. */
  lemma OverlappingExample()
    ensures Occurrences("aaaa", "aa") == 3
  {
    assert MatchesAt("aaaa", "aa", 0) && MatchesAt("aaaa", "aa", 1) && MatchesAt("aaaa", "aa", 2);
  }
}
