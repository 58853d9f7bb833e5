/**
 * The counting and ranking that the character-counting tools perform,
 * stated as functions on strings, with the facts the tools rely on.
 * A Dafny `char` is a Unicode scalar value; a C# `char` is a UTF-16 code
 * unit. The two agree below U+10000, and `Utf16Length` gives the C#
 * `Length` of a string.
 */
module TextAnalysis {
  import opened McpModels

  /** Number of positions of `s` that hold `c` (ordinal, case-sensitive). */
  function Occurrences(s: string, c: char): nat
  {
    if s == [] then 0
    else Occurrences(s[..|s| - 1], c) + (if s[|s| - 1] == c then 1 else 0)
  }

  /** The count is exactly the number of indices holding `c`. */
  lemma {:induction false} OccurrencesCountsPositions(s: string, c: char)
    ensures Occurrences(s, c) == |set i | 0 <= i < |s| && s[i] == c|
  {
    if s != [] {
      var n := |s| - 1;
      var prefix := s[..n];
      OccurrencesCountsPositions(prefix, c);
      var before := set i | 0 <= i < |prefix| && prefix[i] == c;
      var all := set i | 0 <= i < |s| && s[i] == c;
      if s[n] == c {
        assert all == before + {n};
      } else {
        assert all == before;
      }
    }
  }

  /** A character occurs at least once exactly when it is in the string. */
  lemma {:induction false} OccurrencesPositive(s: string, c: char)
    ensures Occurrences(s, c) > 0 <==> c in s
  {
    if s != [] {
      var n := |s| - 1;
      OccurrencesPositive(s[..n], c);
      assert s == s[..n] + [s[n]];
    }
  }

  /** Appending one character adds one to its own count and leaves every other count alone. */
  lemma OccurrencesSnoc(s: string, d: char, c: char)
    ensures Occurrences(s + [d], c) == Occurrences(s, c) + (if d == c then 1 else 0)
  {
    assert (s + [d])[..|s|] == s;
  }

  /** C#'s `string.Length`: the number of UTF-16 code units, two for a character beyond U+FFFF. */
  function Utf16Length(s: string): (n: nat)
    ensures |s| <= n <= 2 * |s|
  {
    if s == [] then 0
    else Utf16Length(s[..|s| - 1]) + (if s[|s| - 1] as int < 0x1_0000 then 1 else 2)
  }

  /** A string is one UTF-16 code unit long exactly when it is one character below U+10000. */
  lemma Utf16LengthOne(s: string)
    ensures Utf16Length(s) == 1 <==> |s| == 1 && s[0] as int < 0x1_0000
  {
    if |s| == 1 {
      assert s[..0] == [];
    }
  }

  /** `f` applied to every character (`string.ToLowerInvariant` when `f` is the lower-case mapping). */
  function MapChars(s: string, f: char -> char): (r: string)
    ensures |r| == |s| && forall i :: 0 <= i < |s| ==> r[i] == f(s[i])
  {
    seq(|s|, i requires 0 <= i < |s| => f(s[i]))
  }

  /** Case-insensitive counting: matches `toLower(s[i]) == toLower(c)`, by index. */
  lemma FoldedOccurrencesCountsPositions(s: string, c: char, toLower: char -> char)
    ensures Occurrences(MapChars(s, toLower), toLower(c)) == |set i | 0 <= i < |s| && toLower(s[i]) == toLower(c)|
  {
    var folded := MapChars(s, toLower);
    OccurrencesCountsPositions(folded, toLower(c));
    assert (set i | 0 <= i < |folded| && folded[i] == toLower(c)) == (set i | 0 <= i < |s| && toLower(s[i]) == toLower(c));
  }

  /** Folding case never loses a match: the folded count is at least the exact one. */
  lemma {:induction false} FoldingOnlyAddsMatches(s: string, c: char, toLower: char -> char)
    ensures Occurrences(s, c) <= Occurrences(MapChars(s, toLower), toLower(c))
  {
    if s != [] {
      var n := |s| - 1;
      FoldingOnlyAddsMatches(s[..n], c, toLower);
      assert MapChars(s, toLower)[..n] == MapChars(s[..n], toLower);
    }
  }

  /**
   * Any character mapping that `toLower` cannot tell apart from the identity
   * (swapping upper and lower case, say) changes no case-insensitive count.
   */
  lemma FoldedCountIgnoresCaseSwap(s: string, c: char, toLower: char -> char, swap: char -> char)
    requires forall x :: toLower(swap(x)) == toLower(x)
    ensures Occurrences(MapChars(MapChars(s, swap), toLower), toLower(swap(c)))
         == Occurrences(MapChars(s, toLower), toLower(c))
  {
    assert MapChars(MapChars(s, swap), toLower) == MapChars(s, toLower);
  }

  /** The set of characters of `s`: the keys of its frequency table. */
  function CharSet(s: string): set<char>
  {
    set c | c in s
  }

  predicate NoDuplicates(d: seq<char>)
  {
    forall i, j :: 0 <= i < j < |d| ==> d[i] != d[j]
  }

  /**
   * The distinct characters of `s` in order of first appearance: the order in
   * which a `Dictionary<char, int>` filled from `s` enumerates its keys.
   */
  function DistinctInOrder(s: string): (d: seq<char>)
    ensures NoDuplicates(d)
    ensures forall c :: c in d <==> c in s
  {
    if s == [] then []
    else
      var n := |s| - 1;
      var d := DistinctInOrder(s[..n]);
      assert forall c :: c in s <==> c in s[..n] || c == s[n] by {
        assert s == s[..n] + [s[n]];
      }
      if s[n] in s[..n] then d else d + [s[n]]
  }

  /** There are as many distinct characters in order as in the set. */
  lemma {:induction false} DistinctCount(s: string)
    ensures |DistinctInOrder(s)| == |CharSet(s)|
  {
    if s != [] {
      var n := |s| - 1;
      DistinctCount(s[..n]);
      assert s == s[..n] + [s[n]];
      if s[n] in s[..n] {
        assert CharSet(s) == CharSet(s[..n]);
      } else {
        assert CharSet(s) == CharSet(s[..n]) + {s[n]};
        assert s[n] !in CharSet(s[..n]);
      }
    }
  }

  /** `Dictionary.GetValueOrDefault`: the value stored under `key`, or `fallback` when there is none. */
  function GetValueOrDefault(m: map<char, nat>, key: char, fallback: nat): nat
  {
    if key in m then m[key] else fallback
  }

  /** The frequency table: every character of `s` mapped to its number of occurrences. */
  function Frequencies(s: string): (m: map<char, nat>)
    ensures m.Keys == CharSet(s)
  {
    map c | c in CharSet(s) :: Occurrences(s, c)
  }

  /** Reading one more character raises its count by one, adding it with count 1 when it is new. */
  lemma FrequenciesStep(s: string, c: char)
    ensures Frequencies(s + [c]) == Frequencies(s)[c := GetValueOrDefault(Frequencies(s), c, 0) + 1]
  {
    var before := Frequencies(s);
    var after := Frequencies(s + [c]);
    var expected := before[c := GetValueOrDefault(before, c, 0) + 1];
    assert CharSet(s + [c]) == CharSet(s) + {c};
    forall d | d in after
      ensures after[d] == expected[d]
    {
      OccurrencesSnoc(s, c, d);
      if d == c && c !in s {
        OccurrencesPositive(s, c);
      }
    }
  }

  /** One entry per key, each with its number of occurrences in `s`. */
  function Entries(keys: seq<char>, s: string): (r: seq<Entry>)
    ensures |r| == |keys|
    ensures forall j :: 0 <= j < |keys| ==> r[j] == Entry(keys[j], Occurrences(s, keys[j]))
  {
    seq(|keys|, j requires 0 <= j < |keys| => Entry(keys[j], Occurrences(s, keys[j])))
  }

  /**
   * `a` comes before `b` in the breakdown: a higher count first
   * (OrderByDescending on the value), then the lower character
   * (ThenBy on the key, ordinal).
   */
  predicate Outranks(a: Entry, b: Entry)
  {
    a.count > b.count || (a.count == b.count && a.character < b.character)
  }

  /** Every entry outranks every later one. */
  predicate Ranked(s: seq<Entry>)
  {
    forall i, j :: 0 <= i < j < |s| ==> Outranks(s[i], s[j])
  }

  predicate DistinctCharacters(s: seq<Entry>)
  {
    forall i, j :: 0 <= i < j < |s| ==> s[i].character != s[j].character
  }

  /** The sum of the counts. */
  function Sum(s: seq<Entry>): nat
  {
    if s == [] then 0 else s[0].count + Sum(s[1..])
  }

  lemma {:induction false} SumAppend(a: seq<Entry>, b: seq<Entry>)
    ensures Sum(a + b) == Sum(a) + Sum(b)
  {
    if a != [] {
      SumAppend(a[1..], b);
      assert (a + b)[1..] == a[1..] + b;
    } else {
      assert a + b == b;
    }
  }

  /** Places `e` before the first entry it outranks. */
  function Insert(e: Entry, s: seq<Entry>): (r: seq<Entry>)
    ensures multiset(r) == multiset(s) + multiset{e}
    ensures Sum(r) == Sum(s) + e.count
  {
    if s == [] then [e]
    else if Outranks(e, s[0]) then [e] + s
    else
      assert s == [s[0]] + s[1..];
      [s[0]] + Insert(e, s[1..])
  }

  /** Orders entries by rank (an insertion sort). */
  function SortByRank(s: seq<Entry>): (r: seq<Entry>)
    ensures multiset(r) == multiset(s)
    ensures Sum(r) == Sum(s)
  {
    if s == [] then []
    else
      assert s == [s[0]] + s[1..];
      Insert(s[0], SortByRank(s[1..]))
  }

  /** Two entries for different characters are always ranked one way or the other. */
  lemma RankIsTotal(a: Entry, b: Entry)
    requires a.character != b.character
    ensures Outranks(a, b) || Outranks(b, a)
  {
  }

  lemma {:induction false} InsertKeepsRanked(e: Entry, s: seq<Entry>)
    requires Ranked(s)
    requires forall x :: x in s ==> x.character != e.character
    ensures Ranked(Insert(e, s))
  {
    if s != [] && !Outranks(e, s[0]) {
      var tail := s[1..];
      InsertKeepsRanked(e, tail);
      var r := Insert(e, tail);
      RankIsTotal(e, s[0]);
      forall j | 0 <= j < |r|
        ensures Outranks(s[0], r[j])
      {
        assert r[j] in multiset(r);
        if r[j] != e {
          assert r[j] in multiset(tail);
          var k :| 0 <= k < |tail| && tail[k] == r[j];
          assert s[k + 1] == r[j];
        }
      }
      assert Insert(e, s) == [s[0]] + r;
    }
  }

  /** Sorting entries for distinct characters yields a ranked sequence. */
  lemma {:induction false} SortByRankIsRanked(s: seq<Entry>)
    requires DistinctCharacters(s)
    ensures Ranked(SortByRank(s))
  {
    if s != [] {
      var tail := s[1..];
      SortByRankIsRanked(tail);
      var sorted := SortByRank(tail);
      forall x | x in sorted
        ensures x.character != s[0].character
      {
        assert x in multiset(sorted);
        assert x in multiset(tail);
        var k :| 0 <= k < |tail| && tail[k] == x;
        assert s[k + 1] == x;
      }
      InsertKeepsRanked(s[0], sorted);
    }
  }

  /** Adding one character to the text adds one to the sum of the entries' counts when it is a key. */
  lemma {:induction false} EntriesSumStep(keys: seq<char>, s: string, c: char)
    requires NoDuplicates(keys)
    ensures Sum(Entries(keys, s + [c])) == Sum(Entries(keys, s)) + (if c in keys then 1 else 0)
  {
    if keys != [] {
      var rest := keys[1..];
      assert NoDuplicates(rest);
      EntriesSumStep(rest, s, c);
      assert Entries(keys, s + [c])[1..] == Entries(rest, s + [c]);
      assert Entries(keys, s)[1..] == Entries(rest, s);
      OccurrencesSnoc(s, c, keys[0]);
      assert c in keys <==> c == keys[0] || c in rest;
      if c == keys[0] {
        assert c !in rest;
      }
    }
  }

  /** The counts of the distinct characters add up to the length of the text. */
  lemma {:induction false} EntriesSumToLength(s: string)
    ensures Sum(Entries(DistinctInOrder(s), s)) == |s|
  {
    if s != [] {
      var n := |s| - 1;
      var prefix := s[..n];
      var c := s[n];
      var keys := DistinctInOrder(prefix);
      assert s == prefix + [c];
      EntriesSumToLength(prefix);
      EntriesSumStep(keys, prefix, c);
      if c !in prefix {
        assert DistinctInOrder(s) == keys + [c];
        assert Entries(keys + [c], s) == Entries(keys, s) + [Entry(c, Occurrences(s, c))];
        SumAppend(Entries(keys, s), [Entry(c, Occurrences(s, c))]);
        OccurrencesPositive(prefix, c);
        OccurrencesSnoc(prefix, c, c);
      }
    }
  }

  /** The character breakdown of a text: its frequency table ordered by rank. */
  function Breakdown(s: string): seq<Entry>
  {
    SortByRank(Entries(DistinctInOrder(s), s))
  }

  /** Sorting keeps exactly the entries of the frequency table. */
  lemma BreakdownHoldsEntries(s: string)
    ensures forall e :: e in Breakdown(s) <==> e in Entries(DistinctInOrder(s), s)
    ensures |Breakdown(s)| == |DistinctInOrder(s)|
  {
    var entries := Entries(DistinctInOrder(s), s);
    var b := Breakdown(s);
    forall e
      ensures e in b <==> e in entries
    {
      assert e in b <==> e in multiset(b);
      assert e in entries <==> e in multiset(entries);
    }
    assert |b| == |multiset(b)| == |multiset(entries)| == |entries|;
  }

  /** Every entry of the breakdown is a character of the text with its (positive) count, and conversely. */
  lemma BreakdownCounts(s: string)
    ensures forall e :: e in Breakdown(s) ==> e.count == Occurrences(s, e.character) >= 1
    ensures forall c :: c in s <==> Entry(c, Occurrences(s, c)) in Breakdown(s)
  {
    var keys := DistinctInOrder(s);
    var entries := Entries(keys, s);
    BreakdownHoldsEntries(s);
    forall e | e in Breakdown(s)
      ensures e.count == Occurrences(s, e.character) >= 1
    {
      var j :| 0 <= j < |entries| && entries[j] == e;
      OccurrencesPositive(s, e.character);
    }
    forall c
      ensures c in s <==> Entry(c, Occurrences(s, c)) in Breakdown(s)
    {
      if c in s {
        var j :| 0 <= j < |keys| && keys[j] == c;
        assert entries[j] == Entry(c, Occurrences(s, c));
      }
      if Entry(c, Occurrences(s, c)) in entries {
        var j :| 0 <= j < |entries| && entries[j] == Entry(c, Occurrences(s, c));
        assert keys[j] == c;
      }
    }
  }

  /** The breakdown is ranked, and so names each character once and starts with a most frequent one. */
  lemma BreakdownRanked(s: string)
    ensures Ranked(Breakdown(s))
    ensures DistinctCharacters(Breakdown(s))
    ensures Breakdown(s) != [] ==> forall e :: e in Breakdown(s) ==> Breakdown(s)[0].count >= e.count
  {
    var b := Breakdown(s);
    SortByRankIsRanked(Entries(DistinctInOrder(s), s));
    BreakdownCounts(s);
    forall i, j | 0 <= i < j < |b|
      ensures b[i].character != b[j].character
    {
      assert Outranks(b[i], b[j]);
    }
    forall e | e in b && b != []
      ensures b[0].count >= e.count
    {
      var j :| 0 <= j < |b| && b[j] == e;
      if j > 0 {
        assert Outranks(b[0], b[j]);
      }
    }
  }

  /**
   * The breakdown lists every distinct character of the text exactly once,
   * with its number of occurrences (at least one), ordered by count
   * descending and then by character ascending, and its counts add up to
   * the length of the text.
   */
  lemma BreakdownIsFrequencyTable(s: string)
    ensures Ranked(Breakdown(s))
    ensures DistinctCharacters(Breakdown(s))
    ensures forall e :: e in Breakdown(s) ==> e.count == Occurrences(s, e.character) >= 1
    ensures forall c :: c in s <==> Entry(c, Occurrences(s, c)) in Breakdown(s)
    ensures |Breakdown(s)| == |CharSet(s)|
    ensures Sum(Breakdown(s)) == |s|
    ensures Breakdown(s) != [] ==> forall e :: e in Breakdown(s) ==> Breakdown(s)[0].count >= e.count
  {
    BreakdownHoldsEntries(s);
    BreakdownCounts(s);
    BreakdownRanked(s);
    DistinctCount(s);
    EntriesSumToLength(s);
  }
}
