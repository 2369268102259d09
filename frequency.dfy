/** Word-frequency tables over a text column (`value_counts` of its tokens)
    and the removal of the most and least frequent words. */
module Frequency {
  import opened Chars
  import opened Tokens
  import opened Cleaning

  /** A word and the number of times it occurs. */
  type Entry = (string, nat)

  /** A frequency Series: words as the index, counts as the values, in the
      Series' order. */
  type FreqTable = seq<Entry>

  /** The index of the Series, as a set: what `t in fn` tests. */
  function KeySet(tbl: FreqTable): set<string> {
    set i | 0 <= i < |tbl| :: tbl[i].0
  }

  predicate DistinctKeys(tbl: FreqTable) {
    forall i, j :: 0 <= i < j < |tbl| ==> tbl[i].0 != tbl[j].0
  }

  /** Counts in descending order. */
  predicate NonIncreasing(tbl: FreqTable) {
    forall i, j :: 0 <= i < j < |tbl| ==> tbl[i].1 >= tbl[j].1
  }

  predicate Positive(tbl: FreqTable) {
    forall i :: 0 <= i < |tbl| ==> tbl[i].1 >= 1
  }

  /** The count stored for k (its first entry), or 0 when k is not listed. */
  function Lookup(tbl: FreqTable, k: string): nat {
    if tbl == [] then 0 else if tbl[0].0 == k then tbl[0].1 else Lookup(tbl[1..], k)
  }

  /** The sum of the counts. */
  function Sum(tbl: FreqTable): nat {
    if tbl == [] then 0 else tbl[0].1 + Sum(tbl[1..])
  }

  lemma KeySetCons(tbl: FreqTable)
    requires tbl != []
    ensures KeySet(tbl) == {tbl[0].0} + KeySet(tbl[1..])
  {
    forall k | k in KeySet(tbl)
      ensures k in {tbl[0].0} + KeySet(tbl[1..])
    {
      var i :| 0 <= i < |tbl| && tbl[i].0 == k;
      if i > 0 {
        assert tbl[1..][i - 1].0 == k;
      }
    }
    forall k | k in KeySet(tbl[1..])
      ensures k in KeySet(tbl)
    {
      var i :| 0 <= i < |tbl[1..]| && tbl[1..][i].0 == k;
      assert tbl[i + 1].0 == k;
    }
  }

  lemma DistinctCons(e: Entry, tbl: FreqTable)
    requires DistinctKeys(tbl) && e.0 !in KeySet(tbl)
    ensures DistinctKeys([e] + tbl)
  {
    var s := [e] + tbl;
    forall i, j | 0 <= i < j < |s|
      ensures s[i].0 != s[j].0
    {
      if i == 0 {
        assert s[j].0 == tbl[j - 1].0;
      } else {
        assert s[i] == tbl[i - 1] && s[j] == tbl[j - 1];
      }
    }
  }

  /** In a table whose counts are positive, the listed words are exactly
      those with a positive count. */
  lemma {:induction false} LookupPositive(tbl: FreqTable, k: string)
    requires Positive(tbl)
    ensures Lookup(tbl, k) > 0 <==> k in KeySet(tbl)
  {
    if tbl != [] {
      KeySetCons(tbl);
      LookupPositive(tbl[1..], k);
    }
  }

  /** In a table without repeated words, Lookup finds each entry's count. */
  lemma {:induction false} LookupAt(tbl: FreqTable, j: nat)
    requires DistinctKeys(tbl) && j < |tbl|
    ensures Lookup(tbl, tbl[j].0) == tbl[j].1
  {
    if j > 0 {
      assert tbl[0].0 != tbl[j].0;
      assert tbl[1..][j - 1] == tbl[j];
      LookupAt(tbl[1..], j - 1);
    }
  }

  // ---- counting: the table in order of first appearance ----

  /** Count one more occurrence of t: its entry goes up by one, or a new
      entry (t, 1) is appended. */
  function Bump(tbl: FreqTable, t: string): FreqTable {
    if tbl == [] then [(t, 1)]
    else if tbl[0].0 == t then [(t, tbl[0].1 + 1)] + tbl[1..]
    else [tbl[0]] + Bump(tbl[1..], t)
  }

  lemma {:induction false} BumpCounts(tbl: FreqTable, t: string)
    ensures KeySet(Bump(tbl, t)) == KeySet(tbl) + {t}
    ensures forall k :: Lookup(Bump(tbl, t), k) == Lookup(tbl, k) + (if k == t then 1 else 0)
    ensures Sum(Bump(tbl, t)) == Sum(tbl) + 1
    ensures Positive(tbl) ==> Positive(Bump(tbl, t))
  {
    var r := Bump(tbl, t);
    KeySetCons(r);
    if tbl != [] {
      KeySetCons(tbl);
      if tbl[0].0 == t {
        assert r[1..] == tbl[1..];
      } else {
        BumpCounts(tbl[1..], t);
        assert r[1..] == Bump(tbl[1..], t);
      }
    }
  }

  lemma {:induction false} BumpDistinct(tbl: FreqTable, t: string)
    requires DistinctKeys(tbl)
    ensures DistinctKeys(Bump(tbl, t))
  {
    var r := Bump(tbl, t);
    if tbl != [] {
      TailOf(tbl);
      if tbl[0].0 == t {
        assert r[1..] == tbl[1..];
        DistinctCons(r[0], r[1..]);
        assert r == [r[0]] + r[1..];
      } else {
        BumpDistinct(tbl[1..], t);
        BumpCounts(tbl[1..], t);
        assert r[1..] == Bump(tbl[1..], t);
        DistinctCons(tbl[0], r[1..]);
        assert r == [tbl[0]] + r[1..];
      }
    }
  }

  /** The counts of a token list, in order of first appearance. */
  function Tally(ts: seq<string>): FreqTable {
    if ts == [] then [] else Bump(Tally(ts[..|ts| - 1]), ts[|ts| - 1])
  }

  lemma {:induction false} TallySpec(ts: seq<string>)
    ensures DistinctKeys(Tally(ts)) && Positive(Tally(ts))
    ensures forall k :: Lookup(Tally(ts), k) == multiset(ts)[k]
    ensures forall k :: k in KeySet(Tally(ts)) <==> k in ts
    ensures Sum(Tally(ts)) == |ts|
  {
    if ts != [] {
      var init, last := ts[..|ts| - 1], ts[|ts| - 1];
      TallySpec(init);
      BumpCounts(Tally(init), last);
      BumpDistinct(Tally(init), last);
      assert ts == init + [last];
      assert multiset(ts) == multiset(init) + multiset{last};
      forall k
        ensures k in ts <==> k in init || k == last
      {
        assert k in ts <==> k in init + [last];
      }
    }
  }

  // ---- sorting by count ----

  /** Insert e in front of the first entry with a count not above e's:
      descending by count, e ahead of the entries it ties with. */
  function Insert(e: Entry, s: FreqTable): (r: FreqTable)
    ensures |r| == |s| + 1
    ensures forall x :: x in r <==> x == e || x in s
    ensures multiset(r) == multiset{e} + multiset(s)
  {
    if s == [] || e.1 >= s[0].1 then [e] + s
    else
      var rest := Insert(e, s[1..]);
      assert s == [s[0]] + s[1..];
      [s[0]] + rest
  }

  /** What the properties of a table say about the table without its first
      entry. */
  lemma TailOf(tbl: FreqTable)
    requires tbl != []
    ensures NonIncreasing(tbl) ==> NonIncreasing(tbl[1..])
    ensures NonIncreasing(tbl) ==> forall j :: 0 <= j < |tbl[1..]| ==> tbl[0].1 >= tbl[1..][j].1
    ensures Positive(tbl) ==> Positive(tbl[1..])
    ensures DistinctKeys(tbl) ==> DistinctKeys(tbl[1..])
    ensures DistinctKeys(tbl) ==> tbl[0].0 !in KeySet(tbl[1..])
  {
    var t := tbl[1..];
    assert forall j :: 0 <= j < |t| ==> t[j] == tbl[j + 1];
  }

  lemma {:induction false} InsertSorted(e: Entry, s: FreqTable)
    requires NonIncreasing(s)
    ensures NonIncreasing(Insert(e, s))
  {
    var r := Insert(e, s);
    if s == [] || e.1 >= s[0].1 {
      assert r[1..] == s;
      forall i, j | 0 <= i < j < |r|
        ensures r[i].1 >= r[j].1
      {
        assert r[j] == s[j - 1];
        if i > 0 {
          assert r[i] == s[i - 1];
        }
      }
    } else {
      var rest := Insert(e, s[1..]);
      TailOf(s);
      InsertSorted(e, s[1..]);
      assert r[1..] == rest;
      assert forall x :: x in rest ==> x.1 <= s[0].1 by {
        forall x | x in rest
          ensures x.1 <= s[0].1
        {
          if x != e {
            var m :| 0 <= m < |s[1..]| && s[1..][m] == x;
          }
        }
      }
      forall i, j | 0 <= i < j < |r|
        ensures r[i].1 >= r[j].1
      {
        assert r[j] == rest[j - 1];
        if i > 0 {
          assert r[i] == rest[i - 1];
        }
      }
    }
  }

  lemma {:induction false} InsertTotals(e: Entry, s: FreqTable)
    ensures KeySet(Insert(e, s)) == {e.0} + KeySet(s)
    ensures Sum(Insert(e, s)) == e.1 + Sum(s)
    ensures Positive(s) && e.1 >= 1 ==> Positive(Insert(e, s))
  {
    var r := Insert(e, s);
    KeySetCons(r);
    if s == [] || e.1 >= s[0].1 {
      assert r[1..] == s;
    } else {
      InsertTotals(e, s[1..]);
      KeySetCons(s);
      TailOf(s);
      assert r[1..] == Insert(e, s[1..]);
    }
  }

  lemma {:induction false} InsertDistinct(e: Entry, s: FreqTable)
    requires DistinctKeys(s) && e.0 !in KeySet(s)
    ensures DistinctKeys(Insert(e, s))
    ensures forall k :: Lookup(Insert(e, s), k) == if k == e.0 then e.1 else Lookup(s, k)
  {
    var r := Insert(e, s);
    if s == [] || e.1 >= s[0].1 {
      assert r[1..] == s;
      DistinctCons(e, s);
    } else {
      var rest := Insert(e, s[1..]);
      KeySetCons(s);
      TailOf(s);
      InsertDistinct(e, s[1..]);
      InsertTotals(e, s[1..]);
      assert r[1..] == rest;
      DistinctCons(s[0], rest);
      assert r == [s[0]] + rest;
    }
  }

  /** A stable sort by descending count (insertion sort). */
  function SortByCount(tbl: FreqTable): (r: FreqTable)
    ensures multiset(r) == multiset(tbl)
  {
    if tbl == [] then []
    else
      assert tbl == [tbl[0]] + tbl[1..];
      Insert(tbl[0], SortByCount(tbl[1..]))
  }

  lemma {:induction false} SortByCountSorted(tbl: FreqTable)
    ensures NonIncreasing(SortByCount(tbl))
  {
    if tbl != [] {
      SortByCountSorted(tbl[1..]);
      InsertSorted(tbl[0], SortByCount(tbl[1..]));
    }
  }

  lemma {:induction false} SortByCountTotals(tbl: FreqTable)
    ensures KeySet(SortByCount(tbl)) == KeySet(tbl)
    ensures Sum(SortByCount(tbl)) == Sum(tbl)
    ensures Positive(tbl) ==> Positive(SortByCount(tbl))
  {
    if tbl != [] {
      SortByCountTotals(tbl[1..]);
      InsertTotals(tbl[0], SortByCount(tbl[1..]));
      KeySetCons(tbl);
      TailOf(tbl);
    }
  }

  lemma {:induction false} SortByCountDistinct(tbl: FreqTable)
    requires DistinctKeys(tbl)
    ensures DistinctKeys(SortByCount(tbl))
    ensures forall k :: Lookup(SortByCount(tbl), k) == Lookup(tbl, k)
  {
    if tbl != [] {
      TailOf(tbl);
      SortByCountDistinct(tbl[1..]);
      SortByCountTotals(tbl[1..]);
      InsertDistinct(tbl[0], SortByCount(tbl[1..]));
    }
  }

  // ---- _get_value_counts ----

  /** All tokens of all rows, row after row. */
  function TokensOfRows(rows: seq<string>): seq<string> {
    if rows == [] then [] else Split(rows[0]) + TokensOfRows(rows[1..])
  }

  /** Joining a column with spaces and splitting gives the rows' tokens
      one row after another: no token spans two rows. */
  lemma {:induction false} JoinRowsTokens(rows: seq<string>)
    ensures Split(Join(rows)) == TokensOfRows(rows)
  {
    if |rows| == 1 {
      assert Split(rows[0]) + [] == Split(rows[0]);
    } else if |rows| > 1 {
      JoinRowsTokens(rows[1..]);
      SplitAtWhitespace(rows[0], " ", Join(rows[1..]));
    }
  }

  /** `_get_value_counts`: the tokens of the joined column, counted and
      sorted by descending count; ties keep the order of first appearance. */
  function ValueCounts(rows: seq<string>): (r: FreqTable)
    ensures NonIncreasing(r) && DistinctKeys(r) && Positive(r)
    ensures forall k :: Lookup(r, k) == multiset(TokensOfRows(rows))[k]
    ensures forall k :: k in KeySet(r) <==> k in TokensOfRows(rows)
    ensures Sum(r) == |TokensOfRows(rows)|
  {
    var ts := Split(Join(rows));
    JoinRowsTokens(rows);
    TallySpec(ts);
    SortByCountSorted(Tally(ts));
    SortByCountTotals(Tally(ts));
    SortByCountDistinct(Tally(ts));
    SortByCount(Tally(ts))
  }

  // ---- freq[:n] and freq.tail(n) ----

  /** `freq[:n]`, a Python slice: the first n entries, or for negative n
      all but the last -n. */
  function Head(freq: FreqTable, n: int): (r: FreqTable)
    ensures |r| <= |freq| && r == freq[..|r|]
    ensures n >= 0 ==> |r| == if n <= |freq| then n else |freq|
    ensures n < 0 ==> |r| == if -n <= |freq| then |freq| + n else 0
  {
    if n >= 0 then (if n <= |freq| then freq[..n] else freq)
    else if -n <= |freq| then freq[..|freq| + n]
    else []
  }

  /** `freq.tail(n)`: the last n entries, none for n = 0, and for negative
      n all but the first -n. */
  function Tail(freq: FreqTable, n: int): (r: FreqTable)
    ensures |r| <= |freq| && r == freq[|freq| - |r|..]
    ensures n >= 0 ==> |r| == if n <= |freq| then n else |freq|
    ensures n < 0 ==> |r| == if -n <= |freq| then |freq| + n else 0
  {
    if n == 0 then []
    else if n > 0 then (if n <= |freq| then freq[|freq| - n..] else freq)
    else if -n <= |freq| then freq[-n..]
    else []
  }

  /** The first n entries and the last |freq| - n entries make up the table. */
  lemma HeadTail(freq: FreqTable, n: int)
    requires 0 <= n <= |freq|
    ensures Head(freq, n) + Tail(freq, |freq| - n) == freq
  {
    assert freq[..n] + freq[n..] == freq;
  }

  /** In a table sorted by descending count, every entry of `freq[:n]` is at
      least as frequent as every entry after it. */
  lemma HeadMostFrequent(freq: FreqTable, n: int)
    requires NonIncreasing(freq)
    ensures forall i, j :: 0 <= i < |Head(freq, n)| <= j < |freq| ==> Head(freq, n)[i].1 >= freq[j].1
  {
  }

  // ---- _remove_common_words and _remove_rarewords ----

  /** `_remove_common_words`: drop the tokens listed in `freq[:n]`. */
  function RemoveCommonWords(x: string, freq: FreqTable, n: int): (r: string)
    ensures Split(r) == Filter(Split(x), Outside(KeySet(Head(freq, n))))
    ensures forall t :: t in Split(r) <==> t in Split(x) && t !in KeySet(Head(freq, n))
    ensures SingleSpaced(r)
  {
    KeepTokens(x, Outside(KeySet(Head(freq, n))))
  }

  /** `_remove_rarewords`: drop the tokens listed in `freq.tail(n)`. */
  function RemoveRareWords(x: string, freq: FreqTable, n: int): (r: string)
    ensures Split(r) == Filter(Split(x), Outside(KeySet(Tail(freq, n))))
    ensures forall t :: t in Split(r) <==> t in Split(x) && t !in KeySet(Tail(freq, n))
    ensures SingleSpaced(r)
  {
    KeepTokens(x, Outside(KeySet(Tail(freq, n))))
  }

  /** A listed word outside `freq[:n]` is at most as frequent as every word
      in it. */
  lemma HeadBound(freq: FreqTable, n: int, t: string)
    requires NonIncreasing(freq) && DistinctKeys(freq)
    requires t in KeySet(freq) && t !in KeySet(Head(freq, n))
    ensures forall i :: 0 <= i < |Head(freq, n)| ==> Head(freq, n)[i].1 >= Lookup(freq, t)
  {
    var h := Head(freq, n);
    var j :| 0 <= j < |freq| && freq[j].0 == t;
    LookupAt(freq, j);
    assert forall i :: 0 <= i < |h| ==> h[i] == freq[i] && h[i].0 in KeySet(h);
  }

  /** A listed word outside `freq.tail(n)` is at least as frequent as every
      word in it. */
  lemma TailBound(freq: FreqTable, n: int, t: string)
    requires NonIncreasing(freq) && DistinctKeys(freq)
    requires t in KeySet(freq) && t !in KeySet(Tail(freq, n))
    ensures forall i :: 0 <= i < |Tail(freq, n)| ==> Tail(freq, n)[i].1 <= Lookup(freq, t)
  {
    var tl := Tail(freq, n);
    var off := |freq| - |tl|;
    var j :| 0 <= j < |freq| && freq[j].0 == t;
    LookupAt(freq, j);
    forall i | 0 <= i < |tl|
      ensures tl[i].1 <= Lookup(freq, t)
    {
      assert tl[i] == freq[off + i];
    }
  }

  /** Every listed word kept by `_remove_common_words` is at most as frequent
      as each word it removes. */
  lemma CommonWordsAreMostFrequent(x: string, freq: FreqTable, n: int, t: string)
    requires NonIncreasing(freq) && DistinctKeys(freq)
    requires t in Split(RemoveCommonWords(x, freq, n)) && t in KeySet(freq)
    ensures forall i :: 0 <= i < |Head(freq, n)| ==> Head(freq, n)[i].1 >= Lookup(freq, t)
  {
    HeadBound(freq, n, t);
  }

  /** Every listed word kept by `_remove_rarewords` is at least as frequent
      as each word it removes. */
  lemma RareWordsAreLeastFrequent(x: string, freq: FreqTable, n: int, t: string)
    requires NonIncreasing(freq) && DistinctKeys(freq)
    requires t in Split(RemoveRareWords(x, freq, n)) && t in KeySet(freq)
    ensures forall i :: 0 <= i < |Tail(freq, n)| ==> Tail(freq, n)[i].1 <= Lookup(freq, t)
  {
    TailBound(freq, n, t);
  }
}
