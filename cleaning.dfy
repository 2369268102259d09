/** Text normalisation: retweet-marker removal, special-character stripping,
    token filters re-joined with single spaces, and collapsing of runs of
    three or more identical characters. */
module Cleaning {
  import opened Chars
  import opened Tokens

  // ---- str.strip() ----

  /** The number of whitespace characters at the start of x. */
  function LeadingSpace(x: string): (n: nat)
    ensures n <= |x|
    ensures forall i :: 0 <= i < n ==> IsSpace(x[i])
    ensures n == |x| || !IsSpace(x[n])
  {
    if x != [] && IsSpace(x[0]) then 1 + LeadingSpace(x[1..]) else 0
  }

  /** The number of whitespace characters at the end of x. */
  function TrailingSpace(x: string): (n: nat)
    ensures n <= |x|
    ensures forall i :: |x| - n <= i < |x| ==> IsSpace(x[i])
    ensures n == |x| || !IsSpace(x[|x| - n - 1])
  {
    if x != [] && IsSpace(x[|x| - 1]) then 1 + TrailingSpace(x[..|x| - 1]) else 0
  }

  /** `x.lstrip()`: x without its leading whitespace. */
  function StripLeft(x: string): (r: string)
    ensures |r| <= |x|
    ensures r == [] || !IsSpace(r[0])
    ensures r == x[|x| - |r|..] && forall i :: 0 <= i < |x| - |r| ==> IsSpace(x[i])
    ensures Split(r) == Split(x)
  {
    var n := LeadingSpace(x);
    assert x == x[..n] + x[n..];
    SplitLeadingWhitespace(x[..n], x[n..]);
    x[n..]
  }

  /** `x.rstrip()`: x without its trailing whitespace. */
  function StripRight(x: string): (r: string)
    ensures |r| <= |x|
    ensures r == [] || !IsSpace(r[|r| - 1])
    ensures r != [] ==> r[0] == x[0]
    ensures r == x[..|r|] && forall i :: |r| <= i < |x| ==> IsSpace(x[i])
    ensures Split(r) == Split(x)
  {
    var n := TrailingSpace(x);
    assert x == x[..|x| - n] + x[|x| - n..];
    SplitTrailingWhitespace(x[..|x| - n], x[|x| - n..]);
    x[..|x| - n]
  }

  /** `x.strip()`: the slice of x left after dropping whitespace at both
      ends; the same tokens, and no whitespace at either end. */
  function Strip(x: string): (r: string)
    ensures r == [] || (!IsSpace(r[0]) && !IsSpace(r[|r| - 1]))
    ensures |r| <= |x|
    ensures exists i, j :: 0 <= i <= j <= |x| && r == x[i..j] && (forall k :: 0 <= k < i ==> IsSpace(x[k])) && (forall k :: j <= k < |x| ==> IsSpace(x[k]))
    ensures Split(r) == Split(x)
  {
    var l := StripLeft(x);
    var r := StripRight(l);
    StripSlices(x, l, r);
    r
  }

  /** Stripping a suffix of x and then a prefix of that leaves a slice of x. */
  lemma StripSlices(x: string, l: string, r: string)
    requires |l| <= |x| && l == x[|x| - |l|..] && forall i :: 0 <= i < |x| - |l| ==> IsSpace(x[i])
    requires |r| <= |l| && r == l[..|r|] && forall i :: |r| <= i < |l| ==> IsSpace(l[i])
    ensures exists i, j :: 0 <= i <= j <= |x| && r == x[i..j] && (forall k :: 0 <= k < i ==> IsSpace(x[k])) && (forall k :: j <= k < |x| ==> IsSpace(x[k]))
  {
    var i := |x| - |l|;
    var j := i + |r|;
    assert forall k :: j <= k < |x| ==> x[k] == l[k - i];
    assert r == x[i..j];
  }

  /** `strip()` changes nothing when neither end is whitespace: inner
      whitespace is kept as it is. */
  lemma StripKeepsInner(x: string)
    requires x == [] || (!IsSpace(x[0]) && !IsSpace(x[|x| - 1]))
    ensures Strip(x) == x
  {
  }

  lemma StripSingleSpaced(x: string)
    requires SingleSpaced(x)
    ensures Strip(x) == x
  {
  }

  // ---- _remove_rt ----

  /** `re.sub(r'\brt\b', '', x)`, scanning left to right. Word boundaries are
      judged on the original text, so `afterWord` says whether the character
      before x (in the original) is a word character. */
  function DeleteRt(x: string, afterWord: bool): (r: string)
    ensures |r| <= |x|
  {
    if |x| >= 2 && x[0] == 'r' && x[1] == 't' && !afterWord && (|x| == 2 || !IsWordChar(x[2])) then
      DeleteRt(x[2..], true)
    else if x == [] then ""
    else [x[0]] + DeleteRt(x[1..], IsWordChar(x[0]))
  }

  /** A match of `\brt\b` starts at position i of x: `rt` with no word
      character right before it or right after it. */
  predicate MarkerAt(x: string, i: nat) {
    && i + 2 <= |x| && x[i] == 'r' && x[i + 1] == 't'
    && (i == 0 || !IsWordChar(x[i - 1]))
    && (i + 2 == |x| || !IsWordChar(x[i + 2]))
  }

  /** Position i of x belongs to a match of `\brt\b`. */
  predicate InMarker(x: string, i: nat) {
    MarkerAt(x, i) || (i > 0 && MarkerAt(x, i - 1))
  }

  /** The characters of x from position k on that belong to no match. */
  function KeepUnmarked(x: string, k: nat): (r: string)
    requires k <= |x|
    ensures |r| <= |x| - k
    decreases |x| - k
  {
    if k == |x| then ""
    else (if InMarker(x, k) then "" else [x[k]]) + KeepUnmarked(x, k + 1)
  }

  /** A match at k is deleted whole, and scanning resumes after its `t`. */
  lemma MarkerStep(x: string, k: nat)
    requires MarkerAt(x, k)
    ensures DeleteRt(x[k..], k > 0 && IsWordChar(x[k - 1])) == DeleteRt(x[k + 2..], k + 2 > 0 && IsWordChar(x[k + 1]))
    ensures KeepUnmarked(x, k) == KeepUnmarked(x, k + 2)
    ensures !MarkerAt(x, k + 1)
  {
    assert x[k..][2..] == x[k + 2..];
    assert InMarker(x, k + 1);
  }

  /** A character outside every match is kept. */
  lemma PlainStep(x: string, k: nat)
    requires k < |x| && !MarkerAt(x, k) && !(k > 0 && MarkerAt(x, k - 1))
    ensures DeleteRt(x[k..], k > 0 && IsWordChar(x[k - 1])) == [x[k]] + DeleteRt(x[k + 1..], k + 1 > 0 && IsWordChar(x[k]))
    ensures KeepUnmarked(x, k) == [x[k]] + KeepUnmarked(x, k + 1)
  {
    assert x[k..][1..] == x[k + 1..];
  }

  /** Scanning from a position that is not inside a match, DeleteRt drops
      exactly the characters that belong to matches. */
  lemma {:induction false} DeleteRtFrom(x: string, k: nat)
    requires k <= |x|
    requires !(k > 0 && MarkerAt(x, k - 1))
    ensures DeleteRt(x[k..], k > 0 && IsWordChar(x[k - 1])) == KeepUnmarked(x, k)
    decreases |x| - k
  {
    if MarkerAt(x, k) {
      MarkerStep(x, k);
      DeleteRtFrom(x, k + 2);
    } else if k < |x| {
      PlainStep(x, k);
      DeleteRtFrom(x, k + 1);
    }
  }

  /** `re.sub(r'\brt\b', '', x)` removes exactly the characters of the
      matches of `\brt\b` and keeps every other character, in order. */
  lemma DeleteRtUnmarked(x: string)
    ensures DeleteRt(x, false) == KeepUnmarked(x, 0)
  {
    assert x[0..] == x;
    DeleteRtFrom(x, 0);
  }

  /** Text without an `r` has no match. */
  lemma {:induction false} DeleteRtNoR(x: string, afterWord: bool)
    requires forall i :: 0 <= i < |x| ==> x[i] != 'r'
    ensures DeleteRt(x, afterWord) == x
    decreases |x|
  {
    if x != [] {
      DeleteRtNoR(x[1..], IsWordChar(x[0]));
    }
  }

  /** A leading `rt` before a mention is a match; the `rt` inside `art` is not. */
  lemma DeleteRtExamples(x: string, y: string)
    requires x == "rt @a: hi" && y == "art"
    ensures DeleteRt(x, false) == " @a: hi"
    ensures DeleteRt(y, false) == y
  {
    assert x[2..] == " @a: hi";
    DeleteRtNoR(x[2..], true);
    assert y[1..] == "rt" && y[1..][1..] == "t";
    DeleteRtNoR("t", true);
  }

  /** `_remove_rt`: delete every standalone `rt`, then strip. */
  function RemoveRt(x: string): (r: string)
    ensures r == [] || (!IsSpace(r[0]) && !IsSpace(r[|r| - 1]))
    ensures |r| <= |x|
    ensures r == Strip(KeepUnmarked(x, 0))
  {
    DeleteRtUnmarked(x);
    Strip(DeleteRt(x, false))
  }

  /** The retweet marker test: a token other than `rt`. */
  predicate NotMarker(t: string) {
    t != "rt"
  }

  /** A token made of word characters only. */
  predicate IsWordToken(t: string) {
    IsRun(t, IsWordChar)
  }

  predicate AllWordTokens(ts: seq<string>) {
    forall k :: 0 <= k < |ts| ==> IsWordToken(ts[k])
  }

  lemma {:induction false} DeleteRtWordPrefix(w: string, rest: string)
    requires AllChars(w, IsWordChar)
    ensures DeleteRt(w + rest, true) == w + DeleteRt(rest, true)
  {
    if w == [] {
      assert w + rest == rest;
    } else {
      assert (w + rest)[0] == w[0];
      assert (w + rest)[1..] == w[1..] + rest;
      DeleteRtWordPrefix(w[1..], rest);
      assert [w[0]] + (w[1..] + DeleteRt(rest, true)) == w + DeleteRt(rest, true);
    }
  }

  /** A word token followed by a non-word character: it is deleted exactly
      when it is `rt`. */
  lemma DeleteRtToken(t: string, rest: string)
    requires IsWordToken(t)
    requires rest == [] || !IsWordChar(rest[0])
    ensures DeleteRt(t + rest, false) == (if t == "rt" then "" else t) + DeleteRt(rest, true)
  {
    var x := t + rest;
    if t == "rt" {
      assert x[0] == 'r' && x[1] == 't';
      assert x[2..] == rest;
      assert |x| == 2 || x[2] == rest[0];
    } else {
      assert x[0] == t[0];
      if |t| == 1 {
        assert |x| == 1 || x[1] == rest[0];
      } else if |t| == 2 {
        assert x[1] == t[1];
        assert t == [t[0], t[1]];
      } else {
        assert x[2] == t[2];
      }
      assert x[1..] == t[1..] + rest;
      DeleteRtWordPrefix(t[1..], rest);
      assert [t[0]] + (t[1..] + DeleteRt(rest, true)) == t + DeleteRt(rest, true);
    }
  }

  /** A word token, a space, then the rest of the text. */
  lemma DeleteRtCons(t: string, j: string)
    requires IsWordToken(t)
    ensures DeleteRt(t + " " + j, false) == (if t == "rt" then "" else t) + " " + DeleteRt(j, false)
  {
    assert t + " " + j == t + (" " + j);
    DeleteRtToken(t, " " + j);
    assert (" " + j)[1..] == j;
    assert DeleteRt(" " + j, true) == " " + DeleteRt(j, false);
  }

  /** On space-joined word tokens, the `rt` deletion removes exactly the
      tokens equal to `rt`. */
  lemma {:induction false} DeleteRtJoin(ts: seq<string>)
    requires AllWordTokens(ts)
    ensures Split(DeleteRt(Join(ts), false)) == Filter(ts, NotMarker)
  {
    if |ts| == 1 {
      var t := ts[0];
      DeleteRtToken(t, "");
      assert t + "" == t;
      if t != "rt" {
        SplitToken(t);
      }
    } else if |ts| > 1 {
      DeleteRtJoin(ts[1..]);
      DeleteRtJoinCons(ts);
    }
  }

  /** What is left of one word token splits back into it, or into nothing. */
  lemma SplitKept(t: string)
    requires IsWordToken(t)
    ensures Split(if t == "rt" then "" else t) == if NotMarker(t) then [t] else []
  {
    if t != "rt" {
      WordTokensAreTokens([t]);
      SplitToken(t);
    }
  }

  lemma DeleteRtJoinCons(ts: seq<string>)
    requires |ts| > 1 && AllWordTokens(ts)
    requires Split(DeleteRt(Join(ts[1..]), false)) == Filter(ts[1..], NotMarker)
    ensures Split(DeleteRt(Join(ts), false)) == Filter(ts, NotMarker)
  {
    var t := ts[0];
    var pre := if t == "rt" then "" else t;
    var d := DeleteRt(Join(ts[1..]), false);
    assert Join(ts) == t + " " + Join(ts[1..]);
    DeleteRtCons(t, Join(ts[1..]));
    SplitAtWhitespace(pre, " ", d);
    var head := if NotMarker(t) then [t] else [];
    SplitKept(t);
    assert Filter(ts, NotMarker) == head + Filter(ts[1..], NotMarker);
  }

  /** `_remove_rt` on space-joined word tokens leaves exactly the other
      tokens, in order. */
  lemma RemoveRtTokens(ts: seq<string>)
    requires AllWordTokens(ts)
    ensures Split(RemoveRt(Join(ts))) == Filter(ts, NotMarker)
  {
    DeleteRtJoin(ts);
  }

  /** Text of word tokens none of which is `rt` is left as it is. */
  lemma {:induction false} DeleteRtNoMarker(ts: seq<string>)
    requires AllWordTokens(ts)
    requires forall k :: 0 <= k < |ts| ==> ts[k] != "rt"
    ensures DeleteRt(Join(ts), false) == Join(ts)
  {
    if |ts| == 1 {
      DeleteRtToken(ts[0], "");
      assert ts[0] + "" == ts[0];
    } else if |ts| > 1 {
      DeleteRtCons(ts[0], Join(ts[1..]));
      DeleteRtNoMarker(ts[1..]);
    }
  }

  lemma {:induction false} WordTokensAreTokens(ts: seq<string>)
    requires AllWordTokens(ts)
    ensures AllTokens(ts)
    ensures forall k :: 0 <= k < |ts| ==> AllChars(ts[k], IsNonSpace)
  {
    forall k | 0 <= k < |ts|
      ensures IsToken(ts[k])
    {
      forall i | 0 <= i < |ts[k]|
        ensures IsNonSpace(ts[k][i])
      {
        WordCharIsNonSpace(ts[k][i]);
      }
    }
  }

  /** `_remove_rt` leaves text of word tokens without the marker unchanged. */
  lemma RemoveRtNoMarker(ts: seq<string>)
    requires AllWordTokens(ts)
    requires forall k :: 0 <= k < |ts| ==> ts[k] != "rt"
    ensures RemoveRt(Join(ts)) == Join(ts)
  {
    DeleteRtNoMarker(ts);
    WordTokensAreTokens(ts);
    JoinSingleSpaced(ts, IsNonSpace);
    StripSingleSpaced(Join(ts));
  }

  /** One space in front of a single-spaced text is stripped off. */
  lemma StripLeadingSpace(j: string)
    requires SingleSpaced(j)
    ensures Strip(" " + j) == j
  {
    assert (" " + j)[1..] == j;
    assert StripLeft(" " + j) == StripLeft(j);
    StripSingleSpaced(j);
  }

  lemma MarkerDeleted(j: string)
    ensures DeleteRt("rt" + " " + j, false) == " " + DeleteRt(j, false)
  {
    DeleteRtCons("rt", j);
    assert "" + " " + DeleteRt(j, false) == " " + DeleteRt(j, false);
  }

  lemma WordTokensSingleSpaced(ts: seq<string>)
    requires AllWordTokens(ts)
    ensures SingleSpaced(Join(ts))
  {
    WordTokensAreTokens(ts);
    JoinSingleSpaced(ts, IsNonSpace);
  }

  /** A leading `rt` marker in front of text without one is removed, and
      nothing else changes. */
  lemma RemoveLeadingRt(ts: seq<string>)
    requires AllWordTokens(ts)
    requires forall k :: 0 <= k < |ts| ==> ts[k] != "rt"
    ensures RemoveRt("rt" + " " + Join(ts)) == Join(ts)
  {
    MarkerDeleted(Join(ts));
    DeleteRtNoMarker(ts);
    WordTokensSingleSpaced(ts);
    StripLeadingSpace(Join(ts));
  }

  // ---- _remove_special_chars ----

  /** `re.sub(r'[^\w ]+', "", x)` followed by `' '.join(x.split())`. */
  function RemoveSpecialChars(x: string): (r: string)
    ensures forall i :: 0 <= i < |r| ==> IsWordOrBlank(r[i])
    ensures SingleSpaced(r)
    ensures Split(r) == Split(KeepChars(x, IsWordOrBlank))
  {
    var y := KeepChars(x, IsWordOrBlank);
    var ts := Split(y);
    RunsChars(y, IsNonSpace, IsWordOrBlank);
    JoinSingleSpaced(ts, IsWordOrBlank);
    SplitJoin(ts);
    Join(ts)
  }

  /** Applying `_remove_special_chars` twice is applying it once. */
  lemma RemoveSpecialCharsIdempotent(x: string)
    ensures RemoveSpecialChars(RemoveSpecialChars(x)) == RemoveSpecialChars(x)
  {
    var r := RemoveSpecialChars(x);
    KeepCharsAll(r, IsWordOrBlank);
    var y := KeepChars(x, IsWordOrBlank);
    SplitJoin(Split(y));
  }

  // ---- token filters ----

  /** The membership test `t not in excluded`, as a value. */
  function Outside(excluded: set<string>): string -> bool {
    t => t !in excluded
  }

  lemma {:induction false} FilterTokens(ts: seq<string>, keep: string -> bool)
    requires AllTokens(ts)
    ensures AllTokens(Filter(ts, keep))
  {
    if ts != [] {
      FilterTokens(ts[1..], keep);
      var f := Filter(ts[1..], keep);
      assert Filter(ts, keep) == (if keep(ts[0]) then [ts[0]] else []) + f;
    }
  }

  /** `' '.join([t for t in x.split() if keep(t)])`. */
  function KeepTokens(x: string, keep: string -> bool): (r: string)
    ensures Split(r) == Filter(Split(x), keep)
    ensures SingleSpaced(r)
  {
    var ts := Filter(Split(x), keep);
    FilterTokens(Split(x), keep);
    SplitJoin(ts);
    JoinSingleSpaced(ts, IsNonSpace);
    Join(ts)
  }

  /** Filtering a text's tokens twice by the same test is filtering once. */
  lemma KeepTokensIdempotent(x: string, keep: string -> bool)
    ensures KeepTokens(KeepTokens(x, keep), keep) == KeepTokens(x, keep)
  {
    FilterIdempotent(Split(x), keep);
  }

  /** `_remove_stopwords`. */
  function RemoveStopwords(x: string, stopwords: set<string>): (r: string)
    ensures Split(r) == Filter(Split(x), Outside(stopwords))
    ensures forall t :: t in Split(r) <==> t in Split(x) && t !in stopwords
    ensures |Split(r)| <= |Split(x)|
    ensures SingleSpaced(r)
  {
    KeepTokens(x, Outside(stopwords))
  }

  // ---- _remove_dups_char ----

  /** Length of the run of copies of x[0] that x starts with. */
  function RunLength(x: string): (n: nat)
    requires x != []
    ensures 1 <= n <= |x|
    ensures n < |x| ==> x[n] != x[0]
  {
    if |x| == 1 || x[1] != x[0] then 1 else 1 + RunLength(x[1..])
  }

  /** `re.sub("(.)\\1{2,}", "\\1", x)`: scanning left to right, a character
      other than a newline followed by at least two copies of itself is
      replaced, together with all its following copies, by one copy. */
  function RemoveDupsChar(x: string): (r: string)
    ensures |r| <= |x|
    ensures x != [] ==> r != [] && r[0] == x[0]
    decreases |x|
  {
    if |x| >= 3 && x[0] != '\n' && x[1] == x[0] && x[2] == x[0] then
      [x[0]] + RemoveDupsChar(x[RunLength(x)..])
    else if x == [] then ""
    else [x[0]] + RemoveDupsChar(x[1..])
  }

  /** No character other than a newline appears three times in a row. */
  predicate NoTriple(s: string) {
    forall i :: 0 <= i < |s| - 2 ==> !(s[i] != '\n' && s[i + 1] == s[i] && s[i + 2] == s[i])
  }

  lemma NoTripleCons(c: char, y: string)
    requires NoTriple(y)
    requires !(c != '\n' && |y| >= 2 && y[0] == c && y[1] == c)
    ensures NoTriple([c] + y)
  {
    var s := [c] + y;
    forall i | 0 <= i < |s| - 2
      ensures !(s[i] != '\n' && s[i + 1] == s[i] && s[i + 2] == s[i])
    {
      if i > 0 {
        assert s[i] == y[i - 1] && s[i + 1] == y[i] && s[i + 2] == y[i + 1];
      }
    }
  }

  /** The result never holds three equal consecutive characters other than
      newlines. */
  lemma {:induction false} RemoveDupsCharNoTriple(x: string)
    ensures NoTriple(RemoveDupsChar(x))
    decreases |x|
  {
    if x == [] {
    } else if |x| >= 3 && x[0] != '\n' && x[1] == x[0] && x[2] == x[0] {
      var n := RunLength(x);
      RemoveDupsCharNoTriple(x[n..]);
      NoTripleCons(x[0], RemoveDupsChar(x[n..]));
    } else {
      var y := RemoveDupsChar(x[1..]);
      RemoveDupsCharNoTriple(x[1..]);
      NoTripleCons(x[0], y);
    }
  }

  /** Text without a run of three is left unchanged. */
  lemma {:induction false} RemoveDupsCharFixes(x: string)
    requires NoTriple(x)
    ensures RemoveDupsChar(x) == x
    decreases |x|
  {
    if x != [] {
      if |x| >= 3 {
        assert !(x[0] != '\n' && x[1] == x[0] && x[2] == x[0]);
      }
      assert NoTriple(x[1..]) by {
        forall i | 0 <= i < |x[1..]| - 2
          ensures !(x[1..][i] != '\n' && x[1..][i + 1] == x[1..][i] && x[1..][i + 2] == x[1..][i])
        {
          assert x[1..][i] == x[i + 1] && x[1..][i + 1] == x[i + 2] && x[1..][i + 2] == x[i + 3];
        }
      }
      RemoveDupsCharFixes(x[1..]);
    }
  }

  /** `_remove_dups_char` is idempotent. */
  lemma RemoveDupsCharIdempotent(x: string)
    ensures RemoveDupsChar(RemoveDupsChar(x)) == RemoveDupsChar(x)
  {
    RemoveDupsCharNoTriple(x);
    RemoveDupsCharFixes(RemoveDupsChar(x));
  }

  // ---- run-length view of _remove_dups_char ----

  /** `n` copies of `c`. */
  function Repeat(c: char, n: nat): string {
    seq(n, _ => c)
  }

  /** The maximal runs of equal characters of x as (character, length)
      pairs; neighbouring runs hold different characters. */
  function RunLengths(x: string): (rs: seq<(char, nat)>)
    ensures forall k :: 0 <= k < |rs| ==> rs[k].1 >= 1
    ensures forall k :: 0 <= k < |rs| - 1 ==> rs[k].0 != rs[k + 1].0
    ensures x != [] ==> rs != [] && rs[0].0 == x[0]
    decreases |x|
  {
    if x == [] then []
    else
      var n := RunLength(x);
      [(x[0], n)] + RunLengths(x[n..])
  }

  /** The text a list of runs stands for. */
  function Expand(rs: seq<(char, nat)>): string {
    if rs == [] then "" else Repeat(rs[0].0, rs[0].1) + Expand(rs[1..])
  }

  /** x is its first run followed by the rest. */
  lemma {:induction false} RunSplit(x: string)
    requires x != []
    ensures x == Repeat(x[0], RunLength(x)) + x[RunLength(x)..]
  {
    if |x| > 1 && x[1] == x[0] {
      var m := RunLength(x[1..]);
      RunSplit(x[1..]);
      assert x[1..][m..] == x[1 + m..];
      assert Repeat(x[0], 1 + m) == [x[0]] + Repeat(x[0], m);
      assert x == [x[0]] + x[1..];
    } else {
      assert Repeat(x[0], 1) == [x[0]];
      assert x == [x[0]] + x[1..];
    }
  }

  /** Run-length encoding loses nothing. */
  lemma {:induction false} ExpandRunLengths(x: string)
    ensures Expand(RunLengths(x)) == x
    decreases |x|
  {
    if x != [] {
      var n := RunLength(x);
      var rs := RunLengths(x);
      assert rs == [(x[0], n)] + RunLengths(x[n..]);
      assert rs[0] == (x[0], n) && rs[1..] == RunLengths(x[n..]);
      ExpandRunLengths(x[n..]);
      RunSplit(x);
    }
  }

  /** What `_remove_dups_char` does to one maximal run. */
  function ShrinkRun(r: (char, nat)): (char, nat) {
    if r.0 != '\n' && r.1 >= 3 then (r.0, 1) else r
  }

  function ShrinkRuns(rs: seq<(char, nat)>): (out: seq<(char, nat)>)
    ensures |out| == |rs|
    ensures forall k :: 0 <= k < |rs| ==> out[k] == ShrinkRun(rs[k])
  {
    if rs == [] then [] else [ShrinkRun(rs[0])] + ShrinkRuns(rs[1..])
  }

  /** A newline is never part of a match. */
  lemma NewlineKept(y: string)
    ensures RemoveDupsChar("\n" + y) == "\n" + RemoveDupsChar(y)
  {
    assert ("\n" + y)[1..] == y;
  }

  lemma {:induction false} NewlinesKept(n: nat, y: string)
    ensures RemoveDupsChar(Repeat('\n', n) + y) == Repeat('\n', n) + RemoveDupsChar(y)
  {
    if n > 0 {
      var rest := Repeat('\n', n - 1) + y;
      assert Repeat('\n', n) + y == "\n" + rest;
      NewlineKept(rest);
      NewlinesKept(n - 1, y);
    } else {
      assert Repeat('\n', n) + y == y;
    }
  }

  /** A run of exactly two is kept whole. */
  lemma PairStep(c: char, y: string)
    requires y == [] || y[0] != c
    ensures RemoveDupsChar([c, c] + y) == [c, c] + RemoveDupsChar(y)
  {
    assert [c, c] + y == [c] + ([c] + y);
    assert [c, c] + RemoveDupsChar(y) == [c] + ([c] + RemoveDupsChar(y));
    RemoveDupsCharStep(c, [c] + y);
    RemoveDupsCharStep(c, y);
  }

  /** A run of newlines is kept whole. */
  lemma NewlineRun(x: string)
    requires x != [] && x[0] == '\n'
    ensures RemoveDupsChar(x) == Repeat('\n', RunLength(x)) + RemoveDupsChar(x[RunLength(x)..])
  {
    RunSplit(x);
    NewlinesKept(RunLength(x), x[RunLength(x)..]);
  }

  /** The first maximal run of x is shrunk as ShrinkRun says, and the
      scan then goes on after it. */
  lemma HeadRun(x: string)
    requires x != []
    ensures RemoveDupsChar(x) ==
      Repeat(x[0], ShrinkRun((x[0], RunLength(x))).1) + RemoveDupsChar(x[RunLength(x)..])
  {
    var c, n := x[0], RunLength(x);
    if c == '\n' {
      NewlineRun(x);
    } else if n == 2 {
      RunSplit(x);
      assert Repeat(c, 2) == [c, c];
      PairStep(c, x[2..]);
    } else {
      assert Repeat(c, 1) == [c];
    }
  }

  /** `_remove_dups_char` replaces each maximal run of three or more equal
      characters other than newlines by one copy and keeps every other run. */
  lemma {:induction false} RemoveDupsCharByRuns(x: string)
    ensures RemoveDupsChar(x) == Expand(ShrinkRuns(RunLengths(x)))
    decreases |x|
  {
    if x != [] {
      var n := RunLength(x);
      HeadRun(x);
      RemoveDupsCharByRuns(x[n..]);
      var rs := RunLengths(x);
      assert rs == [(x[0], n)] + RunLengths(x[n..]);
      assert ShrinkRuns(rs) == [ShrinkRun((x[0], n))] + ShrinkRuns(RunLengths(x[n..]));
    }
  }

  /** A character that does not start a run of three is kept, and the scan
      goes on with the next one. */
  lemma RemoveDupsCharStep(c: char, y: string)
    requires c == '\n' || |y| < 2 || y[0] != c || y[1] != c
    ensures RemoveDupsChar([c] + y) == [c] + RemoveDupsChar(y)
  {
    assert ([c] + y)[1..] == y;
  }

  lemma {:induction false} RunLengthRepeat(c: char, n: nat, y: string)
    requires n >= 1 && (y == [] || y[0] != c)
    ensures RunLength(Repeat(c, n) + y) == n
  {
    var x := Repeat(c, n) + y;
    if n > 1 {
      assert x[1..] == Repeat(c, n - 1) + y;
      RunLengthRepeat(c, n - 1, y);
    } else {
      assert |x| == 1 || x[1] == y[0];
    }
  }

  /** A maximal run of three or more copies of a character other than a
      newline becomes one copy. */
  lemma RemoveDupsCharRun(c: char, n: nat, y: string)
    requires c != '\n' && n >= 3 && (y == [] || y[0] != c)
    ensures RemoveDupsChar(Repeat(c, n) + y) == [c] + RemoveDupsChar(y)
  {
    var x := Repeat(c, n) + y;
    RunLengthRepeat(c, n, y);
    assert x[0] == c && x[1] == c && x[2] == c;
    assert x[n..] == y;
  }

  lemma DupsExampleText()
    ensures "soooo coool" == ['s'] + (Repeat('o', 4) + ([' '] + (['c'] + (Repeat('o', 3) + ['l']))))
    ensures "so col" == ['s'] + (['o'] + ([' '] + (['c'] + (['o'] + ['l']))))
  {
    assert Repeat('o', 3) == "ooo" && Repeat('o', 4) == "oooo";
  }

  lemma DupsExampleSteps()
    ensures RemoveDupsChar(['s'] + (Repeat('o', 4) + ([' '] + (['c'] + (Repeat('o', 3) + ['l']))))) ==
            ['s'] + (['o'] + ([' '] + (['c'] + (['o'] + ['l']))))
  {
    var a := Repeat('o', 3) + ['l'];
    var b := ['c'] + a;
    var d := [' '] + b;
    var e := Repeat('o', 4) + d;
    RemoveDupsCharStep('l', []);
    assert ['l'] + [] == ['l'];
    RemoveDupsCharRun('o', 3, ['l']);
    RemoveDupsCharStep('c', a);
    RemoveDupsCharStep(' ', b);
    RemoveDupsCharRun('o', 4, d);
    RemoveDupsCharStep('s', e);
  }

  lemma RemoveDupsCharExample(x: string)
    requires x == "soooo coool"
    ensures RemoveDupsChar(x) == "so col"
  {
    DupsExampleText();
    DupsExampleSteps();
  }
}
