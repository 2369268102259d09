/** Tokenisation. `Runs(s, p)` is the sequence of maximal runs of characters
    satisfying `p`, left to right. Two operations of the utilities are
    instances of it: Python's argument-less `str.split()` (maximal runs of
    non-whitespace, `Split`) and `re.findall` of a one-or-more character class
    (maximal runs of that class). `Join` is `' '.join(...)`, the partial
    inverse of `Split`. */
module Tokens {
  import opened Chars

  predicate AllChars(s: string, p: char -> bool) {
    forall i :: 0 <= i < |s| ==> p(s[i])
  }

  predicate NoChars(s: string, p: char -> bool) {
    forall i :: 0 <= i < |s| ==> !p(s[i])
  }

  /** A non-empty string whose characters all satisfy p. */
  predicate IsRun(r: string, p: char -> bool) {
    |r| > 0 && AllChars(r, p)
  }

  /** A whitespace-delimited token: non-empty and free of whitespace. */
  predicate IsToken(t: string) {
    IsRun(t, IsNonSpace)
  }

  predicate AllTokens(ts: seq<string>) {
    forall k :: 0 <= k < |ts| ==> IsToken(ts[k])
  }

  /** The run being scanned, once it ends: nothing if it is empty. */
  function Flush(cur: string): seq<string> {
    if cur == [] then [] else [cur]
  }

  /** The maximal runs of p-characters of s, scanning left to right, where
      `cur` is the run already begun just before s. */
  function RunsFrom(s: string, p: char -> bool, cur: string): (rs: seq<string>)
    requires AllChars(cur, p)
    ensures forall k :: 0 <= k < |rs| ==> IsRun(rs[k], p)
  {
    if s == [] then Flush(cur)
    else if p(s[0]) then RunsFrom(s[1..], p, cur + [s[0]])
    else Flush(cur) + RunsFrom(s[1..], p, "")
  }

  /** The maximal runs of p-characters of s, in order. */
  function Runs(s: string, p: char -> bool): (rs: seq<string>)
    ensures forall k :: 0 <= k < |rs| ==> IsRun(rs[k], p)
  {
    RunsFrom(s, p, "")
  }

  lemma {:induction false} RunsFromNone(s: string, p: char -> bool, cur: string)
    requires AllChars(cur, p)
    ensures RunsFrom(s, p, cur) == [] <==> cur == [] && NoChars(s, p)
  {
    if s != [] {
      if p(s[0]) {
        RunsFromNone(s[1..], p, cur + [s[0]]);
      } else {
        RunsFromNone(s[1..], p, "");
      }
    }
  }

  /** A string has no runs exactly when none of its characters satisfies p. */
  lemma RunsEmpty(s: string, p: char -> bool)
    ensures Runs(s, p) == [] <==> NoChars(s, p)
  {
    RunsFromNone(s, p, "");
  }

  /** Python's `s.split()` with no argument. */
  function Split(s: string): (ts: seq<string>)
    ensures AllTokens(ts)
    ensures ts == [] <==> forall i :: 0 <= i < |s| ==> IsSpace(s[i])
  {
    RunsEmpty(s, IsNonSpace);
    Runs(s, IsNonSpace)
  }

  /** `''.join(ts)`. */
  function Concat(ts: seq<string>): string {
    if ts == [] then "" else ts[0] + Concat(ts[1..])
  }

  /** `' '.join(ts)`. */
  function Join(ts: seq<string>): (s: string)
    ensures ts == [] ==> s == ""
    ensures ts != [] ==> |s| == |Concat(ts)| + |ts| - 1
  {
    if ts == [] then "" else if |ts| == 1 then ts[0] else ts[0] + " " + Join(ts[1..])
  }

  /** The characters of s that satisfy p, in order. */
  function KeepChars(s: string, p: char -> bool): (r: string)
    ensures AllChars(r, p)
    ensures |r| <= |s|
  {
    if s == [] then "" else (if p(s[0]) then [s[0]] else "") + KeepChars(s[1..], p)
  }

  /** The list comprehension `[t for t in ts if keep(t)]`. */
  function Filter(ts: seq<string>, keep: string -> bool): (r: seq<string>)
    ensures |r| <= |ts|
    ensures forall t :: t in r <==> t in ts && keep(t)
    ensures |r| == |ts| <==> forall k :: 0 <= k < |ts| ==> keep(ts[k])
  {
    if ts == [] then []
    else (if keep(ts[0]) then [ts[0]] else []) + Filter(ts[1..], keep)
  }

  /** Number of positions of s at which a maximal p-run begins: a p-character
      that is first or follows a character outside p (`inRun` says whether
      the character before s is a p-character). */
  function RunStarts(s: string, p: char -> bool, inRun: bool): nat {
    if s == [] then 0
    else (if p(s[0]) && !inRun then 1 else 0) + RunStarts(s[1..], p, p(s[0]))
  }

  // ---- helper lemmas ----

  lemma {:induction false} KeepCharsAppend(a: string, b: string, p: char -> bool)
    ensures KeepChars(a + b, p) == KeepChars(a, p) + KeepChars(b, p)
  {
    if a == [] {
      assert a + b == b;
    } else {
      var h: string := if p(a[0]) then [a[0]] else "";
      assert (a + b)[0] == a[0];
      assert (a + b)[1..] == a[1..] + b;
      KeepCharsAppend(a[1..], b, p);
      calc {
        KeepChars(a + b, p);
        h + KeepChars(a[1..] + b, p);
        h + (KeepChars(a[1..], p) + KeepChars(b, p));
        (h + KeepChars(a[1..], p)) + KeepChars(b, p);
      }
    }
  }

  /** Keeping the characters that all satisfy p keeps the whole string. */
  lemma {:induction false} KeepCharsAll(s: string, p: char -> bool)
    requires AllChars(s, p)
    ensures KeepChars(s, p) == s
  {
    if s != [] {
      KeepCharsAll(s[1..], p);
      assert [s[0]] + s[1..] == s;
    }
  }

  lemma {:induction false} ConcatAppend(xs: seq<string>, ys: seq<string>)
    ensures Concat(xs + ys) == Concat(xs) + Concat(ys)
  {
    if xs == [] {
      assert xs + ys == ys;
    } else {
      assert (xs + ys)[0] == xs[0];
      assert (xs + ys)[1..] == xs[1..] + ys;
      ConcatAppend(xs[1..], ys);
      calc {
        Concat(xs + ys);
        xs[0] + Concat(xs[1..] + ys);
        xs[0] + (Concat(xs[1..]) + Concat(ys));
        (xs[0] + Concat(xs[1..])) + Concat(ys);
      }
    }
  }

  /** Scanning a run of p-characters only extends the current run. */
  lemma {:induction false} RunsFromRun(w: string, rest: string, p: char -> bool, cur: string)
    requires AllChars(cur, p) && AllChars(w, p)
    ensures RunsFrom(w + rest, p, cur) == RunsFrom(rest, p, cur + w)
  {
    if w == [] {
      assert w + rest == rest;
      assert cur + w == cur;
    } else {
      assert (w + rest)[0] == w[0];
      assert (w + rest)[1..] == w[1..] + rest;
      assert cur + [w[0]] + w[1..] == cur + w;
      RunsFromRun(w[1..], rest, p, cur + [w[0]]);
    }
  }

  /** Scanning characters outside p ends the current run and starts none. */
  lemma {:induction false} RunsFromGap(g: string, p: char -> bool, cur: string)
    requires AllChars(cur, p) && NoChars(g, p)
    ensures RunsFrom(g, p, cur) == Flush(cur)
  {
    if g != [] {
      RunsFromGap(g[1..], p, "");
    }
  }

  // ---- properties of Runs ----

  /** Splitting a string just after a character outside p splits its runs. */
  lemma {:induction false} RunsFromAppend(a: string, b: string, p: char -> bool, cur: string)
    requires AllChars(cur, p)
    requires a != [] && !p(a[|a| - 1])
    ensures RunsFrom(a + b, p, cur) == RunsFrom(a, p, cur) + Runs(b, p)
  {
    assert (a + b)[0] == a[0];
    assert (a + b)[1..] == a[1..] + b;
    if |a| == 1 {
      assert a[1..] + b == b;
    } else if p(a[0]) {
      RunsFromAppend(a[1..], b, p, cur + [a[0]]);
    } else {
      RunsFromAppend(a[1..], b, p, "");
      calc {
        RunsFrom(a + b, p, cur);
        Flush(cur) + RunsFrom(a[1..] + b, p, "");
        Flush(cur) + (RunsFrom(a[1..], p, "") + Runs(b, p));
        (Flush(cur) + RunsFrom(a[1..], p, "")) + Runs(b, p);
      }
    }
  }

  lemma RunsAppend(a: string, b: string, p: char -> bool)
    requires a == [] || !p(a[|a| - 1])
    ensures Runs(a + b, p) == Runs(a, p) + Runs(b, p)
  {
    if a == [] {
      assert a + b == b;
    } else {
      RunsFromAppend(a, b, p, "");
    }
  }

  /** Characters outside p at the end of a string add no runs. */
  lemma {:induction false} RunsFromTrailingGap(a: string, x: string, p: char -> bool, cur: string)
    requires AllChars(cur, p) && NoChars(x, p)
    ensures RunsFrom(a + x, p, cur) == RunsFrom(a, p, cur)
  {
    if a == [] {
      assert a + x == x;
      RunsFromGap(x, p, cur);
    } else {
      assert (a + x)[0] == a[0];
      assert (a + x)[1..] == a[1..] + x;
      if p(a[0]) {
        RunsFromTrailingGap(a[1..], x, p, cur + [a[0]]);
      } else {
        RunsFromTrailingGap(a[1..], x, p, "");
      }
    }
  }

  lemma RunsTrailingGap(a: string, x: string, p: char -> bool)
    requires NoChars(x, p)
    ensures Runs(a + x, p) == Runs(a, p)
  {
    RunsFromTrailingGap(a, x, p, "");
  }

  lemma {:induction false} RunsFromConcat(s: string, p: char -> bool, cur: string)
    requires AllChars(cur, p)
    ensures Concat(RunsFrom(s, p, cur)) == cur + KeepChars(s, p)
  {
    if s == [] {
      assert cur + "" == cur;
    } else if p(s[0]) {
      RunsFromConcat(s[1..], p, cur + [s[0]]);
      assert cur + [s[0]] + KeepChars(s[1..], p) == cur + ([s[0]] + KeepChars(s[1..], p));
    } else {
      RunsFromConcat(s[1..], p, "");
      ConcatAppend(Flush(cur), RunsFrom(s[1..], p, ""));
      assert "" + KeepChars(s[1..], p) == KeepChars(s[1..], p);
    }
  }

  /** The runs, concatenated, are exactly the p-characters of s. */
  lemma RunsConcat(s: string, p: char -> bool)
    ensures Concat(Runs(s, p)) == KeepChars(s, p)
  {
    RunsFromConcat(s, p, "");
    assert "" + KeepChars(s, p) == KeepChars(s, p);
  }

  lemma {:induction false} RunsFromCount(s: string, p: char -> bool, cur: string)
    requires AllChars(cur, p)
    ensures |RunsFrom(s, p, cur)| == RunStarts(s, p, cur != []) + (if cur != [] then 1 else 0)
  {
    if s != [] {
      if p(s[0]) {
        RunsFromCount(s[1..], p, cur + [s[0]]);
      } else {
        RunsFromCount(s[1..], p, "");
      }
    }
  }

  /** The number of runs is the number of positions where a run starts. */
  lemma RunsCount(s: string, p: char -> bool)
    ensures |Runs(s, p)| == RunStarts(s, p, false)
  {
    RunsFromCount(s, p, "");
  }

  /** Characters that all satisfy q stay so in the runs taken from them. */
  lemma {:induction false} RunsFromChars(s: string, p: char -> bool, q: char -> bool, cur: string)
    requires AllChars(cur, p) && AllChars(cur, q) && AllChars(s, q)
    ensures forall k :: 0 <= k < |RunsFrom(s, p, cur)| ==> AllChars(RunsFrom(s, p, cur)[k], q)
  {
    if s != [] {
      if p(s[0]) {
        RunsFromChars(s[1..], p, q, cur + [s[0]]);
      } else {
        RunsFromChars(s[1..], p, q, "");
      }
    }
  }

  lemma RunsChars(s: string, p: char -> bool, q: char -> bool)
    requires AllChars(s, q)
    ensures forall k :: 0 <= k < |Runs(s, p)| ==> AllChars(Runs(s, p)[k], q)
  {
    RunsFromChars(s, p, q, "");
  }

  // ---- Split and Join ----

  lemma SplitToken(t: string)
    requires IsToken(t)
    ensures Split(t) == [t]
  {
    RunsFromRun(t, "", IsNonSpace, "");
    assert t + "" == t;
    assert "" + t == t;
  }

  /** `split` undoes `' '.join` on a list of tokens. */
  lemma {:induction false} SplitJoin(ts: seq<string>)
    requires AllTokens(ts)
    ensures Split(Join(ts)) == ts
  {
    if |ts| == 1 {
      SplitToken(ts[0]);
    } else if |ts| > 1 {
      var t := ts[0];
      SplitToken(t);
      RunsTrailingGap(t, " ", IsNonSpace);
      RunsAppend(t + " ", Join(ts[1..]), IsNonSpace);
      SplitJoin(ts[1..]);
    }
  }

  /** `' '.join(s.split())` is a fixed point of itself. */
  lemma JoinSplitIdempotent(s: string)
    ensures Join(Split(Join(Split(s)))) == Join(Split(s))
  {
    SplitJoin(Split(s));
  }

  /** Whitespace between two parts separates their tokens, however long it is. */
  lemma SplitAtWhitespace(a: string, ws: string, b: string)
    requires ws != [] && forall i :: 0 <= i < |ws| ==> IsSpace(ws[i])
    ensures Split(a + ws + b) == Split(a) + Split(b)
  {
    RunsAppend(a + ws, b, IsNonSpace);
    RunsTrailingGap(a, ws, IsNonSpace);
  }

  /** Leading whitespace does not change the tokens. */
  lemma SplitLeadingWhitespace(ws: string, s: string)
    requires forall i :: 0 <= i < |ws| ==> IsSpace(ws[i])
    ensures Split(ws + s) == Split(s)
  {
    RunsEmpty(ws, IsNonSpace);
    RunsAppend(ws, s, IsNonSpace);
  }

  /** Trailing whitespace does not change the tokens. */
  lemma SplitTrailingWhitespace(s: string, ws: string)
    requires forall i :: 0 <= i < |ws| ==> IsSpace(ws[i])
    ensures Split(s + ws) == Split(s)
  {
    RunsTrailingGap(s, ws, IsNonSpace);
  }

  /** The tokens, concatenated, are the non-whitespace characters of s. */
  lemma SplitConcat(s: string)
    ensures Concat(Split(s)) == KeepChars(s, IsNonSpace)
  {
    RunsConcat(s, IsNonSpace);
  }

  /** Non-empty tokens have at least one character each. */
  lemma {:induction false} ConcatOfTokens(ts: seq<string>)
    requires AllTokens(ts)
    ensures |Concat(ts)| >= |ts|
  {
    if ts != [] {
      ConcatOfTokens(ts[1..]);
    }
  }

  /** The comprehension filter distributes over concatenation: it keeps order. */
  lemma {:induction false} FilterAppend(a: seq<string>, b: seq<string>, keep: string -> bool)
    ensures Filter(a + b, keep) == Filter(a, keep) + Filter(b, keep)
  {
    if a == [] {
      assert a + b == b;
    } else {
      assert (a + b)[0] == a[0] && (a + b)[1..] == a[1..] + b;
      FilterAppend(a[1..], b, keep);
      var h := if keep(a[0]) then [a[0]] else [];
      assert Filter(a + b, keep) == h + Filter(a[1..] + b, keep);
      assert h + (Filter(a[1..], keep) + Filter(b, keep)) == (h + Filter(a[1..], keep)) + Filter(b, keep);
    }
  }

  /** Filtering twice by the same condition is filtering once. */
  lemma {:induction false} FilterIdempotent(ts: seq<string>, keep: string -> bool)
    ensures Filter(Filter(ts, keep), keep) == Filter(ts, keep)
  {
    if ts != [] {
      var rest := Filter(ts[1..], keep);
      FilterIdempotent(ts[1..], keep);
      if keep(ts[0]) {
        var f := [ts[0]] + rest;
        assert Filter(ts, keep) == f;
        assert f[0] == ts[0] && f[1..] == rest;
        assert Filter(f, keep) == [ts[0]] + Filter(rest, keep);
      } else {
        assert Filter(ts, keep) == rest;
      }
    }
  }

  /** A string with one space between non-empty, whitespace-free tokens. */
  predicate SingleSpaced(s: string) {
    && (s == [] || (s[0] != ' ' && s[|s| - 1] != ' '))
    && (forall i :: 0 <= i < |s| - 1 && s[i] == ' ' ==> s[i + 1] != ' ')
    && (forall i :: 0 <= i < |s| && IsSpace(s[i]) ==> s[i] == ' ')
  }

  /** A token, a space and a single-spaced text that starts with a
      non-space character form a single-spaced text. */
  lemma SingleSpacedCons(t: string, j: string)
    requires IsToken(t) && SingleSpaced(j) && j != [] && j[0] != ' '
    ensures SingleSpaced(t + " " + j)
  {
    var s := t + " " + j;
    assert forall i :: 0 <= i < |t| ==> s[i] == t[i];
    assert s[|t|] == ' ';
    assert forall i :: |t| < i < |s| ==> s[i] == j[i - |t| - 1];
    assert s[|s| - 1] == j[|j| - 1];
    forall i | 0 <= i < |s| - 1 && s[i] == ' '
      ensures s[i + 1] != ' '
    {
      if i > |t| {
        assert j[i - |t| - 1] == ' ';
      }
    }
    forall i | 0 <= i < |s| && IsSpace(s[i])
      ensures s[i] == ' '
    {
      if i > |t| {
        assert IsSpace(j[i - |t| - 1]);
      }
    }
  }

  /** `' '.join` of tokens is single-spaced, and its other characters are
      those of the tokens. */
  lemma {:induction false} JoinSingleSpaced(ts: seq<string>, q: char -> bool)
    requires AllTokens(ts)
    requires forall k :: 0 <= k < |ts| ==> AllChars(ts[k], q)
    ensures SingleSpaced(Join(ts))
    ensures forall i :: 0 <= i < |Join(ts)| ==> Join(ts)[i] == ' ' || q(Join(ts)[i])
    ensures ts != [] ==> Join(ts)[0] == ts[0][0]
  {
    if |ts| == 1 {
      assert IsNonSpace(ts[0][0]) && IsNonSpace(ts[0][|ts[0]| - 1]);
    } else if |ts| > 1 {
      var t := ts[0];
      var j := Join(ts[1..]);
      JoinSingleSpaced(ts[1..], q);
      var s := Join(ts);
      assert s == t + " " + j;
      assert j[0] == ts[1][0];
      assert IsNonSpace(ts[1][0]);
      SingleSpacedCons(t, j);
      forall i | 0 <= i < |s|
        ensures s[i] == ' ' || q(s[i])
      {
        if i < |t| {
          assert s[i] == t[i];
        } else if i > |t| {
          assert s[i] == j[i - |t| - 1];
        }
      }
    }
  }
}
