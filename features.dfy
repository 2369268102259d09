/** Per-string measurements: word, character, stop-word, hashtag, mention,
    digit-run and upper-case counts, and the average word length. Each count
    of tokens is the length of a filtered list of `split()` tokens. */
module Features {
  import opened Chars
  import opened Tokens

  /** `len([t for t in ts if p(t)])`. */
  function CountWhere(ts: seq<string>, p: string -> bool): (n: nat)
    ensures n <= |ts|
    ensures n == 0 <==> forall k :: 0 <= k < |ts| ==> !p(ts[k])
    ensures n == |ts| <==> forall k :: 0 <= k < |ts| ==> p(ts[k])
  {
    var r := Filter(ts, p);
    assert r == [] <==> forall k :: 0 <= k < |ts| ==> !p(ts[k]) by {
      if r != [] {
        assert r[0] in r;
      }
    }
    |r|
  }

  /** `len(x.split())`: the number of positions where a non-whitespace
      character starts the string or follows whitespace. */
  function WordCount(x: string): (n: nat)
    ensures n == RunStarts(x, IsNonSpace, false)
  {
    RunsCount(x, IsNonSpace);
    |Split(x)|
  }

  /** `len(''.join(x.split()))`: the number of non-whitespace characters. */
  function CharCount(x: string): (n: nat)
    ensures n == |KeepChars(x, IsNonSpace)|
    ensures n >= WordCount(x)
  {
    SplitConcat(x);
    ConcatOfTokens(Split(x));
    |Concat(Split(x))|
  }

  /** Python's `/` on two counts: a quotient, or a ZeroDivisionError. */
  datatype Quotient = Ratio(value: real) | ZeroDivisionError

  /** Python's true division `c / w` of two counts. */
  function Divide(c: nat, w: nat): (r: Quotient)
    ensures r.ZeroDivisionError? <==> w == 0
    ensures r.Ratio? ==> r.value * w as real == c as real
    ensures r.Ratio? && c >= w ==> r.value >= 1.0
  {
    if w == 0 then ZeroDivisionError
    else
      var v := c as real / w as real;
      assert v * w as real == c as real;
      assert c >= w ==> v >= 1.0;
      Ratio(v)
  }

  /** `_get_charcounts(x) / _get_wordcounts(x)`, computed as an exact ratio. */
  function AverageWordLength(x: string): (r: Quotient)
    ensures r.ZeroDivisionError? <==> WordCount(x) == 0
    ensures r.Ratio? ==> r.value * WordCount(x) as real == CharCount(x) as real
    ensures r.Ratio? ==> r.value >= 1.0
  {
    Divide(CharCount(x), WordCount(x))
  }

  /** The stop-word test, with the stop-word set as a parameter. */
  predicate IsStopword(t: string, stopwords: set<string>) {
    t in stopwords
  }

  /** `len([t for t in x.split() if t in stopwords])`. */
  function StopwordCount(x: string, stopwords: set<string>): (n: nat)
    ensures n <= WordCount(x)
    ensures n == 0 <==> forall t :: t in Split(x) ==> t !in stopwords
    ensures n == WordCount(x) <==> forall t :: t in Split(x) ==> t in stopwords
  {
    CountWhere(Split(x), t => IsStopword(t, stopwords))
  }

  /** Python's `t.startswith(c)` for a one-character prefix. */
  predicate StartsWith(t: string, c: char) {
    |t| > 0 && t[0] == c
  }

  /** `len([t for t in x.split() if t.startswith('#')])`. */
  function HashtagCount(x: string): (n: nat)
    ensures n <= WordCount(x)
    ensures n == 0 <==> forall t :: t in Split(x) ==> !StartsWith(t, '#')
    ensures n == WordCount(x) <==> forall t :: t in Split(x) ==> StartsWith(t, '#')
  {
    CountWhere(Split(x), t => StartsWith(t, '#'))
  }

  /** `len([t for t in x.split() if t.startswith('@')])`. */
  function MentionCount(x: string): (n: nat)
    ensures n <= WordCount(x)
    ensures n == 0 <==> forall t :: t in Split(x) ==> !StartsWith(t, '@')
    ensures n == WordCount(x) <==> forall t :: t in Split(x) ==> StartsWith(t, '@')
  {
    CountWhere(Split(x), t => StartsWith(t, '@'))
  }

  /** `len([t for t in x.split() if t.isupper()])`. */
  function UppercaseCount(x: string): (n: nat)
    ensures n <= WordCount(x)
    ensures n == 0 <==> forall t :: t in Split(x) ==> !IsUpperText(t)
    ensures n == WordCount(x) <==> forall t :: t in Split(x) ==> IsUpperText(t)
  {
    CountWhere(Split(x), IsUpperText)
  }

  /** `re.findall(r'[0-9,.]+', x)`: the maximal runs of digits, commas and
      periods, left to right. */
  function DigitRuns(x: string): (ms: seq<string>)
    ensures forall k :: 0 <= k < |ms| ==> IsRun(ms[k], IsDigitClass)
    ensures Concat(ms) == KeepChars(x, IsDigitClass)
  {
    RunsConcat(x, IsDigitClass);
    Runs(x, IsDigitClass)
  }

  /** `len(re.findall(r'[0-9,.]+', x))`: the number of positions where a
      character of the class starts the string or follows one outside it. */
  function DigitCount(x: string): (n: nat)
    ensures n == RunStarts(x, IsDigitClass, false)
    ensures n == 0 <==> NoChars(x, IsDigitClass)
  {
    RunsCount(x, IsDigitClass);
    RunsEmpty(x, IsDigitClass);
    |DigitRuns(x)|
  }

  // ---- whitespace insensitivity ----

  /** Extra whitespace between, before or after the words changes neither
      the word count nor the character count. */
  lemma WordCountSpacing(a: string, ws: string, b: string)
    requires ws != [] && forall i :: 0 <= i < |ws| ==> IsSpace(ws[i])
    ensures WordCount(a + ws + b) == WordCount(a + " " + b) == WordCount(a) + WordCount(b)
    ensures CharCount(a + ws + b) == CharCount(a + " " + b) == CharCount(a) + CharCount(b)
  {
    SplitAtWhitespace(a, ws, b);
    SplitAtWhitespace(a, " ", b);
    SplitConcat(a + ws + b);
    SplitConcat(a + " " + b);
    ConcatAppend(Split(a), Split(b));
    SplitConcat(a);
    SplitConcat(b);
  }

  lemma WordCountOuterSpacing(ws: string, x: string, ws': string)
    requires forall i :: 0 <= i < |ws| ==> IsSpace(ws[i])
    requires forall i :: 0 <= i < |ws'| ==> IsSpace(ws'[i])
    ensures WordCount(ws + x + ws') == WordCount(x)
    ensures CharCount(ws + x + ws') == CharCount(x)
  {
    SplitTrailingWhitespace(ws + x, ws');
    SplitLeadingWhitespace(ws, x);
    SplitConcat(ws + x + ws');
    SplitConcat(x);
  }

  /** Each token-predicate count lies between 0 and the word count, and the
      counts of complementary predicates add up to the word count. */
  lemma {:induction false} CountWhereComplement(ts: seq<string>, p: string -> bool)
    ensures CountWhere(ts, p) + CountWhere(ts, t => !p(t)) == |ts|
  {
    if ts != [] {
      CountWhereComplement(ts[1..], p);
      assert Filter(ts, p) == (if p(ts[0]) then [ts[0]] else []) + Filter(ts[1..], p);
      assert Filter(ts, t => !p(t)) == (if !p(ts[0]) then [ts[0]] else []) + Filter(ts[1..], t => !p(t));
    }
  }

  /** Counting the words of space-joined tokens gives back the number of
      tokens and their total length. */
  lemma JoinCounts(ts: seq<string>)
    requires AllTokens(ts)
    ensures WordCount(Join(ts)) == |ts|
    ensures CharCount(Join(ts)) == |Concat(ts)|
    ensures HashtagCount(Join(ts)) == CountWhere(ts, t => StartsWith(t, '#'))
  {
    SplitJoin(ts);
    SplitConcat(Join(ts));
  }

  /** A lone digit, comma or period is one run: `re.findall` finds it. */
  lemma DigitCountSingle(c: char)
    requires IsDigitClass(c)
    ensures DigitCount([c]) == 1
  {
    assert [c][1..] == [];
    assert RunStarts([c], IsDigitClass, false) == 1 + RunStarts([], IsDigitClass, true);
  }

  lemma WordIsToken(t: string)
    requires t == "hello" || t == "world" || t == "foo"
    ensures IsToken(t)
  {
  }

  lemma HelloWorldTokens()
    ensures AllTokens(["hello", "world", "foo"])
    ensures Join(["hello", "world", "foo"]) == "hello world foo"
  {
    WordIsToken("hello");
    WordIsToken("world");
    WordIsToken("foo");
  }

  lemma WordCountExample(x: string)
    requires x == "hello world foo"
    ensures WordCount(x) == 3
  {
    HelloWorldTokens();
    JoinCounts(["hello", "world", "foo"]);
  }
}
