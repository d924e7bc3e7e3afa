/** Python string operations used across the pipeline, restricted to ASCII:
    whitespace is ' ', tab, newline, carriage return, vertical tab, form feed
    and the four separators `\x1c`-`\x1f`, as `str.isspace` has it;
    a word character is an ASCII letter, digit or underscore. */
module Strings {

  datatype Option<T> = None | Some(value: T)

  predicate IsSpace(c: char) {
    c == ' ' || c == '\t' || c == '\n' || c == '\r' || c == '\U{000B}' || c == '\U{000C}'
    || '\U{001C}' <= c <= '\U{001F}'
  }

  /** `not s.strip()`: the string holds whitespace only. */
  predicate IsBlank(s: string) {
    forall i :: 0 <= i < |s| ==> IsSpace(s[i])
  }

  predicate IsDigit(c: char) { '0' <= c <= '9' }

  /** The `\w` class of `re`, on ASCII. */
  predicate IsWordChar(c: char) {
    ('a' <= c <= 'z') || ('A' <= c <= 'Z') || IsDigit(c) || c == '_'
  }

  predicate IsWord(s: string) {
    forall i :: 0 <= i < |s| ==> IsWordChar(s[i])
  }

  predicate StartsWith(s: string, p: string) {
    |p| <= |s| && s[..|p|] == p
  }

  predicate EndsWith(s: string, p: string) {
    |p| <= |s| && s[|s| - |p|..] == p
  }

  predicate IsSuffix(r: string, s: string) {
    |r| <= |s| && s[|s| - |r|..] == r
  }

  /** `sub` occurs in `s` at index `j`. */
  predicate At(s: string, j: nat, sub: string) {
    j + |sub| <= |s| && s[j..j + |sub|] == sub
  }

  /** `sub in s`. */
  predicate Contains(s: string, sub: string) {
    exists j :: 0 <= j <= |s| && At(s, j, sub)
  }

  /** `str.lstrip()`. */
  function LStrip(s: string): (r: string)
    ensures IsSuffix(r, s)
    ensures r == "" || !IsSpace(r[0])
    ensures IsBlank(s[..|s| - |r|])
  {
    if s != [] && IsSpace(s[0]) then LStrip(s[1..]) else s
  }

  /** `str.rstrip()`. */
  function RStrip(s: string): (r: string)
    ensures |r| <= |s| && s[..|r|] == r
    ensures r == "" || !IsSpace(r[|r| - 1])
    ensures IsBlank(s[|r|..])
  {
    if s != [] && IsSpace(s[|s| - 1]) then RStrip(s[..|s| - 1]) else s
  }

  /** `str.strip()`. */
  function Strip(s: string): string {
    LStrip(RStrip(s))
  }

  /** `str.rstrip()` removes a blank string entirely. */
  lemma {:induction false} RStripBlank(s: string)
    requires IsBlank(s)
    ensures RStrip(s) == ""
    decreases |s|
  {
    if s != [] {
      assert IsSpace(s[|s| - 1]);
      RStripBlank(s[..|s| - 1]);
    }
  }

  /** `not s.strip()` and `s.strip() == ""` agree. */
  lemma {:induction false} StripEmpty(s: string)
    ensures Strip(s) == "" <==> IsBlank(s)
  {
    var r := RStrip(s);
    if IsBlank(s) {
      RStripBlank(s);
    }
    if Strip(s) == "" {
      assert r[..|r|] == r;
      assert IsBlank(r);
      assert r == "";
      assert s[|r|..] == s;
    }
  }

  /** `str.lstrip(chars)`. */
  function LStripChars(s: string, chars: set<char>): (r: string)
    ensures IsSuffix(r, s)
    ensures r == "" || r[0] !in chars
    ensures forall i :: 0 <= i < |s| - |r| ==> s[i] in chars
  {
    if s != [] && s[0] in chars then LStripChars(s[1..], chars) else s
  }

  /** `str.rstrip(chars)`. */
  function RStripChars(s: string, chars: set<char>): (r: string)
    ensures |r| <= |s| && s[..|r|] == r
    ensures r == "" || r[|r| - 1] !in chars
    ensures forall i :: |r| <= i < |s| ==> s[i] in chars
  {
    if s != [] && s[|s| - 1] in chars then RStripChars(s[..|s| - 1], chars) else s
  }

  /** `str.strip(chars)`. */
  function StripChars(s: string, chars: set<char>): string {
    LStripChars(RStripChars(s, chars), chars)
  }

  /** `sep.join(parts)`. */
  function Join(sep: string, parts: seq<string>): string {
    if |parts| == 0 then ""
    else if |parts| == 1 then parts[0]
    else parts[0] + sep + Join(sep, parts[1..])
  }

  /** `str.splitlines()`, with '\n' as the only line boundary: no empty
      string after a final line break, and no line at all for "". */
  function SplitLines(s: string): (r: seq<string>)
    decreases |s|
  {
    if s == "" then []
    else
      var i := IndexOf(s, '\n');
      if i == |s| then [s]
      else [s[..i]] + SplitLines(s[i + 1..])
  }

  /** The index of the first `c` in `s`, or `|s|`. */
  function IndexOf(s: string, c: char): (i: nat)
    ensures i <= |s|
    ensures forall j :: 0 <= j < i ==> s[j] != c
    ensures i < |s| ==> s[i] == c
  {
    if s == "" then 0
    else if s[0] == c then 0
    else 1 + IndexOf(s[1..], c)
  }

  /** Length of the leading run of characters of `s` that belong to `cs`
      (what a greedy `[...]*` at the start of a pattern consumes). */
  function Span(s: string, cs: set<char>): (n: nat)
    ensures n <= |s|
  {
    if s != "" && s[0] in cs then 1 + Span(s[1..], cs) else 0
  }

  /** `Span` is the longest prefix drawn from `cs`. */
  lemma {:induction false} SpanIsRun(s: string, cs: set<char>)
    ensures forall k :: 0 <= k < Span(s, cs) ==> s[k] in cs
    ensures Span(s, cs) < |s| ==> s[Span(s, cs)] !in cs
    decreases |s|
  {
    if s != "" && s[0] in cs {
      SpanIsRun(s[1..], cs);
    }
  }

  /** A prefix of length `n` drawn from `cs` and not followed by a member of
      `cs` is the span. */
  lemma {:induction false} SpanIs(s: string, cs: set<char>, n: nat)
    requires n <= |s| && (forall k :: 0 <= k < n ==> s[k] in cs) && (n < |s| ==> s[n] !in cs)
    ensures Span(s, cs) == n
  {
    SpanIsRun(s, cs);
  }

  /** `str.split()` with no separator: the maximal runs of non-whitespace. */
  function Words(s: string): (r: seq<string>)
    decreases |s|
  {
    var t := LStrip(s);
    if t == "" then []
    else
      var n := WordLength(t);
      [t[..n]] + Words(t[n..])
  }

  /** Length of the leading run of non-whitespace characters. */
  function WordLength(s: string): (n: nat)
    ensures n <= |s|
    ensures forall j :: 0 <= j < n ==> !IsSpace(s[j])
    ensures n < |s| ==> IsSpace(s[n])
  {
    if s == "" || IsSpace(s[0]) then 0 else 1 + WordLength(s[1..])
  }

  /** `s.lower()` on ASCII letters. */
  function Lower(s: string): (r: string)
    ensures |r| == |s|
  {
    if s == "" then ""
    else [LowerChar(s[0])] + Lower(s[1..])
  }

  function LowerChar(c: char): char {
    if 'A' <= c <= 'Z' then (c as int - 'A' as int + 'a' as int) as char else c
  }

  function Repeat(c: char, n: nat): (r: string)
    ensures |r| == n
    ensures forall i :: 0 <= i < n ==> r[i] == c
  {
    if n == 0 then "" else [c] + Repeat(c, n - 1)
  }

  function Spaces(n: nat): string {
    Repeat(' ', n)
  }

  function DigitChar(d: nat): char
    requires d < 10
  {
    ('0' as int + d) as char
  }

  /** `str(n)` for a natural number. */
  function NatToString(n: nat): (r: string)
    ensures |r| >= 1
    ensures forall i :: 0 <= i < |r| ==> IsDigit(r[i])
  {
    if n < 10 then [DigitChar(n)] else NatToString(n / 10) + [DigitChar(n % 10)]
  }

  function DigitValue(c: char): nat
    requires IsDigit(c)
  {
    c as int - '0' as int
  }

  /** `int(s)` for a non-empty string of ASCII digits. */
  function DigitsValue(s: string): nat
    requires IsWord(s) && forall i :: 0 <= i < |s| ==> IsDigit(s[i])
  {
    if s == "" then 0 else DigitsValue(s[..|s| - 1]) * 10 + DigitValue(s[|s| - 1])
  }

  /** Decimal notation is unambiguous. */
  lemma {:induction false} NatToStringInjective(a: nat, b: nat)
    requires NatToString(a) == NatToString(b)
    ensures a == b
  {
    if a >= 10 && b >= 10 {
      var sa, sb := NatToString(a), NatToString(b);
      assert sa[..|sa| - 1] == NatToString(a / 10);
      assert sb[..|sb| - 1] == NatToString(b / 10);
      NatToStringInjective(a / 10, b / 10);
      assert DigitChar(a % 10) == DigitChar(b % 10);
    }
  }

  /** Reading back the decimal notation gives the number. */
  lemma {:induction false} DigitsValueOfNatToString(n: nat)
    ensures IsWord(NatToString(n)) && DigitsValue(NatToString(n)) == n
  {
    var s := NatToString(n);
    assert IsWord(s) by {
      forall i | 0 <= i < |s| ensures IsWordChar(s[i]) { }
    }
    if n >= 10 {
      DigitsValueOfNatToString(n / 10);
      assert s[..|s| - 1] == NatToString(n / 10);
    }
  }

  lemma {:induction false} JoinAppend(sep: string, xs: seq<string>, x: string)
    ensures Join(sep, xs + [x]) == if xs == [] then x else Join(sep, xs) + sep + x
  {
    if |xs| == 0 {
      assert xs + [x] == [x];
    } else if |xs| == 1 {
      assert xs + [x] == [xs[0], x];
    } else {
      assert (xs + [x])[1..] == xs[1..] + [x];
      JoinAppend(sep, xs[1..], x);
    }
  }

  /** A line break separator never splits a line that has none. */
  lemma {:induction false} SplitLinesJoin(lines: seq<string>)
    requires forall i :: 0 <= i < |lines| ==> '\n' !in lines[i]
    requires |lines| > 0 ==> lines[|lines| - 1] != ""
    ensures SplitLines(Join("\n", lines)) == lines
  {
    if |lines| == 0 {
    } else if |lines| == 1 {
      var s := lines[0];
      assert IndexOf(s, '\n') == |s|;
    } else {
      var s := Join("\n", lines);
      var l := lines[0];
      assert s == l + "\n" + Join("\n", lines[1..]);
      assert IndexOf(s, '\n') == |l| by {
        assert forall j :: 0 <= j < |l| ==> s[j] == l[j];
        assert s[|l|] == '\n';
      }
      assert s[|l| + 1..] == Join("\n", lines[1..]);
      SplitLinesJoin(lines[1..]);
      assert s[..|l|] == l;
    }
  }

  /** `"\n".join(s.splitlines())` gives `s` back when `s` does not end in a
      line break, and then the last line is not empty. */
  lemma {:induction false} JoinSplitLines(s: string)
    requires s != "" && s[|s| - 1] != '\n'
    ensures |SplitLines(s)| > 0 && Join("\n", SplitLines(s)) == s
    ensures SplitLines(s)[|SplitLines(s)| - 1] != ""
    decreases |s|
  {
    var i := IndexOf(s, '\n');
    if i < |s| {
      var rest := s[i + 1..];
      assert rest[|rest| - 1] == s[|s| - 1];
      JoinSplitLines(rest);
      JoinCons("\n", s[..i], SplitLines(rest));
      AroundIndex(s, i);
    }
  }

  /** Joining a list that has a first element and more after it. */
  lemma {:induction false} JoinCons(sep: string, x: string, xs: seq<string>)
    requires xs != []
    ensures Join(sep, [x] + xs) == x + sep + Join(sep, xs)
  {
    assert ([x] + xs)[1..] == xs;
  }

  /** A string is what comes before index `i`, the character there, and
      what comes after. */
  lemma {:induction false} AroundIndex(s: string, i: nat)
    requires i < |s|
    ensures s == s[..i] + [s[i]] + s[i + 1..]
  {
  }

  /** No line of `s.splitlines()` holds a line break. */
  lemma {:induction false} SplitLinesHaveNoBreak(s: string)
    ensures forall i :: 0 <= i < |SplitLines(s)| ==> '\n' !in SplitLines(s)[i]
    decreases |s|
  {
    var i := IndexOf(s, '\n');
    var lines := SplitLines(s);
    if s != "" && i < |s| {
      var head := s[..i];
      var tail := SplitLines(s[i + 1..]);
      SplitLinesHaveNoBreak(s[i + 1..]);
      assert lines == [head] + tail;
      assert '\n' !in head;
      forall k | 0 <= k < |lines|
        ensures '\n' !in lines[k]
      {
        if k > 0 {
          assert lines[k] == tail[k - 1];
        }
      }
    }
  }

  /** `s.splitlines()` keeps a last line that ends without a line break:
      appending one more line break changes nothing. */
  lemma {:induction false} SplitLinesTrailingBreak(s: string)
    requires s != "" && s[|s| - 1] != '\n'
    ensures SplitLines(s + "\n") == SplitLines(s)
    decreases |s|
  {
    var t := s + "\n";
    var i := IndexOf(s, '\n');
    assert forall j :: 0 <= j < |s| ==> t[j] == s[j];
    assert t[|s|] == '\n';
    if i == |s| {
      assert IndexOf(t, '\n') == |s|;
      assert t[|s| + 1..] == "";
      assert t[..|s|] == s;
    } else {
      assert IndexOf(t, '\n') == i;
      var rest := s[i + 1..];
      assert rest != "" && rest[|rest| - 1] == s[|s| - 1];
      SplitLinesTrailingBreak(rest);
      AppendSlices(s, "\n", i);
    }
  }

  /** Concatenation is associative. */
  lemma {:induction false} AppendAssoc<T>(a: seq<T>, b: seq<T>, c: seq<T>)
    ensures (a + b) + c == a + (b + c)
  {
    assert |(a + b) + c| == |a + (b + c)|;
    forall k | 0 <= k < |a| + |b| + |c|
      ensures ((a + b) + c)[k] == (a + (b + c))[k]
    {
    }
  }

  /** A non-empty sequence is its front and its last element. */
  lemma {:induction false} InitLast<T>(s: seq<T>)
    requires |s| > 0
    ensures s[..|s| - 1] + [s[|s| - 1]] == s
  {
  }

  /** A non-empty prefix is the prefix before it and its last element. */
  lemma {:induction false} TakeLast<T>(s: seq<T>, i: nat)
    requires 0 < i <= |s|
    ensures s[..i] == s[..i - 1] + [s[i - 1]]
  {
  }

  /** A prefix grows by the next element. */
  lemma {:induction false} TakeNext<T>(s: seq<T>, i: nat)
    requires i < |s|
    ensures s[..i + 1] == s[..i] + [s[i]] && s[..i + 1][..i] == s[..i]
  {
  }

  /** A slice that runs to the end is a suffix. */
  lemma {:induction false} SliceToEnd<T>(s: seq<T>, i: nat)
    requires i <= |s|
    ensures s[i..|s|] == s[i..]
  {
  }

  /** Dropping the element just appended. */
  lemma {:induction false} AppendInit<T>(s: seq<T>, x: T)
    ensures (s + [x])[..|s|] == s
  {
  }

  /** Appending nothing. */
  lemma {:induction false} AppendEmpty<T>(s: seq<T>)
    ensures s + [] == s
  {
  }

  /** Appending to nothing. */
  lemma {:induction false} EmptyAppend<T>(s: seq<T>)
    ensures [] + s == s
  {
  }

  /** The prefix of everything is everything. */
  lemma {:induction false} TakeAll<T>(s: seq<T>)
    ensures s[..|s|] == s
  {
  }

  /** A suffix grows by what is appended. */
  lemma {:induction false} DropAppend<T>(s: seq<T>, x: T, d: nat)
    requires d <= |s|
    ensures (s + [x])[d..] == s[d..] + [x]
  {
  }

  /** Slicing `a + b` at an index inside `a`. */
  lemma {:induction false} AppendSlices(a: string, b: string, i: nat)
    requires i < |a|
    ensures (a + b)[..i] == a[..i] && (a + b)[i + 1..] == a[i + 1..] + b
  {
    assert a + b == a[..i + 1] + (a[i + 1..] + b);
  }

  /** `s.find(sub)`, with `|s|` standing for -1: the first index where
      `sub` occurs. */
  function Find(s: string, sub: string): (i: nat)
    requires sub != ""
    ensures i <= |s|
    ensures i < |s| ==> i + |sub| <= |s| && At(s, i, sub)
    ensures forall j :: 0 <= j < i ==> !At(s, j, sub)
  {
    FindFrom(s, sub, 0)
  }

  function FindFrom(s: string, sub: string, k: nat): (i: nat)
    requires sub != "" && k <= |s|
    ensures k <= i <= |s|
    ensures i < |s| ==> At(s, i, sub)
    ensures forall j :: k <= j < i ==> !At(s, j, sub)
    decreases |s| - k
  {
    if k + |sub| > |s| then |s|
    else if At(s, k, sub) then k
    else FindFrom(s, sub, k + 1)
  }

  /** `sub in s` exactly when `Find` finds it. */
  lemma {:induction false} ContainsFind(s: string, sub: string)
    requires sub != ""
    ensures Contains(s, sub) <==> Find(s, sub) < |s|
  {
    if Find(s, sub) < |s| {
      assert At(s, Find(s, sub), sub);
    }
  }
}
