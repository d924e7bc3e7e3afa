/** `extract_snippet`, in its four identical copies (`md2nb/convert.py`,
    `read/github_sample.py`, `read/github_samples.py` and `docs_nbgen.py`):
    the lines strictly between the first `[START tag]` line and the next
    `[END tag]` line, with their common indentation removed. */
module Snippets {
  import opened Strings

  /** Number of leading whitespace characters: `len(line) - len(line.lstrip())`. */
  function Indent(line: string): (n: nat)
    ensures n <= |line|
  {
    |line| - |LStrip(line)|
  }

  /** Length of the run of whitespace starting at index `i`. */
  function SpacesFrom(line: string, i: nat): nat
    decreases |line| - i
  {
    if i < |line| && IsSpace(line[i]) then 1 + SpacesFrom(line, i + 1) else 0
  }

  /** The literal `lit` occurs in `line` at index `k`, compared character by character. */
  predicate LiteralAt(line: string, k: nat, lit: string)
    decreases |lit|
  {
    lit == "" || (k < |line| && line[k] == lit[0] && LiteralAt(line, k + 1, lit[1..]))
  }

  /** `tag_start_re` / `tag_end_re` matching at index `j`: `[`, optional
      whitespace, the keyword, at least one whitespace character, the tag,
      optional whitespace, `]`. The tag is a word, so every whitespace run
      is taken whole, as the regular expression's backtracking would. */
  predicate MarkerAt(line: string, j: nat, keyword: string, tag: string) {
    j < |line| && line[j] == '['
    && var k1 := j + 1 + SpacesFrom(line, j + 1);
    LiteralAt(line, k1, keyword)
    && var k2 := k1 + |keyword|;
    var n := SpacesFrom(line, k2);
    n >= 1 && LiteralAt(line, k2 + n, tag)
    && var k4 := k2 + n + |tag|;
    var k5 := k4 + SpacesFrom(line, k4);
    k5 < |line| && line[k5] == ']'
  }

  /** `re.search` of the marker at index `j` or later. */
  predicate MarkerFrom(line: string, j: nat, keyword: string, tag: string)
    decreases |line| - j
  {
    j < |line| && (MarkerAt(line, j, keyword, tag) || MarkerFrom(line, j + 1, keyword, tag))
  }

  predicate IsStart(line: string, tag: string) { MarkerFrom(line, 0, "START", tag) }
  predicate IsEnd(line: string, tag: string) { MarkerFrom(line, 0, "END", tag) }

  /** `min(indent, min_indent)`, with `None` standing for infinity. */
  function MinOpt(m: Option<nat>, k: nat): nat {
    if m.Some? && m.value < k then m.value else k
  }

  /** The least indentation once `line` is seen too: blank lines do not count. */
  function Widen(m: Option<nat>, line: string): Option<nat> {
    if IsBlank(line) then m else Some(MinOpt(m, Indent(line)))
  }

  /** A line with what the two regular expressions say about it. */
  datatype Line = Line(text: string, start: bool, end: bool)

  function Mark(line: string, tag: string): Line {
    Line(line, IsStart(line, tag), IsEnd(line, tag))
  }

  function Marked(lines: seq<string>, tag: string): (r: seq<Line>)
    ensures |r| == |lines|
  {
    seq(|lines|, i requires 0 <= i < |lines| => Mark(lines[i], tag))
  }

  function Texts(ls: seq<Line>): (r: seq<string>)
    ensures |r| == |ls|
  {
    seq(|ls|, i requires 0 <= i < |ls| => ls[i].text)
  }

  /** The loop's variables; `stopped` records the `break`. */
  datatype Scan = Scan(started: bool, stopped: bool, minIndent: Option<nat>, snippet: seq<string>)

  function Step(st: Scan, l: Line): Scan {
    if st.stopped then st
    else if !st.started && l.start then st.(started := true)
    else if st.started then
      if l.end then st.(stopped := true)
      else st.(snippet := st.snippet + [l.text], minIndent := Widen(st.minIndent, l.text))
    else st
  }

  function Run(ls: seq<Line>): Scan {
    if |ls| == 0 then Scan(false, false, None, [])
    else Step(Run(ls[..|ls| - 1]), ls[|ls| - 1])
  }

  /** `line[k:]`, which is empty when `k` is past the end. */
  function DropPrefix(line: string, k: nat): string {
    if k <= |line| then line[k..] else ""
  }

  /** Every line loses its first `m` characters, if there is an `m`. */
  function Dedent(snippet: seq<string>, m: Option<nat>): (r: seq<string>)
    ensures |r| == |snippet|
  {
    if m.None? then snippet
    else seq(|snippet|, i requires 0 <= i < |snippet| => DropPrefix(snippet[i], m.value))
  }

  /** The dedented lines of the snippet. */
  function SnippetLines(source: string, tag: string): seq<string> {
    var st := Run(Marked(SplitLines(source), tag));
    Dedent(st.snippet, st.minIndent)
  }

  /** What `extract_snippet(source, tag)` returns. */
  function Snippet(source: string, tag: string): string {
    Join("\n", SnippetLines(source, tag))
  }

  lemma {:induction false} RunAppend(ls: seq<Line>, l: Line)
    ensures Run(ls + [l]) == Step(Run(ls), l)
  {
    assert (ls + [l])[..|ls|] == ls;
  }

  lemma {:induction false} StoppedStays(ls: seq<Line>, i: nat)
    requires i <= |ls| && Run(ls[..i]).stopped
    ensures Run(ls) == Run(ls[..i])
    decreases |ls| - i
  {
    if i < |ls| {
      RunAppend(ls[..i], ls[i]);
      TakeNext(ls, i);
      StoppedStays(ls, i + 1);
    } else {
      assert ls[..i] == ls;
    }
  }

  /** `extract_snippet`, with its `break`, proved to return `Snippet`. The
      tag is spliced into a regular expression, so it is taken to be a word. */
  method ExtractSnippet(source: string, tag: string) returns (r: string)
    requires IsWord(tag)
    ensures r == Snippet(source, tag)
  {
    var lines := SplitLines(source);
    ghost var ls := Marked(lines, tag);
    var started := false;
    var minIndent: Option<nat> := None;
    var snippet: seq<string> := [];
    var i := 0;
    while i < |lines|
      invariant 0 <= i <= |lines|
      invariant Run(ls[..i]) == Scan(started, false, minIndent, snippet)
    {
      var line := lines[i];
      RunAppend(ls[..i], ls[i]);
      TakeNext(ls, i);
      if !started && IsStart(line, tag) {
        started := true;
      } else if started {
        if IsEnd(line, tag) {
          StoppedStays(ls, i + 1);
          break;
        }
        snippet := snippet + [line];
        if !IsBlank(line) {
          var indent := |line| - |LStrip(line)|;
          minIndent := Some(MinOpt(minIndent, indent));
        }
      }
      i := i + 1;
    }
    if i == |lines| {
      assert ls[..i] == ls;
    }
    if minIndent.Some? {
      snippet := seq(|snippet|, j requires 0 <= j < |snippet| => DropPrefix(snippet[j], minIndent.value));
    }
    r := Join("\n", snippet);
  }

  // ---------------------------------------------------------------------
  // Which lines are taken.

  /** Index of the first START line at or after `i`, or `|ls|`. */
  function StartFrom(ls: seq<Line>, i: nat): (s: nat)
    requires i <= |ls|
    ensures i <= s <= |ls|
    decreases |ls| - i
  {
    if i == |ls| then i else if ls[i].start then i else StartFrom(ls, i + 1)
  }

  /** Index of the first START line, or `|ls|`. */
  function FirstStart(ls: seq<Line>): (s: nat)
    ensures s <= |ls|
  {
    StartFrom(ls, 0)
  }

  /** Index of the first END line at or after `i`, or `|ls|`. */
  function FirstEnd(ls: seq<Line>, i: nat): (e: nat)
    requires i <= |ls|
    ensures i <= e <= |ls|
    decreases |ls| - i
  {
    if i == |ls| then i else if ls[i].end then i else FirstEnd(ls, i + 1)
  }

  /** `StartFrom` is the first START line at or after `i`. */
  lemma {:induction false} StartFromIsFirst(ls: seq<Line>, i: nat)
    requires i <= |ls|
    ensures forall j :: i <= j < StartFrom(ls, i) ==> !ls[j].start
    ensures StartFrom(ls, i) < |ls| ==> ls[StartFrom(ls, i)].start
    decreases |ls| - i
  {
    if i < |ls| && !ls[i].start {
      StartFromIsFirst(ls, i + 1);
    }
  }

  /** `FirstStart` is the first START line. */
  lemma {:induction false} FirstStartIsFirst(ls: seq<Line>)
    ensures forall j :: 0 <= j < FirstStart(ls) ==> !ls[j].start
    ensures FirstStart(ls) < |ls| ==> ls[FirstStart(ls)].start
  {
    StartFromIsFirst(ls, 0);
  }

  /** `FirstEnd` is the first END line at or after `i`. */
  lemma {:induction false} FirstEndIsFirst(ls: seq<Line>, i: nat)
    requires i <= |ls|
    ensures forall j :: i <= j < FirstEnd(ls, i) ==> !ls[j].end
    ensures FirstEnd(ls, i) < |ls| ==> ls[FirstEnd(ls, i)].end
    decreases |ls| - i
  {
    if i < |ls| && !ls[i].end {
      FirstEndIsFirst(ls, i + 1);
    }
  }

  /** The least indentation among the lines that are not blank. */
  function MinIndent(lines: seq<string>): Option<nat> {
    if |lines| == 0 then None
    else Widen(MinIndent(lines[..|lines| - 1]), lines[|lines| - 1])
  }

  /** `MinIndent` is the least indentation of a non-blank line, and there
      is none exactly when every line is blank. */
  lemma {:induction false} MinIndentIsLeast(lines: seq<string>)
    ensures MinIndent(lines).None? <==> forall j :: 0 <= j < |lines| ==> IsBlank(lines[j])
    ensures MinIndent(lines).Some? ==>
      forall j :: 0 <= j < |lines| && !IsBlank(lines[j]) ==> MinIndent(lines).value <= Indent(lines[j])
    ensures MinIndent(lines).Some? ==>
      exists j :: 0 <= j < |lines| && !IsBlank(lines[j]) && MinIndent(lines).value == Indent(lines[j])
  {
    if |lines| > 0 {
      var init := lines[..|lines| - 1];
      MinIndentIsLeast(init);
      assert forall j :: 0 <= j < |init| ==> init[j] == lines[j];
      var m := MinIndent(init);
      if !IsBlank(lines[|lines| - 1]) && m.Some? && m.value < Indent(lines[|lines| - 1]) {
        var j :| 0 <= j < |init| && !IsBlank(init[j]) && m.value == Indent(init[j]);
        assert lines[j] == init[j];
      }
    }
  }

  lemma {:induction false} TextsAppend(ls: seq<Line>, l: Line)
    ensures Texts(ls + [l]) == Texts(ls) + [l.text]
  {
  }

  lemma {:induction false} MinIndentAppend(lines: seq<string>, line: string)
    ensures MinIndent(lines + [line]) == Widen(MinIndent(lines), line)
  {
    assert (lines + [line])[..|lines|] == lines;
  }

  /** Before any START line nothing is taken. */
  lemma {:induction false} RunBeforeStart(ls: seq<Line>)
    requires forall j :: 0 <= j < |ls| ==> !ls[j].start
    ensures Run(ls) == Scan(false, false, None, [])
  {
    if |ls| > 0 {
      RunBeforeStart(ls[..|ls| - 1]);
    }
  }

  /** After the first START line `s`, while no END line has come, every
      line after `s` is taken. */
  lemma {:induction false} RunOpen(ls: seq<Line>, s: nat)
    requires s < |ls| && ls[s].start
    requires forall j :: 0 <= j < s ==> !ls[j].start
    requires forall j :: s < j < |ls| ==> !ls[j].end
    ensures var region := Texts(ls[s + 1..]);
            Run(ls) == Scan(true, false, MinIndent(region), region)
  {
    var init := ls[..|ls| - 1];
    var last := ls[|ls| - 1];
    if |ls| == s + 1 {
      RunBeforeStart(init);
      assert ls[s + 1..] == [];
    } else {
      RunOpen(init, s);
      assert ls[s + 1..] == init[s + 1..] + [last];
      TextsAppend(init[s + 1..], last);
      MinIndentAppend(Texts(init[s + 1..]), last.text);
    }
  }

  /** Once the END line `e` after the START line `s` is seen, the lines
      strictly between them are the snippet, and nothing later counts. */
  lemma {:induction false} RunClosed(ls: seq<Line>, s: nat, e: nat)
    requires s < e < |ls| && ls[s].start && ls[e].end
    requires forall j :: 0 <= j < s ==> !ls[j].start
    requires forall j :: s < j < e ==> !ls[j].end
    ensures var region := Texts(ls[s + 1..e]);
            Run(ls) == Scan(true, true, MinIndent(region), region)
  {
    var init := ls[..|ls| - 1];
    if |ls| == e + 1 {
      RunOpen(init, s);
      assert init[s + 1..] == ls[s + 1..e];
    } else {
      RunClosed(init, s, e);
      assert init[s + 1..e] == ls[s + 1..e];
    }
  }

  /** Without a `[START tag]` line the snippet is empty. */
  lemma {:induction false} NoStartIsEmpty(source: string, tag: string)
    requires forall j :: 0 <= j < |SplitLines(source)| ==> !IsStart(SplitLines(source)[j], tag)
    ensures Snippet(source, tag) == ""
  {
    var ls := Marked(SplitLines(source), tag);
    RunBeforeStart(ls);
  }

  /** `Run` on marked lines that hold a START line: the region between the
      first START line and the first END line after it. */
  lemma {:induction false} RunIsRegion(ls: seq<Line>)
    requires FirstStart(ls) < |ls|
    ensures var s := FirstStart(ls);
            var e := FirstEnd(ls, s + 1);
            var region := Texts(ls[s + 1..e]);
            Run(ls) == Scan(true, e < |ls|, MinIndent(region), region)
  {
    FirstStartIsFirst(ls);
    var s := FirstStart(ls);
    FirstEndIsFirst(ls, s + 1);
    var e := FirstEnd(ls, s + 1);
    if e < |ls| {
      RunClosed(ls, s, e);
    } else {
      RunOpenToEnd(ls, s);
    }
  }

  /** `RunOpen` with the region written as a slice ending at `|ls|`. */
  lemma {:induction false} RunOpenToEnd(ls: seq<Line>, s: nat)
    requires s < |ls| && ls[s].start
    requires forall j :: 0 <= j < s ==> !ls[j].start
    requires forall j :: s < j < |ls| ==> !ls[j].end
    ensures var region := Texts(ls[s + 1..|ls|]);
            Run(ls) == Scan(true, false, MinIndent(region), region)
  {
    RunOpen(ls, s);
    SliceToEnd(ls, s + 1);
  }

  /** The lines of `source` taken are exactly those strictly between the
      first START line `s` and the first END line `e` after it, or the end
      of input when no END line follows; their least indentation is what
      is removed. */
  lemma {:induction false} SnippetIsRegion(lines: seq<string>, tag: string, s: nat, e: nat)
    requires s < |lines| && IsStart(lines[s], tag)
    requires forall j :: 0 <= j < s ==> !IsStart(lines[j], tag)
    requires s < e <= |lines| && (e < |lines| ==> IsEnd(lines[e], tag))
    requires forall j :: s < j < e ==> !IsEnd(lines[j], tag)
    ensures Run(Marked(lines, tag)) == Scan(true, e < |lines|, MinIndent(lines[s + 1..e]), lines[s + 1..e])
  {
    var ls := Marked(lines, tag);
    assert ls[s].start;
    if e < |lines| {
      assert ls[e].end;
      RunClosed(ls, s, e);
    } else {
      RunOpenToEnd(ls, s);
    }
    TextsMarked(lines, tag, s + 1, e);
  }

  /** The texts of a slice of the marked lines are the slice of the lines. */
  lemma {:induction false} TextsMarked(lines: seq<string>, tag: string, a: nat, b: nat)
    requires a <= b <= |lines|
    ensures Texts(Marked(lines, tag)[a..b]) == lines[a..b]
  {
  }

  // ---------------------------------------------------------------------
  // What dedenting does.

  lemma {:induction false} DropPrefixShape(line: string, k: nat)
    requires IsBlank(line) || k <= Indent(line)
    ensures IsSuffix(DropPrefix(line, k), line)
    ensures IsBlank(line[..|line| - |DropPrefix(line, k)|])
    ensures !IsBlank(line) ==> Indent(DropPrefix(line, k)) == Indent(line) - k
  {
    var r := DropPrefix(line, k);
    if k <= |line| {
      assert r == line[k..];
      assert |line| - |r| == k;
      if !IsBlank(line) {
        var n := Indent(line);
        assert IsBlank(line[..n]);
        forall i | 0 <= i < k ensures IsSpace(line[..k][i]) {
          assert line[..k][i] == line[..n][i];
        }
        LStripSkip(line, k);
      }
    } else {
      assert line[..|line| - |r|] == line;
    }
  }

  /** Removing `k` leading whitespace characters leaves `lstrip` unchanged. */
  lemma {:induction false} LStripSkip(line: string, k: nat)
    requires k <= Indent(line)
    ensures LStrip(line[k..]) == LStrip(line)
    decreases k
  {
    if k > 0 {
      assert IsSpace(line[0]) by {
        assert line[..Indent(line)][0] == line[0];
      }
      assert line[k..] == line[1..][k - 1..];
      assert Indent(line[1..]) == Indent(line) - 1;
      LStripSkip(line[1..], k - 1);
    }
  }

  /** Dedenting by the least indentation removes only leading whitespace. */
  lemma {:induction false} DedentStripsWhitespace(snippet: seq<string>)
    ensures var r := Dedent(snippet, MinIndent(snippet));
      forall i :: 0 <= i < |snippet| ==> IsSuffix(r[i], snippet[i]) && IsBlank(snippet[i][..|snippet[i]| - |r[i]|])
  {
    var m := MinIndent(snippet);
    var r := Dedent(snippet, m);
    MinIndentIsLeast(snippet);
    forall i | 0 <= i < |snippet|
      ensures IsSuffix(r[i], snippet[i]) && IsBlank(snippet[i][..|snippet[i]| - |r[i]|])
    {
      DedentLine(snippet, m, i);
    }
  }

  /** Dedenting one line by at most its indentation removes only leading
      whitespace. */
  lemma {:induction false} DedentLine(snippet: seq<string>, m: Option<nat>, i: nat)
    requires i < |snippet|
    requires m.Some? ==> IsBlank(snippet[i]) || m.value <= Indent(snippet[i])
    ensures var r := Dedent(snippet, m)[i];
            IsSuffix(r, snippet[i]) && IsBlank(snippet[i][..|snippet[i]| - |r|])
  {
    var line := snippet[i];
    if m.Some? {
      assert Dedent(snippet, m)[i] == DropPrefix(line, m.value);
      DropPrefixShape(line, m.value);
    } else {
      assert line[|line| - |line|..] == line;
      assert line[..0] == "";
    }
  }

  /** Dedenting keeps the relative indentation of the non-blank lines, and
      some non-blank line ends up with no indentation at all. */
  lemma {:induction false} DedentKeepsRelativeIndent(snippet: seq<string>)
    requires MinIndent(snippet).Some?
    ensures var m := MinIndent(snippet).value;
            var r := Dedent(snippet, MinIndent(snippet));
      (forall i :: 0 <= i < |snippet| && !IsBlank(snippet[i]) ==> Indent(r[i]) == Indent(snippet[i]) - m)
      && (exists i :: 0 <= i < |snippet| && !IsBlank(snippet[i]) && Indent(r[i]) == 0)
  {
    var m := MinIndent(snippet).value;
    var r := Dedent(snippet, MinIndent(snippet));
    MinIndentIsLeast(snippet);
    forall i | 0 <= i < |snippet| && !IsBlank(snippet[i])
      ensures Indent(r[i]) == Indent(snippet[i]) - m
    {
      DropPrefixShape(snippet[i], m);
    }
    var j :| 0 <= j < |snippet| && !IsBlank(snippet[j]) && m == Indent(snippet[j]);
    assert Indent(r[j]) == 0;
  }
}
