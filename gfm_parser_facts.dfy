/** Properties of the block parser of `document/parser/parser.py`: how
    `_line_contents` strips indentation, which lines open and close a code
    fence, and what the fenced and indented code blocks hold. */
module GfmParserFacts {
  import opened Strings
  import BlockQuote
  import opened GfmParser

  /** A line without tabs and without `>` is left alone by the tab and the
      block-quote rewrites. */
  lemma {:induction false} PlainLineRewrites(line: string)
    requires '\t' !in line && '>' !in line
    ensures ExpandTab(line) == line && CollapseQuote(line) == line
  {
    assert forall j :: 0 <= j < |line| ==> line[j] != '\t' && line[j] != '>';
  }

  /** Inside `n` columns of indentation, a line without tabs and without
      `>` loses exactly those `n` spaces; a line of spaces only is inside
      any such indentation and keeps nothing; any other line is not
      inside it. */
  /** One step of `Shift` on a plain line against a space indentation: a
      leading space is consumed, anything else is a mismatch. */
  lemma {:induction false} ShiftSpace(line: string, n: nat, column: nat)
    requires '\t' !in line && '>' !in line && line != "" && n > 0
    ensures Shift(line, Spaces(n), column)
            == if line[0] == ' ' then Some((line[1..], column + 1)) else None
  {
    PlainLineRewrites(line);
    assert Spaces(n)[0] == ' ';
  }

  /** Dropping one leading space from a line and from the indentation. */
  lemma {:induction false} ConsSpace(line: string, n: nat)
    requires line != "" && line[0] == ' ' && n > 0
    ensures StartsWith(line, Spaces(n)) <==> StartsWith(line[1..], Spaces(n - 1))
    ensures line == Spaces(|line|) <==> line[1..] == Spaces(|line| - 1)
    ensures StartsWith(line, Spaces(n)) ==> line[n..] == line[1..][n - 1..]
  {
    var rest := line[1..];
    assert line == [' '] + rest;
    assert Spaces(n) == [' '] + Spaces(n - 1);
    assert Spaces(|line|) == [' '] + Spaces(|rest|);
    if n <= |line| {
      assert line[..n] == [' '] + rest[..n - 1];
    }
  }

  lemma {:induction false} SpaceIndents(line: string, n: nat, column: nat)
    requires '\t' !in line && '>' !in line
    ensures Contents(line, Spaces(n), column) == SpaceContents(line, n)
    decreases n
  {
    if n == 0 {
      assert Spaces(0) == "" && line[0..] == line;
    } else if line == "" {
      SpaceContentsEmpty(n, column);
    } else if line[0] == ' ' {
      SpaceStep(line, n, column);
      SpaceIndents(line[1..], n - 1, column + 1);
      SpaceContentsStep(line, n);
    } else {
      ShiftSpace(line, n, column);
      SpaceContentsMismatch(line, n);
    }
  }

  /** What `_line_contents` leaves of a plain line inside `n` columns of
      indentation. */
  function SpaceContents(line: string, n: nat): Option<string> {
    if StartsWith(line, Spaces(n)) then Some(line[n..])
    else if line == Spaces(|line|) then Some("")
    else None
  }

  /** An empty line is blank, so it is inside any indentation. */
  lemma {:induction false} SpaceContentsEmpty(n: nat, column: nat)
    requires n > 0
    ensures Contents("", Spaces(n), column) == SpaceContents("", n) == Some("")
  {
    assert Spaces(n)[0] == ' ';
    assert IsBlank(Spaces(n));
  }

  /** A line that starts with neither a space nor the end is not inside. */
  lemma {:induction false} SpaceContentsMismatch(line: string, n: nat)
    requires line != "" && line[0] != ' ' && n > 0
    ensures SpaceContents(line, n) == None
  {
    assert Spaces(n)[0] == ' ' && Spaces(|line|)[0] == ' ';
  }

  /** Dropping one leading space from a line and from the indentation. */
  lemma {:induction false} SpaceContentsStep(line: string, n: nat)
    requires line != "" && line[0] == ' ' && n > 0
    ensures SpaceContents(line, n) == SpaceContents(line[1..], n - 1)
  {
    ConsSpace(line, n);
  }

  /** A leading space uses up one column of indentation. */
  lemma {:induction false} SpaceStep(line: string, n: nat, column: nat)
    requires '\t' !in line && '>' !in line && line != "" && line[0] == ' ' && n > 0
    ensures Contents(line, Spaces(n), column) == Contents(line[1..], Spaces(n - 1), column + 1)
    ensures '\t' !in line[1..] && '>' !in line[1..]
  {
    ShiftSpace(line, n, column);
    assert Spaces(n)[1..] == Spaces(n - 1);
    assert forall c :: c in line[1..] ==> c in line;
  }

  /** `m` spaces and then `rest` start with `j <= m` spaces, and what
      follows them is the other `m - j` spaces and `rest`. */
  lemma {:induction false} SpacesPrefix(m: nat, rest: string, j: nat)
    requires j <= m
    ensures StartsWith(Spaces(m) + rest, Spaces(j))
    ensures (Spaces(m) + rest)[j..] == Spaces(m - j) + rest
  {
    var line := Spaces(m) + rest;
    assert line[..j] == Spaces(j);
    assert line[j..] == Spaces(m - j) + rest by {
      assert Spaces(m)[j..] == Spaces(m - j);
    }
  }

  /** The tab after `k <= 3` spaces becomes the spaces up to column four. */
  lemma {:induction false} TabExpands(k: nat, rest: string)
    requires k <= 3
    ensures ExpandTab(Spaces(k) + "\t" + rest) == Spaces(4) + rest
  {
    var line := Spaces(k) + "\t" + rest;
    assert line[k] == '\t';
    assert forall j :: 0 <= j < k ==> line[j] == ' ';
    SpanIs(line, {' ', '>'}, k);
    assert line[..k] == Spaces(k);
    assert line[k + 1..] == rest;
    assert Spaces(k) + Spaces(4 - k) == Spaces(4);
  }

  /** A tab after at most three spaces reaches the next tab stop: inside
      `n <= 4` columns of indentation it leaves `4 - n` spaces. */
  lemma {:induction false} TabIndent(k: nat, rest: string, n: nat)
    requires k <= 3 && 1 <= n <= 4 && '\t' !in rest && '>' !in rest
    ensures Contents(Spaces(k) + "\t" + rest, Spaces(n), 0) == Some(Spaces(4 - n) + rest)
  {
    var line := Spaces(k) + "\t" + rest;
    var tail := Spaces(3) + rest;
    TabShift(k, rest, n);
    assert Spaces(n)[1..] == Spaces(n - 1);
    assert Contents(line, Spaces(n), 0) == Contents(tail, Spaces(n - 1), 1);
    NoMarks(3, rest);
    SpaceIndents(tail, n - 1, 1);
    SpacesPrefix(3, rest, n - 1);
  }

  /** The first step of `_line_contents` on a tab after `k <= 3` spaces:
      the tab is expanded and one of the four spaces is consumed. */
  lemma {:induction false} TabShift(k: nat, rest: string, n: nat)
    requires k <= 3 && 1 <= n && '\t' !in rest && '>' !in rest
    ensures Shift(Spaces(k) + "\t" + rest, Spaces(n), 0) == Some((Spaces(3) + rest, 1))
  {
    var expanded := Spaces(4) + rest;
    TabExpands(k, rest);
    NoMarks(4, rest);
    PlainLineRewrites(expanded);
    assert Spaces(n)[0] == ' ' && expanded[0] == ' ';
    SpacesPrefix(4, rest, 1);
  }

  /** Spaces before a plain line keep it plain. */
  lemma {:induction false} NoMarks(m: nat, rest: string)
    requires '\t' !in rest && '>' !in rest
    ensures '\t' !in Spaces(m) + rest && '>' !in Spaces(m) + rest
  {
    var line := Spaces(m) + rest;
    forall j | 0 <= j < |line| ensures line[j] != '\t' && line[j] != '>' {
      if j >= m {
        assert line[j] == rest[j - m];
      }
    }
  }

  /** Inside one block quote, a line without tabs continues it exactly when
      `BlockQuote.matches` holds, and its contents are then what
      `BlockQuote.strip_delimiters` leaves: the marker, the spaces before
      it and one space after it go. */
  lemma {:induction false} QuoteIndent(line: string, column: nat)
    requires '\t' !in line
    ensures Contents(line, ">", column)
            == if BlockQuote.Matches(line) then Some(BlockQuote.StripDelimiters(line)) else None
  {
    if line != "" {
      assert forall j :: 0 <= j < |line| ==> line[j] != '\t';
      assert ExpandTab(line) == line;
      match BlockQuote.MarkerIndex(line)
      case None =>
        assert line[0] != '>';
        assert Shift(line, ">", column) == None;
      case Some(j) =>
        var rest := line[j + 1..];
        assert CollapseQuote(line) == ">" + rest;
        assert (">" + rest)[1..] == rest;
        if rest != "" && rest[0] == ' ' {
          assert Shift(line, ">", column) == Some((rest[1..], (column + 2) as nat));
          assert BlockQuote.DelimiterEnd(line) == Some(j + 2);
          assert line[j + 2..] == rest[1..];
        } else {
          assert Shift(line, ">", column) == Some((rest, (column + 1) as nat));
          assert BlockQuote.DelimiterEnd(line) == Some(j + 1);
        }
    } else {
      assert !IsSpace(">"[0]);
    }
  }

  // Fences.

  /** The run of `n` copies of `c` after `s` spaces: the spaces end where
      the run starts, and the run ends where `tail` starts when `tail`
      does not continue it. */
  lemma {:induction false} RunSpans(s: nat, c: char, n: nat, tail: string)
    requires c != ' ' && n > 0 && (tail == "" || tail[0] != c)
    ensures var line := Spaces(s) + Repeat(c, n) + tail;
            Span(line, {' '}) == s && line[s] == c && line[s..] == Repeat(c, n) + tail
            && Span(line[s..], {c}) == n
  {
    var run := Repeat(c, n) + tail;
    var line := Spaces(s) + run;
    assert Spaces(s) + Repeat(c, n) + tail == line;
    assert |Spaces(s)| == s;
    assert line[s..] == run;
    assert line[s] == c;
    assert forall k :: 0 <= k < s ==> line[k] == ' ';
    SpanIs(line, {' '}, s);
    assert forall k :: 0 <= k < n ==> run[k] == c;
    SpanIs(run, {c}, n);
  }

  /** The shape `_code_block_open_re` accepts: at most three spaces, at
      least three backticks or tildes, and an info string that does not
      continue the run and, after backticks, holds no backtick. */
  predicate OpensFence(s: nat, c: char, n: nat, info: string) {
    s <= 3 && c in {'`', '~'} && n >= 3 && (info == "" || info[0] != c) && (c == '`' ==> '`' !in info)
  }

  /** A line of that shape opens a fence with that run and info string. */
  lemma {:induction false} OpenFenceOf(s: nat, c: char, n: nat, info: string)
    requires OpensFence(s, c, n, info)
    ensures OpenFence(Spaces(s) + Repeat(c, n) + info) == Some(Fence(Repeat(c, n), info))
  {
    var line := Spaces(s) + Repeat(c, n) + info;
    RunSpans(s, c, n, info);
    assert line[s..s + n] == Repeat(c, n);
    assert line[s + n..] == info;
  }

  /** Every opening fence has that shape. */
  lemma {:induction false} OpenFenceShape(line: string)
    requires OpenFence(line).Some?
    ensures var f := OpenFence(line).value;
            |f.delim| >= 3 && f.delim == Repeat(f.delim[0], |f.delim|)
            && OpensFence(0, f.delim[0], |f.delim|, f.info)
            && exists s :: 0 <= s <= 3 && line == Spaces(s) + f.delim + f.info
  {
    var s := Span(line, {' '});
    var c := line[s];
    var n := Span(line[s..], {c});
    var f := OpenFence(line).value;
    SpanIsRun(line, {' '});
    SpanIsRun(line[s..], {c});
    assert line[..s] == Spaces(s);
    assert f.delim == Repeat(c, n);
    assert line == Spaces(s) + f.delim + f.info;
  }

  /** A line of at most three spaces, a run of at least three backticks or
      tildes and then whitespace only closes the fence `delim` exactly when
      the run begins with `delim`. */
  lemma {:induction false} CloseFenceOf(s: nat, c: char, n: nat, tail: string, delim: string)
    requires s <= 3 && c in {'`', '~'} && n >= 3 && IsBlank(tail)
    ensures CloseFence(Spaces(s) + Repeat(c, n) + tail, delim) == StartsWith(Repeat(c, n), delim)
  {
    var line := Spaces(s) + Repeat(c, n) + tail;
    if tail != "" {
      assert IsSpace(tail[0]);
    }
    RunSpans(s, c, n, tail);
    assert line[s..s + n] == Repeat(c, n);
    assert line[s + n..] == tail;
  }

  /** Every closing fence has that shape. */
  lemma {:induction false} CloseFenceShape(line: string, delim: string)
    requires CloseFence(line, delim)
    ensures exists s: nat, n: nat :: s <= 3 && n >= 3 && s + n <= |line| && line[s] in {'`', '~'}
              && line == Spaces(s) + Repeat(line[s], n) + line[s + n..]
              && IsBlank(line[s + n..]) && StartsWith(Repeat(line[s], n), delim)
  {
    var s := Span(line, {' '});
    var c := line[s];
    var n := Span(line[s..], {c});
    SpanIsRun(line, {' '});
    SpanIsRun(line[s..], {c});
    assert line[..s] == Spaces(s);
    assert line[s..s + n] == Repeat(c, n);
    assert line == Spaces(s) + Repeat(c, n) + line[s + n..];
  }

  /** A run of backticks or tildes begins with another exactly when it is
      of the same character and at least as long. */
  lemma {:induction false} RunStartsWith(c: char, n: nat, d: char, m: nat)
    requires m > 0
    ensures StartsWith(Repeat(c, n), Repeat(d, m)) <==> c == d && m <= n
  {
    if StartsWith(Repeat(c, n), Repeat(d, m)) {
      assert Repeat(c, n)[0] == Repeat(d, m)[0];
    }
    if c == d && m <= n {
      assert Repeat(c, n)[..m] == Repeat(d, m);
    }
  }

  /** `LStrip` drops exactly a blank prefix in front of a non-blank start. */
  lemma {:induction false} LStripBlankPrefix(pre: string, t: string)
    requires IsBlank(pre) && (t == "" || !IsSpace(t[0]))
    ensures LStrip(pre + t) == t
    decreases |pre|
  {
    if pre == "" {
      assert pre + t == t;
    } else {
      assert (pre + t)[1..] == pre[1..] + t;
      LStripBlankPrefix(pre[1..], t);
    }
  }

  /** The language is the first word of the info string, whatever
      whitespace surrounds it. */
  lemma {:induction false} LanguageOf(pre: string, word: string, rest: string)
    requires IsBlank(pre) && word != "" && (forall k :: 0 <= k < |word| ==> !IsSpace(word[k]))
    requires rest == "" || IsSpace(rest[0])
    ensures Language(pre + word + rest) == word
  {
    var t := word + rest;
    assert pre + word + rest == pre + t;
    LStripBlankPrefix(pre, t);
    var n := WordLength(t);
    assert n == |word| by {
      assert forall k :: 0 <= k < |word| ==> t[k] == word[k];
      if |word| < |t| {
        assert t[|word|] == rest[0];
      }
    }
    assert t[..n] == word;
  }

  /** A blank info string gives no language. */
  lemma {:induction false} LanguageOfBlank(info: string)
    requires IsBlank(info)
    ensures Language(info) == ""
  {
    LStripBlankPrefix(info, "");
    assert info + "" == info;
  }

  // Code blocks.

  /** Outside any container, the contents of a line are the line itself. */
  lemma {:induction false} LineAtTop(input: seq<string>, row: nat)
    requires row >= 1
    ensures LineAt(input, row, "") == Get(input, row - 1)
  {
  }

  /** A fenced block at the top level keeps every line up to the closing
      fence verbatim — blank, indented and whitespace-only lines too — and
      without a closing fence runs to the end of the input. Here `close` is
      the index of the closing line, or `|input|` when there is none. */
  lemma {:induction false} FencedVerbatim(input: seq<string>, row: nat, delim: string, lines: seq<string>, close: nat)
    requires 1 <= row && row - 1 <= close <= |input|
    requires forall k :: row - 1 <= k < close ==> !CloseFence(input[k], delim)
    requires close < |input| ==> CloseFence(input[close], delim)
    ensures FencedLoop(input, row, "", delim, lines, LineAt(input, row, "")) == (lines + input[row - 1..close], close + 1)
    decreases close - (row - 1)
  {
    LineAtTop(input, row);
    if row - 1 == close {
      assert lines + input[row - 1..close] == lines;
      assert FencedLoop(input, row, "", delim, lines, Get(input, row - 1)) == (lines, row);
    } else {
      LineAtTop(input, row + 1);
      FencedVerbatim(input, row + 1, delim, lines + [input[row - 1]], close);
      assert lines + [input[row - 1]] + input[row..close] == lines + input[row - 1..close];
    }
  }

  /** A fence opened on `row` (1-based) yields the lines after it up to the
      closing fence, with the language of its info string, and the parser
      stops on the closing line (or past the end). */
  lemma {:induction false} FencedBlock(input: seq<string>, row: nat, first: string, close: nat)
    requires 1 <= row <= close <= |input| && OpenFence(first).Some?
    requires forall k :: row <= k < close ==> !CloseFence(input[k], OpenFence(first).value.delim)
    requires close < |input| ==> CloseFence(input[close], OpenFence(first).value.delim)
    ensures FencedSpec(input, row, "", first)
            == (Some(CodeBlock(Join("\n", input[row..close]), Language(OpenFence(first).value.info))), close + 1)
  {
    FencedVerbatim(input, row + 1, OpenFence(first).value.delim, [], close);
    assert [] + input[row..close] == input[row..close];
  }

  /** A line inside `n` columns of space indentation: it starts with them,
      or it holds spaces only. */
  predicate Inside(line: string, n: nat) {
    StartsWith(line, Spaces(n)) || line == Spaces(|line|)
  }

  /** The contents of such a line. */
  function Dedent(line: string, n: nat): string {
    if StartsWith(line, Spaces(n)) then line[n..] else ""
  }

  /** `Dedent` of each line. */
  function Dedents(lines: seq<string>, n: nat): (r: seq<string>)
    ensures |r| == |lines|
  {
    if lines == [] then [] else [Dedent(lines[0], n)] + Dedents(lines[1..], n)
  }

  /** No line holds a tab or a `>`. */
  predicate Plain(input: seq<string>) {
    forall k :: 0 <= k < |input| ==> '\t' !in input[k] && '>' !in input[k]
  }

  /** The contents of a plain line inside `n` columns of spaces. */
  lemma {:induction false} PlainContents(input: seq<string>, k: nat, n: nat)
    requires Plain(input) && k < |input|
    ensures Contents(input[k], Spaces(n), 0) == if Inside(input[k], n) then Some(Dedent(input[k], n)) else None
  {
    SpaceIndents(input[k], n, 0);
    if !StartsWith(input[k], Spaces(n)) && input[k] == Spaces(|input[k]|) {
      assert Dedent(input[k], n) == "";
    }
  }

  /** The lookahead of `_parse_code_block_indented` on row `r`, whose raw
      line is inside the block: it goes on while the next line is inside
      too, and once more past the last line of the input (an absent or
      empty next line falls back to the current one). */
  lemma {:induction false} LookaheadInside(input: seq<string>, r: nat, n: nat)
    requires Plain(input) && 1 <= r <= |input| && Inside(input[r - 1], n)
    ensures ContentsOf(Spaces(n), Get(input, r), Get(input, r - 1)).Some?
            <==> r == |input| || Inside(input[r], n)
  {
    PlainContents(input, r - 1, n);
    if r < |input| {
      PlainContents(input, r, n);
      if input[r] == "" {
        assert input[r] == Spaces(0);
      }
    }
  }

  /** On the last row inside the block the loop stops: at once when a
      line that is not inside follows, one row later past the end of the
      input. */
  lemma {:induction false} IndentedLoopEnd(input: seq<string>, r: nat, n: nat, lines: seq<string>)
    requires Plain(input) && 1 <= r <= |input| && Inside(input[r - 1], n)
    requires r < |input| ==> !Inside(input[r], n)
    ensures IndentedLoop(input, r, Spaces(n), lines, ContentsOf(Spaces(n), Get(input, r), Get(input, r - 1)))
            == (lines, if r == |input| then r + 1 else r)
  {
    var indents := Spaces(n);
    var next := ContentsOf(indents, Get(input, r), Get(input, r - 1));
    LookaheadInside(input, r, n);
    if r == |input| {
      assert LineAt(input, r + 1, indents) == None;
      assert IndentedLoop(input, r, indents, lines, next) == IndentedLoop(input, r + 1, indents, lines, None);
    }
  }

  /** While the next line is inside the block, the loop steps onto it and
      keeps its contents. */
  lemma {:induction false} IndentedLoopNext(input: seq<string>, r: nat, n: nat, lines: seq<string>)
    requires Plain(input) && 1 <= r < |input| && Inside(input[r - 1], n) && Inside(input[r], n)
    ensures IndentedLoop(input, r, Spaces(n), lines, ContentsOf(Spaces(n), Get(input, r), Get(input, r - 1)))
            == IndentedLoop(input, r + 1, Spaces(n), lines + [Dedent(input[r], n)], ContentsOf(Spaces(n), Get(input, r + 1), Get(input, r)))
  {
    LookaheadInside(input, r, n);
    PlainContents(input, r, n);
  }

  /** The loop of `_parse_code_block_indented` standing on row `r`, whose
      raw line is inside the block, keeps every line up to `stop`, the
      first line that is not inside, and stops on the row before it — or
      past the end of the input when every line is inside. */
  lemma {:induction false} IndentedLoopRun(input: seq<string>, r: nat, n: nat, lines: seq<string>, stop: nat)
    requires Plain(input) && 1 <= r <= stop <= |input|
    requires forall k :: r - 1 <= k < stop ==> Inside(input[k], n)
    requires stop < |input| ==> !Inside(input[stop], n)
    ensures IndentedLoop(input, r, Spaces(n), lines, ContentsOf(Spaces(n), Get(input, r), Get(input, r - 1)))
            == (lines + Dedents(input[r..stop], n), if stop == |input| then stop + 1 else stop)
    decreases stop - r, 1
  {
    if r == stop {
      IndentedLoopStop(input, r, n, lines);
    } else {
      IndentedLoopStep(input, r, n, lines, stop);
    }
  }

  /** `IndentedLoopRun` on a row before `stop`. */
  lemma {:induction false} IndentedLoopStep(input: seq<string>, r: nat, n: nat, lines: seq<string>, stop: nat)
    requires Plain(input) && 1 <= r < stop <= |input|
    requires forall k :: r - 1 <= k < stop ==> Inside(input[k], n)
    requires stop < |input| ==> !Inside(input[stop], n)
    ensures IndentedLoop(input, r, Spaces(n), lines, ContentsOf(Spaces(n), Get(input, r), Get(input, r - 1)))
            == (lines + Dedents(input[r..stop], n), if stop == |input| then stop + 1 else stop)
    decreases stop - r, 0
  {
    IndentedLoopNext(input, r, n, lines);
    DedentsFrom(input, r, stop, n, lines);
    IndentedLoopRun(input, r + 1, n, lines + [Dedent(input[r], n)], stop);
  }

  /** `IndentedLoopRun` when the block ends on row `r` itself. */
  lemma {:induction false} IndentedLoopStop(input: seq<string>, r: nat, n: nat, lines: seq<string>)
    requires Plain(input) && 1 <= r <= |input| && Inside(input[r - 1], n)
    requires r < |input| ==> !Inside(input[r], n)
    ensures IndentedLoop(input, r, Spaces(n), lines, ContentsOf(Spaces(n), Get(input, r), Get(input, r - 1)))
            == (lines + Dedents(input[r..r], n), if r == |input| then r + 1 else r)
  {
    IndentedLoopEnd(input, r, n, lines);
    assert Dedents(input[r..r], n) == [];
    AppendEmpty(lines);
  }

  /** Keeping the contents of line `r` and then of the lines after it, up
      to `stop`, keeps the contents of the lines from `r` to `stop`. */
  lemma {:induction false} DedentsFrom(input: seq<string>, r: nat, stop: nat, n: nat, lines: seq<string>)
    requires r < stop <= |input|
    ensures lines + [Dedent(input[r], n)] + Dedents(input[r + 1..stop], n) == lines + Dedents(input[r..stop], n)
  {
    var rest := Dedents(input[r + 1..stop], n);
    assert Dedents(input[r..stop], n) == [Dedent(input[r], n)] + rest by {
      assert input[r..stop][0] == input[r];
      assert input[r..stop][1..] == input[r + 1..stop];
    }
  }

  /** An indented code block inside `n` columns of spaces, starting on
      `row` (1-based) with a line that has contents, holds every line up to
      `stop`, the first line that is neither indented enough nor blank,
      with the indentation removed and the trailing blank lines dropped. */
  lemma {:induction false} IndentedRun(input: seq<string>, row: nat, n: nat, stop: nat)
    requires Plain(input) && 1 <= row <= stop <= |input|
    requires StartsWith(input[row - 1], Spaces(n)) && !IsBlank(input[row - 1][n..])
    requires forall k :: row <= k < stop ==> Inside(input[k], n)
    requires stop < |input| ==> !Inside(input[stop], n)
    ensures IndentedSpec(input, row, Spaces(n))
            == (Some(CodeBlock(Join("\n", TrimBlank(Dedents(input[row - 1..stop], n))), "")),
                if stop == |input| then stop + 1 else stop)
  {
    PlainContents(input, row - 1, n);
    var first := Dedent(input[row - 1], n);
    assert LineAt(input, row, Spaces(n)) == Some(first);
    IndentedLoopRun(input, row, n, [first], stop);
    assert input[row - 1..stop][1..] == input[row..stop];
  }

  // Paragraphs.

  /** Indented code cannot interrupt a paragraph: inside an open paragraph
      a line that opens no fence is a continuation line, whatever its
      indentation. */
  lemma {:induction false} ContinuationLine(input: seq<string>, row: nat, indents: string, para: seq<string>, line: string)
    requires row >= 1 && para != [] && OpenFence(line).None?
    ensures NonBlankStep(input, row, indents, para, line) == Outcome([], Continue(para, line), row)
  {
  }

  /** A paragraph line has no whitespace at either end. */
  predicate Trimmed(s: string) {
    s != "" && !IsSpace(s[0]) && !IsSpace(s[|s| - 1])
  }

  /** `line.strip()` of a non-blank line is trimmed. */
  lemma {:induction false} StripTrimmed(line: string)
    requires !IsBlank(line)
    ensures Trimmed(Strip(line))
  {
    StripEmpty(line);
    var r := RStrip(line);
    var t := LStrip(r);
    assert t[|t| - 1] == r[|r| - 1];
  }

  /** Adding a line to a paragraph keeps its lines trimmed. */
  lemma {:induction false} ContinueTrimmed(para: seq<string>, line: string)
    requires !IsBlank(line) && forall k :: 0 <= k < |para| ==> Trimmed(para[k])
    ensures forall k :: 0 <= k < |Continue(para, line)| ==> Trimmed(Continue(para, line)[k])
  {
    var t := Strip(line);
    StripTrimmed(line);
    if para == [] {
      assert Continue(para, line) == [t];
    } else if EndsWith(line, "  ") {
      TrimmedAppend(para, t);
    } else {
      var m := |para|;
      SpaceJoinTrimmed(para[m - 1], t);
      TrimmedAppend(para[..m - 1], para[m - 1] + " " + t);
    }
  }

  /** A trimmed line added to trimmed lines keeps them trimmed. */
  lemma {:induction false} TrimmedAppend(para: seq<string>, t: string)
    requires Trimmed(t) && forall k :: 0 <= k < |para| ==> Trimmed(para[k])
    ensures forall k :: 0 <= k < |para + [t]| ==> Trimmed((para + [t])[k])
  {
    forall k | 0 <= k < |para + [t]| ensures Trimmed((para + [t])[k]) {
      if k < |para| {
        assert (para + [t])[k] == para[k];
      }
    }
  }

  /** Two trimmed texts joined by a space make a trimmed text. */
  lemma {:induction false} SpaceJoinTrimmed(a: string, t: string)
    requires Trimmed(a) && Trimmed(t)
    ensures Trimmed(a + " " + t)
  {
    var last := a + " " + t;
    assert last[0] == a[0];
    assert last[|last| - 1] == t[|t| - 1];
  }

  /** As text, an open paragraph grows by the trimmed line after one space,
      or after a line break when the new line itself ends with two spaces. */
  lemma {:induction false} ContinueText(para: seq<string>, line: string)
    ensures Join("\n", Continue(para, line))
            == if para == [] then Strip(line)
               else Join("\n", para) + (if EndsWith(line, "  ") then "\n" else " ") + Strip(line)
  {
    var t := Strip(line);
    if para != [] {
      var m := |para|;
      if EndsWith(line, "  ") {
        JoinAppend("\n", para, t);
      } else {
        var init := para[..m - 1];
        var last := para[m - 1];
        assert Continue(para, line) == init + [last + " " + t];
        JoinAppend("\n", init, last + " " + t);
        JoinAppend("\n", init, last);
        InitLast(para);
        if init != [] {
          var j := Join("\n", init);
          AppendAssoc(j + "\n", last, " ");
          AppendAssoc(j + "\n", last + " ", t);
        }
      }
    }
  }
}
