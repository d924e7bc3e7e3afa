/** `document/parser/parser.py`: the block parser that turns Markdown lines
    into paragraphs and code blocks, following the GitHub Flavored Markdown
    rules for indented code blocks, fenced code blocks and paragraph
    continuation lines. The parser reads its input one line ahead
    (`with_lookahead`), and `_line_contents` removes the indentation a
    container block expects before a line is looked at. */
module GfmParser {
  import opened Strings
  import BlockQuote

  /** The blocks the parser yields: `_Paragraph` and `CodeBlock`. */
  datatype Block =
    | Paragraph(content: string)
    | CodeBlock(code: string, language: string)

  /** A line and the line after it, as `with_lookahead` yields them. */
  type Lookahead = (Option<string>, Option<string>)

  /** The line at 0-based position `k`, or `None` past the end. */
  function Get(lines: seq<string>, k: nat): (r: Option<string>)
    ensures r.Some? <==> k < |lines|
  {
    if k < |lines| then Some(lines[k]) else None
  }

  /** Every pair `with_lookahead` yields: each line with its successor, then
      a final `(None, None)`. */
  ghost function Pairs(lines: seq<string>): (r: seq<Lookahead>)
    ensures |r| == |lines| + 1
  {
    seq(|lines| + 1, k requires 0 <= k <= |lines| => (Get(lines, k), Get(lines, k + 1)))
  }

  /** `with_lookahead`: pairs each line with the next one, and ends with
      `(None, None)` once the lines run out. */
  method WithLookahead(lines: seq<string>) returns (pairs: seq<Lookahead>)
    ensures pairs == Pairs(lines)
  {
    var previous := Get(lines, 0);
    var current := previous;
    var k := 0;
    pairs := [];
    while current.Some?
      invariant k <= |lines| && current == Get(lines, k) && previous == current
      invariant pairs == Pairs(lines)[..k]
      decreases |lines| - k
    {
      current := Get(lines, k + 1);
      pairs := pairs + [(previous, current)];
      previous := current;
      k := k + 1;
    }
    pairs := pairs + [(None, None)];
  }

  // Indentation: `_line_contents`.

  /** `_indent_tab_re`, `([ >]{,3})\t`: a tab after at most three spaces or
      `>` is expanded to the next multiple of four columns. */
  function ExpandTab(line: string): (r: string)
    ensures |r| >= |line|
  {
    var k := Span(line, {' ', '>'});
    if k <= 3 && k < |line| && line[k] == '\t' then line[..k] + Spaces(4 - k) + line[k + 1..] else line
  }

  /** `_indent_block_quote_re`, `' {,3}>'`: the spaces before a block-quote
      marker are dropped. */
  function CollapseQuote(line: string): (r: string)
    ensures line != "" ==> r != ""
  {
    match BlockQuote.MarkerIndex(line)
    case None => line
    case Some(k) => ">" + line[k + 1..]
  }

  /** What `_line_contents` returns once the loop stops: a blank line may
      close no indentation level, a line that ran out early is not inside
      the container, and otherwise the rest of the line is the contents. */
  function Leftover(line: string, indents: string): Option<string> {
    if IsBlank(line) && IsBlank(indents) then Some(line)
    else if indents != "" then None
    else Some(line)
  }

  /** One turn of the loop of `_line_contents`: expands a tab at a tab
      stop, collapses the spaces before a block-quote marker, and consumes
      the first level of `indents` (with the one space that may follow a
      `>`); `None` at the first mismatch. Yields the rest of the line and
      the new column. */
  function Shift(line: string, indents: string, column: nat): Option<(string, nat)>
    requires line != "" && indents != ""
  {
    var expanded := if column % 4 == 0 then ExpandTab(line) else line;
    var quoted := CollapseQuote(expanded);
    if quoted[0] != indents[0] then None
    else
      var rest := quoted[1..];
      if indents[0] == '>' && rest != "" && rest[0] == ' ' then Some((rest[1..], column + 2))
      else Some((rest, column + 1))
  }

  /** The contents of `line` inside the containers `indents` (one character
      per level: `' '` for a column of indentation, `'>'` for a block
      quote), with `column` characters already consumed; `None` when the
      line does not continue them. */
  function Contents(line: string, indents: string, column: nat): Option<string>
    decreases |indents|
  {
    if line == "" || indents == "" then Leftover(line, indents)
    else
      match Shift(line, indents, column)
      case None => None
      case Some((rest, next)) => Contents(rest, indents[1..], next)
  }

  /** The body of the loop of `_line_contents`. */
  method ShiftIndent(indents: string, line: string, column: nat) returns (r: Option<(string, nat)>)
    requires line != "" && indents != ""
    ensures r == Shift(line, indents, column)
  {
    var l, i := line, column;
    if i % 4 == 0 {
      l := ExpandTab(l);
    }
    l := CollapseQuote(l);
    if l[0] != indents[0] {
      return None;
    }
    l := l[1..];
    if indents[0] == '>' && l != "" && l[0] == ' ' {
      l := l[1..];
      i := i + 1;
    }
    return Some((l, i + 1));
  }

  /** The loop of `_line_contents`, proved to compute `Contents`. */
  method StripIndents(indents: string, line: string) returns (r: Option<string>)
    ensures r == Contents(line, indents, 0)
  {
    var l, rest, i := line, indents, 0;
    while l != "" && rest != ""
      invariant Contents(l, rest, i) == Contents(line, indents, 0)
      decreases |rest|
    {
      var shifted := ShiftIndent(rest, l, i);
      if shifted.None? {
        return None;
      }
      l, i := shifted.value.0, shifted.value.1;
      rest := rest[1..];
    }
    return Leftover(l, rest);
  }

  /** `_line_contents(indents, line)`: an absent or empty `line` argument
      falls back to the current line (`line or self._line`). */
  function ContentsOf(indents: string, arg: Option<string>, current: Option<string>): (r: Option<string>)
    ensures r.Some? ==> arg.Some? || current.Some?
  {
    var l := if arg.Some? && arg.value != "" then arg else current;
    if l.None? then None else Contents(l.value, indents, 0)
  }

  /** The contents of the current line when the parser stands at `row`
      (1-based, as `_row`). */
  function LineAt(input: seq<string>, row: nat, indents: string): (r: Option<string>)
    requires row >= 1
    ensures r.Some? ==> row <= |input|
  {
    ContentsOf(indents, Get(input, row - 1), Get(input, row - 1))
  }

  // Fences.

  /** An opening code fence: its run of backticks or tildes and the info
      string after it. */
  datatype Fence = Fence(delim: string, info: string)

  /** `_code_block_open_re`: up to three spaces, then at least three
      backticks followed by an info string without backticks, or at least
      three tildes followed by anything. */
  function OpenFence(line: string): Option<Fence> {
    var s := Span(line, {' '});
    if s > 3 || s == |line| || line[s] !in {'`', '~'} then None
    else
      var n := Span(line[s..], {line[s]});
      var info := line[s + n..];
      if n < 3 || (line[s] == '`' && '`' in info) then None
      else Some(Fence(line[s..s + n], info))
  }

  /** `_code_block_close_re` and the `startswith(open_delim)` test: up to
      three spaces, a run of backticks or tildes that begins with the
      opening delimiter, and nothing but whitespace after it. */
  predicate CloseFence(line: string, delim: string) {
    var s := Span(line, {' '});
    s <= 3 && s < |line| && line[s] in {'`', '~'} &&
    var n := Span(line[s..], {line[s]});
    n >= 3 && IsBlank(line[s + n..]) && StartsWith(line[s..s + n], delim)
  }

  /** `(info_str.split() or [''])[0]`. */
  function Language(info: string): string {
    var words := Words(info);
    if words == [] then "" else words[0]
  }

  // The specification of the parser's walk over its input. The parser
  // state is the input and `row`; the current line is `input[row - 1]`.

  /** `while lines[-1].strip() == '': lines.pop()`: the trailing blank lines
      go, and the first line, which is not blank, stops the trimming. */
  function TrimBlank(lines: seq<string>): (r: seq<string>)
    requires lines != [] && !IsBlank(lines[0])
    ensures r != [] && |r| <= |lines| && r == lines[..|r|] && !IsBlank(r[|r| - 1])
    ensures forall k :: |r| <= k < |lines| ==> IsBlank(lines[k])
    decreases |lines|
  {
    if IsBlank(lines[|lines| - 1]) then TrimBlank(lines[..|lines| - 1]) else lines
  }

  /** The loop of `_parse_code_block_indented`: while the line after the
      current one still belongs to the block, step onto it and keep its
      contents. Yields the collected lines and the final row. */
  function IndentedLoop(input: seq<string>, row: nat, indents: string, lines: seq<string>, next: Option<string>): (r: (seq<string>, nat))
    requires row >= 1 && (next.Some? ==> row <= |input|)
    ensures |r.0| >= |lines| && r.0[..|lines|] == lines && r.1 >= row
    decreases |input| + 1 - row
  {
    if next.None? then (lines, row)
    else
      var line := LineAt(input, row + 1, indents);
      IndentedLoop(input, row + 1, indents, if line.Some? then lines + [line.value] else lines,
                   ContentsOf(indents, Get(input, row + 1), Get(input, row)))
  }

  /** One iteration of the first loop of `_parse_code_block_indented`. */
  lemma {:induction false} IndentedLoopNext(input: seq<string>, row: nat, indents: string, lines: seq<string>, next: Option<string>)
    requires 1 <= row <= |input| && next.Some?
    ensures var line := LineAt(input, row + 1, indents);
            IndentedLoop(input, row, indents, lines, next)
            == IndentedLoop(input, row + 1, indents, if line.Some? then lines + [line.value] else lines,
                            ContentsOf(indents, Get(input, row + 1), Get(input, row)))
  {
  }

  /** `IndentedLoopNext` for the state after the step: the row `row'`, the
      lines `lines'` and the contents `next'` of the line after it. */
  lemma {:induction false} IndentedLoopAt(input: seq<string>, row: nat, indents: string, lines: seq<string>, next: Option<string>,
                                          row': nat, l: Option<string>, lines': seq<string>, next': Option<string>)
    requires 1 <= row <= |input| && next.Some? && row' == row + 1
    requires l == LineAt(input, row', indents) && lines' == (if l.Some? then lines + [l.value] else lines)
    requires next' == ContentsOf(indents, Get(input, row'), Get(input, row' - 1))
    requires next'.Some? ==> row' <= |input|
    ensures |lines'| >= |lines| && lines'[..|lines|] == lines
    ensures IndentedLoop(input, row, indents, lines, next) == IndentedLoop(input, row', indents, lines', next')
  {
    if l.Some? {
      AppendInit(lines, l.value);
    } else {
      TakeAll(lines);
    }
    assert LineAt(input, row + 1, indents) == l;
    assert ContentsOf(indents, Get(input, row + 1), Get(input, row)) == next';
    IndentedLoopNext(input, row, indents, lines, next);
  }

  /** `_parse_code_block_indented(indents)` from `row`: no block when the
      current line is not inside `indents` or is blank; otherwise the lines
      of the block, trailing blank lines removed, and the row it ends on. */
  function IndentedSpec(input: seq<string>, row: nat, indents: string): (r: (Option<Block>, nat))
    requires row >= 1
    ensures r.1 >= row && (r.0.None? ==> r.1 == row)
  {
    var first := LineAt(input, row, indents);
    if first.None? || IsBlank(first.value) then (None, row)
    else
      var (lines, end) := IndentedLoop(input, row, indents, [first.value], ContentsOf(indents, Get(input, row), Get(input, row - 1)));
      (Some(CodeBlock(Join("\n", TrimBlank(lines)), "")), end)
  }

  /** The loop of `_parse_code_block_fenced`: the lines up to the closing
      fence or the end of the input. */
  function FencedLoop(input: seq<string>, row: nat, indents: string, delim: string, lines: seq<string>, line: Option<string>): (r: (seq<string>, nat))
    requires row >= 1 && (line.Some? ==> row <= |input|)
    ensures r.1 >= row
    decreases |input| + 1 - row
  {
    if line.None? || CloseFence(line.value, delim) then (lines, row)
    else FencedLoop(input, row + 1, indents, delim, lines + [line.value], LineAt(input, row + 1, indents))
  }

  /** `_parse_code_block_fenced(indents, first)` from `row`. */
  function FencedSpec(input: seq<string>, row: nat, indents: string, first: string): (r: (Option<Block>, nat))
    requires row >= 1
    ensures r.1 >= row && (r.0.None? ==> r.1 == row)
  {
    match OpenFence(first)
    case None => (None, row)
    case Some(fence) =>
      var (lines, end) := FencedLoop(input, row + 1, indents, fence.delim, [], LineAt(input, row + 1, indents));
      (Some(CodeBlock(Join("\n", lines), Language(fence.info))), end)
  }

  /** A fenced block runs the loop from the row after the opening fence. */
  lemma {:induction false} FencedSpecLoop(input: seq<string>, row: nat, indents: string, first: string, fence: Fence)
    requires row >= 1 && OpenFence(first) == Some(fence)
    ensures var (lines, end) := FencedLoop(input, row + 1, indents, fence.delim, [], LineAt(input, row + 1, indents));
            FencedSpec(input, row, indents, first) == (Some(CodeBlock(Join("\n", lines), Language(fence.info))), end)
  {
  }

  /** `FencedSpecLoop` for the state after stepping onto the row `row'`
      after the opening fence, whose contents are `l`. */
  lemma {:induction false} FencedSpecAt(input: seq<string>, row: nat, indents: string, first: string, fence: Fence,
                                        row': nat, l: Option<string>)
    requires row >= 1 && OpenFence(first) == Some(fence) && row' == row + 1 && l == LineAt(input, row', indents)
    ensures l.Some? ==> row' <= |input|
    ensures var r := FencedLoop(input, row', indents, fence.delim, [], l);
            FencedSpec(input, row, indents, first) == (Some(CodeBlock(Join("\n", r.0), Language(fence.info))), r.1)
  {
    assert LineAt(input, row + 1, indents) == l;
    FencedSpecLoop(input, row, indents, first, fence);
  }

  /** A line that does not close the block is collected. */
  lemma {:induction false} FencedLoopNext(input: seq<string>, row: nat, indents: string, delim: string, lines: seq<string>, line: string)
    requires 1 <= row <= |input| && !CloseFence(line, delim)
    ensures FencedLoop(input, row, indents, delim, lines, Some(line))
            == FencedLoop(input, row + 1, indents, delim, lines + [line], LineAt(input, row + 1, indents))
  {
  }

  /** `FencedLoopNext` for the state after the step: the row `row'`, the
      lines `lines'` and the contents `next` of the new current line. */
  lemma {:induction false} FencedLoopAt(input: seq<string>, row: nat, indents: string, delim: string, lines: seq<string>, line: string,
                                        row': nat, lines': seq<string>, next: Option<string>)
    requires 1 <= row <= |input| && !CloseFence(line, delim)
    requires row' == row + 1 && lines' == lines + [line] && next == LineAt(input, row', indents)
    ensures next.Some? ==> row' <= |input|
    ensures FencedLoop(input, row, indents, delim, lines, Some(line)) == FencedLoop(input, row', indents, delim, lines', next)
  {
    assert LineAt(input, row + 1, indents) == next;
    FencedLoopNext(input, row, indents, delim, lines, line);
  }

  /** The loop stops at the end of the input or on the closing fence. */
  lemma {:induction false} FencedLoopDone(input: seq<string>, row: nat, indents: string, delim: string, lines: seq<string>, line: Option<string>)
    requires row >= 1 && (line.Some? ==> row <= |input|)
    requires line.None? || CloseFence(line.value, delim)
    ensures FencedLoop(input, row, indents, delim, lines, line) == (lines, row)
  {
  }

  /** The open paragraph as a block, if there is one. */
  function Flush(para: seq<string>): seq<Block> {
    if para == [] then [] else [Paragraph(Join("\n", para))]
  }

  /** Adds a non-blank line to the open paragraph: it starts the paragraph,
      starts a new line of it when the line ends with two spaces, or is
      appended to the last line after one space. */
  function Continue(para: seq<string>, line: string): seq<string> {
    var trimmed := Strip(line);
    if para == [] then [trimmed]
    else if EndsWith(line, "  ") then para + [trimmed]
    else para[..|para| - 1] + [para[|para| - 1] + " " + trimmed]
  }

  /** What one iteration of `_parse_blocks` does with a non-blank line: the
      blocks it yields, the open paragraph afterwards, and the row it ends
      on before stepping to the next line. */
  datatype Outcome = Outcome(emitted: seq<Block>, para: seq<string>, end: nat)

  /** A non-blank line either starts a code block (an indented one only
      when no paragraph is open, a fenced one even inside a paragraph,
      which it then closes) or joins the open paragraph. */
  function NonBlankStep(input: seq<string>, row: nat, indents: string, para: seq<string>, line: string): (r: Outcome)
    requires row >= 1
    ensures r.end >= row
  {
    var (code, afterCode) := if para == [] then IndentedSpec(input, row, indents + "    ") else (None, row);
    var (block, end) := if code.Some? then (code, afterCode) else FencedSpec(input, afterCode, indents, line);
    if block.Some? then Outcome(Flush(para) + [block.value], [], end)
    else Outcome([], Continue(para, line), end)
  }

  /** The loop of `_parse_blocks(indents)`: the blocks yielded from `row` on,
      with `para` the lines of the open paragraph and `line` the contents of
      the current line. */
  function BlocksFrom(input: seq<string>, row: nat, indents: string, para: seq<string>, line: Option<string>): seq<Block>
    requires row >= 1 && (line.Some? ==> row <= |input|)
    decreases |input| + 1 - row, 1
  {
    if line.None? then Flush(para)
    else if IsBlank(line.value) then
      Flush(para) + BlocksFrom(input, row + 1, indents, [], LineAt(input, row + 1, indents))
    else
      Resume(input, row, indents, NonBlankStep(input, row, indents, para, line.value))
  }

  /** The blocks a non-blank line on `row` yields, then the blocks from the
      line after the one its `step` ends on. The postcondition spells out
      the one unfolding the walk's lemmas need. */
  function Resume(input: seq<string>, row: nat, indents: string, step: Outcome): (r: seq<Block>)
    requires 1 <= row <= |input| && row <= step.end
    ensures r == step.emitted + BlocksFrom(input, step.end + 1, indents, step.para, LineAt(input, step.end + 1, indents))
    decreases |input| + 1 - row, 0
  {
    step.emitted + BlocksFrom(input, step.end + 1, indents, step.para, LineAt(input, step.end + 1, indents))
  }

  /** A blank line closes the open paragraph and is skipped. */
  lemma {:induction false} BlocksFromBlank(input: seq<string>, row: nat, indents: string, para: seq<string>, line: Option<string>)
    requires row >= 1 && line.Some? && row <= |input| && IsBlank(line.value)
    ensures BlocksFrom(input, row, indents, para, line)
            == Flush(para) + BlocksFrom(input, row + 1, indents, [], LineAt(input, row + 1, indents))
  {
  }

  /** `BlocksFromBlank` for the state after the step: the blocks `emitted`,
      the paragraph `para'`, the row `row'` and its contents `next`. */
  lemma {:induction false} BlocksFromBlankAt(input: seq<string>, row: nat, indents: string, para: seq<string>, line: string,
                                             emitted: seq<Block>, para': seq<string>, row': nat, next: Option<string>)
    requires 1 <= row <= |input| && IsBlank(line)
    requires emitted == Flush(para) && para' == [] && row' == row + 1 && next == LineAt(input, row', indents)
    ensures BlocksFrom(input, row, indents, para, Some(line)) == emitted + BlocksFrom(input, row', indents, para', next)
  {
    assert LineAt(input, row + 1, indents) == next;
    BlocksFromBlank(input, row, indents, para, Some(line));
  }

  /** A non-blank line on `row` yields what its step emits, and the walk
      goes on after the row the step ends on. */
  lemma {:induction false} BlocksFromNonBlank(input: seq<string>, row: nat, indents: string, para: seq<string>, line: string,
                           emitted: seq<Block>, para': seq<string>, next: Option<string>, row': nat)
    requires 1 <= row <= |input| && !IsBlank(line) && row' >= 1
    requires Outcome(emitted, para', row' - 1) == NonBlankStep(input, row, indents, para, line)
    requires next == LineAt(input, row', indents)
    ensures next.Some? ==> row' <= |input|
    ensures BlocksFrom(input, row, indents, para, Some(line)) == emitted + BlocksFrom(input, row', indents, para', next)
  {
    NonBlankResumes(input, row, indents, para, line);
    ResumeAt(input, row, indents, NonBlankStep(input, row, indents, para, line), emitted, para', next, row');
  }

  /** A step that ends on the row before `row'` resumes the walk on `row'`. */
  lemma {:induction false} ResumeAt(input: seq<string>, row: nat, indents: string, step: Outcome,
                                    emitted: seq<Block>, para': seq<string>, next: Option<string>, row': nat)
    requires 1 <= row <= |input| && row <= step.end
    requires step.emitted == emitted && step.para == para' && step.end + 1 == row'
    requires next == LineAt(input, row', indents)
    ensures next.Some? ==> row' <= |input|
    ensures Resume(input, row, indents, step) == emitted + BlocksFrom(input, row', indents, para', next)
  {
    assert LineAt(input, step.end + 1, indents) == next;
  }

  /** One unfolding of `BlocksFrom` on a non-blank line. */
  lemma {:induction false} NonBlankResumes(input: seq<string>, row: nat, indents: string, para: seq<string>, line: string)
    requires 1 <= row <= |input| && !IsBlank(line)
    ensures BlocksFrom(input, row, indents, para, Some(line)) == Resume(input, row, indents, NonBlankStep(input, row, indents, para, line))
  {
  }

  /** The document `parse_lines(lines)` is evidently meant to build, as its
      test `test_parse_empty` expects; as written the method raises (see
      `GfmDebug.ParseLinesRaises`). */
  function Parse(lines: seq<string>): seq<Block> {
    BlocksFrom(lines, 1, "", [], LineAt(lines, 1, ""))
  }

  /** `Parser`: the input, the lookahead pairs not yet taken (all of them,
      indexed by `row`), the row and the current and next raw lines. */
  class Parser {
    ghost var input: seq<string>
    var pairs: seq<Lookahead>
    var row: nat
    var line: Option<string>
    var nextLine: Option<string>

    /** The fields agree with the input: the current line is the one at
        `row`, and `nextLine` is its successor. */
    ghost predicate Valid()
      reads this
    {
      pairs == Pairs(input) && row >= 1 && line == Get(input, row - 1) && nextLine == Get(input, row)
    }

    /** `Parser()`, which resets to no lines. */
    constructor()
      ensures Valid() && input == [] && row == 1
    {
      input := [];
      pairs := [];
      row := 0;
      line, nextLine := None, None;
      new;
      Reset([]);
    }

    /** `reset(lines)`: the parser stands on the first line. */
    method Reset(lines: seq<string>)
      modifies this
      ensures Valid() && input == lines && row == 1
    {
      input := lines;
      pairs := WithLookahead(lines);
      row := 0;
      line, nextLine := None, None;
      var ignoredLine, ignoredNext := Next("");
    }

    /** `_line_contents(indents, arg)`. */
    method LineContents(indents: string, arg: Option<string>) returns (r: Option<string>)
      ensures r == ContentsOf(indents, arg, line)
    {
      var l := if arg.Some? && arg.value != "" then arg else line;
      if l.None? {
        return None;
      }
      r := StripIndents(indents, l.value);
    }

    /** `_next(indents)`: steps onto the next line and returns the contents
        of the new current line and of the line after it. */
    method Next(indents: string) returns (l: Option<string>, n: Option<string>)
      requires pairs == Pairs(input)
      modifies this
      ensures Valid() && input == old(input) && pairs == old(pairs) && row == old(row) + 1
      ensures l == ContentsOf(indents, line, line) && n == ContentsOf(indents, nextLine, line)
      ensures l == LineAt(input, row, indents) && (l.Some? ==> row <= |input|)
    {
      row := row + 1;
      var pair := if row - 1 < |pairs| then pairs[row - 1] else (None, None);
      line, nextLine := pair.0, pair.1;
      l := LineContents(indents, line);
      n := LineContents(indents, nextLine);
    }

    /** `_parse_code_block_indented(indents)`. */
    method ParseCodeBlockIndented(indents: string) returns (block: Option<Block>)
      requires Valid()
      modifies this
      ensures Valid() && input == old(input) && pairs == old(pairs)
      ensures (block, row) == IndentedSpec(input, old(row), indents)
    {
      var first := LineContents(indents, None);
      if first.None? || IsBlank(first.value) {
        return None;
      }
      var lines := [first.value];
      var next := LineContents(indents, nextLine);
      ghost var collected := IndentedLoop(input, row, indents, lines, next);
      while next.Some?
        invariant Valid() && input == old(input) && pairs == old(pairs)
        invariant next.Some? ==> row <= |input|
        invariant IndentedLoop(input, row, indents, lines, next) == collected
        invariant lines != [] && lines[0] == first.value
        decreases |input| + 1 - row
      {
        lines, next := IndentedStep(indents, lines, next);
      }
      while IsBlank(lines[|lines| - 1])
        invariant lines != [] && lines[0] == first.value
        invariant TrimBlank(lines) == TrimBlank(collected.0)
        decreases |lines|
      {
        lines := lines[..|lines| - 1];
      }
      block := Some(CodeBlock(Join("\n", lines), ""));
    }

    /** `_parse_code_block_fenced(indents, first)`. */
    /** One iteration of the first loop of `_parse_code_block_indented`:
        step onto the next line and keep its contents. */
    method IndentedStep(indents: string, lines: seq<string>, next: Option<string>) returns (lines': seq<string>, next': Option<string>)
      requires Valid() && next.Some? && row <= |input|
      modifies this
      ensures Valid() && input == old(input) && pairs == old(pairs) && row == old(row) + 1
      ensures next'.Some? ==> row <= |input|
      ensures |lines'| >= |lines| && lines'[..|lines|] == lines
      ensures IndentedLoop(input, old(row), indents, lines, next) == IndentedLoop(input, row, indents, lines', next')
    {
      var l;
      ghost var before := row;
      l, next' := Next(indents);
      lines' := if l.Some? then lines + [l.value] else lines;
      IndentedLoopAt(input, before, indents, lines, next, row, l, lines', next');
    }

    /** One iteration of the loop of `_parse_code_block_fenced`, once the
        line is known not to close the block. */
    method FencedStep(indents: string, delim: string, lines: seq<string>, l: string) returns (lines': seq<string>, next: Option<string>)
      requires Valid() && row <= |input| && !CloseFence(l, delim)
      modifies this
      ensures Valid() && input == old(input) && pairs == old(pairs) && row == old(row) + 1
      ensures next.Some? ==> row <= |input|
      ensures FencedLoop(input, old(row), indents, delim, lines, Some(l)) == FencedLoop(input, row, indents, delim, lines', next)
    {
      var ignored;
      ghost var before := row;
      lines' := lines + [l];
      next, ignored := Next(indents);
      FencedLoopAt(input, before, indents, delim, lines, l, row, lines', next);
    }

    method ParseCodeBlockFenced(indents: string, first: string) returns (block: Option<Block>)
      requires Valid()
      modifies this
      ensures Valid() && input == old(input) && pairs == old(pairs)
      ensures (block, row) == FencedSpec(input, old(row), indents, first)
    {
      var fence := OpenFence(first);
      if fence.None? {
        return None;
      }
      var lines := [];
      ghost var before := row;
      var l, ignored := Next(indents);
      FencedSpecAt(input, before, indents, first, fence.value, row, l);
      ghost var collected := FencedLoop(input, row, indents, fence.value.delim, lines, l);
      while l.Some?
        invariant Valid() && input == old(input) && pairs == old(pairs)
        invariant l.Some? ==> row <= |input|
        invariant FencedLoop(input, row, indents, fence.value.delim, lines, l) == collected
        decreases |input| + 1 - row
      {
        if CloseFence(l.value, fence.value.delim) {
          break;
        }
        lines, l := FencedStep(indents, fence.value.delim, lines, l.value);
      }
      FencedLoopDone(input, row, indents, fence.value.delim, lines, l);
      block := Some(CodeBlock(Join("\n", lines), Language(fence.value.info)));
    }

    /** `_parse_blocks(indents)`, collecting what the generator yields. */
    method ParseBlocks(indents: string) returns (blocks: seq<Block>)
      requires Valid()
      modifies this
      ensures Valid() && input == old(input) && pairs == old(pairs)
      ensures blocks == BlocksFrom(input, old(row), indents, [], ContentsOf(indents, None, old(line)))
    {
      blocks := [];
      var lines: seq<string> := [];
      var l := LineContents(indents, None);
      ghost var all := BlocksFrom(input, row, indents, lines, l);
      EmptyAppend(all);
      while l.Some?
        invariant Valid() && input == old(input) && pairs == old(pairs)
        invariant l.Some? ==> row <= |input|
        invariant blocks + BlocksFrom(input, row, indents, lines, l) == all
        decreases |input| + 1 - row
      {
        var emitted;
        emitted, lines, l := ParseStep(indents, lines, l.value);
        AppendAssoc(blocks, emitted, BlocksFrom(input, row, indents, lines, l));
        blocks := blocks + emitted;
      }
      assert BlocksFrom(input, row, indents, lines, l) == Flush(lines);
      if lines != [] {
        blocks := blocks + [Paragraph(Join("\n", lines))];
      } else {
        AppendEmpty(blocks);
      }
    }

    /** One iteration of the loop of `_parse_blocks`: the blocks it yields,
        the open paragraph and the contents of the next line. */
    method ParseStep(indents: string, lines: seq<string>, l: string) returns (emitted: seq<Block>, para: seq<string>, next: Option<string>)
      requires Valid() && row <= |input|
      modifies this
      ensures Valid() && input == old(input) && pairs == old(pairs) && row > old(row)
      ensures next.Some? ==> row <= |input|
      ensures BlocksFrom(input, old(row), indents, lines, Some(l)) == emitted + BlocksFrom(input, row, indents, para, next)
    {
      if IsBlank(l) {
        emitted, para, next := ParseBlank(indents, lines, l);
      } else {
        emitted, para, next := ParseLine(indents, lines, l);
      }
    }

    /** What one iteration of `_parse_blocks` does with a non-blank line,
        up to and including stepping onto the next line. */
    method ParseLine(indents: string, lines: seq<string>, l: string) returns (emitted: seq<Block>, para: seq<string>, next: Option<string>)
      requires Valid() && row <= |input| && !IsBlank(l)
      modifies this
      ensures Valid() && input == old(input) && pairs == old(pairs) && row > old(row)
      ensures next.Some? ==> row <= |input|
      ensures BlocksFrom(input, old(row), indents, lines, Some(l)) == emitted + BlocksFrom(input, row, indents, para, next)
    {
      var ignored;
      emitted, para := ParseNonBlank(indents, lines, l);
      next, ignored := Next(indents);
      BlocksFromNonBlank(input, old(row), indents, lines, l, emitted, para, next, row);
    }

    /** What one iteration of `_parse_blocks` does with a blank line: the
        open paragraph is flushed and the parser steps onto the next line. */
    method ParseBlank(indents: string, lines: seq<string>, l: string) returns (emitted: seq<Block>, para: seq<string>, next: Option<string>)
      requires Valid() && row <= |input| && IsBlank(l)
      modifies this
      ensures Valid() && input == old(input) && pairs == old(pairs) && row == old(row) + 1
      ensures emitted == Flush(lines) && para == [] && next == LineAt(input, row, indents)
      ensures next.Some? ==> row <= |input|
      ensures BlocksFrom(input, old(row), indents, lines, Some(l)) == emitted + BlocksFrom(input, row, indents, para, next)
    {
      ghost var before := row;
      emitted, para := [], lines;
      if para != [] {
        emitted := [Paragraph(Join("\n", para))];
        para := [];
      }
      var ignored;
      next, ignored := Next(indents);
      BlocksFromBlankAt(input, before, indents, lines, l, emitted, para, row, next);
    }

    /** What one iteration of `_parse_blocks` does with a non-blank line,
        up to stepping onto the next line. */
    method ParseNonBlank(indents: string, lines: seq<string>, l: string) returns (emitted: seq<Block>, para: seq<string>)
      requires Valid() && !IsBlank(l)
      modifies this
      ensures Valid() && input == old(input) && pairs == old(pairs)
      ensures var step := NonBlankStep(input, old(row), indents, lines, l);
              emitted == step.emitted && para == step.para && row == step.end
    {
      emitted, para := [], lines;
      var trimmed := Strip(l);
      var block: Option<Block> := None;
      if para == [] {
        block := ParseCodeBlockIndented(indents + "    ");
      }
      if block.None? {
        block := ParseCodeBlockFenced(indents, l);
      }
      if block.Some? {
        if para != [] {
          emitted := [Paragraph(Join("\n", para))];
          para := [];
        }
        emitted := emitted + [block.value];
      } else if para == [] {
        para := [trimmed];
      } else if EndsWith(l, "  ") {
        para := para + [trimmed];
      } else {
        para := para[..|para| - 1] + [para[|para| - 1] + " " + trimmed];
      }
    }

    /** `parse_lines(lines)` as intended: reset to the lines, then parse the
        blocks at the top level. The debug stack's failing pop is left out
        here and modelled by `GfmDebug.ParseLinesRaises`. */
    method ParseLines(lines: seq<string>) returns (document: seq<Block>)
      modifies this
      ensures Valid() && input == lines
      ensures document == Parse(lines)
    {
      Reset(lines);
      document := ParseBlocks("");
    }
  }
}
