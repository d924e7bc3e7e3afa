/** Splitting Markdown lines into paragraphs: the loop of `read/paragraphs.py`
    and its textual copy `lines_to_paragraphs` in `docs_nbgen.py`.
    A fence opens on a line that starts with three backticks and closes on a
    later line that ends with three backticks. */
module Paragraphs {
  import opened Strings
  import opened Lists

  const Fence := "```"

  /** The loop state after some lines: whether a fence is open, the lines of
      the paragraph being built, and the paragraphs yielded so far, each kept
      as its list of lines. */
  datatype State = State(inCode: bool, open: seq<string>, done: seq<seq<string>>)

  const Start := State(false, [], [])

  /** `if paragraph: yield ...`: an open paragraph is yielded only when it has lines. */
  function Flush(done: seq<seq<string>>, open: seq<string>): (r: seq<seq<string>>)
    ensures open == [] ==> r == done
    ensures open != [] ==> r == done + [open]
  {
    if open != [] then done + [open] else done
  }

  /** One iteration of the loop body. */
  function Step(st: State, line: string): State {
    if st.inCode then
      if EndsWith(line, Fence) then State(false, [], Flush(st.done, st.open + [line]))
      else State(true, st.open + [line], st.done)
    else if StartsWith(line, Fence) then State(true, [line], Flush(st.done, st.open))
    else if line == "" && st.open != [] then State(false, [], st.done + [st.open])
    else if StartsWith(line, "#") then State(false, [], Flush(st.done, st.open) + [[line]])
    else if line != "" then State(false, st.open + [line], st.done)
    else st
  }

  /** The state after the loop has consumed `lines`. */
  function Run(lines: seq<string>): State {
    if |lines| == 0 then Start
    else Step(Run(lines[..|lines| - 1]), lines[|lines| - 1])
  }

  /** The paragraphs yielded for `lines`, as lists of lines. */
  function Groups(lines: seq<string>): seq<seq<string>> {
    Flush(Run(lines).done, Run(lines).open)
  }

  function JoinEach(groups: seq<seq<string>>): (r: seq<string>)
    ensures |r| == |groups|
    ensures forall k :: 0 <= k < |groups| ==> r[k] == Join("\n", groups[k])
  {
    seq(|groups|, k requires 0 <= k < |groups| => Join("\n", groups[k]))
  }

  /** The paragraphs yielded for `lines`: each group joined with line breaks. */
  function Paragraphs(lines: seq<string>): seq<string> {
    JoinEach(Groups(lines))
  }

  lemma {:induction false} RunAppend(lines: seq<string>, line: string)
    ensures Run(lines + [line]) == Step(Run(lines), line)
  {
    assert (lines + [line])[..|lines|] == lines;
  }

  /** Joining each group with line breaks loses nothing: splitting a joined
      paragraph at its line breaks gives back its lines, as long as no line
      holds a line break and the last line of each group is not empty. */
  lemma {:induction false} JoinEachSplits(groups: seq<seq<string>>)
    requires forall k, i :: 0 <= k < |groups| && 0 <= i < |groups[k]| ==> '\n' !in groups[k][i]
    requires forall k :: 0 <= k < |groups| && groups[k] != [] ==> groups[k][|groups[k]| - 1] != ""
    ensures |JoinEach(groups)| == |groups|
    ensures forall k :: 0 <= k < |groups| ==> SplitLines(JoinEach(groups)[k]) == groups[k]
  {
    forall k | 0 <= k < |groups|
      ensures SplitLines(JoinEach(groups)[k]) == groups[k]
    {
      SplitLinesJoin(groups[k]);
    }
  }

  lemma {:induction false} JoinEachAppend(groups: seq<seq<string>>, g: seq<string>)
    ensures JoinEach(groups + [g]) == JoinEach(groups) + [Join("\n", g)]
  {
  }

  /** The segmentation loop, proved to yield `Paragraphs(lines)`. */
  method Segment(lines: seq<string>) returns (paragraphs: seq<string>)
    ensures paragraphs == Paragraphs(lines)
  {
    var inCode := false;
    var paragraph: seq<string> := [];
    paragraphs := [];
    var i := 0;
    while i < |lines|
      invariant 0 <= i <= |lines|
      invariant inCode == Run(lines[..i]).inCode
      invariant paragraph == Run(lines[..i]).open
      invariant paragraphs == JoinEach(Run(lines[..i]).done)
    {
      var line := lines[i];
      ghost var before := Run(lines[..i]);
      TakeNext(lines, i);
      RunAppend(lines[..i], line);
      JoinEachAppend(before.done, paragraph);
      if inCode {
        paragraph := paragraph + [line];
        if EndsWith(line, Fence) {
          inCode := false;
          JoinEachAppend(before.done, paragraph);
          if paragraph != [] {
            paragraphs := paragraphs + [Join("\n", paragraph)];
          }
          paragraph := [];
        }
      } else if StartsWith(line, Fence) {
        inCode := true;
        if paragraph != [] {
          paragraphs := paragraphs + [Join("\n", paragraph)];
        }
        paragraph := [line];
      } else if line == "" && paragraph != [] {
        paragraphs := paragraphs + [Join("\n", paragraph)];
        paragraph := [];
      } else if StartsWith(line, "#") {
        if paragraph != [] {
          paragraphs := paragraphs + [Join("\n", paragraph)];
        }
        JoinEachAppend(Flush(before.done, before.open), [line]);
        paragraph := [];
        paragraphs := paragraphs + [line];
      } else if line != "" {
        paragraph := paragraph + [line];
      }
      i := i + 1;
    }
    assert lines[..|lines|] == lines;
    JoinEachAppend(Run(lines).done, paragraph);
    if paragraph != [] {
      paragraphs := paragraphs + [Join("\n", paragraph)];
    }
  }

  // ---------------------------------------------------------------------
  // What a yielded paragraph looks like.

  /** A paragraph outside fences: non-blank lines that open no fence, and a
      header line always stands alone. */
  predicate PlainGroup(g: seq<string>) {
    |g| > 0
    && (forall j :: 0 <= j < |g| ==> g[j] != "" && !StartsWith(g[j], Fence))
    && (forall j :: 0 <= j < |g| ==> StartsWith(g[j], "#") ==> |g| == 1)
  }

  /** A fence left open: the opening line, then lines none of which closes it. */
  predicate OpenFence(g: seq<string>) {
    |g| > 0 && StartsWith(g[0], Fence)
    && forall j :: 1 <= j < |g| ==> !EndsWith(g[j], Fence)
  }

  /** A closed fence: an open fence followed by its closing line. */
  predicate ClosedFence(g: seq<string>) {
    |g| >= 2 && OpenFence(g[..|g| - 1]) && EndsWith(g[|g| - 1], Fence)
  }

  /** Every yielded paragraph is plain or a closed fence, except that the
      last one may be a fence still open at end of input. */
  predicate WellFormed(groups: seq<seq<string>>) {
    forall k :: 0 <= k < |groups| ==>
      PlainGroup(groups[k]) || ClosedFence(groups[k]) || (k == |groups| - 1 && OpenFence(groups[k]))
  }

  predicate Inv(st: State) {
    (forall k :: 0 <= k < |st.done| ==> PlainGroup(st.done[k]) || ClosedFence(st.done[k]))
    && (st.inCode ==> OpenFence(st.open))
    && (!st.inCode ==> forall j :: 0 <= j < |st.open| ==>
          st.open[j] != "" && !StartsWith(st.open[j], Fence) && !StartsWith(st.open[j], "#"))
  }

  lemma {:induction false} StepInv(st: State, line: string)
    requires Inv(st)
    ensures Inv(Step(st, line))
  {
    if st.inCode && EndsWith(line, Fence) {
      var g := st.open + [line];
      assert g[..|g| - 1] == st.open;
    }
  }

  lemma {:induction false} RunInv(lines: seq<string>)
    ensures Inv(Run(lines))
  {
    if |lines| > 0 {
      RunInv(lines[..|lines| - 1]);
      StepInv(Run(lines[..|lines| - 1]), lines[|lines| - 1]);
    }
  }

  /** Headers stand alone, blank lines outside fences never appear in a
      paragraph, and every fence but a last unclosed one is closed. */
  lemma {:induction false} GroupsWellFormed(lines: seq<string>)
    ensures WellFormed(Groups(lines))
  {
    RunInv(lines);
  }

  /** No yielded paragraph is the empty string. */
  lemma {:induction false} NoEmptyParagraph(lines: seq<string>)
    ensures forall k :: 0 <= k < |Paragraphs(lines)| ==> Paragraphs(lines)[k] != ""
  {
    var gs := Groups(lines);
    GroupsWellFormed(lines);
    forall k | 0 <= k < |gs|
      ensures Join("\n", gs[k]) != ""
    {
      var g := gs[k];
      assert g[0] != "" by {
        if !PlainGroup(g) {
          assert OpenFence(g) || OpenFence(g[..|g| - 1]);
        }
      }
      JoinStartsWithFirst(g);
    }
  }

  lemma {:induction false} JoinStartsWithFirst(g: seq<string>)
    requires |g| > 0
    ensures |Join("\n", g)| >= |g[0]|
  {
  }

  // ---------------------------------------------------------------------
  // No non-blank line is lost or reordered.

  /** The lines that are not the empty string, in order. */
  function NonBlank(lines: seq<string>): seq<string> {
    if |lines| == 0 then []
    else NonBlank(lines[..|lines| - 1]) + (if lines[|lines| - 1] == "" then [] else [lines[|lines| - 1]])
  }

  lemma {:induction false} NonBlankAppend(lines: seq<string>, line: string)
    ensures NonBlank(lines + [line]) == NonBlank(lines) + (if line == "" then [] else [line])
  {
    assert (lines + [line])[..|lines|] == lines;
  }

  lemma {:induction false} NonBlankConcat(a: seq<string>, b: seq<string>)
    ensures NonBlank(a + b) == NonBlank(a) + NonBlank(b)
    decreases |b|
  {
    if |b| == 0 {
      assert a + b == a;
    } else {
      var b' := b[..|b| - 1];
      InitLast(b);
      AppendAssoc(a, b', [b[|b| - 1]]);
      NonBlankAppend(a + b', b[|b| - 1]);
      NonBlankConcat(a, b');
      NonBlankAppend(b', b[|b| - 1]);
      AppendAssoc(NonBlank(a), NonBlank(b'), if b[|b| - 1] == "" then [] else [b[|b| - 1]]);
    }
  }

  /** All lines held by a state, in order. */
  function Held(st: State): seq<string> {
    Flatten(st.done) + st.open
  }

  /** Yielding the open paragraph moves its lines, in place. */
  lemma {:induction false} FlushHeld(done: seq<seq<string>>, open: seq<string>)
    ensures Flatten(Flush(done, open)) == Flatten(done) + open
  {
    if open != [] {
      FlattenAppend(done, open);
    } else {
      assert Flatten(done) + open == Flatten(done);
    }
  }

  /** A line added to the open paragraph comes last. */
  lemma {:induction false} OpenHeld(inCode: bool, open: seq<string>, done: seq<seq<string>>, line: string)
    ensures Held(State(inCode, open + [line], done)) == Held(State(inCode, open, done)) + [line]
  {
    AppendAssoc(Flatten(done), open, [line]);
  }

  /** A closing fence line ends the paragraph and comes last. */
  lemma {:induction false} CloseFenceHeld(st: State, line: string)
    ensures Held(State(false, [], Flush(st.done, st.open + [line]))) == Held(st) + [line]
  {
    FlushHeld(st.done, st.open + [line]);
    AppendAssoc(Flatten(st.done), st.open, [line]);
    assert Flatten(st.done) + (st.open + [line]) + [] == Flatten(st.done) + (st.open + [line]);
  }

  /** An opening fence line starts a new paragraph after the open one. */
  lemma {:induction false} OpenFenceHeld(st: State, line: string)
    ensures Held(State(true, [line], Flush(st.done, st.open))) == Held(st) + [line]
  {
    FlushHeld(st.done, st.open);
  }

  /** A header line is a paragraph of its own after the open one. */
  lemma {:induction false} HeaderHeld(st: State, line: string)
    ensures Held(State(false, [], Flush(st.done, st.open) + [[line]])) == Held(st) + [line]
  {
    FlushHeld(st.done, st.open);
    FlattenAppend(Flush(st.done, st.open), [line]);
    assert Flatten(Flush(st.done, st.open) + [[line]]) + [] == Flatten(Flush(st.done, st.open) + [[line]]);
  }

  /** A blank line yields the open paragraph. */
  lemma {:induction false} BlankHeld(st: State)
    ensures Held(State(false, [], st.done + [st.open])) == Held(st)
  {
    FlattenAppend(st.done, st.open);
    assert Flatten(st.done + [st.open]) + [] == Flatten(st.done + [st.open]);
  }

  lemma {:induction false} StepKeepsLines(st: State, line: string)
    ensures NonBlank(Held(Step(st, line))) == NonBlank(Held(st) + [line])
  {
    NonBlankAppend(Held(st), line);
    if st.inCode {
      if EndsWith(line, Fence) {
        CloseFenceHeld(st, line);
      } else {
        OpenHeld(true, st.open, st.done, line);
      }
    } else if StartsWith(line, Fence) {
      OpenFenceHeld(st, line);
    } else if line == "" && st.open != [] {
      BlankHeld(st);
    } else if StartsWith(line, "#") {
      HeaderHeld(st, line);
    } else if line != "" {
      OpenHeld(false, st.open, st.done, line);
    }
  }

  lemma {:induction false} RunKeepsLines(lines: seq<string>)
    ensures NonBlank(Held(Run(lines))) == NonBlank(lines)
  {
    if |lines| > 0 {
      var init, last := lines[..|lines| - 1], lines[|lines| - 1];
      InitLast(lines);
      calc {
        NonBlank(Held(Run(lines)));
        NonBlank(Held(Step(Run(init), last)));
        { StepKeepsLines(Run(init), last); }
        NonBlank(Held(Run(init)) + [last]);
        { NonBlankAppend(Held(Run(init)), last); }
        NonBlank(Held(Run(init))) + (if last == "" then [] else [last]);
        { RunKeepsLines(init); }
        NonBlank(init) + (if last == "" then [] else [last]);
        { NonBlankAppend(init, last); }
        NonBlank(lines);
      }
    }
  }

  /** Reading the paragraphs' lines in order gives back every non-blank
      input line, in order: only blank lines are ever dropped. */
  lemma {:induction false} KeepsNonBlankLines(lines: seq<string>)
    ensures NonBlank(Flatten(Groups(lines))) == NonBlank(lines)
  {
    var st := Run(lines);
    RunKeepsLines(lines);
    if st.open != [] {
      FlattenAppend(st.done, st.open);
    } else {
      assert Held(st) == Flatten(st.done);
    }
  }

  // ---------------------------------------------------------------------
  // Fences.

  /** Once a fence is open, lines that do not close it, blank or not, are
      appended verbatim. */
  lemma {:induction false} InsideFence(pre: seq<string>, open: string, body: seq<string>)
    requires !Run(pre).inCode && StartsWith(open, Fence)
    requires forall j :: 0 <= j < |body| ==> !EndsWith(body[j], Fence)
    ensures Run(pre + [open] + body) == State(true, [open] + body, Groups(pre))
    decreases |body|
  {
    if |body| == 0 {
      assert pre + [open] + body == pre + [open];
      RunAppend(pre, open);
    } else {
      var b' := body[..|body| - 1];
      InsideFence(pre, open, b');
      assert pre + [open] + body == (pre + [open] + b') + [body[|body| - 1]];
      RunAppend(pre + [open] + b', body[|body| - 1]);
      assert [open] + b' + [body[|body| - 1]] == [open] + body;
    }
  }

  /** A fence, closed by the first later line ending in three backticks,
      becomes one paragraph holding every line from opener to closer. */
  lemma {:induction false} FenceParagraph(pre: seq<string>, open: string, body: seq<string>, close: string)
    requires !Run(pre).inCode && StartsWith(open, Fence)
    requires forall j :: 0 <= j < |body| ==> !EndsWith(body[j], Fence)
    requires EndsWith(close, Fence)
    ensures Run(pre + [open] + body + [close]) == State(false, [], Groups(pre) + [[open] + body + [close]])
  {
    InsideFence(pre, open, body);
    RunAppend(pre + [open] + body, close);
  }

  /** A fence never closed is yielded, with all its lines, at end of input. */
  lemma {:induction false} UnclosedFenceFlushed(pre: seq<string>, open: string, body: seq<string>)
    requires !Run(pre).inCode && StartsWith(open, Fence)
    requires forall j :: 0 <= j < |body| ==> !EndsWith(body[j], Fence)
    ensures Groups(pre + [open] + body) == Groups(pre) + [[open] + body]
  {
    InsideFence(pre, open, body);
  }
}
