/** The annotation-aware paragraph segmenter of `bak/read/paragraphs.py`.
    Lines are classified after their `{: ... }` annotations are removed, but
    the raw lines are what the paragraphs keep. A paragraph made of a single
    annotation line is glued onto the fence or header that follows it, and an
    annotation-only line that follows a header or a closing fence is glued
    onto that paragraph. */
module AnnotatedParagraphs {
  import opened Strings
  import opened Lists
  import opened Attributes
  import P = Paragraphs

  const Fence: string := "```"

  /** The loop's variables: `is_paragraph_done`, `in_code_block`,
      `paragraph_lines`, and the paragraphs yielded so far (as line groups). */
  datatype State = State(paragraphDone: bool, inCode: bool, open: seq<string>, done: seq<seq<string>>)

  function Flush(done: seq<seq<string>>, open: seq<string>): (r: seq<seq<string>>)
    ensures open == [] ==> r == done
    ensures open != [] ==> r == done + [open]
  {
    if open != [] then done + [open] else done
  }

  /** The pending paragraph is a lone annotation line, so the next fence or
      header line joins it instead of starting a paragraph of its own. */
  predicate Attached(open: seq<string>) {
    |open| == 1 && StartsWithAnnotation(open[0])
  }

  /** A line that is nothing but annotations: non-empty before stripping,
      empty after. */
  predicate AnnotationOnly(raw: string) {
    raw != "" && StripAnnotations(raw) == ""
  }

  /** A fence or header line: flush the pending paragraph unless it is
      `Attached`, in which case the line joins it. */
  function Start(st: State, raw: string, paragraphDone: bool, inCode: bool): State {
    if Attached(st.open) then State(paragraphDone, inCode, st.open + [raw], st.done)
    else State(paragraphDone, inCode, [raw], Flush(st.done, st.open))
  }

  /** The body of the loop once the "paragraph done" flag is cleared;
      `line` is `raw` with its annotations removed. */
  function Classify(st: State, raw: string, line: string): State {
    if st.inCode then
      var closes := StartsWith(line, Fence);
      State(closes, !closes, st.open + [raw], st.done)
    else if StartsWith(line, Fence) then Start(st, raw, false, true)
    else if StartsWith(line, "#") then Start(st, raw, true, false)
    else if raw != "" then State(false, false, st.open + [raw], st.done)
    else State(false, false, [], Flush(st.done, st.open))
  }

  /** One iteration of the loop over the raw lines. */
  function Step(st: State, raw: string): State {
    if st.paragraphDone && st.open != [] && AnnotationOnly(raw) then
      // A trailing annotation line closes the finished paragraph and is consumed.
      State(false, st.inCode, [], st.done + [st.open + [raw]])
    else
      var cleared := if st.paragraphDone then State(false, st.inCode, [], Flush(st.done, st.open)) else st;
      Classify(cleared, raw, StripAnnotations(raw))
  }

  function Run(lines: seq<string>): State {
    if |lines| == 0 then State(false, false, [], [])
    else Step(Run(lines[..|lines| - 1]), lines[|lines| - 1])
  }

  /** The paragraphs as line groups, after the final flush. */
  function Groups(lines: seq<string>): seq<seq<string>> {
    var st := Run(lines);
    Flush(st.done, st.open)
  }

  /** The yielded paragraphs: each group joined with newlines. */
  function Paragraphs(lines: seq<string>): seq<string> {
    P.JoinEach(Groups(lines))
  }

  lemma {:induction false} RunAppend(lines: seq<string>, raw: string)
    ensures Run(lines + [raw]) == Step(Run(lines), raw)
  {
    assert (lines + [raw])[..|lines|] == lines;
  }

  /** One loop iteration of the source, proved to perform `Step`. */
  method StepLine(paragraphDone: bool, inCode: bool, open: seq<string>, done: seq<seq<string>>, raw: string)
    returns (paragraphDone': bool, inCode': bool, open': seq<string>, done': seq<seq<string>>)
    ensures State(paragraphDone', inCode', open', done') == Step(State(paragraphDone, inCode, open, done), raw)
  {
    var line := StripAnnotations(raw);
    paragraphDone', inCode', open', done' := paragraphDone, inCode, open, done;
    if paragraphDone' {
      paragraphDone' := false;
      if open' != [] {
        var trailing := raw != "" && line == "";
        if trailing {
          open' := open' + [raw];
        }
        done' := done' + [open'];
        open' := [];
        if trailing {
          return;
        }
      }
    }
    if inCode' {
      open' := open' + [raw];
      if StartsWith(line, Fence) {
        inCode' := false;
        paragraphDone' := true;
      }
    } else if StartsWith(line, Fence) {
      inCode' := true;
      if |open'| == 1 && StartsWithAnnotation(open'[0]) {
        open' := open' + [raw];
      } else {
        if open' != [] {
          done' := done' + [open'];
        }
        open' := [raw];
      }
    } else if StartsWith(line, "#") {
      if |open'| == 1 && StartsWithAnnotation(open'[0]) {
        open' := open' + [raw];
      } else {
        if open' != [] {
          done' := done' + [open'];
        }
        open' := [raw];
      }
      paragraphDone' := true;
    } else if raw != "" {
      open' := open' + [raw];
    } else {
      if open' != [] {
        done' := done' + [open'];
      }
      open' := [];
    }
  }

  /** The segmentation loop, proved to yield `Paragraphs(lines)`. */
  method Segment(lines: seq<string>) returns (paragraphs: seq<string>)
    ensures paragraphs == Paragraphs(lines)
  {
    var paragraphDone, inCode := false, false;
    var open: seq<string> := [];
    var done: seq<seq<string>> := [];
    var i := 0;
    while i < |lines|
      invariant 0 <= i <= |lines|
      invariant Run(lines[..i]) == State(paragraphDone, inCode, open, done)
    {
      RunAppend(lines[..i], lines[i]);
      TakeNext(lines, i);
      paragraphDone, inCode, open, done := StepLine(paragraphDone, inCode, open, done, lines[i]);
      i := i + 1;
    }
    assert lines[..|lines|] == lines;
    if open != [] {
      done := done + [open];
    }
    paragraphs := P.JoinEach(done);
  }

  // ---------------------------------------------------------------------
  // Gluing annotations onto fences and headers.

  /** A pending lone annotation line is glued onto the fence or header line
      that follows it: both end up in the same paragraph, nothing is yielded. */
  lemma {:induction false} AnnotationJoinsNext(done: seq<seq<string>>, annotation: string, raw: string)
    requires StartsWithAnnotation(annotation)
    requires StartsWith(StripAnnotations(raw), Fence) || StartsWith(StripAnnotations(raw), "#")
    ensures Step(State(false, false, [annotation], done), raw).open == [annotation, raw]
    ensures Step(State(false, false, [annotation], done), raw).done == done
  {
  }

  /** Without a pending lone annotation, a fence or header line yields the
      pending paragraph and starts a new one. */
  lemma {:induction false} HeaderStartsParagraph(st: State, raw: string)
    requires !st.paragraphDone && !st.inCode && !Attached(st.open)
    requires StartsWith(StripAnnotations(raw), Fence) || StartsWith(StripAnnotations(raw), "#")
    ensures Step(st, raw).open == [raw]
    ensures Step(st, raw).done == Flush(st.done, st.open)
  {
  }

  /** An annotation-only line right after a header (or a closing fence) is
      glued onto that paragraph, which is then yielded. */
  lemma {:induction false} TrailingAnnotationJoins(st: State, raw: string)
    requires st.paragraphDone && st.open != [] && AnnotationOnly(raw)
    ensures Step(st, raw) == State(false, st.inCode, [], st.done + [st.open + [raw]])
  {
  }

  /** A header paragraph is finished: after it, the next line that is not an
      annotation-only line yields it and starts over. */
  lemma {:induction false} HeaderIsFinished(st: State, header: string)
    requires !st.paragraphDone && !st.inCode && StartsWith(StripAnnotations(header), "#")
    ensures Step(st, header).paragraphDone && Step(st, header).open != []
  {
  }

  // ---------------------------------------------------------------------
  // Fences.

  /** Inside a fence every raw line is appended, and a line closes the fence
      exactly when, annotations removed, it starts with three backticks. */
  lemma {:induction false} InsideFence(st: State, raw: string)
    requires !st.paragraphDone && st.inCode
    ensures Step(st, raw).open == st.open + [raw] && Step(st, raw).done == st.done
    ensures !Step(st, raw).inCode <==> StartsWith(StripAnnotations(raw), Fence)
    ensures Step(st, raw).paragraphDone <==> StartsWith(StripAnnotations(raw), Fence)
  {
  }

  // ---------------------------------------------------------------------
  // No line but the empty string is dropped, and nothing is reordered.

  function Held(st: State): seq<string> {
    Flatten(st.done) + st.open
  }

  lemma {:induction false} StepKeepsLines(st: State, raw: string)
    ensures P.NonBlank(Held(Step(st, raw))) == P.NonBlank(Held(st) + [raw])
  {
    if st.paragraphDone && st.open != [] && AnnotationOnly(raw) {
      TrailingKeepsLines(st, raw);
    } else {
      var c := if st.paragraphDone then State(false, st.inCode, [], Flush(st.done, st.open)) else st;
      FlattenAppend(st.done, st.open);
      assert Held(c) == Held(st);
      ClassifyKeepsLines(c, raw, StripAnnotations(raw));
    }
  }

  lemma {:induction false} TrailingKeepsLines(st: State, raw: string)
    ensures Held(State(false, st.inCode, [], st.done + [st.open + [raw]])) == Held(st) + [raw]
  {
    FlattenAppend(st.done, st.open + [raw]);
  }

  lemma {:induction false} ClassifyKeepsLines(st: State, raw: string, line: string)
    requires |line| <= |raw|
    ensures P.NonBlank(Held(Classify(st, raw, line))) == P.NonBlank(Held(st) + [raw])
  {
    var s := Classify(st, raw, line);
    FlattenAppend(st.done, st.open);
    P.NonBlankAppend(Held(st), raw);
    if st.inCode {
      assert Held(s) == Held(st) + [raw];
    } else if StartsWith(line, Fence) || StartsWith(line, "#") {
      if Attached(st.open) {
        assert Held(s) == Held(st) + [raw];
      } else {
        var f := Flush(st.done, st.open);
        FlattenAppend(f, [raw]);
        assert Flatten(f) == Held(st);
        assert Held(s) == Flatten(f + [[raw]]);
      }
    } else if raw != "" {
      assert Held(s) == Held(st) + [raw];
    } else {
      assert Flatten(Flush(st.done, st.open)) == Held(st);
      assert Held(s) == Held(st);
    }
  }

  lemma {:induction false} RunKeepsLines(lines: seq<string>)
    ensures P.NonBlank(Held(Run(lines))) == P.NonBlank(lines)
  {
    if |lines| > 0 {
      var init, last := lines[..|lines| - 1], lines[|lines| - 1];
      InitLast(lines);
      StepKeepsLines(Run(init), last);
      P.NonBlankAppend(Held(Run(init)), last);
      RunKeepsLines(init);
      P.NonBlankAppend(init, last);
    }
  }

  /** Reading the paragraphs' raw lines in order gives back every input line
      that is not the empty string, in order: annotations are never removed
      from the output, and only empty lines are ever dropped. */
  lemma {:induction false} KeepsRawLines(lines: seq<string>)
    ensures P.NonBlank(Flatten(Groups(lines))) == P.NonBlank(lines)
  {
    var st := Run(lines);
    RunKeepsLines(lines);
    FlattenAppend(st.done, st.open);
    if st.open == [] {
      assert Held(st) == Flatten(st.done);
    }
  }

  // ---------------------------------------------------------------------
  // No empty paragraph.

  /** Every group, and the pending one, starts with a non-empty line. */
  predicate Inv(st: State) {
    (forall k :: 0 <= k < |st.done| ==> |st.done[k]| > 0 && st.done[k][0] != "")
    && (st.open != [] ==> st.open[0] != "")
    && (st.inCode ==> st.open != [])
    && (st.paragraphDone ==> !st.inCode)
  }

  lemma {:induction false} StepInv(st: State, raw: string)
    requires Inv(st)
    ensures Inv(Step(st, raw))
  {
    if !(st.paragraphDone && st.open != [] && AnnotationOnly(raw)) {
      var c := if st.paragraphDone then State(false, st.inCode, [], Flush(st.done, st.open)) else st;
      assert Inv(c);
      ClassifyInv(c, raw, StripAnnotations(raw));
    }
  }

  lemma {:induction false} ClassifyInv(st: State, raw: string, line: string)
    requires Inv(st) && !st.paragraphDone && |line| <= |raw|
    ensures Inv(Classify(st, raw, line))
  {
    if !st.inCode && (StartsWith(line, Fence) || StartsWith(line, "#")) {
      assert raw != "";
    }
  }

  lemma {:induction false} RunInv(lines: seq<string>)
    ensures Inv(Run(lines))
  {
    if |lines| > 0 {
      RunInv(lines[..|lines| - 1]);
      StepInv(Run(lines[..|lines| - 1]), lines[|lines| - 1]);
    }
  }

  /** No yielded paragraph is the empty string: each starts with a line that
      is not empty. */
  lemma {:induction false} NoEmptyParagraph(lines: seq<string>)
    ensures forall k :: 0 <= k < |Groups(lines)| ==> |Groups(lines)[k]| > 0 && Groups(lines)[k][0] != ""
  {
    RunInv(lines);
  }
}
