/** `paragraphs_to_cells` of `bak/steps/paragraphs_to_cells.py`: consecutive
    text paragraphs become one markdown cell, a header paragraph starts a new
    one, and a fenced paragraph becomes a code cell. Every cell gets an id
    derived from the last header seen. */
module Cells {
  import opened Strings
  import opened Lists
  import opened CellIds

  /** A notebook cell: its source, its `id` metadata, and for code cells
      whether `cellView: form` is set. */
  datatype Cell = Markdown(source: string, id: Option<string>) | Code(source: string, id: Option<string>, form: bool)

  /** The paragraph's first line starts with `#`. */
  predicate IsHeaderParagraph(p: string) {
    SplitLines(p) != [] && StartsWith(SplitLines(p)[0], "#")
  }

  /** The paragraph's first and last lines start with three backticks. */
  predicate IsCodeParagraph(p: string) {
    var lines := SplitLines(p);
    lines != [] && StartsWith(lines[0], "```") && StartsWith(lines[|lines| - 1], "```")
  }

  /** `lines[1:-1]`. */
  function Inner(lines: seq<string>): (r: seq<string>)
    ensures |r| == if |lines| < 2 then 0 else |lines| - 2
    ensures forall j :: 0 <= j < |r| ==> r[j] == lines[j + 1]
  {
    if |lines| < 2 then [] else lines[1..|lines| - 1]
  }

  /** `lines[1:-1]` with the first and last lines put back around it gives
      the lines again, so nothing but the two fence lines is dropped. */
  lemma {:induction false} InnerFrame(lines: seq<string>)
    requires |lines| >= 2
    ensures [lines[0]] + Inner(lines) + [lines[|lines| - 1]] == lines
  {
    var r := [lines[0]] + Inner(lines) + [lines[|lines| - 1]];
    assert |r| == |lines|;
    forall j | 0 <= j < |lines|
      ensures r[j] == lines[j]
    {
    }
  }

  /** The header text: leading `#`s removed, then surrounding whitespace. */
  function HeaderText(line: string): string {
    Strip(LStripChars(line, {'#'}))
  }

  /** A code source with `#@title` or `#@param` is shown as a form. */
  predicate IsFormSource(source: string) {
    Contains(source, "#@title") || Contains(source, "#@param")
  }

  /** The loop's variables, plus the paragraphs each yielded cell was made
      from (`parts`), which the loop itself does not keep. */
  datatype State = State(used: set<string>, lastHeader: string, contents: seq<string>, cells: seq<Cell>, parts: seq<seq<string>>)

  const Start := State({}, "_", [], [], [])

  /** Yields the pending markdown cell, if any, with the id of the last
      header. */
  function FlushMarkdown(st: State): (r: State)
    ensures r.contents == [] && r.lastHeader == st.lastHeader
  {
    if st.contents == [] then st
    else
      var a := CellId(st.used, st.lastHeader);
      State(a.used, st.lastHeader, [], st.cells + [Markdown(Join("\n\n", st.contents), Some(a.id))], st.parts + [st.contents])
  }

  /** The code cell of a fenced paragraph, after the pending markdown. */
  function AddCode(st: State, p: string): State {
    var source := Join("\n", Inner(SplitLines(p)));
    var a := CellId(st.used, st.lastHeader + "-code");
    State(a.used, st.lastHeader, st.contents, st.cells + [Code(source, Some(a.id), IsFormSource(source))], st.parts + [[p]])
  }

  function Step(st: State, p: string): State {
    var lines := SplitLines(p);
    if lines == [] then st
    else if StartsWith(lines[0], "#") then
      var f := FlushMarkdown(st);
      State(f.used, HeaderText(lines[0]), [p], f.cells, f.parts)
    else if StartsWith(lines[0], "```") && StartsWith(lines[|lines| - 1], "```") then
      AddCode(FlushMarkdown(st), p)
    else
      State(st.used, st.lastHeader, st.contents + [p], st.cells, st.parts)
  }

  function Run(ps: seq<string>): State {
    if |ps| == 0 then Start
    else Step(Run(ps[..|ps| - 1]), ps[|ps| - 1])
  }

  /** The state after the final flush. */
  function Final(ps: seq<string>): State {
    FlushMarkdown(Run(ps))
  }

  /** The cells yielded for `ps`. */
  function Cells(ps: seq<string>): seq<Cell> {
    Final(ps).cells
  }

  lemma {:induction false} RunAppend(ps: seq<string>, p: string)
    ensures Run(ps + [p]) == Step(Run(ps), p)
  {
    assert (ps + [p])[..|ps|] == ps;
  }

  // ---------------------------------------------------------------------
  // The loop, as the source runs it.

  /** The markdown cell yield, proved to do what `FlushMarkdown` does. */
  method EmitMarkdown(used: set<string>, lastHeader: string, contents: seq<string>, cells: seq<Cell>)
    returns (used': set<string>, cells': seq<Cell>)
    ensures var f := FlushMarkdown(State(used, lastHeader, contents, cells, []));
            used' == f.used && cells' == f.cells
  {
    used', cells' := used, cells;
    if contents != [] {
      var id;
      id, used' := NextCellId(used, lastHeader);
      cells' := cells' + [Markdown(Join("\n\n", contents), Some(id))];
    }
  }

  /** `paragraphs_to_cells`, proved to yield `Cells(ps)`. */
  method ParagraphsToCells(ps: seq<string>) returns (cells: seq<Cell>)
    ensures cells == Cells(ps)
  {
    var used: set<string> := {};
    var lastHeader := "_";
    var contents: seq<string> := [];
    cells := [];
    var i := 0;
    while i < |ps|
      invariant 0 <= i <= |ps|
      invariant var st := Run(ps[..i]);
        st.used == used && st.lastHeader == lastHeader && st.contents == contents && st.cells == cells
    {
      var paragraph := ps[i];
      RunAppend(ps[..i], paragraph);
      TakeNext(ps, i);
      i := i + 1;
      var lines := SplitLines(paragraph);
      if lines == [] {
        continue;
      }
      if StartsWith(lines[0], "#") {
        used, cells := EmitMarkdown(used, lastHeader, contents, cells);
        contents := [paragraph];
        lastHeader := HeaderText(lines[0]);
      } else if StartsWith(lines[0], "```") && StartsWith(lines[|lines| - 1], "```") {
        used, cells := EmitMarkdown(used, lastHeader, contents, cells);
        contents := [];
        var source := Join("\n", Inner(lines));
        var id;
        id, used := NextCellId(used, lastHeader + "-code");
        var form := Contains(source, "#@title") || Contains(source, "#@param");
        cells := cells + [Code(source, Some(id), form)];
      } else {
        contents := contents + [paragraph];
      }
    }
    assert ps[..|ps|] == ps;
    used, cells := EmitMarkdown(used, lastHeader, contents, cells);
  }

  // ---------------------------------------------------------------------
  // Every non-empty paragraph lands in exactly one cell, in order.

  /** The paragraphs that are not the empty string, in order. */
  function NonEmpty(ps: seq<string>): seq<string> {
    if |ps| == 0 then []
    else NonEmpty(ps[..|ps| - 1]) + (if ps[|ps| - 1] == "" then [] else [ps[|ps| - 1]])
  }

  function Held(st: State): seq<string> {
    Flatten(st.parts) + st.contents
  }

  lemma {:induction false} FlushHeld(st: State)
    ensures Held(FlushMarkdown(st)) == Held(st)
  {
    FlattenAppend(st.parts, st.contents);
  }

  lemma {:induction false} StepHeld(st: State, p: string)
    ensures Held(Step(st, p)) == Held(st) + (if p == "" then [] else [p])
  {
    var lines := SplitLines(p);
    FlushHeld(st);
    if lines == [] {
    } else if StartsWith(lines[0], "#") {
      var f := FlushMarkdown(st);
      assert Held(f) == Flatten(f.parts);
    } else if StartsWith(lines[0], "```") && StartsWith(lines[|lines| - 1], "```") {
      var f := FlushMarkdown(st);
      FlattenAppend(f.parts, [p]);
      assert Held(f) == Flatten(f.parts);
    }
  }

  lemma {:induction false} RunHeld(ps: seq<string>)
    ensures Held(Run(ps)) == NonEmpty(ps)
  {
    if |ps| > 0 {
      RunHeld(ps[..|ps| - 1]);
      StepHeld(Run(ps[..|ps| - 1]), ps[|ps| - 1]);
    }
  }

  /** Reading the cells' paragraphs in order gives back every non-empty
      paragraph, in order: none is lost, duplicated or moved, and empty
      paragraphs are skipped. */
  lemma {:induction false} CellsCoverParagraphs(ps: seq<string>)
    ensures Flatten(Final(ps).parts) == NonEmpty(ps)
  {
    RunHeld(ps);
    FlushHeld(Run(ps));
    assert Final(ps).contents == [];
    assert Held(Final(ps)) == Flatten(Final(ps).parts);
  }

  // ---------------------------------------------------------------------
  // What each cell is made of.

  /** A markdown cell joins its paragraphs with a blank line; only its first
      paragraph can be a header, and none is fenced. A code cell holds one
      fenced paragraph, its source is the lines between the fence lines, and
      it is a form exactly when the source has `#@title` or `#@param`. */
  predicate CellMatches(c: Cell, part: seq<string>) {
    match c
    case Markdown(source, _) =>
      part != [] && source == Join("\n\n", part)
      && (forall j :: 0 <= j < |part| ==> part[j] != "" && (j > 0 ==> !IsHeaderParagraph(part[j])))
      && (forall j :: 0 <= j < |part| ==> !IsHeaderParagraph(part[j]) ==> !IsCodeParagraph(part[j]))
    case Code(source, _, form) =>
      |part| == 1 && IsCodeParagraph(part[0]) && !IsHeaderParagraph(part[0])
      && source == Join("\n", Inner(SplitLines(part[0])))
      && (form <==> IsFormSource(source))
  }

  predicate Shaped(st: State) {
    |st.parts| == |st.cells|
    && (forall k :: 0 <= k < |st.cells| ==> CellMatches(st.cells[k], st.parts[k]))
    && (forall j :: 0 <= j < |st.contents| ==> st.contents[j] != "" && (j > 0 ==> !IsHeaderParagraph(st.contents[j])))
    && (forall j :: 0 <= j < |st.contents| ==> !IsHeaderParagraph(st.contents[j]) ==> !IsCodeParagraph(st.contents[j]))
  }

  lemma {:induction false} FlushShaped(st: State)
    requires Shaped(st)
    ensures Shaped(FlushMarkdown(st))
  {
  }

  /** A header paragraph starts the pending markdown afresh. */
  lemma {:induction false} HeaderStepShaped(f: State, p: string, header: string)
    requires Shaped(f) && IsHeaderParagraph(p)
    ensures Shaped(State(f.used, header, [p], f.cells, f.parts))
  {
    assert p != "";
  }

  /** A fenced paragraph that is not a header becomes a matching code cell. */
  lemma {:induction false} CodeStepShaped(f: State, p: string)
    requires Shaped(f) && IsCodeParagraph(p) && !IsHeaderParagraph(p)
    ensures Shaped(AddCode(f, p))
  {
    var s := AddCode(f, p);
    assert s.cells[|s.cells| - 1] == Code(Join("\n", Inner(SplitLines(p))), s.cells[|s.cells| - 1].id, s.cells[|s.cells| - 1].form);
    assert CellMatches(s.cells[|s.cells| - 1], s.parts[|s.parts| - 1]);
    forall k | 0 <= k < |s.cells| - 1
      ensures CellMatches(s.cells[k], s.parts[k])
    {
      assert s.cells[k] == f.cells[k] && s.parts[k] == f.parts[k];
    }
  }

  /** Any other non-empty paragraph joins the pending markdown. */
  lemma {:induction false} PlainStepShaped(st: State, p: string)
    requires Shaped(st) && SplitLines(p) != [] && !IsHeaderParagraph(p) && !IsCodeParagraph(p)
    ensures Shaped(State(st.used, st.lastHeader, st.contents + [p], st.cells, st.parts))
  {
    assert p != "";
  }

  lemma {:induction false} StepShaped(st: State, p: string)
    requires Shaped(st)
    ensures Shaped(Step(st, p))
  {
    var lines := SplitLines(p);
    if lines != [] {
      FlushShaped(st);
      var f := FlushMarkdown(st);
      if StartsWith(lines[0], "#") {
        HeaderStepShaped(f, p, HeaderText(lines[0]));
      } else if StartsWith(lines[0], "```") && StartsWith(lines[|lines| - 1], "```") {
        CodeStepShaped(f, p);
      } else {
        PlainStepShaped(st, p);
      }
    }
  }

  lemma {:induction false} RunShaped(ps: seq<string>)
    ensures Shaped(Run(ps))
  {
    if |ps| > 0 {
      RunShaped(ps[..|ps| - 1]);
      StepShaped(Run(ps[..|ps| - 1]), ps[|ps| - 1]);
    }
  }

  /** Each cell matches the paragraphs it was made from. */
  lemma {:induction false} CellsShape(ps: seq<string>)
    ensures |Final(ps).parts| == |Cells(ps)|
    ensures forall k :: 0 <= k < |Cells(ps)| ==> CellMatches(Cells(ps)[k], Final(ps).parts[k])
  {
    RunShaped(ps);
    FlushShaped(Run(ps));
  }

  // ---------------------------------------------------------------------
  // Ids.

  /** Every cell has an id; the non-empty ones are recorded and distinct. */
  predicate IdsDistinct(st: State) {
    (forall k :: 0 <= k < |st.cells| ==> st.cells[k].id.Some?)
    && (forall k :: 0 <= k < |st.cells| && st.cells[k].id.value != "" ==> st.cells[k].id.value in st.used)
    && (forall k, l :: 0 <= k < l < |st.cells| && st.cells[k].id.value != "" ==> st.cells[k].id.value != st.cells[l].id.value)
  }

  lemma {:induction false} AddIdDistinct(st: State, c: Cell, a: Alloc, name: string)
    requires IdsDistinct(st) && a == CellId(st.used, name) && c.id == Some(a.id)
    ensures IdsDistinct(State(a.used, st.lastHeader, st.contents, st.cells + [c], st.parts))
  {
    var cells := st.cells + [c];
    forall k, l | 0 <= k < l < |cells| && cells[k].id.value != ""
      ensures cells[k].id.value != cells[l].id.value
    {
      if l == |cells| - 1 && name != "" {
        assert cells[k].id.value in st.used;
      }
    }
  }

  lemma {:induction false} StepIds(st: State, p: string)
    requires IdsDistinct(st)
    ensures IdsDistinct(Step(st, p)) && IdsDistinct(FlushMarkdown(st))
  {
    if st.contents != [] {
      var a := CellId(st.used, st.lastHeader);
      AddIdDistinct(st, Markdown(Join("\n\n", st.contents), Some(a.id)), a, st.lastHeader);
    }
    var lines := SplitLines(p);
    if lines != [] && !StartsWith(lines[0], "#") && StartsWith(lines[0], "```") && StartsWith(lines[|lines| - 1], "```") {
      var f := FlushMarkdown(st);
      var source := Join("\n", Inner(lines));
      var a := CellId(f.used, f.lastHeader + "-code");
      AddIdDistinct(f, Code(source, Some(a.id), IsFormSource(source)), a, f.lastHeader + "-code");
    }
  }

  lemma {:induction false} RunIds(ps: seq<string>)
    ensures IdsDistinct(Run(ps))
  {
    if |ps| > 0 {
      RunIds(ps[..|ps| - 1]);
      StepIds(Run(ps[..|ps| - 1]), ps[|ps| - 1]);
    }
  }

  /** Every cell carries an id, and no two cells share a non-empty id. */
  lemma {:induction false} UniqueIds(ps: seq<string>)
    ensures forall k :: 0 <= k < |Cells(ps)| ==> Cells(ps)[k].id.Some?
    ensures forall k, l :: 0 <= k < l < |Cells(ps)| && Cells(ps)[k].id.value != "" ==>
      Cells(ps)[k].id.value != Cells(ps)[l].id.value
  {
    RunIds(ps);
    StepIds(Run(ps), "");
  }

  lemma {:induction false} SentinelSlug()
    ensures Slug("_") == "_"
  {
    assert IsSlug("_");
    SlugOfSlug("_");
  }

  lemma {:induction false} SentinelCodeSlug()
    ensures Slug("_-code") == "_-code"
  {
    var c := "_-code";
    assert c[0] == '_' && c[1] == '-' && c[2] == 'c' && c[3] == 'o' && c[4] == 'd' && c[5] == 'e';
    assert Dashed(c);
    SlugOfSlug(c);
  }

  lemma {:induction false} FirstCellId(name: string)
    requires name != ""
    ensures CellId({}, name) == Alloc(Slug(name), {Slug(name)})
  {
  }

  /** Before any header, ids derive from the sentinel `_`: a leading text
      paragraph's cell is `_`, a leading fenced paragraph's cell `_-code`. */
  lemma {:induction false} SentinelIds(p: string)
    requires p != "" && !IsHeaderParagraph(p)
    ensures IsCodeParagraph(p) ==> |Cells([p])| == 1 && Cells([p])[0].Code? && Cells([p])[0].id == Some("_-code")
    ensures !IsCodeParagraph(p) ==> Cells([p]) == [Markdown(p, Some("_"))]
  {
    assert [p][..0] == [];
    assert Run([p]) == Step(Start, p);
    var lines := SplitLines(p);
    assert lines != [] && !StartsWith(lines[0], "#");
    if IsCodeParagraph(p) {
      var st := AddCode(Start, p);
      assert Step(Start, p) == st;
      SentinelCodeSlug();
      FirstCellId("_-code");
      assert st.cells[0].id == Some("_-code");
    } else {
      var st := State({}, "_", [p], [], []);
      assert Step(Start, p) == st;
      SentinelSlug();
      FirstCellId("_");
      assert Join("\n\n", [p]) == p;
    }
  }
}
