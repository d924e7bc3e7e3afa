/** `paragraphs_to_cells` as `docs_nbgen.py` writes it. It differs from the
    copy in `bak/steps/paragraphs_to_cells.py`: paragraphs are classified by
    their own first characters, the header text is the first line with
    leading `#` and spaces removed, there is no id before the first header
    (and a fenced paragraph there raises a TypeError), empty paragraphs are
    not skipped, no cell is marked as a form, and its `cell_id` records the
    wrong id on a collision. */
module NbgenCells {
  import opened Strings
  import opened Lists
  import opened CellIds
  import C = Cells

  /** The loop's variables, the paragraphs each cell was made from, and
      whether the generator stopped on the TypeError. */
  datatype State = State(used: set<string>, lastHeader: Option<string>, contents: seq<string>,
                         cells: seq<C.Cell>, parts: seq<seq<string>>, raised: bool)

  const Start := State({}, None, [], [], [], false)

  function FlushMarkdown(st: State): (r: State)
    ensures r.contents == [] && r.lastHeader == st.lastHeader && r.raised == st.raised
  {
    if st.contents == [] then st
    else
      var a := CellIdAsWritten(st.used, st.lastHeader);
      State(a.1, st.lastHeader, [], st.cells + [C.Markdown(Join("\n\n", st.contents), a.0)], st.parts + [st.contents], st.raised)
  }

  /** The header text: the first line without its leading `#` and spaces. */
  function HeaderText(p: string): string {
    if SplitLines(p) == [] then "" else LStripChars(SplitLines(p)[0], {'#', ' '})
  }

  predicate IsFenced(p: string) {
    StartsWith(p, "```") && EndsWith(p, "```")
  }

  /** The code cell of a fenced paragraph; `None + '-code'` raises. */
  function AddCode(st: State, p: string): State {
    if st.lastHeader.None? then st.(raised := true)
    else
      var source := Join("\n", C.Inner(SplitLines(p)));
      var a := CellIdAsWritten(st.used, Some(st.lastHeader.value + "-code"));
      st.(used := a.1, cells := st.cells + [C.Code(source, a.0, false)], parts := st.parts + [[p]])
  }

  function Step(st: State, p: string): State {
    if st.raised then st
    else if StartsWith(p, "#") then
      FlushMarkdown(st).(lastHeader := Some(HeaderText(p)), contents := [p])
    else if IsFenced(p) then AddCode(FlushMarkdown(st), p)
    else st.(contents := st.contents + [p])
  }

  function Run(ps: seq<string>): State {
    if |ps| == 0 then Start
    else Step(Run(ps[..|ps| - 1]), ps[|ps| - 1])
  }

  /** The state at the end: the final flush happens only without an error. */
  function Final(ps: seq<string>): State {
    var st := Run(ps);
    if st.raised then st else FlushMarkdown(st)
  }

  lemma {:induction false} RunAppend(ps: seq<string>, p: string)
    ensures Run(ps + [p]) == Step(Run(ps), p)
  {
    assert (ps + [p])[..|ps|] == ps;
  }

  // ---------------------------------------------------------------------
  // The loop, as the source runs it.

  /** `cell_id` of `docs_nbgen.py`, with its `while True` search, proved to
      compute `CellIdAsWritten`. */
  method NextCellIdAsWritten(used: set<string>, name: Option<string>) returns (id: Option<string>, used': set<string>)
    ensures (id, used') == CellIdAsWritten(used, name)
  {
    used' := used;
    if name.None? || name.value == "" {
      return None, used';
    }
    var slug := Slug(name.value);
    if slug !in used' {
      used' := used' + {slug};
      return Some(slug), used';
    }
    var i := 2;
    while true
      invariant 2 <= i && forall j :: 2 <= j < i ==> Numbered(slug, j) in used
      invariant FirstFree(used, slug, i) == FirstFree(used, slug, 2)
      decreases |used| + 2 - i
    {
      var numbered := slug + "-" + NatToString(i);
      if numbered !in used' {
        used' := used' + {slug};
        return Some(numbered), used';
      }
      Bound(used, slug, i + 1);
      i := i + 1;
    }
  }

  method EmitMarkdown(used: set<string>, lastHeader: Option<string>, contents: seq<string>, cells: seq<C.Cell>)
    returns (used': set<string>, cells': seq<C.Cell>)
    ensures var f := FlushMarkdown(State(used, lastHeader, contents, cells, [], false));
            used' == f.used && cells' == f.cells
  {
    used', cells' := used, cells;
    if contents != [] {
      var id;
      id, used' := NextCellIdAsWritten(used, lastHeader);
      cells' := cells' + [C.Markdown(Join("\n\n", contents), id)];
    }
  }

  /** One iteration of the loop, proved to perform `Step` on the loop's
      variables. */
  method StepParagraph(used: set<string>, lastHeader: Option<string>, contents: seq<string>, cells: seq<C.Cell>, paragraph: string)
    returns (used': set<string>, lastHeader': Option<string>, contents': seq<string>, cells': seq<C.Cell>, raised: bool)
    ensures var st := Step(State(used, lastHeader, contents, cells, [], false), paragraph);
      st.raised == raised && st.used == used' && st.lastHeader == lastHeader' && st.contents == contents' && st.cells == cells'
  {
    used', lastHeader', contents', cells', raised := used, lastHeader, contents, cells, false;
    if StartsWith(paragraph, "#") {
      used', cells' := EmitMarkdown(used, lastHeader, contents, cells);
      contents' := [paragraph];
      lastHeader' := Some(HeaderText(paragraph));
    } else if StartsWith(paragraph, "```") && EndsWith(paragraph, "```") {
      used', cells' := EmitMarkdown(used, lastHeader, contents, cells);
      contents' := [];
      if lastHeader.None? {
        return used', lastHeader', contents', cells', true;
      }
      var id;
      id, used' := NextCellIdAsWritten(used', Some(lastHeader.value + "-code"));
      cells' := cells' + [C.Code(Join("\n", C.Inner(SplitLines(paragraph))), id, false)];
    } else {
      contents' := contents + [paragraph];
    }
  }

  /** `paragraphs_to_cells` of `docs_nbgen.py`, proved to yield the cells of
      `Final(ps)` and to stop exactly when it raises. */
  method ParagraphsToCells(ps: seq<string>) returns (cells: seq<C.Cell>, raised: bool)
    ensures cells == Final(ps).cells && raised == Final(ps).raised
  {
    var used: set<string> := {};
    var lastHeader: Option<string> := None;
    var contents: seq<string> := [];
    cells, raised := [], false;
    var i := 0;
    while i < |ps|
      invariant 0 <= i <= |ps| && !raised
      invariant var st := Run(ps[..i]);
        !st.raised && st.used == used && st.lastHeader == lastHeader && st.contents == contents && st.cells == cells
    {
      RunAppend(ps[..i], ps[i]);
      TakeNext(ps, i);
      ghost var st := Run(ps[..i]);
      StepIgnoresParts(st, ps[i]);
      used, lastHeader, contents, cells, raised := StepParagraph(used, lastHeader, contents, cells, ps[i]);
      i := i + 1;
      if raised {
        RaiseStops(ps, i);
        return;
      }
    }
    assert ps[..|ps|] == ps;
    StepIgnoresParts(Run(ps), "");
    used, cells := EmitMarkdown(used, lastHeader, contents, cells);
  }

  /** The loop's variables after a step do not depend on `parts`. */
  lemma {:induction false} StepIgnoresParts(st: State, p: string)
    requires !st.raised
    ensures var a := Step(st, p);
            var b := Step(st.(parts := []), p);
            a.raised == b.raised && a.used == b.used && a.lastHeader == b.lastHeader && a.contents == b.contents && a.cells == b.cells
    ensures FlushMarkdown(st).cells == FlushMarkdown(st.(parts := [])).cells
  {
  }

  lemma {:induction false} RaiseStops(ps: seq<string>, i: nat)
    requires 0 < i <= |ps| && Run(ps[..i]).raised
    ensures Run(ps) == Run(ps[..i])
    decreases |ps| - i
  {
    if i < |ps| {
      TakeNext(ps, i);
      RaiseStops(ps, i + 1);
    } else {
      assert ps[..i] == ps;
    }
  }

  // ---------------------------------------------------------------------
  // Ids.

  /** A fenced paragraph before any header raises a TypeError, after the
      pending markdown cell is yielded. */
  lemma {:induction false} CodeBeforeHeaderRaises(pre: seq<string>, p: string)
    requires forall j :: 0 <= j < |pre| ==> !StartsWith(pre[j], "#")
    requires IsFenced(p) && !StartsWith(p, "#")
    ensures Run(pre + [p]).raised
  {
    NoHeaderNoName(pre);
    RunAppend(pre, p);
  }

  lemma {:induction false} NoHeaderNoName(pre: seq<string>)
    requires forall j :: 0 <= j < |pre| ==> !StartsWith(pre[j], "#")
    ensures Run(pre).lastHeader.None?
  {
    if |pre| > 0 {
      NoHeaderNoName(pre[..|pre| - 1]);
    }
  }

  /** Three header paragraphs in a row: the second and third markdown cells
      get the same id, while the first differs. */
  lemma {:induction false} RepeatedHeaderIds(h: string)
    requires StartsWith(h, "#") && HeaderText(h) != ""
    ensures |Final([h, h, h]).cells| == 3 && !Final([h, h, h]).raised
    ensures Final([h, h, h]).cells[1].id == Final([h, h, h]).cells[2].id
    ensures Final([h, h, h]).cells[0].id != Final([h, h, h]).cells[1].id
  {
    var name := HeaderText(h);
    assert [h, h, h][..2] == [h, h] && [h, h][..1] == [h] && [h][..0] == [];
    var s1 := Step(Start, h);
    assert s1 == State({}, Some(name), [h], [], [], false);
    var s2 := Step(s1, h);
    var s3 := Step(s2, h);
    assert Run([h]) == s1;
    assert Run([h, h]) == s2;
    assert Run([h, h, h]) == s3;
    AsWrittenRepeats({}, name);
  }

  // ---------------------------------------------------------------------
  // What the cells are made of.

  function Held(st: State): seq<string> {
    Flatten(st.parts) + st.contents
  }

  lemma {:induction false} FlushHeld(st: State)
    ensures Held(FlushMarkdown(st)) == Held(st)
  {
    FlattenAppend(st.parts, st.contents);
  }

  lemma {:induction false} StepHeld(st: State, p: string)
    requires !Step(st, p).raised
    ensures Held(Step(st, p)) == Held(st) + [p]
  {
    FlushHeld(st);
    var f := FlushMarkdown(st);
    if StartsWith(p, "#") {
      assert Held(f) == Flatten(f.parts);
    } else if IsFenced(p) {
      FlattenAppend(f.parts, [p]);
      assert Held(f) == Flatten(f.parts);
    }
  }

  lemma {:induction false} RunHeld(ps: seq<string>)
    requires !Run(ps).raised
    ensures Held(Run(ps)) == ps
  {
    if |ps| > 0 {
      var init := ps[..|ps| - 1];
      assert !Run(init).raised;
      RunHeld(init);
      StepHeld(Run(init), ps[|ps| - 1]);
      InitLast(ps);
    }
  }

  /** Without the error, every paragraph, empty ones included, lands in
      exactly one cell, in order. */
  lemma {:induction false} CellsCoverParagraphs(ps: seq<string>)
    requires !Final(ps).raised
    ensures Flatten(Final(ps).parts) == ps
  {
    RunHeld(ps);
    FlushHeld(Run(ps));
    assert Held(Final(ps)) == Flatten(Final(ps).parts);
  }

  /** Markdown cells join their paragraphs with a blank line, and code cells
      hold the lines between the fence lines of one fenced paragraph. */
  predicate CellMatches(c: C.Cell, part: seq<string>) {
    match c
    case Markdown(source, _) => part != [] && source == Join("\n\n", part)
    case Code(source, _, form) =>
      |part| == 1 && IsFenced(part[0]) && source == Join("\n", C.Inner(SplitLines(part[0]))) && !form
  }

  predicate Shaped(st: State) {
    |st.parts| == |st.cells| && forall k :: 0 <= k < |st.cells| ==> CellMatches(st.cells[k], st.parts[k])
  }

  lemma {:induction false} StepShaped(st: State, p: string)
    requires Shaped(st)
    ensures Shaped(Step(st, p)) && Shaped(FlushMarkdown(st))
  {
    if !st.raised && !StartsWith(p, "#") && IsFenced(p) {
      var f := FlushMarkdown(st);
      var s := AddCode(f, p);
      if !s.raised {
        assert CellMatches(s.cells[|s.cells| - 1], s.parts[|s.parts| - 1]);
      }
    }
  }

  lemma {:induction false} RunShaped(ps: seq<string>)
    ensures Shaped(Run(ps))
  {
    if |ps| > 0 {
      RunShaped(ps[..|ps| - 1]);
      StepShaped(Run(ps[..|ps| - 1]), ps[|ps| - 1]);
    }
  }

  /** Each cell matches the paragraphs it was made from. */
  lemma {:induction false} CellsShape(ps: seq<string>)
    ensures |Final(ps).parts| == |Final(ps).cells|
    ensures forall k :: 0 <= k < |Final(ps).cells| ==> CellMatches(Final(ps).cells[k], Final(ps).parts[k])
  {
    RunShaped(ps);
    StepShaped(Run(ps), "");
  }
}
