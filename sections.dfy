/** Grouping paragraphs into sections: the loop of `read/sections.py` and its
    textual copy `paragraphs_to_sections` in `docs_nbgen.py`. A section starts
    at every paragraph whose first character is `#`. */
module Sections {
  import opened Strings
  import opened Lists

  /** The loop indexes `paragraph[0]`, so every paragraph must be non-empty. */
  predicate AllNonEmpty(paragraphs: seq<string>) {
    forall i :: 0 <= i < |paragraphs| ==> paragraphs[i] != ""
  }

  predicate IsHeader(paragraph: string) {
    StartsWith(paragraph, "#")
  }

  datatype State = State(headerFound: bool, section: seq<string>, done: seq<seq<string>>)

  function Step(st: State, paragraph: string, startOnHeader: bool): State {
    if IsHeader(paragraph) then
      var done := if st.section != [] && (!startOnHeader || st.headerFound) then st.done + [st.section] else st.done;
      State(true, [paragraph], done)
    else
      State(st.headerFound, st.section + [paragraph], st.done)
  }

  function Run(paragraphs: seq<string>, startOnHeader: bool): State {
    if |paragraphs| == 0 then State(false, [], [])
    else Step(Run(paragraphs[..|paragraphs| - 1], startOnHeader), paragraphs[|paragraphs| - 1], startOnHeader)
  }

  /** The sections yielded for `paragraphs`. */
  function Sections(paragraphs: seq<string>, startOnHeader: bool): seq<seq<string>> {
    var st := Run(paragraphs, startOnHeader);
    if st.section != [] then st.done + [st.section] else st.done
  }

  /** The sectioning loop, proved to yield `Sections(paragraphs, startOnHeader)`. */
  method SplitSections(paragraphs: seq<string>, startOnHeader: bool) returns (sections: seq<seq<string>>)
    requires AllNonEmpty(paragraphs)
    ensures sections == Sections(paragraphs, startOnHeader)
  {
    var headerFound := false;
    var section: seq<string> := [];
    sections := [];
    var i := 0;
    while i < |paragraphs|
      invariant 0 <= i <= |paragraphs|
      invariant Run(paragraphs[..i], startOnHeader) == State(headerFound, section, sections)
    {
      var paragraph := paragraphs[i];
      RunNext(paragraphs, i, startOnHeader);
      HeaderChar(paragraph);
      if paragraph[0] == '#' {
        if section != [] && (!startOnHeader || headerFound) {
          sections := sections + [section];
        }
        section := [];
        headerFound := true;
      }
      section := section + [paragraph];
      i := i + 1;
    }
    TakeAll(paragraphs);
    if section != [] {
      sections := sections + [section];
    }
  }

  /** One more paragraph is one more step. */
  lemma {:induction false} RunNext(paragraphs: seq<string>, i: nat, startOnHeader: bool)
    requires i < |paragraphs|
    ensures Run(paragraphs[..i + 1], startOnHeader) == Step(Run(paragraphs[..i], startOnHeader), paragraphs[i], startOnHeader)
  {
    TakeNext(paragraphs, i);
  }

  /** On a non-empty paragraph the loop's test `paragraph[0] == '#'`. */
  lemma {:induction false} HeaderChar(paragraph: string)
    requires paragraph != ""
    ensures IsHeader(paragraph) <==> paragraph[0] == '#'
  {
    if paragraph[0] == '#' {
      assert paragraph[..1] == "#";
    }
  }

  // ---------------------------------------------------------------------
  // What the sections are.

  /** Index of the first header paragraph, or the length when there is none. */
  function FirstHeader(paragraphs: seq<string>): (r: nat)
    ensures r <= |paragraphs|
    ensures forall j :: 0 <= j < r ==> !IsHeader(paragraphs[j])
    ensures r < |paragraphs| ==> IsHeader(paragraphs[r])
  {
    if |paragraphs| == 0 then 0
    else
      var f := FirstHeader(paragraphs[..|paragraphs| - 1]);
      if f < |paragraphs| - 1 then f
      else if IsHeader(paragraphs[|paragraphs| - 1]) then |paragraphs| - 1
      else |paragraphs|
  }

  /** How many leading paragraphs are discarded: those before the first
      header, but only when a header exists and `startOnHeader` is set. */
  function Dropped(paragraphs: seq<string>, startOnHeader: bool): nat {
    if startOnHeader && FirstHeader(paragraphs) < |paragraphs| then FirstHeader(paragraphs) else 0
  }

  /** Every section is non-empty, headers occur only at the start of a
      section, and every section after the first starts with a header. */
  predicate SplitAtHeaders(sections: seq<seq<string>>) {
    forall k :: 0 <= k < |sections| ==>
      |sections[k]| > 0
      && (k > 0 ==> IsHeader(sections[k][0]))
      && (forall j :: 0 < j < |sections[k]| ==> !IsHeader(sections[k][j]))
  }

  predicate InvShape(ps: seq<string>, soh: bool, st: State) {
    st.headerFound == (FirstHeader(ps) < |ps|)
    && (ps != [] ==> st.section != [])
    && (!st.headerFound ==> st.done == [])
    && (st.headerFound ==> st.section != [] && IsHeader(st.section[0]))
    && SplitAtHeaders(st.done)
    && (soh && |st.done| > 0 ==> IsHeader(st.done[0][0]))
    && (forall j :: 0 < j < |st.section| ==> !IsHeader(st.section[j]))
  }

  predicate InvKept(ps: seq<string>, soh: bool, st: State) {
    Flatten(st.done) + st.section == ps[Dropped(ps, soh)..]
  }

  lemma {:induction false} FirstHeaderAppend(ps: seq<string>, p: string)
    ensures FirstHeader(ps + [p]) ==
      if FirstHeader(ps) < |ps| then FirstHeader(ps) else if IsHeader(p) then |ps| else |ps| + 1
  {
    assert (ps + [p])[..|ps|] == ps;
  }

  lemma {:induction false} StepShape(ps: seq<string>, p: string, soh: bool, st: State)
    requires InvShape(ps, soh, st)
    ensures InvShape(ps + [p], soh, Step(st, p, soh))
  {
    FirstHeaderAppend(ps, p);
    if IsHeader(p) && st.section != [] && (!soh || st.headerFound) {
      SplitAppend(st.done, st.section);
    }
  }

  /** A finished section joins the split. */
  lemma {:induction false} SplitAppend(done: seq<seq<string>>, section: seq<string>)
    requires SplitAtHeaders(done) && section != []
    requires |done| > 0 ==> IsHeader(section[0])
    requires forall j :: 0 < j < |section| ==> !IsHeader(section[j])
    ensures SplitAtHeaders(done + [section])
  {
    forall k | 0 <= k < |done + [section]|
      ensures |(done + [section])[k]| > 0
      ensures k > 0 ==> IsHeader((done + [section])[k][0])
      ensures forall j :: 0 < j < |(done + [section])[k]| ==> !IsHeader((done + [section])[k][j])
    {
      if k < |done| {
        assert (done + [section])[k] == done[k];
      }
    }
  }

  lemma {:induction false} StepKept(ps: seq<string>, p: string, soh: bool, st: State)
    requires InvShape(ps, soh, st) && InvKept(ps, soh, st)
    ensures InvKept(ps + [p], soh, Step(st, p, soh))
  {
    FirstHeaderAppend(ps, p);
    if IsHeader(p) && st.section != [] && (!soh || st.headerFound) {
      KeptAppend(ps, p, soh, st);
    } else if IsHeader(p) && st.section != [] {
      KeptFirstHeader(ps, p, soh, st);
    } else if IsHeader(p) {
      assert ps == [];
    } else {
      KeptAppend(ps, p, soh, st);
    }
  }

  /** A paragraph that goes on after the kept paragraphs: the dropped
      prefix stays the same. */
  lemma {:induction false} KeptAppend(ps: seq<string>, p: string, soh: bool, st: State)
    requires InvShape(ps, soh, st) && InvKept(ps, soh, st)
    requires !IsHeader(p) || (st.section != [] && (!soh || st.headerFound))
    ensures InvKept(ps + [p], soh, Step(st, p, soh))
  {
    FirstHeaderAppend(ps, p);
    var d := Dropped(ps, soh);
    assert Dropped(ps + [p], soh) == d;
    DropAppend(ps, p, d);
    if IsHeader(p) {
      FlattenAppend(st.done, st.section);
    } else {
      AppendAssoc(Flatten(st.done), st.section, [p]);
    }
  }

  /** The first header when `startOnHeader` is set: the paragraphs before it
      are discarded. */
  lemma {:induction false} KeptFirstHeader(ps: seq<string>, p: string, soh: bool, st: State)
    requires InvShape(ps, soh, st) && InvKept(ps, soh, st)
    requires IsHeader(p) && st.section != [] && soh && !st.headerFound
    ensures InvKept(ps + [p], soh, Step(st, p, soh))
  {
    FirstHeaderAppend(ps, p);
    assert st.done == [] && Dropped(ps + [p], soh) == |ps|;
    assert (ps + [p])[|ps|..] == [p];
  }

  lemma {:induction false} RunInv(ps: seq<string>, soh: bool)
    ensures InvShape(ps, soh, Run(ps, soh)) && InvKept(ps, soh, Run(ps, soh))
  {
    if |ps| > 0 {
      var init, p := ps[..|ps| - 1], ps[|ps| - 1];
      InitLast(ps);
      RunInv(init, soh);
      StepShape(init, p, soh, Run(init, soh));
      StepKept(init, p, soh, Run(init, soh));
    }
  }

  /** The shape of the output: non-empty sections split exactly at headers. */
  lemma {:induction false} SectionsSplitAtHeaders(paragraphs: seq<string>, startOnHeader: bool)
    ensures SplitAtHeaders(Sections(paragraphs, startOnHeader))
  {
    var st := Run(paragraphs, startOnHeader);
    RunInv(paragraphs, startOnHeader);
    if st.section != [] {
      SplitAppend(st.done, st.section);
    }
  }

  /** Nothing is lost but the discarded prefix, and nothing is reordered:
      read in order, the sections give back the paragraphs from `Dropped` on. */
  lemma {:induction false} SectionsKeepOrder(paragraphs: seq<string>, startOnHeader: bool)
    ensures Flatten(Sections(paragraphs, startOnHeader)) == paragraphs[Dropped(paragraphs, startOnHeader)..]
  {
    var st := Run(paragraphs, startOnHeader);
    RunInv(paragraphs, startOnHeader);
    FlattenAppend(st.done, st.section);
    if st.section == [] {
      assert Flatten(st.done) + st.section == Flatten(st.done);
    }
  }

  /** With `startOnHeader` and some header present, the first section starts
      with the first header. */
  lemma {:induction false} StartOnHeaderFirstSection(paragraphs: seq<string>)
    requires FirstHeader(paragraphs) < |paragraphs|
    ensures |Sections(paragraphs, true)| > 0 && |Sections(paragraphs, true)[0]| > 0
    ensures Sections(paragraphs, true)[0][0] == paragraphs[FirstHeader(paragraphs)]
  {
    var ss := Sections(paragraphs, true);
    SectionsSplitAtHeaders(paragraphs, true);
    SectionsKeepOrder(paragraphs, true);
    assert Flatten(ss) != [];
    FlattenCons(ss[0], ss[1..]);
    assert ss == [ss[0]] + ss[1..];
  }

  /** Without any header, every paragraph ends up in one section, whatever
      `startOnHeader` says. */
  lemma {:induction false} NoHeaderOneSection(paragraphs: seq<string>, startOnHeader: bool)
    requires paragraphs != [] && FirstHeader(paragraphs) == |paragraphs|
    ensures Sections(paragraphs, startOnHeader) == [paragraphs]
  {
    var st := Run(paragraphs, startOnHeader);
    RunInv(paragraphs, startOnHeader);
    assert !st.headerFound && st.done == [];
    assert Flatten(st.done) == [];
  }
}
