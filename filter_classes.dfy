/** The `filter_classes` step of `steps/filter_classes.py`: paragraphs
    annotated with `{: .class }` or fenced with a language tag are kept or
    dropped according to the keep and force-filter class sets, and kept shell
    blocks get a `!` in front of every interior line. */
module FilterClasses {
  import opened Strings
  import A = Attributes

  /** A class argument as the caller passes it: nothing, one class name, or
      a collection of names. */
  datatype ClassArg = Default | One(name: string) | Many(names: seq<string>)

  const Shells: set<string> := {"sh", "bash"}

  /** The normalised keep set; by default `language-py` and `shell-` plus
      every shell. */
  function KeepClasses(arg: ClassArg): set<string> {
    match arg
    case Default => {"language-py"} + (set sh | sh in Shells :: "shell-" + sh)
    case One(name) => {name}
    case Many(names) => set n | n in names
  }

  /** The normalised force-filter set; empty by default. */
  function ForceClasses(arg: ClassArg): set<string> {
    match arg
    case Default => {}
    case One(name) => {name}
    case Many(names) => set n | n in names
  }

  /** `set(attributes['class'])`: the list's names, or, when `class='...'`
      stored a string, the string's characters. */
  function ClassSet(v: A.Value): set<string> {
    match v
    case Classes(names) => set n | n in names
    case Text(t) => set c | c in t :: [c]
  }

  /** What happens to one paragraph. */
  datatype Verdict = Drop | Keep(paragraph: string) | Raise

  /** The attribute dictionary of `parse_attributes(p) or {}`; `None` stands
      for the error raised by a `.class` token after `class='...'`. */
  function AttributesOf(p: string): Option<A.Attrs> {
    match A.ParseAttributes(p)
    case NoAnnotation => Some(map[])
    case Parsed(attrs) => Some(attrs)
    case ClassIsText => None
  }

  /** The class rule: `None` drops the paragraph, `Some(q)` continues with
      `q`, which has its annotations removed when it carried a class. */
  function ByClass(p: string, attrs: A.Attrs, keep: set<string>, force: set<string>): Option<string> {
    if "class" !in attrs then Some(p)
    else if ClassSet(attrs["class"]) * force != {} then None
    else if ClassSet(attrs["class"]) * keep == {} then None
    else Some(StripChars(A.StripAnnotations(p), {'\n'}))
  }

  predicate IsFenced(q: string) {
    StartsWith(q, "```") && EndsWith(q, "```")
  }

  /** The language tag of a fence line: backticks, then surrounding
      whitespace, removed. */
  function Lang(fenceLine: string): string {
    Strip(LStripChars(fenceLine, {'`'}))
  }

  /** A tag is wanted when it, `language-` plus it, or `shell-` plus it is a
      keep class. */
  predicate Wanted(lang: string, keep: set<string>) {
    keep * {lang, "language-" + lang, "shell-" + lang} != {}
  }

  /** Every line but the first and the last gets a leading `!`. */
  function ShellPrefixed(lines: seq<string>): (r: seq<string>)
    ensures |r| == |lines|
    ensures forall i :: 0 <= i < |lines| && (i == 0 || i == |lines| - 1) ==> r[i] == lines[i]
    ensures forall i :: 0 < i < |lines| - 1 ==> r[i] == "!" + lines[i]
  {
    seq(|lines|, i requires 0 <= i < |lines| => if 0 < i < |lines| - 1 then "!" + lines[i] else lines[i])
  }

  /** The fence rule, then the final "not empty" test. */
  function ByFence(q: string, keep: set<string>): Verdict {
    if IsFenced(q) then
      var lines := SplitLines(q);
      var lang := Lang(lines[0]);
      if lang != "" && !Wanted(lang, keep) then Drop
      else if lang in Shells then Keep(Join("\n", ShellPrefixed(lines)))
      else Keep(q)
    else if q != "" then Keep(q)
    else Drop
  }

  /** The body of the loop for one paragraph. */
  function Judge(p: string, keep: set<string>, force: set<string>): Verdict {
    match AttributesOf(p)
    case None => Raise
    case Some(attrs) =>
      match ByClass(p, attrs, keep, force)
      case None => Drop
      case Some(q) => ByFence(q, keep)
  }

  /** What the generator has yielded, and whether it stopped on an error. */
  datatype Outcome = Outcome(paragraphs: seq<string>, raised: bool)

  function Step(o: Outcome, p: string, keep: set<string>, force: set<string>): Outcome {
    if o.raised then o
    else
      match Judge(p, keep, force)
      case Drop => o
      case Keep(q) => Outcome(o.paragraphs + [q], false)
      case Raise => Outcome(o.paragraphs, true)
  }

  function Run(ps: seq<string>, keep: set<string>, force: set<string>): Outcome {
    if |ps| == 0 then Outcome([], false)
    else Step(Run(ps[..|ps| - 1], keep, force), ps[|ps| - 1], keep, force)
  }

  // ---------------------------------------------------------------------
  // The step, as the source runs it.

  /** Prefixes `!` to the interior lines, in place. */
  method PrefixShellLines(lines: array<string>)
    modifies lines
    ensures lines[..] == ShellPrefixed(old(lines[..]))
  {
    var i := 1;
    while i < lines.Length - 1
      invariant 1 <= i <= if lines.Length < 2 then 1 else lines.Length - 1
      invariant forall j :: 1 <= j < i ==> lines[j] == "!" + old(lines[j])
      invariant forall j :: 0 <= j < lines.Length && !(1 <= j < i) ==> lines[j] == old(lines[j])
    {
      lines[i] := "!" + lines[i];
      i := i + 1;
    }
  }

  /** The fence rule and the emptiness test, as the loop body runs them. */
  method FilterFence(q: string, keep: set<string>) returns (v: Verdict)
    ensures v == ByFence(q, keep)
  {
    var paragraph := q;
    if StartsWith(paragraph, "```") && EndsWith(paragraph, "```") {
      var split := SplitLines(paragraph);
      var lang := Lang(split[0]);
      var possible := {lang, "language-" + lang, "shell-" + lang};
      if lang != "" && keep * possible == {} {
        return Drop;
      }
      if lang in Shells {
        var lines := new string[|split|](i requires 0 <= i < |split| => split[i]);
        assert lines[..] == split;
        PrefixShellLines(lines);
        paragraph := Join("\n", lines[..]);
      }
    }
    if paragraph != "" {
      return Keep(paragraph);
    }
    return Drop;
  }

  /** The loop body for one paragraph; each `return Drop` is a `continue`. */
  method FilterOne(p: string, keep: set<string>, force: set<string>) returns (v: Verdict)
    ensures v == Judge(p, keep, force)
  {
    var paragraph := p;
    var parsed := A.ParseAttributesLoop(paragraph);
    if parsed.ClassIsText? {
      return Raise;
    }
    var attributes := if parsed.Parsed? then parsed.attrs else map[];
    assert AttributesOf(p) == Some(attributes);
    if "class" in attributes {
      var classes := ClassSet(attributes["class"]);
      if force != {} && classes * force != {} {
        return Drop;
      }
      if classes * keep == {} {
        return Drop;
      }
      paragraph := StripChars(A.StripAnnotations(paragraph), {'\n'});
    }
    v := FilterFence(paragraph, keep);
  }

  /** `filter_classes`, proved to yield what `Run` describes. */
  method Filter(paragraphs: seq<string>, keepArg: ClassArg, forceArg: ClassArg) returns (out: seq<string>, raised: bool)
    ensures Outcome(out, raised) == Run(paragraphs, KeepClasses(keepArg), ForceClasses(forceArg))
  {
    var keep := KeepClasses(keepArg);
    var force := ForceClasses(forceArg);
    out, raised := [], false;
    var i := 0;
    while i < |paragraphs|
      invariant 0 <= i <= |paragraphs|
      invariant Run(paragraphs[..i], keep, force) == Outcome(out, false)
    {
      TakeNext(paragraphs, i);
      var v := FilterOne(paragraphs[i], keep, force);
      i := i + 1;
      if v.Raise? {
        RaiseStops(paragraphs, i, keep, force);
        return out, true;
      }
      if v.Keep? {
        out := out + [v.paragraph];
      }
    }
    assert paragraphs[..|paragraphs|] == paragraphs;
  }

  lemma {:induction false} RaiseStops(ps: seq<string>, i: nat, keep: set<string>, force: set<string>)
    requires 0 < i <= |ps| && Run(ps[..i], keep, force).raised
    ensures Run(ps, keep, force) == Run(ps[..i], keep, force)
    decreases |ps| - i
  {
    if i < |ps| {
      TakeNext(ps, i);
      RaiseStops(ps, i + 1, keep, force);
    } else {
      assert ps[..i] == ps;
    }
  }

  // ---------------------------------------------------------------------
  // The rules.

  /** The defaults: Python plus the shell dialects are kept, nothing is
      force-filtered, and one name is a one-element set. */
  lemma {:induction false} DefaultClasses(name: string)
    ensures KeepClasses(Default) == {"language-py", "shell-sh", "shell-bash"}
    ensures ForceClasses(Default) == {}
    ensures KeepClasses(One(name)) == {name} && ForceClasses(One(name)) == {name}
  {
    assert "sh" in Shells && "shell-" + "sh" == "shell-sh";
    assert "bash" in Shells && "shell-" + "bash" == "shell-bash";
  }

  /** A force-filter class drops the paragraph, whatever its keep classes. */
  lemma {:induction false} ForceFilterWins(p: string, keep: set<string>, force: set<string>, c: string)
    requires AttributesOf(p).Some? && "class" in AttributesOf(p).value
    requires c in ClassSet(AttributesOf(p).value["class"]) && c in force
    ensures Judge(p, keep, force) == Drop
  {
    var attrs := AttributesOf(p).value;
    assert c in ClassSet(attrs["class"]) * force;
    assert ByClass(p, attrs, keep, force) == None;
  }

  /** An annotated paragraph none of whose classes is kept is dropped. */
  lemma {:induction false} NoKeepClassDropped(p: string, keep: set<string>, force: set<string>)
    requires AttributesOf(p).Some? && "class" in AttributesOf(p).value
    requires forall c :: c in ClassSet(AttributesOf(p).value["class"]) ==> c !in keep
    ensures Judge(p, keep, force) == Drop
  {
    var attrs := AttributesOf(p).value;
    assert ClassSet(attrs["class"]) * keep == {};
    assert ByClass(p, attrs, keep, force) == None;
  }

  /** A kept annotated paragraph continues without its annotations and
      without surrounding line breaks. */
  lemma {:induction false} KeptAnnotatedStripped(p: string, keep: set<string>, force: set<string>, c: string)
    requires AttributesOf(p).Some? && "class" in AttributesOf(p).value
    requires c in ClassSet(AttributesOf(p).value["class"]) && c in keep
    requires ClassSet(AttributesOf(p).value["class"]) * force == {}
    ensures Judge(p, keep, force) == ByFence(StripChars(A.StripAnnotations(p), {'\n'}), keep)
  {
    var attrs := AttributesOf(p).value;
    assert c in ClassSet(attrs["class"]) * keep;
    assert ByClass(p, attrs, keep, force) == Some(StripChars(A.StripAnnotations(p), {'\n'}));
  }

  /** A paragraph with no class annotation and no fence passes unchanged,
      unless it is empty. */
  lemma {:induction false} PlainPassesThrough(p: string, keep: set<string>, force: set<string>)
    requires AttributesOf(p).Some? && "class" !in AttributesOf(p).value
    requires !IsFenced(p)
    ensures Judge(p, keep, force) == (if p == "" then Drop else Keep(p))
  {
  }

  /** The fence rule: a fenced block with a non-empty tag is dropped exactly
      when neither the tag nor `language-`/`shell-` plus the tag is kept. */
  lemma {:induction false} FenceRule(q: string, keep: set<string>)
    requires IsFenced(q)
    ensures ByFence(q, keep) == Drop <==> (Lang(SplitLines(q)[0]) != "" && !Wanted(Lang(SplitLines(q)[0]), keep))
  {
  }

  /** A fenced block tagged with no known shell is kept verbatim when wanted. */
  lemma {:induction false} FencedKeptVerbatim(q: string, keep: set<string>)
    requires IsFenced(q)
    requires Lang(SplitLines(q)[0]) !in Shells
    requires Lang(SplitLines(q)[0]) == "" || Wanted(Lang(SplitLines(q)[0]), keep)
    ensures ByFence(q, keep) == Keep(q)
  {
  }

  /** A kept shell block has the same number of lines, the same fence lines,
      and a `!` before every interior line. */
  lemma {:induction false} ShellBlockLines(q: string, keep: set<string>)
    requires IsFenced(q) && Lang(SplitLines(q)[0]) in Shells
    requires Wanted(Lang(SplitLines(q)[0]), keep)
    ensures ByFence(q, keep).Keep?
    ensures SplitLines(ByFence(q, keep).paragraph) == ShellPrefixed(SplitLines(q))
  {
    var lines := SplitLines(q);
    JoinSplitLines(q);
    SplitLinesHaveNoBreak(q);
    var r := ShellPrefixed(lines);
    PrefixedHasNoBreak(lines);
    SplitLinesJoin(r);
  }

  /** Prefixing `!` adds no line break. */
  lemma {:induction false} PrefixedHasNoBreak(lines: seq<string>)
    requires forall i :: 0 <= i < |lines| ==> '\n' !in lines[i]
    ensures forall i :: 0 <= i < |lines| ==> '\n' !in ShellPrefixed(lines)[i]
  {
    var r := ShellPrefixed(lines);
    forall i | 0 < i < |lines| - 1
      ensures '\n' !in r[i]
    {
      assert r[i] == "!" + lines[i];
      assert forall k :: 0 <= k < |r[i]| ==> r[i][k] == '!' || r[i][k] in lines[i];
    }
  }

  // ---------------------------------------------------------------------
  // No empty paragraph is yielded.

  /** The fence rule never keeps an empty paragraph. */
  lemma {:induction false} ByFenceNotEmpty(q: string, keep: set<string>)
    ensures ByFence(q, keep).Keep? ==> ByFence(q, keep).paragraph != ""
  {
    if IsFenced(q) && ByFence(q, keep).Keep? && Lang(SplitLines(q)[0]) in Shells {
      ShellBlockLines(q, keep);
    }
  }

  lemma {:induction false} JudgeNotEmpty(p: string, keep: set<string>, force: set<string>)
    ensures Judge(p, keep, force).Keep? ==> Judge(p, keep, force).paragraph != ""
  {
    match AttributesOf(p)
    case None =>
    case Some(attrs) =>
      match ByClass(p, attrs, keep, force)
      case None =>
      case Some(q) => ByFenceNotEmpty(q, keep);
  }

  /** Whatever the classes, no yielded paragraph is empty. */
  lemma {:induction false} NeverEmpty(ps: seq<string>, keep: set<string>, force: set<string>)
    ensures forall k :: 0 <= k < |Run(ps, keep, force).paragraphs| ==> Run(ps, keep, force).paragraphs[k] != ""
  {
    if |ps| > 0 {
      NeverEmpty(ps[..|ps| - 1], keep, force);
      JudgeNotEmpty(ps[|ps| - 1], keep, force);
    }
  }
}
