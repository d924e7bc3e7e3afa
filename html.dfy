/** `html_to_markdown` of `docs_nbgen.py`: HTML header lines become Markdown
    headers, and `<pre>` blocks become fenced code blocks. One flag, "inside
    a `<pre>` block", is carried from line to line. */
module Html {
  import opened Strings

  // ---------------------------------------------------------------------
  // `html_header_re`: `^\s*<h(\d+)>\s*(.*?)\s*</h\1>\s*$`.

  datatype Header = Header(level: nat, text: string)

  predicate IsDigits(s: string) {
    forall i :: 0 <= i < |s| ==> IsDigit(s[i])
  }

  /** Length of the leading run of ASCII digits. */
  function DigitRun(s: string): (n: nat)
    ensures n <= |s| && IsDigits(s[..n])
    ensures n < |s| ==> !IsDigit(s[n])
  {
    if s != [] && IsDigit(s[0]) then
      var n := 1 + DigitRun(s[1..]);
      assert s[..n] == [s[0]] + s[1..][..n - 1];
      n
    else 0
  }

  function Value(digits: string): nat
    requires IsDigits(digits)
  {
    assert IsWord(digits) by {
      forall i | 0 <= i < |digits| ensures IsWordChar(digits[i]) { }
    }
    DigitsValue(digits)
  }

  /** The closing tag that matches an opening `<h` + digits + `>`. */
  function CloseTag(digits: string): string {
    "</h" + digits + ">"
  }

  /** `html_header_re.search(line)`: the level and the trimmed text. The
      digits are all those between `<h` and `>`; the closing tag repeats them
      and ends the line (up to whitespace); the text may not span a line
      break, as `.` does not match one. */
  function HeaderMatch(line: string): Option<Header> {
    HeaderTag(LStrip(line))
  }

  /** The match once the leading whitespace is skipped. */
  function HeaderTag(t: string): Option<Header> {
    if |t| < 2 || t[0] != '<' || t[1] != 'h' then None
    else
      var d := DigitRun(t[2..]);
      if d == 0 || 2 + d >= |t| || t[2 + d] != '>' then None
      else
        assert t[2..][..d] == t[2..2 + d];
        HeaderBody(t[2..2 + d], t[3 + d..])
  }

  /** The match after `<hD>`: text, the closing tag, trailing whitespace. */
  function HeaderBody(digits: string, after: string): (r: Option<Header>)
    requires IsDigits(digits)
    ensures r.Some? ==> '\n' !in r.value.text
  {
    var rest := RStrip(after);
    if !EndsWith(rest, CloseTag(digits)) then None
    else
      var text := Strip(rest[..|rest| - |CloseTag(digits)|]);
      if '\n' in text then None else Some(Header(Value(digits), text))
  }

  /** Every well-formed header line is recognised: whitespace, `<hD>`, any
      text, `</hD>`, whitespace gives level `int(D)` and the trimmed text. */
  lemma {:induction false} HeaderMatchComplete(lead: string, digits: string, inner: string, trail: string)
    requires IsBlank(lead) && IsBlank(trail)
    requires digits != "" && IsDigits(digits)
    requires '\n' !in Strip(inner)
    ensures HeaderMatch(lead + "<h" + digits + ">" + inner + CloseTag(digits) + trail)
         == Some(Header(Value(digits), Strip(inner)))
  {
    var body := inner + CloseTag(digits) + trail;
    var t := "<h" + digits + ">" + body;
    RegroupHeaderLine(lead, "<h", digits, ">", inner, CloseTag(digits), trail);
    LStripBlankPrefix(lead, t);
    HeaderTagOf(digits, body);
    HeaderBodyOf(digits, inner, trail);
  }

  /** The header line as its leading whitespace and the rest. */
  lemma {:induction false} RegroupHeaderLine(a: string, b: string, c: string, d: string, e: string, f: string, g: string)
    ensures a + b + c + d + e + f + g == a + (b + c + d + (e + f + g))
  {
    var p := b + c + d;
    AppendAssoc(a, b, c);
    AppendAssoc(a, b + c, d);
    AppendAssoc(a, p, e);
    AppendAssoc(a, p + e, f);
    AppendAssoc(a, p + e + f, g);
    AppendAssoc(p, e, f);
    AppendAssoc(p, e + f, g);
  }

  lemma {:induction false} HeaderTagOf(digits: string, body: string)
    requires digits != "" && IsDigits(digits)
    ensures HeaderTag("<h" + digits + ">" + body) == HeaderBody(digits, body)
  {
    var t := "<h" + digits + ">" + body;
    assert t[2..] == digits + (">" + body);
    DigitRunOf(digits, ">" + body);
    assert t[2..2 + |digits|] == digits;
    assert t[3 + |digits|..] == body;
  }

  lemma {:induction false} HeaderBodyOf(digits: string, inner: string, trail: string)
    requires IsDigits(digits) && IsBlank(trail)
    requires '\n' !in Strip(inner)
    ensures HeaderBody(digits, inner + CloseTag(digits) + trail) == Some(Header(Value(digits), Strip(inner)))
  {
    var rest := inner + CloseTag(digits);
    RStripBlankSuffix(rest, trail);
    assert rest[|rest| - |CloseTag(digits)|..] == CloseTag(digits);
    assert rest[..|rest| - |CloseTag(digits)|] == inner;
  }

  lemma {:induction false} LStripBlankPrefix(lead: string, t: string)
    requires IsBlank(lead) && (t == "" || !IsSpace(t[0]))
    ensures LStrip(lead + t) == t
  {
    if lead != "" {
      assert (lead + t)[1..] == lead[1..] + t;
      LStripBlankPrefix(lead[1..], t);
    } else {
      assert lead + t == t;
    }
  }

  lemma {:induction false} RStripBlankSuffix(t: string, trail: string)
    requires IsBlank(trail) && t != "" && !IsSpace(t[|t| - 1])
    ensures RStrip(t + trail) == t
  {
    if trail != "" {
      assert (t + trail)[..|t + trail| - 1] == t + trail[..|trail| - 1];
      RStripBlankSuffix(t, trail[..|trail| - 1]);
    } else {
      assert t + trail == t;
    }
  }

  lemma {:induction false} DigitRunOf(digits: string, rest: string)
    requires IsDigits(digits) && rest != [] && !IsDigit(rest[0])
    ensures DigitRun(digits + rest) == |digits|
  {
    if digits != [] {
      assert (digits + rest)[1..] == digits[1..] + rest;
      DigitRunOf(digits[1..], rest);
    } else {
      assert digits + rest == rest;
    }
  }

  /** The Markdown header that replaces a matched HTML header. */
  function HeaderLine(h: Header): (r: string)
    ensures |r| == h.level + 1 + |h.text|
    decreases h.level
  {
    if h.level == 0 then " " + h.text else "#" + HeaderLine(Header(h.level - 1, h.text))
  }

  /** `'#'*level + ' ' + text`. */
  lemma {:induction false} HeaderLineShape(h: Header)
    ensures HeaderLine(h) == Repeat('#', h.level) + " " + h.text
    decreases h.level
  {
    if h.level > 0 {
      HeaderLineShape(Header(h.level - 1, h.text));
    }
  }

  // ---------------------------------------------------------------------
  // `html_code_block_re`: `<pre(?:\s+class="([^"]*)")?[^>]*>`.

  /** A `<pre>` tag found in a line: it spans `start..stop`, and `classes`
      is the value of its `class="..."` attribute, or "". */
  datatype PreTag = PreTag(start: nat, stop: nat, classes: string)

  /** The optional group `\s+class="([^"]*)"` at the front of `s`: the value
      and the number of characters matched. */
  function ClassGroup(s: string): (r: Option<(string, nat)>)
    ensures r.Some? ==> r.value.1 <= |s|
  {
    var t := LStrip(s);
    if |t| == |s| || !StartsWith(t, "class=\"") then None
    else
      var u := t[7..];
      var q := IndexOf(u, '"');
      if q == |u| then None
      else Some((u[..q], |s| - |t| + 7 + q + 1))
  }

  /** `html_code_block_re.search(line)`. The match starts at the first
      `<pre`, provided some `>` follows it: no later `<pre` can then match
      either. With the class group the match ends at the first `>` after the
      closing quote; when the group does not apply, at the first `>` after
      `<pre`. */
  function PreMatch(line: string): (r: Option<PreTag>)
    ensures r.Some? ==> r.value.start == Find(line, "<pre") < |line|
    ensures r.Some? ==> r.value.start + 4 < r.value.stop <= |line| && line[r.value.stop - 1] == '>'
    ensures r.None? <==> Find(line, "<pre") == |line| || '>' !in line[Find(line, "<pre") + 4..]
  {
    var p := Find(line, "<pre");
    if p == |line| then None
    else TagAt(line, p)
  }

  /** The tag whose `<pre` starts at `p`. */
  function TagAt(line: string, p: nat): (r: Option<PreTag>)
    requires p + 4 <= |line|
    ensures r.Some? ==> r.value.start == p && p + 4 < r.value.stop <= |line| && line[r.value.stop - 1] == '>'
    ensures r.None? <==> '>' !in line[p + 4..]
  {
    match TagRest(line[p + 4..])
    case None => None
    case Some((n, classes)) =>
      assert line[p + 4 + n - 1] == line[p + 4..][n - 1];
      Some(PreTag(p, p + 4 + n, classes))
  }

  /** The rest of a tag after `<pre`: how many characters it takes, up to
      and including its `>`, and the classes. Which `>` ends the tag depends
      on whether the class group applies: a `>` inside the quotes does not
      end it. */
  function TagRest(tail: string): (r: Option<(nat, string)>)
    ensures r.Some? ==> 0 < r.value.0 <= |tail| && tail[r.value.0 - 1] == '>'
    ensures r.None? <==> '>' !in tail
  {
    var gt := IndexOf(tail, '>');
    if gt == |tail| then None
    else
      match ClassGroup(tail)
      case Some((classes, n)) =>
        var gt' := IndexOf(tail[n..], '>');
        if gt' < |tail| - n then
          assert tail[n + gt'] == '>';
          Some((n + gt' + 1, classes))
        else Some((gt + 1, ""))
      case None => Some((gt + 1, ""))
  }

  /** Which `>` ends the tag. When the class group applies and a `>`
      follows it, the tag ends at the first `>` after the closing quote and
      carries the quoted classes, so a `>` inside the quotes does not end it.
      Otherwise the group is dropped and the tag ends at the first `>` of
      all, with no classes. */
  lemma {:induction false} TagRestEnd(tail: string)
    ensures ClassGroup(tail).Some? && '>' in tail[ClassGroup(tail).value.1..] ==>
      TagRest(tail) == Some((ClassGroup(tail).value.1 + IndexOf(tail[ClassGroup(tail).value.1..], '>') + 1,
                             ClassGroup(tail).value.0))
    ensures !(ClassGroup(tail).Some? && '>' in tail[ClassGroup(tail).value.1..]) && '>' in tail ==>
      TagRest(tail) == Some((IndexOf(tail, '>') + 1, ""))
  {
  }

  /** A bare `<pre>` after text free of `<` is found, with no classes. */
  lemma {:induction false} BarePreTag(before: string, after: string)
    requires '<' !in before
    ensures PreMatch(before + "<pre>" + after) == Some(PreTag(|before|, |before| + 5, ""))
  {
    var line := before + "<pre>" + after;
    assert line == before + "<pre" + (">" + after);
    FirstPre(before, ">" + after);
    assert line[|before| + 4..] == ">" + after;
    assert LStrip(">" + after) == ">" + after;
  }

  /** After `<pre`, ` class="X">` yields the classes X when X holds no `"`:
      the tag `<pre class="X">` gives the fence "```X". */
  lemma {:induction false} ClassTagRest(classes: string, after: string)
    requires '"' !in classes
    ensures TagRest(" class=\"" + classes + "\">" + after) == Some((10 + |classes|, classes))
  {
    var tail := " class=\"" + classes + "\">" + after;
    assert tail[9 + |classes|] == '>';
    var t := tail[1..];
    assert LStrip(t) == t;
    assert LStrip(tail) == t;
    assert t[..7] == "class=\"";
    var u := t[7..];
    assert u == classes + ("\">" + after);
    IndexOfAfter(classes, '"', "\">" + after);
    assert ClassGroup(tail) == Some((classes, 9 + |classes|));
    assert tail[9 + |classes|..] == ">" + after;
  }

  lemma {:induction false} FirstPre(before: string, after: string)
    requires '<' !in before
    ensures Find(before + "<pre" + after, "<pre") == |before|
  {
    var line := before + "<pre" + after;
    assert At(line, |before|, "<pre") by {
      assert line[|before|..|before| + 4] == "<pre";
    }
    forall j | 0 <= j < |before| ensures !At(line, j, "<pre") {
      assert line[j] == before[j];
    }
  }

  lemma {:induction false} IndexOfAfter(s: string, c: char, rest: string)
    requires c !in s && rest != [] && rest[0] == c
    ensures IndexOf(s + rest, c) == |s|
  {
    if s != [] {
      assert (s + rest)[1..] == s[1..] + rest;
      IndexOfAfter(s[1..], c, rest);
    } else {
      assert s + rest == rest;
    }
  }

  // ---------------------------------------------------------------------
  // One line.

  const Fence := "```"
  const ClosePre := "</pre>"

  /** What one input line produces, and the flag afterwards. */
  datatype Emit = Emit(out: seq<string>, inPre: bool)

  /** A line part-way through: what it has emitted so far, the flag, and
      the text still to be emitted. */
  datatype Stage = Stage(out: seq<string>, inPre: bool, rest: string)

  /** Outside a `<pre>` block: the header rewrite, then an opening `<pre>`
      tag, which emits the text before it and an empty line when there is
      such text, then the fence with the tag's classes. */
  function Open(line: string): Stage {
    OpenTag(Rewrite(line))
  }

  /** The opening `<pre>` test on the rewritten line. */
  function OpenTag(l: string): Stage {
    match PreMatch(l)
    case None => Stage([], false, l)
    case Some(m) => Stage((if m.start > 0 then [l[..m.start], ""] else []) + [Fence + m.classes], true, l[m.stop..])
  }

  /** The header rewrite. */
  function Rewrite(line: string): string {
    match HeaderMatch(line)
    case Some(h) => HeaderLine(h)
    case None => line
  }

  /** Inside a `<pre>` block, a `</pre>` emits the text before it and the
      closing fence, and leaves the block; the rest of the line follows. */
  function Close(st: Stage): Emit {
    if !st.inPre then Emit(st.out + [st.rest], false)
    else
      var c := Find(st.rest, ClosePre);
      if c < |st.rest| then Emit(st.out + [st.rest[..c], Fence, st.rest[c + 6..]], false)
      else Emit(st.out + [st.rest], true)
  }

  /** The lines emitted for `raw`, given whether a `<pre>` block is open. */
  function Line(inPre: bool, raw: string): Emit {
    Close(if inPre then Stage([], true, RStrip(raw)) else Open(RStrip(raw)))
  }

  /** The state after a sequence of lines: everything emitted, and the flag. */
  function Run(lines: seq<string>): Emit {
    if |lines| == 0 then Emit([], false)
    else
      var before := Run(lines[..|lines| - 1]);
      var e := Line(before.inPre, lines[|lines| - 1]);
      Emit(before.out + e.out, e.inPre)
  }

  /** `list(html_to_markdown(lines))`. */
  function HtmlToMarkdown(lines: seq<string>): seq<string> {
    Run(lines).out
  }

  /** The generator's loop, proved to emit `HtmlToMarkdown(lines)`. */
  method Convert(lines: seq<string>) returns (out: seq<string>)
    ensures out == HtmlToMarkdown(lines)
  {
    var inPre := false;
    out := [];
    var i := 0;
    while i < |lines|
      invariant 0 <= i <= |lines|
      invariant Run(lines[..i]) == Emit(out, inPre)
    {
      RunNext(lines, i);
      var emitted;
      emitted, inPre := ConvertLine(inPre, lines[i]);
      out := out + emitted;
      i := i + 1;
    }
    assert lines[..|lines|] == lines;
  }

  /** The body of the generator's loop: the lines emitted for one input
      line, and the flag afterwards. */
  method ConvertLine(inPre: bool, raw: string) returns (out: seq<string>, inPre': bool)
    ensures Emit(out, inPre') == Line(inPre, raw)
  {
    var line := RStrip(raw);
    out := [];
    inPre' := inPre;
    if !inPre {
      out, inPre', line := OpenLine(line);
    }
    out, inPre' := CloseLine(out, inPre', line);
  }

  /** The part of the loop body that looks for `</pre>` and yields the line. */
  method CloseLine(out: seq<string>, inPre: bool, line: string) returns (out': seq<string>, inPre': bool)
    ensures Emit(out', inPre') == Close(Stage(out, inPre, line))
  {
    out', inPre' := out, inPre;
    var rest := line;
    if inPre {
      var c := Find(rest, ClosePre);
      if c < |rest| {
        inPre' := false;
        var preLine := rest[..c];
        rest := rest[c + 6..];
        AppendAssoc(out, [preLine, Fence], [rest]);
        out' := out' + [preLine, Fence];
      }
    }
    out' := out' + [rest];
  }

  /** The part of the loop body run outside a `<pre>` block. */
  method OpenLine(line: string) returns (out: seq<string>, inPre: bool, rest: string)
    ensures Stage(out, inPre, rest) == Open(line)
  {
    rest := line;
    var h := HeaderMatch(rest);
    if h.Some? {
      rest := HeaderLine(h.value);
    }
    out, inPre, rest := OpenTagLine(rest);
  }

  /** The opening `<pre>` test of the loop body. */
  method OpenTagLine(line: string) returns (out: seq<string>, inPre: bool, rest: string)
    ensures Stage(out, inPre, rest) == OpenTag(line)
  {
    rest := line;
    out := [];
    inPre := false;
    var m := PreMatch(rest);
    if m.Some? {
      inPre := true;
      var preLine := rest[..m.value.start];
      rest := rest[m.value.stop..];
      if preLine != "" {
        out := out + [preLine, ""];
      }
      out := out + [Fence + m.value.classes];
      assert out == (if m.value.start > 0 then [line[..m.value.start], ""] else []) + [Fence + m.value.classes];
    }
  }

  // ---------------------------------------------------------------------
  // What the conversion does.

  lemma {:induction false} RunNext(lines: seq<string>, i: nat)
    requires i < |lines|
    ensures Run(lines[..i + 1]) == Emit(Run(lines[..i]).out + Line(Run(lines[..i]).inPre, lines[i]).out, Line(Run(lines[..i]).inPre, lines[i]).inPre)
  {
    TakeNext(lines, i);
  }

  lemma {:induction false} RunAppend(lines: seq<string>, line: string)
    ensures Run(lines + [line]) == Emit(Run(lines).out + Line(Run(lines).inPre, line).out, Line(Run(lines).inPre, line).inPre)
  {
    assert (lines + [line])[..|lines|] == lines;
  }

  /** Outside a `<pre>` block, a header line without a `<pre` tag becomes
      its Markdown header alone. */
  lemma {:induction false} HeaderBecomesMarkdown(raw: string, h: Header)
    requires HeaderMatch(RStrip(raw)) == Some(h)
    requires PreMatch(HeaderLine(h)) == None
    ensures Line(false, raw) == Emit([Repeat('#', h.level) + " " + h.text], false)
  {
    HeaderLineShape(h);
  }

  /** Inside a `<pre>` block, a line without `</pre>` is only right-stripped:
      in particular it is never rewritten as a header. */
  lemma {:induction false} InsidePreVerbatim(raw: string)
    requires !Contains(RStrip(raw), ClosePre)
    ensures Line(true, raw) == Emit([RStrip(raw)], true)
  {
    ContainsFind(RStrip(raw), ClosePre);
  }

  /** A line holding `</pre>` inside a block emits the text before the tag,
      the closing fence and the remainder, and leaves the block. */
  lemma {:induction false} ClosingPre(raw: string)
    requires Contains(RStrip(raw), ClosePre)
    ensures var line := RStrip(raw); var c := Find(line, ClosePre);
      c + 6 <= |line| && line[c..c + 6] == ClosePre
      && Line(true, raw) == Emit([line[..c], Fence, line[c + 6..]], false)
  {
    var line := RStrip(raw);
    ContainsFind(line, ClosePre);
  }

  /** An opening tag with no `</pre>` after it emits the text before the tag
      and an empty line (when there is such text), the fence with the tag's
      classes, and the rest of the line; the block stays open. */
  lemma {:induction false} OpeningPre(raw: string, m: PreTag)
    requires HeaderMatch(RStrip(raw)) == None
    requires PreMatch(RStrip(raw)) == Some(m)
    requires !Contains(RStrip(raw)[m.stop..], ClosePre)
    ensures var line := RStrip(raw);
      Line(false, raw) == Emit((if m.start > 0 then [line[..m.start], ""] else []) + [Fence + m.classes, line[m.stop..]], true)
  {
    var line := RStrip(raw);
    ContainsFind(line[m.stop..], ClosePre);
    assert Rewrite(line) == line;
    var pre := if m.start > 0 then [line[..m.start], ""] else [];
    var st := Stage(pre + [Fence + m.classes], true, line[m.stop..]);
    assert OpenTag(line) == st;
    assert Close(st) == Emit(st.out + [st.rest], true);
    AppendAssoc(pre, [Fence + m.classes], [line[m.stop..]]);
    assert [Fence + m.classes] + [line[m.stop..]] == [Fence + m.classes, line[m.stop..]];
  }

  /** Every line right-stripped. */
  function RStripAll(lines: seq<string>): (r: seq<string>)
    ensures |r| == |lines| && forall k :: 0 <= k < |lines| ==> r[k] == RStrip(lines[k])
  {
    if |lines| == 0 then [] else RStripAll(lines[..|lines| - 1]) + [RStrip(lines[|lines| - 1])]
  }

  /** No line holds `</pre>`. */
  predicate NoneCloses(lines: seq<string>) {
    |lines| == 0 || (NoneCloses(lines[..|lines| - 1]) && !Contains(RStrip(lines[|lines| - 1]), ClosePre))
  }

  lemma {:induction false} RStripAllAppend(lines: seq<string>, line: string)
    ensures RStripAll(lines + [line]) == RStripAll(lines) + [RStrip(line)]
  {
    assert (lines + [line])[..|lines|] == lines;
  }

  /** One more line that does not close the block. */
  lemma {:induction false} UnclosedStep(lines: seq<string>, rest: seq<string>)
    requires |rest| > 0 && NoneCloses(rest)
    requires var init := rest[..|rest| - 1];
      Run(lines + init).inPre && Run(lines + init).out == Run(lines).out + RStripAll(init)
    ensures Run(lines + rest).inPre
    ensures Run(lines + rest).out == Run(lines).out + RStripAll(rest)
  {
    var init, last := rest[..|rest| - 1], rest[|rest| - 1];
    InitLast(rest);
    AppendAssoc(lines, init, [last]);
    RunAppend(lines + init, last);
    InsidePreVerbatim(last);
    RStripAllAppend(init, last);
    AppendAssoc(Run(lines).out, RStripAll(init), [RStrip(last)]);
  }

  /** A `<pre>` that is never closed keeps the block open to the end of the
      input: each later line is emitted right-stripped. */
  lemma {:induction false} UnclosedPre(lines: seq<string>, rest: seq<string>)
    requires Run(lines).inPre
    requires NoneCloses(rest)
    ensures Run(lines + rest).inPre
    ensures Run(lines + rest).out == Run(lines).out + RStripAll(rest)
    decreases |rest|
  {
    if |rest| == 0 {
      assert lines + rest == lines;
    } else {
      UnclosedPre(lines, rest[..|rest| - 1]);
      UnclosedStep(lines, rest);
    }
  }

  /** Lines with no header and no `<pre` tag are only right-stripped. */
  lemma {:induction false} PlainLinesStripped(lines: seq<string>)
    requires forall k :: 0 <= k < |lines| ==> HeaderMatch(RStrip(lines[k])) == None && !Contains(RStrip(lines[k]), "<pre")
    ensures !Run(lines).inPre
    ensures HtmlToMarkdown(lines) == RStripAll(lines)
  {
    if |lines| > 0 {
      var init, last := lines[..|lines| - 1], lines[|lines| - 1];
      PlainLinesStripped(init);
      PlainLine(last);
      InitLast(lines);
      RunAppend(init, last);
      RStripAllAppend(init, last);
    }
  }

  /** Outside a block, a line with no header and no `<pre` tag is only
      right-stripped. */
  lemma {:induction false} PlainLine(raw: string)
    requires HeaderMatch(RStrip(raw)) == None && !Contains(RStrip(raw), "<pre")
    ensures Line(false, raw) == Emit([RStrip(raw)], false)
  {
    var line := RStrip(raw);
    ContainsFind(line, "<pre");
    assert Rewrite(line) == line;
    assert Open(line) == Stage([], false, line);
  }
}
