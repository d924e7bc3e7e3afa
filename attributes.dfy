/** Kramdown-style attribute annotations `{: #id .class key='value' }`:
    `attributes_re`, `attrib_re` and `parse_attributes` of `util.py`. */
module Attributes {
  import opened Strings

  // ---------------------------------------------------------------------
  // `attributes_re`: optional whitespace, `{:`, a body without `}`, `}`,
  // then any line breaks.

  /** Where an annotation match lies in `s`: it starts at `start` (the
      whitespace before `{:`), its body runs from `bodyStart` to `bodyEnd`
      (the first `}` after `{:`) and it ends at `stop`, after the line breaks
      that follow the `}`. */
  datatype Match = Match(start: nat, bodyStart: nat, bodyEnd: nat, stop: nat)

  /** Number of `\n` characters at the start of `s`. */
  function LeadingNewlines(s: string): (n: nat)
    ensures n <= |s|
    ensures forall j :: 0 <= j < n ==> s[j] == '\n'
    ensures n < |s| ==> s[n] != '\n'
  {
    if s != [] && s[0] == '\n' then 1 + LeadingNewlines(s[1..]) else 0
  }

  /** Index of the first `{:` in `s`, or `|s|` when there is none. */
  function FindOpen(s: string): (q: nat)
    ensures q <= |s|
    ensures q < |s| ==> q + 1 < |s| && s[q] == '{' && s[q + 1] == ':'
    ensures forall j :: 0 <= j < q && j + 1 < |s| ==> !(s[j] == '{' && s[j + 1] == ':')
  {
    if |s| < 2 then |s|
    else if s[0] == '{' && s[1] == ':' then 0
    else 1 + FindOpen(s[1..])
  }

  /** `attributes_re.search(s)`: the leftmost match. It belongs to the first
      `{:` of `s`, provided some `}` follows it. */
  function Search(s: string): (r: Option<Match>)
    ensures r.Some? ==> IsMatch(s, r.value)
    ensures r.Some? ==> forall j :: 0 <= j < r.value.bodyStart - 2 ==> !(s[j] == '{' && s[j + 1] == ':')
    ensures r.None? ==>
      forall j, l :: 0 <= j && j + 2 <= l < |s| && s[j] == '{' && s[j + 1] == ':' ==> s[l] != '}'
  {
    var q := FindOpen(s);
    if q == |s| then None
    else
      var close := IndexOf(s[q + 2..], '}');
      if close == |s| - q - 2 then
        assert forall l :: q + 2 <= l < |s| ==> s[l] == s[q + 2..][l - q - 2];
        None
      else
        var bodyEnd := q + 2 + close;
        var m := Match(|RStrip(s[..q])|, q + 2, bodyEnd, bodyEnd + 1 + LeadingNewlines(s[bodyEnd + 1..]));
        MatchAfterOpen(s, q, m);
        Some(m)
  }

  lemma {:induction false} MatchAfterOpen(s: string, q: nat, m: Match)
    requires q + 1 < |s| && s[q] == '{' && s[q + 1] == ':'
    requires m.bodyStart == q + 2 && m.bodyEnd == q + 2 + IndexOf(s[q + 2..], '}') < |s|
    requires m.start == |RStrip(s[..q])| && m.stop == m.bodyEnd + 1 + LeadingNewlines(s[m.bodyEnd + 1..])
    ensures IsMatch(s, m)
  {
    assert s[m.start..q] == s[..q][m.start..];
    assert forall l :: q + 2 <= l < |s| ==> s[l] == s[q + 2..][l - q - 2];
    assert forall l :: m.bodyEnd + 1 <= l < |s| ==> s[l] == s[m.bodyEnd + 1..][l - m.bodyEnd - 1];
  }

  /** A match: whitespace, `{:`, a body free of `}`, `}`, then all the line
      breaks that follow. */
  predicate IsMatch(s: string, m: Match) {
    2 <= m.bodyStart && m.start <= m.bodyStart - 2 && m.bodyStart <= m.bodyEnd < m.stop <= |s|
    && s[m.bodyStart - 2] == '{' && s[m.bodyStart - 1] == ':'
    && IsBlank(s[m.start..m.bodyStart - 2])
    && (m.start > 0 ==> !IsSpace(s[m.start - 1]))
    && s[m.bodyEnd] == '}'
    && (forall j :: m.bodyStart <= j < m.bodyEnd ==> s[j] != '}')
    && (forall j :: m.bodyEnd < j < m.stop ==> s[j] == '\n')
    && (m.stop < |s| ==> s[m.stop] != '\n')
  }

  /** The body of the first annotation of `s`, if it has one. */
  function Annotation(s: string): Option<string> {
    match Search(s)
    case None => None
    case Some(m) => Some(s[m.bodyStart..m.bodyEnd])
  }

  /** `attributes_re.match(s)`: an annotation starting at the very front. */
  predicate StartsWithAnnotation(s: string) {
    Search(s).Some? && Search(s).value.start == 0
  }

  /** `attributes_re.sub('', s)`: every match removed, left to right. */
  function StripAnnotations(s: string): (r: string)
    ensures |r| <= |s|
    decreases |s|
  {
    match Search(s)
    case None => s
    case Some(m) => s[..m.start] + StripAnnotations(s[m.stop..])
  }

  /** Removing annotations changes the text exactly when it holds one, and
      then shortens it by at least the three characters `{:}`. */
  lemma {:induction false} StripChangesIffAnnotated(s: string)
    ensures StripAnnotations(s) == s <==> Annotation(s).None?
    ensures Annotation(s).Some? ==> |StripAnnotations(s)| <= |s| - 3
  {
  }

  /** `'{:' in s` holds exactly when `FindOpen` finds one. */
  lemma {:induction false} ContainsOpen(s: string)
    ensures Contains(s, "{:") <==> FindOpen(s) < |s|
  {
    if FindOpen(s) < |s| {
      OpenAt(s, FindOpen(s));
    }
    if Contains(s, "{:") {
      var j :| 0 <= j <= |s| && At(s, j, "{:");
      OpenAt(s, j);
    }
  }

  /** `{:` occurs at `j` exactly when its two characters are there. */
  lemma {:induction false} OpenAt(s: string, j: nat)
    ensures At(s, j, "{:") <==> (j + 1 < |s| && s[j] == '{' && s[j + 1] == ':')
  {
    if j + 1 < |s| {
      assert s[j..j + 2] == [s[j], s[j + 1]];
    }
  }

  /** Text without `{:` is left alone. */
  lemma {:induction false} NoBraceColonUnchanged(s: string)
    requires !Contains(s, "{:")
    ensures StripAnnotations(s) == s && Annotation(s) == None
  {
    ContainsOpen(s);
  }

  // ---------------------------------------------------------------------
  // `attrib_re`: one whitespace-separated token of the body.

  /** `[\w-]`. */
  predicate IsNameChar(c: char) {
    IsWordChar(c) || c == '-'
  }

  predicate IsName(s: string) {
    forall j :: 0 <= j < |s| ==> IsNameChar(s[j])
  }

  datatype Token =
    | IdToken(id: string)                  // #id
    | ClassToken(name: string)             // .class
    | KeyToken(key: string, value: string) // key='value' or key="value"
    | Invalid

  /** Length of the leading run of name characters. */
  function NameLength(s: string): (n: nat)
    ensures n <= |s| && IsName(s[..n])
    ensures n < |s| ==> !IsNameChar(s[n])
  {
    if s != [] && IsNameChar(s[0]) then
      var n := 1 + NameLength(s[1..]);
      assert s[..n] == [s[0]] + s[1..][..n - 1];
      n
    else 0
  }

  /** `attrib_re.match(token)`, with the group that matched. */
  function Classify(t: string): (r: Token)
    ensures r.IdToken? ==> t == "#" + r.id && r.id != "" && IsName(r.id)
    ensures r.ClassToken? ==> t == "." + r.name && r.name != "" && IsName(r.name)
    ensures r.KeyToken? ==>
      (r.key != "" && IsName(r.key) && IsName(r.value)
       && (t == r.key + "='" + r.value + "'" || t == r.key + "=\"" + r.value + "\""))
  {
    if |t| >= 2 && t[0] == '#' && IsName(t[1..]) then IdToken(t[1..])
    else if |t| >= 2 && t[0] == '.' && IsName(t[1..]) then ClassToken(t[1..])
    else
      var k := NameLength(t);
      if 0 < k && k + 3 <= |t| && t[k] == '=' && (t[k + 1] == '\'' || t[k + 1] == '"')
         && t[|t| - 1] == t[k + 1] && IsName(t[k + 2..|t| - 1])
      then
        var r := KeyToken(t[..k], t[k + 2..|t| - 1]);
        assert t == t[..k] + [t[k]] + [t[k + 1]] + t[k + 2..|t| - 1] + [t[|t| - 1]];
        r
      else Invalid
  }

  /** Every token the grammar accepts is recognised: the inverse of `Classify`. */
  lemma {:induction false} ClassifyComplete(name: string, value: string, quote: char)
    requires name != "" && IsName(name) && IsName(value) && (quote == '\'' || quote == '"')
    ensures Classify("#" + name) == IdToken(name)
    ensures Classify("." + name) == ClassToken(name)
    ensures Classify(name + "=" + [quote] + value + [quote]) == KeyToken(name, value)
  {
    var t := name + "=" + [quote] + value + [quote];
    assert (("#" + name)[1..]) == name;
    assert (("." + name)[1..]) == name;
    NameLengthOf(name, "=" + [quote] + value + [quote]);
    assert t == name + ("=" + [quote] + value + [quote]);
    assert t[|name| + 2..|t| - 1] == value;
  }

  lemma {:induction false} NameLengthOf(name: string, rest: string)
    requires IsName(name) && rest != [] && !IsNameChar(rest[0])
    ensures NameLength(name + rest) == |name|
  {
    if name != [] {
      assert (name + rest)[1..] == name[1..] + rest;
      NameLengthOf(name[1..], rest);
    }
  }

  // ---------------------------------------------------------------------
  // `parse_attributes`.

  /** A parsed attribute: a plain string, or the list stored under `class`. */
  datatype Value = Text(text: string) | Classes(names: seq<string>)

  type Attrs = map<string, Value>

  /** The outcome of `parse_attributes`: no annotation (None), the
      dictionary, or the AttributeError raised when a `.class` token meets a
      string stored under `class` by an earlier `class='...'` token. */
  datatype Parsed = NoAnnotation | Parsed(attrs: Attrs) | ClassIsText

  /** One iteration of the token loop. A `.class` token first creates an
      empty list under `class` when the name is absent, then appends to it. */
  function Apply(r: Parsed, t: string): Parsed {
    if !r.Parsed? then r
    else ApplyToken(r.attrs, Classify(t))
  }

  function ApplyToken(attrs: Attrs, tok: Token): Parsed {
    match tok
    case Invalid => Parsed(attrs)
    case IdToken(id) => Parsed(attrs["id" := Text(id)])
    case ClassToken(c) =>
      var withList := if "class" !in attrs then attrs["class" := Classes([])] else attrs;
      if withList["class"].Text? then ClassIsText
      else Parsed(withList["class" := Classes(withList["class"].names + [c])])
    case KeyToken(k, v) => Parsed(attrs[k := Text(v)])
  }

  /** The dictionary built from `tokens`. */
  function ParseTokens(tokens: seq<string>): Parsed {
    if |tokens| == 0 then Parsed(map[])
    else Apply(ParseTokens(tokens[..|tokens| - 1]), tokens[|tokens| - 1])
  }

  /** `parse_attributes(line)`. */
  function ParseAttributes(line: string): Parsed {
    match Annotation(line)
    case None => NoAnnotation
    case Some(body) => ParseTokens(Words(Strip(body)))
  }

  /** `parse_attributes`, proved to compute `ParseAttributes`. */
  method ParseAttributesLoop(line: string) returns (r: Parsed)
    ensures r == ParseAttributes(line)
  {
    var body := Annotation(line);
    if body.None? {
      return NoAnnotation;
    }
    var tokens := Words(Strip(body.value));
    r := ParseTokensLoop(tokens);
  }

  /** The token loop of `parse_attributes`, proved to compute `ParseTokens`. */
  method ParseTokensLoop(tokens: seq<string>) returns (r: Parsed)
    ensures r == ParseTokens(tokens)
  {
    var result: Attrs := map[];
    var i := 0;
    while i < |tokens|
      invariant 0 <= i <= |tokens|
      invariant ParseTokens(tokens[..i]) == Parsed(result)
    {
      var tok := Classify(tokens[i]);
      ghost var next := ApplyToken(result, tok);
      ParseTokensNext(tokens, i);
      match tok {
        case Invalid =>
        case IdToken(id) =>
          result := result["id" := Text(id)];
        case ClassToken(c) =>
          if "class" !in result {
            result := result["class" := Classes([])];
          }
          if result["class"].Text? {
            ErrorPersists(tokens, i + 1);
            return ClassIsText;
          }
          result := result["class" := Classes(result["class"].names + [c])];
        case KeyToken(k, v) =>
          result := result[k := Text(v)];
      }
      assert next == Parsed(result);
      i := i + 1;
    }
    assert tokens[..|tokens|] == tokens;
    r := Parsed(result);
  }

  lemma {:induction false} ParseTokensNext(tokens: seq<string>, i: nat)
    requires i < |tokens|
    ensures ParseTokens(tokens[..i + 1]) == Apply(ParseTokens(tokens[..i]), tokens[i])
  {
    TakeNext(tokens, i);
  }

  lemma {:induction false} ErrorPersists(tokens: seq<string>, i: nat)
    requires i <= |tokens| && ParseTokens(tokens[..i]) == ClassIsText
    ensures ParseTokens(tokens) == ClassIsText
    decreases |tokens| - i
  {
    if i < |tokens| {
      TakeNext(tokens, i);
      ErrorPersists(tokens, i + 1);
    } else {
      assert tokens[..i] == tokens;
    }
  }

  // ---------------------------------------------------------------------
  // What the dictionary holds.

  /** The name a token assigns, if any (`class` tokens append instead). */
  function Assigns(t: Token): Option<string> {
    match t
    case IdToken(_) => Some("id")
    case KeyToken(k, _) => Some(k)
    case _ => None
  }

  function AssignedValue(t: Token): string
    requires Assigns(t).Some?
  {
    match t
    case IdToken(id) => id
    case KeyToken(_, v) => v
  }

  /** The value of the last token assigning `name`, if any. */
  function LastAssigned(tokens: seq<string>, name: string): Option<string> {
    if |tokens| == 0 then None
    else
      var t := Classify(tokens[|tokens| - 1]);
      if Assigns(t) == Some(name) then Some(AssignedValue(t))
      else LastAssigned(tokens[..|tokens| - 1], name)
  }

  /** The names of the `.class` tokens, in order. */
  function ClassNames(tokens: seq<string>): seq<string> {
    if |tokens| == 0 then []
    else
      var t := Classify(tokens[|tokens| - 1]);
      ClassNames(tokens[..|tokens| - 1]) + (if t.ClassToken? then [t.name] else [])
  }

  /** Some token stores a string under `class` (`class='...'`). */
  predicate SetsClassText(tokens: seq<string>) {
    LastAssigned(tokens, "class").Some?
  }

  /** A `.class` token comes after a `class='...'` token. */
  function ClassAfterText(tokens: seq<string>): bool {
    if |tokens| == 0 then false
    else
      var init := tokens[..|tokens| - 1];
      ClassAfterText(init) || (Classify(tokens[|tokens| - 1]).ClassToken? && SetsClassText(init))
  }

  /** The dictionary as described token by token: parsing fails exactly when
      a `.class` token follows a `class='...'` token; otherwise each name
      holds its last assigned value (so the last `#id` wins), and `class`
      holds the `.class` names in order unless a `class='...'` came after
      them. */
  lemma {:induction false} ParseTokensMeaning(tokens: seq<string>)
    ensures ParseTokens(tokens) == ClassIsText <==> ClassAfterText(tokens)
    ensures ParseTokens(tokens).Parsed? <==> !ClassAfterText(tokens)
    ensures ParseTokens(tokens).Parsed? ==> forall name :: name != "class" ==>
      (name in ParseTokens(tokens).attrs <==> LastAssigned(tokens, name).Some?)
      && (name in ParseTokens(tokens).attrs ==> ParseTokens(tokens).attrs[name] == Text(LastAssigned(tokens, name).value))
    ensures ParseTokens(tokens).Parsed? && !SetsClassText(tokens) ==>
      ("class" in ParseTokens(tokens).attrs <==> ClassNames(tokens) != [])
      && ("class" in ParseTokens(tokens).attrs ==> ParseTokens(tokens).attrs["class"] == Classes(ClassNames(tokens)))
    ensures ParseTokens(tokens).Parsed? && SetsClassText(tokens) ==>
      "class" in ParseTokens(tokens).attrs
      && ParseTokens(tokens).attrs["class"] == Text(LastAssigned(tokens, "class").value)
  {
    NeverNoAnnotation(tokens);
    if |tokens| > 0 {
      var init := tokens[..|tokens| - 1];
      ParseTokensMeaning(init);
    }
  }

  /** Tokens the grammar rejects are skipped, so `{:}` and `{:@}` parse to
      an empty dictionary rather than None. */
  lemma {:induction false} InvalidTokensIgnored(tokens: seq<string>, t: string)
    requires Classify(t).Invalid?
    ensures ParseTokens(tokens + [t]) == ParseTokens(tokens)
  {
    assert (tokens + [t])[..|tokens|] == tokens;
  }

  /** `parse_attributes` returns None exactly when there is no annotation. */
  lemma {:induction false} NoneIffNoAnnotation(line: string)
    ensures ParseAttributes(line) == NoAnnotation <==> Annotation(line).None?
  {
    if Annotation(line).Some? {
      NeverNoAnnotation(Words(Strip(Annotation(line).value)));
    }
  }

  lemma {:induction false} NeverNoAnnotation(tokens: seq<string>)
    ensures ParseTokens(tokens) != NoAnnotation
  {
    if |tokens| > 0 {
      NeverNoAnnotation(tokens[..|tokens| - 1]);
    }
  }
}
