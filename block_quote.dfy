/** `document/block_quote.py`: recognising a block-quote line and removing
    its delimiter, `' {0,3}> ?'` at the start of the line. */
module BlockQuote {
  import opened Strings

  /** Where the `>` of a block-quote delimiter is: up to three spaces and
      then `>` at the start of the line (`' {0,3}>'`). */
  function MarkerIndex(line: string): (r: Option<nat>)
    ensures r.Some? ==> r.value <= 3 && r.value < |line| && line[r.value] == '>'
  {
    var k := Span(line, {' '});
    if k <= 3 && k < |line| && line[k] == '>' then Some(k) else None
  }

  /** `BlockQuote.matches`. */
  predicate Matches(line: string) {
    MarkerIndex(line).Some?
  }

  /** End of the match of `' {0,3}> ?'`: the marker and at most one space. */
  function DelimiterEnd(line: string): Option<nat> {
    match MarkerIndex(line)
    case None => None
    case Some(k) => Some(if k + 1 < |line| && line[k + 1] == ' ' then k + 2 else k + 1)
  }

  /** `BlockQuote.strip_delimiters`: the line after the delimiter, or the
      line unchanged when there is none. */
  function StripDelimiters(line: string): string {
    match DelimiterEnd(line)
    case None => line
    case Some(e) => line[e..]
  }

  /** A line is a block-quote line exactly when it is at most three spaces
      followed by `>`. */
  lemma {:induction false} MatchesIff(line: string)
    ensures Matches(line) <==> exists k :: 0 <= k <= 3 && k < |line| && line[..k] == Spaces(k) && line[k] == '>'
  {
    SpanIsRun(line, {' '});
    if Matches(line) {
      var k := MarkerIndex(line).value;
      assert line[..k] == Spaces(k);
    }
    if exists k :: 0 <= k <= 3 && k < |line| && line[..k] == Spaces(k) && line[k] == '>' {
      var k :| 0 <= k <= 3 && k < |line| && line[..k] == Spaces(k) && line[k] == '>';
    }
  }

  /** Stripping removes exactly a delimiter — up to three spaces, `>` and at
      most one space — and leaves a line without one alone; when a space
      follows the `>` it goes with the delimiter. */
  lemma {:induction false} StripRemovesDelimiter(line: string)
    ensures IsSuffix(StripDelimiters(line), line)
    ensures !Matches(line) ==> StripDelimiters(line) == line
    ensures Matches(line) ==>
              exists k :: 0 <= k <= 3 &&
                (line == Spaces(k) + ">" + StripDelimiters(line) ||
                 line == Spaces(k) + "> " + StripDelimiters(line))
    ensures Matches(line) ==>
              forall k :: 0 <= k <= 3 && line == Spaces(k) + ">" + StripDelimiters(line) ==>
                StripDelimiters(line) == "" || StripDelimiters(line)[0] != ' '
  {
    SpanIsRun(line, {' '});
    if Matches(line) {
      var k := MarkerIndex(line).value;
      var r := StripDelimiters(line);
      assert line[..k] == Spaces(k);
      if k + 1 < |line| && line[k + 1] == ' ' {
        assert line == Spaces(k) + "> " + r;
      } else {
        assert line == Spaces(k) + ">" + r;
      }
      forall j | 0 <= j <= 3 && line == Spaces(j) + ">" + r
        ensures r == "" || r[0] != ' '
      {
        assert line[j] == '>';
      }
    }
  }
}
