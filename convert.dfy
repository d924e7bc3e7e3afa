/** The two small pure helpers shared by `md2nb/convert.py` and
    `docs_nbgen.py`: `shell_code_block`, which turns shell code into
    notebook `!` commands, and `error_message`, which points at the
    offending part of a line. */
module Convert {
  import opened Strings
  import FilterClasses

  /** One line of `shell_code_block`: a line that is not empty and is not a
      `#` comment becomes a `!` command. */
  function ShellLine(line: string): string {
    if line != "" && !StartsWith(line, "#") then "!" + line else line
  }

  /** `'\n'.join(...)` of `ShellLine` over `source.splitlines()`. */
  function ShellCodeBlock(source: string): string {
    var lines := SplitLines(source);
    Join("\n", seq(|lines|, i requires 0 <= i < |lines| => ShellLine(lines[i])))
  }

  /** Splitting the result again gives one line per input line: every
      command line gets exactly one `!` in front, and empty lines and `#`
      lines come back unchanged. */
  lemma {:induction false} ShellCodeBlockLines(source: string)
    requires source != "" && source[|source| - 1] != '\n'
    ensures var lines := SplitLines(source);
            var out := SplitLines(ShellCodeBlock(source));
            && |out| == |lines|
            && (forall i :: 0 <= i < |lines| && lines[i] != "" && !StartsWith(lines[i], "#") ==> out[i] == "!" + lines[i])
            && (forall i :: 0 <= i < |lines| && (lines[i] == "" || StartsWith(lines[i], "#")) ==> out[i] == lines[i])
  {
    var lines := SplitLines(source);
    JoinSplitLines(source);
    SplitLinesHaveNoBreak(source);
    var shelled := seq(|lines|, i requires 0 <= i < |lines| => ShellLine(lines[i]));
    forall i | 0 <= i < |shelled|
      ensures '\n' !in shelled[i]
    {
      if lines[i] != "" && !StartsWith(lines[i], "#") {
        assert forall k :: 0 <= k < |shelled[i]| ==> shelled[i][k] == '!' || shelled[i][k] in lines[i];
      }
    }
    SplitLinesJoin(shelled);
  }

  /** The two shell rewrites disagree on an interior line exactly when it is
      empty or a `#` comment: `filter_classes` puts `!` before it anyway. */
  lemma {:induction false} ShellRewritesDiffer(lines: seq<string>, i: nat)
    requires 0 < i < |lines| - 1
    ensures FilterClasses.ShellPrefixed(lines)[i] != ShellLine(lines[i])
            <==> (lines[i] == "" || StartsWith(lines[i], "#"))
  {
    if lines[i] == "" || StartsWith(lines[i], "#") {
      assert |FilterClasses.ShellPrefixed(lines)[i]| == |lines[i]| + 1;
    }
  }

  /** The caret line of `error_message`: `start` spaces, then one `~` per
      matched character. */
  function Marker(start: nat, matchLength: nat): string {
    Spaces(start) + Repeat('~', matchLength)
  }

  /** The first line of `error_message`, with the stray closing quote the
      source writes after the message. */
  function ErrorHeader(message: string, lineNumber: nat): string {
    "line " + NatToString(lineNumber) + ": " + message + "'"
  }

  /** `error_message(message, re_match, line_number, line)`, with the match
      given by its start and its length. */
  function ErrorMessage(message: string, lineNumber: nat, line: string, start: nat, matchLength: nat): string {
    Join("\n", [ErrorHeader(message, lineNumber), "", line, Marker(start, matchLength), ""])
  }

  /** The `~` marks sit exactly under the matched characters. */
  lemma {:induction false} MarkerUnderMatch(start: nat, matchLength: nat)
    ensures var m := Marker(start, matchLength);
            && |m| == start + matchLength
            && (forall k :: 0 <= k < |m| ==> (m[k] == '~' <==> start <= k))
            && (forall k :: 0 <= k < |m| ==> (m[k] == ' ' <==> k < start))
  {
    var m := Marker(start, matchLength);
    forall k | 0 <= k < |m|
      ensures m[k] == (if k < start then ' ' else '~')
    {
      if k < start {
        assert m[k] == Spaces(start)[k];
      } else {
        assert m[k] == Repeat('~', matchLength)[k - start];
      }
    }
  }

  lemma {:induction false} HeaderHasNoBreak(message: string, lineNumber: nat)
    requires '\n' !in message
    ensures '\n' !in ErrorHeader(message, lineNumber)
  {
    var digits := NatToString(lineNumber);
    var header := ErrorHeader(message, lineNumber);
    assert header == "line " + digits + ": " + message + "'";
    forall k | 0 <= k < |header|
      ensures header[k] != '\n'
    {
      if 5 <= k < 5 + |digits| {
        assert header[k] == digits[k - 5];
      } else if 7 + |digits| <= k < 7 + |digits| + |message| {
        assert header[k] == message[k - 7 - |digits|];
      }
    }
  }

  /** Read back line by line, the message is the header, an empty line, the
      offending line and the marker line; the fifth, empty part only ends
      the text with a line break. */
  lemma {:induction false} ErrorMessageLines(message: string, lineNumber: nat, line: string, start: nat, matchLength: nat)
    requires '\n' !in message && '\n' !in line && matchLength > 0
    ensures SplitLines(ErrorMessage(message, lineNumber, line, start, matchLength))
            == [ErrorHeader(message, lineNumber), "", line, Marker(start, matchLength)]
  {
    var header := ErrorHeader(message, lineNumber);
    var marker := Marker(start, matchLength);
    var four := [header, "", line, marker];
    HeaderHasNoBreak(message, lineNumber);
    MarkerUnderMatch(start, matchLength);
    assert marker[|marker| - 1] == '~';
    var body := Join("\n", four);
    assert ErrorMessage(message, lineNumber, line, start, matchLength) == body + "\n" by {
      JoinAppend("\n", four, "");
      assert four + [""] == [header, "", line, marker, ""];
    }
    SplitLinesJoin(four);
    assert body != "" && body[|body| - 1] == '~' by {
      JoinAppend("\n", [header, "", line], marker);
      assert [header, "", line] + [marker] == four;
    }
    SplitLinesTrailingBreak(body);
  }
}
