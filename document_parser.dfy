/** The position-tracking parser of `document/parser.py`: a parser runs on a
    `State` (the text, the index of the next character, its 1-based row and
    column, and a context label) and returns the value with the new state,
    or a `SyntaxError` that carries the state where it failed. */
module DocumentParser {
  import opened Strings
  import opened Results

  datatype State = State(text: string, position: int, row: int, col: int, context: string)

  datatype SyntaxError = SyntaxError(message: string, state: State)

  /** What running a parser gives: what it returns, or the `IndexError`
      that reading past the end of the text raises. */
  datatype Outcome<R> = Returned(result: R) | IndexError

  type Parser<A> = State -> Outcome<Result<(A, State), SyntaxError>>

  /** Building `Parser.char`: the parser, or the `ValueError` for an
      argument that is not one character long (the message shows `repr` of
      the argument, which is kept here as the argument itself). */
  datatype Built<A> = Built(parser: Parser<A>) | ValueError(argument: string)

  /** `_with`: a copy of the state with the supplied fields replaced. */
  function With(s: State, text: Option<string>, position: Option<int>, row: Option<int>, col: Option<int>, context: Option<string>): State {
    State(
      if text.Some? then text.value else s.text,
      if position.Some? then position.value else s.position,
      if row.Some? then row.value else s.row,
      if col.Some? then col.value else s.col,
      if context.Some? then context.value else s.context)
  }

  /** Supplying no field copies the state, and a field supplied in a later
      `_with` wins over the same field of an earlier one while the others
      carry over. */
  lemma {:induction false} WithReplacesSupplied(s: State, position: int, row: int, col: int)
    ensures With(s, None, None, None, None, None) == s
    ensures var r := With(s, None, Some(position), None, Some(col), None);
      r.position == position && r.col == col && r.text == s.text && r.row == s.row && r.context == s.context
    ensures With(With(s, None, Some(position), None, Some(col), None), None, None, Some(row), None, None)
      == With(s, None, Some(position), Some(row), Some(col), None)
  {
  }

  /** The text index may be negative, as in Python, down to minus its length. */
  predicate HasCurrent(s: State) {
    -|s.text| <= s.position < |s.text|
  }

  /** `_currentCharacter`: `text[position]` with Python's indexing. */
  function CurrentCharacter(s: State): char
    requires HasCurrent(s)
  {
    if s.position < 0 then s.text[|s.text| + s.position] else s.text[s.position]
  }

  /** `_advance`: moves `n` positions on; a newline starts the next row at
      column 1, any other character moves one column right. */
  function Advance(s: State, n: int): (r: State)
    requires HasCurrent(s)
    ensures r.text == s.text && r.context == s.context && r.position == s.position + n
    ensures CurrentCharacter(s) == '\n' ==> r.row == s.row + 1 && r.col == 1
    ensures CurrentCharacter(s) != '\n' ==> r.row == s.row && r.col == s.col + 1
  {
    if CurrentCharacter(s) != '\n' then With(s, None, Some(s.position + n), None, Some(s.col + 1), None)
    else With(s, None, Some(s.position + n), Some(s.row + 1), Some(1), None)
  }

  /** The message of a mismatch. */
  function Expected(ch: string, got: char): string {
    "expected character '" + ch + "', but got '" + [got] + "'"
  }

  /** `Parser.char`. */
  function Char(ch: string): (b: Built<string>)
    ensures b.ValueError? <==> |ch| != 1
  {
    if |ch| != 1 then ValueError(ch)
    else Built(state =>
      if !HasCurrent(state) then IndexError
      else if [CurrentCharacter(state)] == ch then Returned(Ok((ch, Advance(state, 1))))
      else Returned(Error(SyntaxError(Expected(ch, CurrentCharacter(state)), state))))
  }

  /** `char(c)` on a state: past the end it raises `IndexError`; on a match
      it returns `c` and the state one position on; on a mismatch the error
      names both characters and keeps the state unchanged. */
  lemma {:induction false} CharRuns(c: char, s: State)
    ensures Char([c]).Built?
    ensures !HasCurrent(s) ==> Char([c]).parser(s).IndexError?
    ensures HasCurrent(s) && CurrentCharacter(s) == c ==> Char([c]).parser(s) == Returned(Ok(([c], Advance(s, 1))))
    ensures HasCurrent(s) && CurrentCharacter(s) != c ==>
      Char([c]).parser(s) == Returned(Error(SyntaxError(Expected([c], CurrentCharacter(s)), s)))
  {
  }

  /** The state `parse` starts from. */
  function Initial(text: string): State {
    State(text, 0, 1, 1, "")
  }

  /** `parse` as written: runs the parser from the start of the text and
      returns its `(value, state)` result as it is. */
  function Parse<A>(p: Parser<A>, text: string): Outcome<Result<(A, State), SyntaxError>> {
    p(Initial(text))
  }

  function Value<A>(pair: (A, State)): A {
    pair.0
  }

  /** `parse` as its documentation describes it: the result of the run with
      the final state dropped from a success. */
  function ParseValue<A>(p: Parser<A>, text: string): (r: Outcome<Result<A, SyntaxError>>)
    ensures Parse(p, text).IndexError? <==> r.IndexError?
    ensures Parse(p, text).Returned? && Parse(p, text).result.Ok? ==> r == Returned(Ok(Parse(p, text).result.x.0))
    ensures Parse(p, text).Returned? && Parse(p, text).result.Error? ==> r == Returned(Error(Parse(p, text).result.e))
  {
    match Parse(p, text)
    case IndexError => IndexError
    case Returned(result) => Returned(Map(result, Value))
  }

  /** `parse('abc')` with `char('a')`: as written it succeeds with the pair
      of the value and the state after it, where the documented and expected
      result is the value alone, which the corrected `ParseValue` gives; a
      mismatch is reported the same way by both. */
  lemma {:induction false} ParseKeepsState()
    ensures Char("a").Built?
    ensures Parse(Char("a").parser, "abc") == Returned(Ok(("a", State("abc", 1, 1, 2, ""))))
    ensures ParseValue(Char("a").parser, "abc") == Returned(Ok("a"))
    ensures Char("_").Built?
    ensures ParseValue(Char("_").parser, "abc")
      == Returned(Error(SyntaxError("expected character '_', but got 'a'", Initial("abc"))))
  {
    CharRuns('a', Initial("abc"));
    assert CurrentCharacter(Initial("abc")) == 'a';
    CharRuns('_', Initial("abc"));
    assert Expected("_", 'a') == "expected character '_', but got 'a'";
  }

  /** Any `char` parser raises `IndexError` on the empty text. */
  lemma {:induction false} ParseEmptyRaises(c: char)
    ensures Char([c]).Built? && Parse(Char([c]).parser, "").IndexError?
  {
    CharRuns(c, Initial(""));
  }

  /** The state after advancing over the first `k` characters one at a time. */
  function Walk(s: State, k: nat): (r: State)
    requires 0 <= s.position && s.position + k <= |s.text|
    ensures r.text == s.text && r.context == s.context && r.position == s.position + k
  {
    if k == 0 then s else Advance(Walk(s, k - 1), 1)
  }

  /** Newlines in a text. */
  function Newlines(t: string): nat {
    if |t| == 0 then 0 else Newlines(t[..|t| - 1]) + (if t[|t| - 1] == '\n' then 1 else 0)
  }

  /** Characters after the last newline of a text. */
  function LastLineLength(t: string): nat {
    if |t| == 0 then 0 else if t[|t| - 1] == '\n' then 0 else LastLineLength(t[..|t| - 1]) + 1
  }

  /** Row and column track the text read: from the start of `parse`, after
      `k` characters the row is one more than the newlines read and the
      column one more than the characters read since the last of them. */
  lemma {:induction false} WalkTracksRowAndColumn(text: string, k: nat)
    requires k <= |text|
    ensures var s := Walk(Initial(text), k);
      s.position == k && s.text == text && s.row == 1 + Newlines(text[..k]) && s.col == 1 + LastLineLength(text[..k])
  {
    if k > 0 {
      WalkTracksRowAndColumn(text, k - 1);
      var before := Walk(Initial(text), k - 1);
      assert CurrentCharacter(before) == text[k - 1];
      assert text[..k][..k - 1] == text[..k - 1];
    }
  }
}
