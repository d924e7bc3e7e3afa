/** The parser combinators of `document/parser_monad.py`. A parser maps the
    input text to `None` (no match) or to a value and the text left over.
    Characters are ASCII; a one-character Python string is a `char`. */
module ParserMonad {
  import opened Strings

  type Parser<A> = string -> Option<(A, string)>

  /** Building a counted combinator: the parser, or the `ValueError` Python
      raises at construction time for a bad count. */
  datatype Built<A> = Built(parser: Parser<A>) | ValueError(message: string)

  /** `Parser.Value`: succeeds with `x` and consumes nothing. */
  function Value<A>(x: A): Parser<A> {
    text => Some((x, text))
  }

  /** `Parser.Error`: always fails. */
  function Error<A>(): Parser<A> {
    _ => None
  }

  /** `|`: the first parser's result when it matches, otherwise the second
      parser run on the same input. */
  function Or<A>(p: Parser<A>, q: Parser<A>): Parser<A> {
    text => if p(text).Some? then p(text) else q(text)
  }

  /** `|` is associative and `Error` is its unit on both sides; a failing
      first parser leaves the input for the second one untouched. */
  lemma {:induction false} OrLaws<A>(p: Parser<A>, q: Parser<A>, s: Parser<A>, text: string)
    ensures p(text).None? ==> Or(p, q)(text) == q(text)
    ensures p(text).Some? ==> Or(p, q)(text) == p(text)
    ensures Or(Or(p, q), s)(text) == Or(p, Or(q, s))(text)
    ensures Or(Error(), p)(text) == p(text) && Or(p, Error())(text) == p(text)
  {
  }

  /** `flatmap` (and `>>`): the value of `p` chooses the next parser, which
      runs on the text `p` left over. */
  function Flatmap<A, B>(p: Parser<A>, f: A -> Parser<B>): Parser<B> {
    text => if p(text).Some? then f(p(text).value.0)(p(text).value.1) else None
  }

  /** A failure of `p` short-circuits `flatmap`, and `flatmap` obeys the
      monad laws with `Value` as unit. */
  lemma {:induction false} FlatmapLaws<A, B, C>(x: A, p: Parser<A>, f: A -> Parser<B>, g: B -> Parser<C>, text: string)
    ensures p(text).None? ==> Flatmap(p, f)(text).None?
    ensures Flatmap(Value(x), f)(text) == f(x)(text)
    ensures Flatmap(p, y => Value(y))(text) == p(text)
    ensures Flatmap(Flatmap(p, f), g)(text) == Flatmap(p, y => Flatmap(f(y), g))(text)
  {
  }

  /** `if_`: `p`, but only when its value satisfies the condition. */
  function If<A>(p: Parser<A>, condition: A -> bool): Parser<A> {
    Flatmap(p, item => if condition(item) then Value(item) else Error())
  }

  /** `if_` matches where `p` matches with a value satisfying the condition,
      and then exactly as `p` does. */
  lemma {:induction false} IfRuns<A>(p: Parser<A>, condition: A -> bool, text: string)
    ensures If(p, condition)(text).Some? <==> p(text).Some? && condition(p(text).value.0)
    ensures If(p, condition)(text).Some? ==> If(p, condition)(text) == p(text)
  {
  }

  /** `any_char`: fails on the empty text, otherwise the first character and the rest. */
  function AnyChar(): Parser<char> {
    text => if |text| > 0 then Some((text[0], text[1..])) else None
  }

  lemma {:induction false} AnyCharRuns(text: string)
    ensures AnyChar()(text).Some? <==> text != ""
    ensures text != "" ==> AnyChar()(text) == Some((text[0], text[1..]))
  {
  }

  /** Every match consumes at least one character. Without this, the loop
      of `repeat_while` never ends on a parser that matches the empty text. */
  ghost predicate Consumes<A>(p: Parser<A>) {
    forall text :: p(text).Some? ==> |p(text).value.1| < |text|
  }

  lemma {:induction false} CharParsersConsume(condition: char -> bool)
    ensures Consumes(AnyChar()) && Consumes(If(AnyChar(), condition))
  {
  }

  /** `items` are the values of successive matches of `p` starting at
      `text`, and `rest` is what the last of them leaves over. */
  ghost predicate Chain<A>(p: Parser<A>, text: string, items: seq<A>, rest: string)
    decreases |items|
  {
    if |items| == 0 then rest == text
    else p(text).Some? && p(text).value.0 == items[0] && Chain(p, p(text).value.1, items[1..], rest)
  }

  /** What `repeat_while` returns from `text`: the items of the successive
      matches for as long as each satisfies the condition, and the text
      before the first match that does not (or where `p` fails). */
  function RepeatFrom<A>(p: Parser<A>, condition: A -> bool, text: string): (r: (seq<A>, string))
    requires Consumes(p)
    ensures Chain(p, text, r.0, r.1)
    ensures forall i :: 0 <= i < |r.0| ==> condition(r.0[i])
    ensures p(r.1).Some? ==> !condition(p(r.1).value.0)
    ensures |r.1| <= |text|
    decreases |text|
  {
    if p(text).None? || !condition(p(text).value.0) then ([], text)
    else
      var tail := RepeatFrom(p, condition, p(text).value.1);
      var r := ([p(text).value.0] + tail.0, tail.1);
      assert r.0[1..] == tail.0;
      r
  }

  /** The loop of `repeat_while`'s parse function. */
  method RunRepeatWhile<A>(p: Parser<A>, condition: A -> bool, text: string) returns (xs: seq<A>, rest: string)
    requires Consumes(p)
    ensures (xs, rest) == RepeatFrom(p, condition, text)
  {
    xs, rest := [], text;
    var t := text;
    var output := p(t);
    assert xs + RepeatFrom(p, condition, t).0 == RepeatFrom(p, condition, t).0;
    while output.Some?
      invariant t == rest && output == p(t)
      invariant RepeatFrom(p, condition, text) == (xs + RepeatFrom(p, condition, t).0, RepeatFrom(p, condition, t).1)
      decreases |t|
    {
      var x := output.value.0;
      t := output.value.1;
      if !condition(x) {
        AppendEmpty(xs);
        break;
      }
      AppendAssoc(xs, [x], RepeatFrom(p, condition, t).0);
      rest := t;
      xs := xs + [x];
      output := p(t);
    }
    if output.None? {
      AppendEmpty(xs);
    }
  }

  /** `repeat_while`: never fails. */
  function RepeatWhile<A>(p: Parser<A>, condition: A -> bool): Parser<seq<A>>
    requires Consumes(p)
  {
    text => Some(RepeatFrom(p, condition, text))
  }

  /** `zero_or_more`: `repeat_while` with a condition that always holds, so
      it stops exactly where `p` fails. */
  function ZeroOrMore<A>(p: Parser<A>): Parser<seq<A>>
    requires Consumes(p)
  {
    RepeatWhile(p, _ => true)
  }

  /** `zero_or_more` never fails, reads a chain of matches and stops
      exactly where `p` fails. */
  lemma {:induction false} ZeroOrMoreRuns<A>(p: Parser<A>, text: string)
    requires Consumes(p)
    ensures var r := ZeroOrMore(p)(text);
      r.Some? && Chain(p, text, r.value.0, r.value.1) && p(r.value.1).None?
  {
  }

  /** `zero_or_one`. */
  function ZeroOrOne<A>(p: Parser<A>): Parser<seq<A>> {
    Or(Flatmap(p, x => Value([x])), Value([]))
  }

  /** `zero_or_one` never fails, and yields the single item of `p` when it
      matches and nothing otherwise. */
  lemma {:induction false} ZeroOrOneRuns<A>(p: Parser<A>, text: string)
    ensures p(text).Some? ==> ZeroOrOne(p)(text) == Some(([p(text).value.0], p(text).value.1))
    ensures p(text).None? ==> ZeroOrOne(p)(text) == Some(([], text))
  {
  }

  /** `one_or_more`: one item, then `zero_or_more` of the same parser. */
  function OneOrMore<A>(p: Parser<A>): Parser<seq<A>>
    requires Consumes(p)
  {
    Flatmap(p, x => Flatmap(ZeroOrMore(p), xs => Value([x] + xs)))
  }

  /** `one_or_more` fails exactly when `p` does, and otherwise reads a
      non-empty chain of matches, stopping where `p` fails. */
  lemma {:induction false} OneOrMoreRuns<A>(p: Parser<A>, text: string)
    requires Consumes(p)
    ensures OneOrMore(p)(text).Some? <==> p(text).Some?
    ensures var r := OneOrMore(p)(text);
      r.Some? ==> |r.value.0| >= 1 && Chain(p, text, r.value.0, r.value.1) && p(r.value.1).None?
  {
    if p(text).Some? {
      var x, rest := p(text).value.0, p(text).value.1;
      ZeroOrMoreRuns(p, rest);
      var more := ZeroOrMore(p)(rest).value;
      assert OneOrMore(p)(text) == Some(([x] + more.0, more.1));
      assert ([x] + more.0)[1..] == more.0;
    }
  }

  /** The negation of a test. */
  function Not<A>(test: A -> bool): A -> bool {
    x => !test(x)
  }

  /** The test `x == delimiter` that a plain delimiter value stands for. */
  function Equals<A(==)>(delimiter: A): A -> bool {
    x => x == delimiter
  }

  /** `until_delimiter` with a delimiter test: the items before the first
      delimiter, with the delimiter consumed but not returned. */
  function UntilDelimiter<A>(p: Parser<A>, isDelimiter: A -> bool): Parser<seq<A>>
    requires Consumes(p)
  {
    Flatmap(RepeatWhile(p, Not(isDelimiter)), xs =>
      Flatmap(If(p, isDelimiter), _ => Value(xs)))
  }

  /** `until_maybe_delimiter`: as `until_delimiter`, but a missing delimiter
      is allowed. */
  function UntilMaybeDelimiter<A>(p: Parser<A>, isDelimiter: A -> bool): Parser<seq<A>>
    requires Consumes(p)
  {
    Flatmap(RepeatWhile(p, Not(isDelimiter)), xs =>
      Flatmap(ZeroOrOne(If(p, isDelimiter)), _ => Value(xs)))
  }

  /** `until_delimiter` fails exactly when `p` does not match where the
      non-delimiter items end; otherwise that match is a delimiter, and it
      is consumed but not returned. */
  lemma {:induction false} UntilDelimiterRuns<A>(p: Parser<A>, isDelimiter: A -> bool, text: string)
    requires Consumes(p)
    ensures var (xs, rest) := RepeatFrom(p, Not(isDelimiter), text);
      && (p(rest).Some? ==> isDelimiter(p(rest).value.0))
      && UntilDelimiter(p, isDelimiter)(text) == (if p(rest).Some? then Some((xs, p(rest).value.1)) else None)
  {
  }

  /** `until_maybe_delimiter` never fails, returns the same items as
      `until_delimiter`, and consumes the delimiter when there is one. */
  lemma {:induction false} UntilMaybeDelimiterRuns<A>(p: Parser<A>, isDelimiter: A -> bool, text: string)
    requires Consumes(p)
    ensures var (xs, rest) := RepeatFrom(p, Not(isDelimiter), text);
      UntilMaybeDelimiter(p, isDelimiter)(text) == Some((xs, if p(rest).Some? then p(rest).value.1 else rest))
  {
  }

  /** Index of the first `c` in `text`, or its length when there is none. */
  function FirstIndex(text: string, c: char): (i: nat)
    ensures i <= |text|
    ensures forall j :: 0 <= j < i ==> text[j] != c
    ensures i < |text| ==> text[i] == c
    decreases |text|
  {
    if |text| == 0 || text[0] == c then 0 else 1 + FirstIndex(text[1..], c)
  }

  /** Splitting the tail of a text is splitting the text one further on. */
  lemma {:induction false} ConsSlices(text: string, j: nat)
    requires j < |text|
    ensures [text[0]] + text[1..][..j] == text[..j + 1]
    ensures text[1..][j..] == text[j + 1..]
  {
  }

  /** Reading characters while they differ from `c` stops at its first occurrence. */
  lemma {:induction false} RepeatCharsUntil(c: char, text: string)
    ensures var i := FirstIndex(text, c);
      RepeatFrom(AnyChar(), Not(Equals(c)), text) == (text[..i], text[i..])
    decreases |text|
  {
    if |text| > 0 && text[0] != c {
      RepeatCharsUntil(c, text[1..]);
      ConsSlices(text, FirstIndex(text[1..], c));
    }
  }

  /** `until_delimiter` of characters up to the character `c`: it fails
      exactly when `c` does not occur, and otherwise returns the text before
      the first `c` and leaves what follows it. */
  lemma {:induction false} UntilCharDelimiter(c: char, text: string)
    ensures UntilDelimiter(AnyChar(), Equals(c))(text).None? <==> c !in text
    ensures c in text ==> var i := FirstIndex(text, c);
      UntilDelimiter(AnyChar(), Equals(c))(text) == Some((text[..i], text[i + 1..]))
  {
    UntilCharRuns(c, text);
    FirstIndexFinds(c, text);
  }

  lemma {:induction false} UntilCharRuns(c: char, text: string)
    ensures var i := FirstIndex(text, c);
      UntilDelimiter(AnyChar(), Equals(c))(text) == if i < |text| then Some((text[..i], text[i + 1..])) else None
  {
    var i := FirstIndex(text, c);
    var u := UntilDelimiter(AnyChar(), Equals(c))(text);
    CharParsersConsume(Equals(c));
    var r := RepeatFrom(AnyChar(), Not(Equals(c)), text);
    UntilDelimiterRuns(AnyChar(), Equals(c), text);
    assert u == if AnyChar()(r.1).Some? then Some((r.0, AnyChar()(r.1).value.1)) else None;
    RepeatCharsUntil(c, text);
    assert r == (text[..i], text[i..]);
    if i < |text| {
      assert AnyChar()(r.1) == Some((text[i], text[i + 1..])) by {
        assert r.1[1..] == text[i + 1..];
      }
    }
  }

  lemma {:induction false} FirstIndexFinds(c: char, text: string)
    ensures FirstIndex(text, c) < |text| <==> c in text
  {
  }

  /** `str(i)` for any integer. */
  function IntToString(i: int): string {
    if i < 0 then "-" + NatToString(-i) else NatToString(i)
  }

  /** What the loop of `at_most` collects: up to `max` successive matches,
      stopping at the first failure. */
  function AtMostFrom<A>(max: nat, p: Parser<A>, text: string): (seq<A>, string)
    decreases max
  {
    if max == 0 || p(text).None? then ([], text)
    else
      var tail := AtMostFrom(max - 1, p, p(text).value.1);
      ([p(text).value.0] + tail.0, tail.1)
  }

  /** At most `max` items, each a successive match, and fewer only where
      `p` fails. */
  lemma {:induction false} AtMostShape<A>(max: nat, p: Parser<A>, text: string)
    ensures var r := AtMostFrom(max, p, text);
      |r.0| <= max && Chain(p, text, r.0, r.1) && (|r.0| < max ==> p(r.1).None?)
    decreases max
  {
    if max > 0 && p(text).Some? {
      var tail := AtMostFrom(max - 1, p, p(text).value.1);
      AtMostShape(max - 1, p, p(text).value.1);
      assert ([p(text).value.0] + tail.0)[1..] == tail.0;
    }
  }

  /** The `for _ in range(max)` loop of `at_most`'s parse function. */
  method RunAtMost<A>(max: nat, p: Parser<A>, text: string) returns (xs: seq<A>, rest: string)
    ensures (xs, rest) == AtMostFrom(max, p, text)
  {
    xs, rest := [], text;
    assert xs + AtMostFrom(max, p, rest).0 == AtMostFrom(max, p, rest).0;
    for k := 0 to max
      invariant AtMostFrom(max, p, text) == (xs + AtMostFrom(max - k, p, rest).0, AtMostFrom(max - k, p, rest).1)
    {
      var output := p(rest);
      if output.None? {
        AppendEmpty(xs);
        break;
      }
      var x := output.value.0;
      AppendAssoc(xs, [x], AtMostFrom(max - k - 1, p, output.value.1).0);
      rest := output.value.1;
      xs := xs + [x];
    }
    AppendEmpty(xs);
  }

  function AtMostParser<A>(max: nat, p: Parser<A>): Parser<seq<A>> {
    text => Some(AtMostFrom(max, p, text))
  }

  /** `at_most`: a `ValueError` for a negative bound, otherwise a parser
      that never fails. */
  function AtMost<A>(max: int, p: Parser<A>): (b: Built<seq<A>>)
    ensures b.ValueError? <==> max < 0
    ensures max < 0 ==> b.message == "`max` must be non-negative: max=" + IntToString(max)
  {
    if max < 0 then ValueError("`max` must be non-negative: max=" + IntToString(max))
    else Built(AtMostParser(max, p))
  }

  /** Exactly `n` successive matches, or no match at all. */
  function Times<A>(n: nat, p: Parser<A>, text: string): Option<(seq<A>, string)>
    decreases n
  {
    if n == 0 then Some(([], text))
    else if p(text).None? then None
    else
      var tail := Times(n - 1, p, p(text).value.1);
      if tail.None? then None else Some(([p(text).value.0] + tail.value.0, tail.value.1))
  }

  /** `at_most(n)` reaches `n` items exactly when `n` successive matches exist. */
  lemma {:induction false} AtMostTimes<A>(n: nat, p: Parser<A>, text: string)
    ensures var r := AtMostFrom(n, p, text);
      Times(n, p, text) == if |r.0| == n then Some(r) else None
    decreases n
  {
    if n > 0 && p(text).Some? {
      AtMostTimes(n - 1, p, p(text).value.1);
    }
  }

  /** `n` successive matches are a chain of `n` items. */
  lemma {:induction false} TimesChain<A>(n: nat, p: Parser<A>, text: string)
    requires Times(n, p, text).Some?
    ensures |Times(n, p, text).value.0| == n
    ensures Chain(p, text, Times(n, p, text).value.0, Times(n, p, text).value.1)
    decreases n
  {
    if n > 0 {
      var tail := Times(n - 1, p, p(text).value.1).value;
      TimesChain(n - 1, p, p(text).value.1);
      assert ([p(text).value.0] + tail.0)[1..] == tail.0;
    }
  }

  /** Two chains one after the other make one chain. */
  lemma {:induction false} ChainAppend<A>(p: Parser<A>, text: string, a: seq<A>, middle: string, b: seq<A>, rest: string)
    requires Chain(p, text, a, middle) && Chain(p, middle, b, rest)
    ensures Chain(p, text, a + b, rest)
    decreases |a|
  {
    if |a| > 0 {
      ChainAppend(p, p(text).value.1, a[1..], middle, b, rest);
      assert (a + b)[1..] == a[1..] + b;
    } else {
      assert a + b == b;
    }
  }

  function ExactlyParser<A>(count: nat, p: Parser<A>): Parser<seq<A>> {
    Flatmap(AtMostParser(count, p), xs => if |xs| == count then Value(xs) else Error())
  }

  /** `exactly`: a `ValueError` for a negative count, otherwise a parser
      that succeeds exactly when `count` successive matches exist, and then
      consumes just those. */
  function Exactly<A>(count: int, p: Parser<A>): (b: Built<seq<A>>)
    ensures b.ValueError? <==> count < 0
    ensures count < 0 ==> b.message == "`count` must be non-negative: count=" + IntToString(count)
  {
    if count < 0 then ValueError("`count` must be non-negative: count=" + IntToString(count))
    else Built(ExactlyParser(count, p))
  }

  lemma {:induction false} ExactlyIsTimes<A>(count: nat, p: Parser<A>, text: string)
    ensures Exactly(count, p).parser(text) == ExactlyParser(count, p)(text) == Times(count, p, text)
  {
    AtMostTimes(count, p, text);
  }

  /** `at_least`: `exactly(min)`, then `zero_or_more`. */
  function AtLeast<A>(min: int, p: Parser<A>): (b: Built<seq<A>>)
    requires min >= 0 ==> Consumes(p)
    ensures b.ValueError? <==> min < 0
    ensures min < 0 ==> b.message == "`min` must be non-negative: min=" + IntToString(min)
  {
    if min < 0 then ValueError("`min` must be non-negative: min=" + IntToString(min))
    else Built(Flatmap(ExactlyParser(min, p), first => Flatmap(ZeroOrMore(p), xs => Value(first + xs))))
  }

  /** `at_least(min)` matches exactly when `min` successive matches exist;
      it then yields at least `min` successive items and stops where `p` fails. */
  lemma {:induction false} AtLeastRuns<A>(min: nat, p: Parser<A>, text: string)
    requires Consumes(p)
    ensures AtLeast(min, p).parser(text).Some? <==> Times(min, p, text).Some?
    ensures var r := AtLeast(min, p).parser(text);
      r.Some? ==> |r.value.0| >= min && Chain(p, text, r.value.0, r.value.1) && p(r.value.1).None?
  {
    AtMostTimes(min, p, text);
    var t := Times(min, p, text);
    if t.Some? {
      TimesChain(min, p, text);
      var more := ZeroOrMore(p)(t.value.1).value;
      ChainAppend(p, text, t.value.0, t.value.1, more.0, more.1);
      assert AtLeast(min, p).parser(text) == Some((t.value.0 + more.0, more.1));
    }
  }

  /** `between`: a `ValueError` unless `0 <= min <= max`, otherwise
      `exactly(min)` followed by `at_most(max - min)`. */
  function Between<A>(min: int, max: int, p: Parser<A>): (b: Built<seq<A>>)
    ensures b.ValueError? <==> min < 0 || max < min
    ensures min < 0 ==> b.message == "`min` must be non-negative: min=" + IntToString(min)
    ensures 0 <= min && max < min ==> b.message == "`min` must be less or equal to `max`: min=" + IntToString(min) + ", max=" + IntToString(max)
  {
    if min < 0 then ValueError("`min` must be non-negative: min=" + IntToString(min))
    else if max < min then ValueError("`min` must be less or equal to `max`: min=" + IntToString(min) + ", max=" + IntToString(max))
    else Built(Flatmap(ExactlyParser(min, p), first => Flatmap(AtMostParser(max - min, p), xs => Value(first + xs))))
  }

  /** `between(min, max)` matches exactly when `min` successive matches
      exist, and then yields between `min` and `max` successive items. */
  lemma {:induction false} BetweenRuns<A>(min: nat, max: nat, p: Parser<A>, text: string)
    requires min <= max
    ensures Between(min, max, p).parser(text).Some? <==> Times(min, p, text).Some?
    ensures var r := Between(min, max, p).parser(text);
      r.Some? ==> min <= |r.value.0| <= max && Chain(p, text, r.value.0, r.value.1)
  {
    AtMostTimes(min, p, text);
    var t := Times(min, p, text);
    if t.Some? {
      TimesChain(min, p, text);
      var more := AtMostFrom(max - min, p, t.value.1);
      AtMostShape(max - min, p, t.value.1);
      ChainAppend(p, text, t.value.0, t.value.1, more.0, more.1);
      assert Between(min, max, p).parser(text) == Some((t.value.0 + more.0, more.1));
    }
  }

  /** The tests the character parsers put on the character read. */
  function IsString(ch: string): char -> bool {
    c => [c] == ch
  }

  function IsIn(chars: set<char>): char -> bool {
    c => c in chars
  }

  /** `char` of a string: any character equal to it, so a string that is
      not one character long never matches. */
  function Char(ch: string): Parser<char> {
    If(AnyChar(), IsString(ch))
  }

  /** `char` of a set of characters. */
  function CharIn(chars: set<char>): Parser<char> {
    If(AnyChar(), IsIn(chars))
  }

  /** `char_not` of a string: any character different from it. */
  function CharNot(ch: string): Parser<char> {
    If(AnyChar(), Not(IsString(ch)))
  }

  /** `char_not` of a set of characters. */
  function CharNotIn(chars: set<char>): Parser<char> {
    If(AnyChar(), Not(IsIn(chars)))
  }

  /** A character parser reads the first character exactly when its test
      accepts it, and then consumes just that character. */
  lemma {:induction false} CharTestRuns(test: char -> bool, text: string)
    ensures If(AnyChar(), test)(text) == if text != "" && test(text[0]) then Some((text[0], text[1..])) else None
  {
    AnyCharRuns(text);
    IfRuns(AnyChar(), test, text);
  }

  /** `char(ch)` matches only a one-character `ch`, at the first character. */
  lemma {:induction false} CharRuns(ch: string, text: string)
    ensures Char(ch)(text) == if |ch| == 1 && text != "" && text[0] == ch[0] then Some((text[0], text[1..])) else None
  {
    CharTestRuns(IsString(ch), text);
    if text != "" {
      assert IsString(ch)(text[0]) <==> |ch| == 1 && text[0] == ch[0] by {
        if |ch| == 1 && text[0] == ch[0] {
          assert [text[0]] == ch;
        }
      }
    }
  }

  /** The set forms of `char` and `char_not`, and `char_not` of a string. */
  lemma {:induction false} CharClasses(ch: string, chars: set<char>, text: string)
    ensures CharIn(chars)(text) == if text != "" && text[0] in chars then Some((text[0], text[1..])) else None
    ensures CharNotIn(chars)(text) == if text != "" && text[0] !in chars then Some((text[0], text[1..])) else None
    ensures CharNot(ch)(text) == if text != "" && [text[0]] != ch then Some((text[0], text[1..])) else None
  {
    CharTestRuns(IsIn(chars), text);
    CharTestRuns(Not(IsIn(chars)), text);
    CharTestRuns(Not(IsString(ch)), text);
  }

  /** Number of spaces at the start of `text`. */
  function LeadingSpaces(text: string): (k: nat)
    ensures k <= |text|
    ensures forall i :: 0 <= i < k ==> text[i] == ' '
    ensures k < |text| ==> text[k] != ' '
    decreases |text|
  {
    if |text| > 0 && text[0] == ' ' then 1 + LeadingSpaces(text[1..]) else 0
  }

  /** After the spaces of an indentation, its tab. */
  function TabAfter(spaces: seq<char>): Parser<string> {
    Flatmap(Char("\t"), tab => Value(spaces + [tab]))
  }

  /** `''.join(chars)`: the characters read, as one string. */
  function JoinChars(chars: seq<char>): Parser<string> {
    Value(chars)
  }

  /** The parser of `indent` for `tabSpaces + 1` spaces per tab: that many
      spaces, or at most `tabSpaces` spaces followed by a tab, joined into
      one string. */
  function IndentParser(tabSpaces: nat): Parser<string> {
    Flatmap(Or(ExactlyParser(tabSpaces + 1, Char(" ")), Flatmap(AtMostParser(tabSpaces, Char(" ")), TabAfter)), JoinChars)
  }

  /** `indent`: building it raises the `ValueError` of `exactly` for a
      negative width and that of `at_most(-1)` for width 0. */
  function Indent(spacesPerTab: int): (b: Built<string>)
    ensures b.ValueError? <==> spacesPerTab < 1
    ensures spacesPerTab < 0 ==> b.message == "`count` must be non-negative: count=" + IntToString(spacesPerTab)
    ensures spacesPerTab == 0 ==> b.message == "`max` must be non-negative: max=-1"
  {
    if spacesPerTab < 0 then ValueError("`count` must be non-negative: count=" + IntToString(spacesPerTab))
    else if spacesPerTab < 1 then ValueError("`max` must be non-negative: max=" + IntToString(spacesPerTab - 1))
    else Built(IndentParser(spacesPerTab - 1))
  }

  /** `p` reads the character `c` and nothing else, as `char(c)` does. */
  ghost predicate ReadsOnly(p: Parser<char>, c: char) {
    forall t :: p(t) == if t != "" && t[0] == c then Some((c, t[1..])) else None
  }

  lemma {:induction false} SpaceReadsOnly()
    ensures ReadsOnly(Char(" "), ' ')
  {
    forall t: string
      ensures Char(" ")(t) == if t != "" && t[0] == ' ' then Some((' ', t[1..])) else None
    {
      CharRuns(" ", t);
    }
  }

  /** The tab that ends an indentation made of `spaces`. */
  lemma {:induction false} TabAfterRuns(spaces: seq<char>, rest: string)
    ensures TabAfter(spaces)(rest) == if rest != "" && rest[0] == '\t' then Some((spaces + ['\t'], rest[1..])) else None
  {
    CharRuns("\t", rest);
  }

  /** `at_most(m)` of spaces takes the leading spaces, up to `m` of them. */
  lemma {:induction false} AtMostSpaces(m: nat, p: Parser<char>, text: string)
    requires ReadsOnly(p, ' ')
    ensures var j := if LeadingSpaces(text) < m then LeadingSpaces(text) else m;
      AtMostFrom(m, p, text) == (text[..j], text[j..])
    decreases m
  {
    if m > 0 && |text| > 0 && text[0] == ' ' {
      assert p(text) == Some((' ', text[1..]));
      AtMostSpaces(m - 1, p, text[1..]);
      var j := if LeadingSpaces(text[1..]) < m - 1 then LeadingSpaces(text[1..]) else m - 1;
      ConsSlices(text, j);
    } else if m > 0 {
      assert p(text).None?;
    }
  }

  /** `exactly(n)` of spaces matches when the text starts with `n` spaces. */
  lemma {:induction false} ExactlySpaces(n: nat, p: Parser<char>, text: string)
    requires ReadsOnly(p, ' ')
    ensures ExactlyParser(n, p)(text) ==
      if LeadingSpaces(text) >= n then Some((Spaces(n), text[n..])) else None
  {
    ExactlyIsTimes(n, p, text);
    AtMostTimes(n, p, text);
    AtMostSpaces(n, p, text);
    if LeadingSpaces(text) >= n {
      SpacesPrefix(text, n);
    }
  }

  lemma {:induction false} SpacesPrefix(text: string, n: nat)
    requires n <= LeadingSpaces(text)
    ensures text[..n] == Spaces(n)
  {
  }

  /** Fewer than `m + 1` leading spaces, then a tab: the spaces and the tab. */
  lemma {:induction false} SpacesThenTab(m: nat, p: Parser<char>, text: string)
    requires ReadsOnly(p, ' ')
    requires LeadingSpaces(text) <= m
    ensures var k := LeadingSpaces(text);
      Flatmap(AtMostParser(m, p), TabAfter)(text) ==
        if k < |text| && text[k] == '\t' then Some((text[..k + 1], text[k + 1..])) else None
  {
    var k := LeadingSpaces(text);
    AtMostSpaces(m, p, text);
    var spaces, rest := text[..k], text[k..];
    assert AtMostParser(m, p)(text) == Some((spaces, rest));
    var f := Flatmap(AtMostParser(m, p), TabAfter)(text);
    assert f == TabAfter(spaces)(rest);
    TabAfterRuns(spaces, rest);
    if k < |text| && text[k] == '\t' {
      assert rest[0] == text[k] && rest[1..] == text[k + 1..];
      TakeNext(text, k);
      assert f == Some((text[..k + 1], text[k + 1..]));
    } else {
      assert f.None?;
    }
  }

  /** The indentation `indent(n)` reads, for `n >= 1`: `n` spaces when the
      text starts with at least `n`, otherwise the leading spaces and the
      tab right after them; no match when that character is not a tab. */
  lemma {:induction false} IndentRuns(n: int, text: string)
    requires n >= 1
    ensures Indent(n).Built?
    ensures var k := LeadingSpaces(text);
      Indent(n).parser(text) ==
        if k >= n then Some((Spaces(n), text[n..]))
        else if k < |text| && text[k] == '\t' then Some((text[..k + 1], text[k + 1..]))
        else None
  {
    var space := Char(" ");
    SpaceReadsOnly();
    var exactly := ExactlyParser(n, space);
    var tabbed := Flatmap(AtMostParser(n - 1, space), TabAfter);
    assert IndentParser(n - 1) == Flatmap(Or(exactly, tabbed), JoinChars);
    var o := Or(exactly, tabbed)(text);
    assert Indent(n).parser(text) == o;
    OrLaws(exactly, tabbed, tabbed, text);
    ExactlySpaces(n, space, text);
    var k := LeadingSpaces(text);
    if k < n {
      SpacesThenTab(n - 1, space, text);
      var tab := if k < |text| && text[k] == '\t' then Some((text[..k + 1], text[k + 1..])) else None;
      assert tabbed(text) == tab;
      assert o == tab;
    } else {
      assert o == Some((Spaces(n), text[n..]));
    }
  }

  /** The default `indent()`, four spaces per tab, on the texts of its tests:
      four spaces, or up to three spaces then a tab, but not three spaces alone. */
  lemma {:induction false} IndentDefault()
    ensures Indent(4).Built?
    ensures Indent(4).parser("    aaa") == Some(("    ", "aaa"))
    ensures Indent(4).parser("  \taaa") == Some(("  \t", "aaa"))
    ensures Indent(4).parser("   aaa") == None
  {
    IndentFourSpaces();
    IndentSpacesTab();
    IndentThreeSpaces();
  }

  lemma {:induction false} IndentFourSpaces()
    ensures Indent(4).Built? && Indent(4).parser("    aaa") == Some(("    ", "aaa"))
  {
    var text := "    aaa";
    LeadingSpacesAt(text, 4);
    assert text[..4] == "    " == Spaces(4) by {
      assert Spaces(4) == [' '] + Spaces(3);
    }
    assert text[4..] == "aaa";
    IndentRuns(4, text);
  }

  lemma {:induction false} IndentSpacesTab()
    ensures Indent(4).Built? && Indent(4).parser("  \taaa") == Some(("  \t", "aaa"))
  {
    var text := "  \taaa";
    LeadingSpacesAt(text, 2);
    assert text[..3] == "  \t" && text[3..] == "aaa";
    IndentRuns(4, text);
  }

  lemma {:induction false} IndentThreeSpaces()
    ensures Indent(4).Built? && Indent(4).parser("   aaa") == None
  {
    var text := "   aaa";
    IndentRuns(4, text);
    LeadingSpacesAt(text, 3);
  }

  /** A text whose first `k` characters are spaces and whose next is not
      has `k` leading spaces. */
  lemma {:induction false} LeadingSpacesAt(text: string, k: nat)
    requires k < |text| && text[k] != ' '
    requires forall i :: 0 <= i < k ==> text[i] == ' '
    ensures LeadingSpaces(text) == k
  {
  }
}
