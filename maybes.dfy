/** `Maybe` of `document/maybe.py`: an optional value with monadic
    combinators, and the module-level `while_` that unfolds a lazy stream
    from a seed. Python's `Optional` (a value or `None`) is `Strings.Option`. */
module Maybes {
  import opened Strings

  datatype Maybe<T> = Value(v: T) | Nothing

  /** `Maybe.of`: `None` becomes `Nothing`; any other value, falsy or not, is kept. */
  function Of<T>(value: Option<T>): Maybe<T> {
    if value.Some? then Value(value.value) else Nothing
  }

  /** `py`: back to Python's `Optional`. */
  function Py<T>(m: Maybe<T>): Option<T> {
    if m.Value? then Some(m.v) else None
  }

  /** `of` and `py` are inverse to each other. A value here is never
      Python's `None`: `Maybe.Value(None)`, whose `py()` is `None` like
      `Nothing`'s, is not modelled. */
  lemma {:induction false} OfPyRoundTrip<T>(o: Option<T>, m: Maybe<T>)
    ensures Py(Of(o)) == o
    ensures Of(Py(m)) == m
    ensures Of(o).Value? <==> o.Some?
  {
  }

  /** `match`: the value handler for a value, the nothing handler otherwise. */
  function Match<T, B>(m: Maybe<T>, onValue: T -> B, onNothing: () -> B): (b: B)
    ensures m.Value? ==> b == onValue(m.v)
    ensures m.Nothing? ==> b == onNothing()
  {
    if m.Value? then onValue(m.v) else onNothing()
  }

  /** Matching with the two constructors rebuilds the value, and a match
      sees the value exactly when there is one. */
  lemma {:induction false} MatchEta<T>(m: Maybe<T>)
    ensures Match(m, x => Value(x), () => Nothing) == m
    ensures Match(m, x => true, () => false) <==> m.Value?
  {
  }

  /** `flatmap` (and `>>`). */
  function Flatmap<T, U>(m: Maybe<T>, f: T -> Maybe<U>): Maybe<U> {
    if m.Value? then f(m.v) else Nothing
  }

  /** `flatmap` obeys the monad laws: `Value` is its unit on both sides and
      it is associative, and it never invents a value from `Nothing`. */
  lemma {:induction false} FlatmapLaws<T, U, W>(x: T, m: Maybe<T>, f: T -> Maybe<U>, g: U -> Maybe<W>)
    ensures Flatmap(Value(x), f) == f(x)
    ensures Flatmap(m, y => Value(y)) == m
    ensures Flatmap(Flatmap(m, f), g) == Flatmap(m, y => Flatmap(f(y), g))
    ensures Flatmap(Nothing, f) == Nothing
  {
  }

  /** `|`: the left operand when it holds a value, otherwise the right one. */
  function Or<T>(a: Maybe<T>, b: Maybe<T>): (r: Maybe<T>)
    ensures a.Value? ==> r == a
    ensures a.Nothing? ==> r == b
  {
    Match(a, x => Value(x), () => b)
  }

  /** `|` is associative with `Nothing` as its unit on both sides. */
  lemma {:induction false} OrLaws<T>(a: Maybe<T>, b: Maybe<T>, c: Maybe<T>)
    ensures Or(Or(a, b), c) == Or(a, Or(b, c))
    ensures Or(Nothing, a) == a && Or(a, Nothing) == a
  {
  }

  /** `else_`: the held value, or the default. */
  function Else<T>(m: Maybe<T>, other: T): (r: T)
    ensures m.Value? ==> r == m.v
    ensures m.Nothing? ==> r == other
  {
    Match(m, x => x, () => other)
  }

  /** A default after `|` is the same as nesting the defaults. */
  lemma {:induction false} ElseOr<T>(a: Maybe<T>, b: Maybe<T>, other: T)
    ensures Else(Or(a, b), other) == Else(a, Else(b, other))
  {
  }

  /** `filter`: the value survives exactly when the condition holds of it. */
  function Filter<T>(m: Maybe<T>, condition: T -> bool): (r: Maybe<T>)
    ensures r.Value? <==> m.Value? && condition(m.v)
    ensures r.Value? ==> r == m
  {
    Flatmap(m, x => if condition(x) then Value(x) else Nothing)
  }

  /** Filtering twice is filtering once by both conditions. */
  lemma {:induction false} FilterTwice<T>(m: Maybe<T>, p: T -> bool, q: T -> bool)
    ensures Filter(Filter(m, p), q) == Filter(m, x => p(x) && q(x))
  {
  }

  /** The first `n` items of the lazy stream `while_(first, condition, next)`:
      `x`, then the value of `next(x)`, and so on, for as long as each item
      is a value satisfying the condition. The stream itself may be infinite;
      `n` is how far a consumer reads it. */
  function WhileTake<T>(first: Maybe<T>, condition: T -> bool, next: T -> Maybe<T>, n: nat): seq<T>
    decreases n
  {
    if n == 0 || first.Nothing? || !condition(first.v) then []
    else [first.v] + WhileTake(next(first.v), condition, next, n - 1)
  }

  /** What is read of the stream: at most `n` items, each satisfying the
      condition, starting with the seed and each the value `next` gives for
      the one before; fewer than `n` only where the stream ends, because the
      following `next` is `Nothing` or fails the condition. */
  lemma {:induction false} WhileTakeShape<T>(first: Maybe<T>, condition: T -> bool, next: T -> Maybe<T>, n: nat)
    ensures var r := WhileTake(first, condition, next, n);
      && |r| <= n
      && (forall i :: 0 <= i < |r| ==> condition(r[i]))
      && (|r| > 0 ==> first == Value(r[0]))
      && (forall i :: 0 <= i < |r| - 1 ==> next(r[i]) == Value(r[i + 1]))
      && (|r| == 0 && n > 0 ==> first.Nothing? || !condition(first.v))
      && (0 < |r| < n ==> next(r[|r| - 1]).Nothing? || !condition(next(r[|r| - 1]).v))
    decreases n
  {
    if n > 0 && first.Value? && condition(first.v) {
      var tail := WhileTake(next(first.v), condition, next, n - 1);
      WhileTakeShape(next(first.v), condition, next, n - 1);
      var r := [first.v] + tail;
      assert WhileTake(first, condition, next, n) == r;
      assert forall i :: 1 <= i < |r| ==> r[i] == tail[i - 1];
    }
  }

  /** Reading one item further only extends what was read before: the
      prefixes agree, so they describe a single stream. */
  lemma {:induction false} WhileTakeExtends<T>(first: Maybe<T>, condition: T -> bool, next: T -> Maybe<T>, n: nat)
    ensures WhileTake(first, condition, next, n) <= WhileTake(first, condition, next, n + 1)
    decreases n
  {
    if n > 0 && first.Value? && condition(first.v) {
      var shorter := WhileTake(next(first.v), condition, next, n - 1);
      var longer := WhileTake(next(first.v), condition, next, n);
      WhileTakeExtends(next(first.v), condition, next, n - 1);
      assert WhileTake(first, condition, next, n) == [first.v] + shorter;
      assert WhileTake(first, condition, next, n + 1) == [first.v] + longer;
      PrefixCons(first.v, shorter, longer);
    }
  }

  lemma {:induction false} PrefixCons<T>(x: T, a: seq<T>, b: seq<T>)
    requires a <= b
    ensures [x] + a <= [x] + b
  {
    assert ([x] + b)[..|a| + 1] == [x] + b[..|a|];
  }

  /** The counting stream of the tests: from 0, adding 1 while at most 2,
      yields 0, 1, 2 and stops. */
  lemma {:induction false} WhileCountsToBound()
    ensures WhileTake(Value(0), x => x <= 2, x => Value(x + 1), 10) == [0, 1, 2]
  {
    var c, s := (x: int) => x <= 2, (x: int) => Value(x + 1);
    assert WhileTake(Value(3), c, s, 7) == [];
    assert WhileTake(Value(2), c, s, 8) == [2];
    assert WhileTake(Value(1), c, s, 9) == [1, 2];
  }
}
