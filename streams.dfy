/** `Stream` of `document/stream.py`: a cons list whose tail the source
    computes lazily through a thunk. The model keeps the list shape and
    drops the thunk, so a stream here is finite. */
module Streams {
  import opened Strings

  datatype Stream<T> = End | Next(first: T, rest: Stream<T>)

  /** The items of a stream, front to back. */
  function Items<T>(s: Stream<T>): seq<T> {
    match s
    case End => []
    case Next(x, xs) => [x] + Items(xs)
  }

  /** `Stream.of`: the stream yielding the items of a Python iterable. */
  function Of<T>(xs: seq<T>): (s: Stream<T>)
    ensures Items(s) == xs
    decreases |xs|
  {
    if |xs| == 0 then End
    else
      var s := Next(xs[0], Of(xs[1..]));
      assert [xs[0]] + xs[1..] == xs;
      s
  }

  /** A stream is determined by its items, so `of` undoes reading them. */
  lemma {:induction false} OfItems<T>(s: Stream<T>)
    ensures Of(Items(s)) == s
  {
    match s
    case End =>
    case Next(x, xs) =>
      OfItems(xs);
      assert Items(s)[1..] == Items(xs);
  }

  /** `iter`: the generator loop that walks the stream and yields each item. */
  method Iter<T>(s: Stream<T>) returns (xs: seq<T>)
    ensures xs == Items(s)
  {
    xs := [];
    var t := s;
    while t.Next?
      invariant xs + Items(t) == Items(s)
      decreases t
    {
      AppendAssoc(xs, [t.first], Items(t.rest));
      xs := xs + [t.first];
      t := t.rest;
    }
    AppendEmpty(xs);
  }

  /** `==`: the loop that compares two streams item by item. */
  method Equal<T(==)>(a: Stream<T>, b: Stream<T>) returns (equal: bool)
    ensures equal <==> Items(a) == Items(b)
    ensures equal <==> a == b
  {
    var xs, ys := a, b;
    while xs.Next? && ys.Next?
      invariant Items(a) == Items(b) <==> Items(xs) == Items(ys)
      decreases xs
    {
      if xs.first != ys.first {
        assert Items(xs)[0] != Items(ys)[0];
        OfItems(a);
        OfItems(b);
        return false;
      }
      assert Items(xs) == Items(ys) <==> Items(xs.rest) == Items(ys.rest) by {
        assert Items(xs)[1..] == Items(xs.rest) && Items(ys)[1..] == Items(ys.rest);
      }
      xs, ys := xs.rest, ys.rest;
    }
    equal := xs.End? && ys.End?;
    OfItems(a);
    OfItems(b);
  }

  /** `join`: the items of the prefix, then those of the postfix. */
  function Join<T>(prefix: Stream<T>, postfix: Stream<T>): (r: Stream<T>)
    ensures Items(r) == Items(prefix) + Items(postfix)
  {
    match prefix
    case End => postfix
    case Next(x, xs) =>
      var r := Next(x, Join(xs, postfix));
      AppendAssoc([x], Items(xs), Items(postfix));
      r
  }

  /** `map`: `f` applied to every item, the length unchanged. */
  function Map<T, U>(s: Stream<T>, f: T -> U): (r: Stream<U>)
    ensures |Items(r)| == |Items(s)|
    ensures forall i :: 0 <= i < |Items(s)| ==> Items(r)[i] == f(Items(s)[i])
  {
    match s
    case End => End
    case Next(x, xs) => Next(f(x), Map(xs, f))
  }

  /** The left fold that the eager loop of `fold` computes. */
  function FoldLeft<T>(f: (T, T) -> T, acc: T, s: Stream<T>): T
    decreases s
  {
    match s
    case End => acc
    case Next(x, xs) => FoldLeft(f, f(acc, x), xs)
  }

  /** `fold` for items that are not streams: `None` for the empty stream,
      the single item for a singleton, and otherwise the eager loop that
      combines the running result with each further item. When the running
      result is itself a stream the source takes its lazy branch instead
      (`document/stream.py:171-172`), which nests the joins to the right;
      `FoldStreams` models that branch, and `Fold` does not. */
  method Fold<T>(s: Stream<T>, f: (T, T) -> T) returns (r: Option<T>)
    ensures s.End? ==> r == None
    ensures s.Next? ==> r == Some(FoldLeft(f, s.first, s.rest))
  {
    if s.End? {
      return None;
    }
    var x, xs := s.first, s.rest;
    if xs.End? {
      return Some(x);
    }
    var result := x;
    while xs.Next?
      invariant FoldLeft(f, result, xs) == FoldLeft(f, s.first, s.rest)
      decreases xs
    {
      result := f(result, xs.first);
      xs := xs.rest;
    }
    r := Some(result);
  }

  /** The same fold on the items as a list, combining the last item last. */
  function FoldItems<T>(f: (T, T) -> T, acc: T, xs: seq<T>): T
    decreases |xs|
  {
    if |xs| == 0 then acc else f(FoldItems(f, acc, xs[..|xs| - 1]), xs[|xs| - 1])
  }

  /** The loop of `fold` is a left fold: the first item is combined first. */
  lemma {:induction false} FoldIsLeft<T>(f: (T, T) -> T, acc: T, s: Stream<T>)
    ensures FoldLeft(f, acc, s) == FoldItems(f, acc, Items(s))
    decreases s
  {
    match s
    case End =>
    case Next(x, xs) =>
      FoldIsLeft(f, f(acc, x), xs);
      FoldItemsCons(f, acc, x, Items(xs));
  }

  lemma {:induction false} FoldItemsCons<T>(f: (T, T) -> T, acc: T, x: T, xs: seq<T>)
    ensures FoldItems(f, acc, [x] + xs) == FoldItems(f, f(acc, x), xs)
    decreases |xs|
  {
    if |xs| > 0 {
      var init := xs[..|xs| - 1];
      assert ([x] + xs)[..|xs|] == [x] + init;
      FoldItemsCons(f, acc, x, init);
    } else {
      assert ([x] + xs)[..0] == [];
    }
  }

  /** The subtraction example: `fold` of 1, 2, 3 with `-` is (1 - 2) - 3,
      where a right fold would give 2. */
  lemma {:induction false} FoldSubtracts()
    ensures Of([1, 2, 3]).Next? && FoldLeft((x: int, y: int) => x - y, Of([1, 2, 3]).first, Of([1, 2, 3]).rest) == -4
  {
    assert Of([1, 2, 3]) == Next(1, Next(2, Next(3, End))) by {
      assert [1, 2, 3][1..] == [2, 3];
      assert [2, 3][1..] == [3];
      assert [3][1..] == [];
    }
  }

  /** `flatten`: `fold` with `join` over a stream of streams. For stream
      items the loop of `fold` does not run eagerly: once the running result
      is a non-empty stream it returns that stream joined with the fold of
      what is left, and an empty running result is replaced by the next item.
      An empty outer stream folds to `None`, which `or` turns into `End`. */
  function Flatten<T>(ss: Stream<Stream<T>>): (r: Stream<T>)
    ensures Items(r) == Concat(ss)
  {
    match ss
    case End => End
    case Next(x, xs) => FoldStreams(x, xs)
  }

  /** The stream branch of `fold`'s inner `_fold1`, with `result` as the
      running result and `xs` the streams not yet folded. */
  function FoldStreams<T>(result: Stream<T>, xs: Stream<Stream<T>>): (r: Stream<T>)
    ensures Items(r) == Items(result) + Concat(xs)
    decreases xs
  {
    match xs
    case End =>
      AppendEmpty(Items(result));
      result
    case Next(y, ys) =>
      if result.Next? then
        var r := Join(result, FoldStreams(y, ys));
        assert Concat(xs) == Items(y) + Concat(ys);
        r
      else
        var r := FoldStreams(Join(result, y), ys);
        assert Items(result) == [];
        AppendAssoc(Items(result), Items(y), Concat(ys));
        r
  }

  /** The items of every inner stream, one stream after another. */
  function Concat<T>(ss: Stream<Stream<T>>): seq<T> {
    match ss
    case End => []
    case Next(x, xs) => Items(x) + Concat(xs)
  }

  /** `flatmap` (and `>>`): `map` then `flatten`. */
  function Flatmap<T, U>(s: Stream<T>, f: T -> Stream<U>): (r: Stream<U>)
    ensures Items(r) == Bind(s, f)
  {
    MapConcat(s, f);
    Flatten(Map(s, f))
  }

  /** The items of `f` of each item, in order. */
  function Bind<T, U>(s: Stream<T>, f: T -> Stream<U>): seq<U> {
    match s
    case End => []
    case Next(x, xs) => Items(f(x)) + Bind(xs, f)
  }

  lemma {:induction false} MapConcat<T, U>(s: Stream<T>, f: T -> Stream<U>)
    ensures Concat(Map(s, f)) == Bind(s, f)
  {
    match s
    case End =>
    case Next(x, xs) => MapConcat(xs, f);
  }

  /** `|`: the left stream unless it is empty, in which case the right one. */
  function Or<T>(left: Stream<T>, right: Stream<T>): (r: Stream<T>)
    ensures Items(r) == if Items(left) != [] then Items(left) else Items(right)
  {
    match left
    case End => right
    case Next(x, xs) => Next(x, xs)
  }

  /** Python's list comprehension `[x for x in xs if condition(x)]`. */
  function Kept<T>(condition: T -> bool, xs: seq<T>): seq<T>
    decreases |xs|
  {
    if |xs| == 0 then []
    else Kept(condition, xs[..|xs| - 1]) + (if condition(xs[|xs| - 1]) then [xs[|xs| - 1]] else [])
  }

  /** `filter`: `flatmap` to a singleton or an empty stream. */
  function Filter<T>(s: Stream<T>, condition: T -> bool): (r: Stream<T>)
    ensures Items(r) == Kept(condition, Items(s))
  {
    var single := x => if condition(x) then Next(x, End) else End;
    FilterBind(s, condition, single);
    Flatmap(s, single)
  }

  lemma {:induction false} FilterBind<T>(s: Stream<T>, condition: T -> bool, single: T -> Stream<T>)
    requires forall x :: single(x) == if condition(x) then Next(x, End) else End
    ensures Bind(s, single) == Kept(condition, Items(s))
  {
    match s
    case End =>
    case Next(x, xs) =>
      FilterBind(xs, condition, single);
      KeptCons(condition, x, Items(xs));
      assert Items(single(x)) == if condition(x) then [x] else [] by {
        AppendEmpty([x]);
      }
  }

  lemma {:induction false} KeptCons<T>(condition: T -> bool, x: T, xs: seq<T>)
    ensures Kept(condition, [x] + xs) == (if condition(x) then [x] else []) + Kept(condition, xs)
    decreases |xs|
  {
    if |xs| == 0 {
      assert ([x] + xs)[..0] == [];
    } else {
      var init := xs[..|xs| - 1];
      assert ([x] + xs)[..|xs|] == [x] + init;
      KeptCons(condition, x, init);
    }
  }

  /** `while_`: the longest prefix whose items all satisfy the condition. */
  function While<T>(s: Stream<T>, condition: T -> bool): (r: Stream<T>)
    ensures Items(r) <= Items(s)
    ensures forall i :: 0 <= i < |Items(r)| ==> condition(Items(r)[i])
    ensures |Items(r)| < |Items(s)| ==> !condition(Items(s)[|Items(r)|])
  {
    match s
    case End => End
    case Next(x, xs) => if condition(x) then Next(x, While(xs, condition)) else End
  }
}
