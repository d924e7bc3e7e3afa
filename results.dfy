/** `Result` of `document/result.py`: a value or an error, compared by value. */
module Results {

  datatype Result<T, E> = Ok(x: T) | Error(e: E)

  /** `match`: the value handler for `Ok`, the error handler for `Error`. */
  function Match<T, E, B>(r: Result<T, E>, onValue: T -> B, onError: E -> B): (b: B)
    ensures r.Ok? ==> b == onValue(r.x)
    ensures r.Error? ==> b == onError(r.e)
  {
    if r.Ok? then onValue(r.x) else onError(r.e)
  }

  /** Matching with the two constructors rebuilds the result, and a match
      takes the value branch exactly on `Ok`. */
  lemma {:induction false} MatchEta<T, E>(r: Result<T, E>)
    ensures Match(r, x => Ok(x), e => Error(e)) == r
    ensures Match(r, x => true, e => false) <==> r.Ok?
  {
  }

  /** `map`, written through `match` as the source does. */
  function Map<T, E, B>(r: Result<T, E>, f: T -> B): (m: Result<B, E>)
    ensures r.Ok? ==> m == Ok(f(r.x))
    ensures r.Error? ==> m == Error(r.e)
  {
    Match(r, x => Ok(f(x)), e => Error(e))
  }

  /** Constructors compare by value, and an `Ok` never equals an `Error`. */
  lemma {:induction false} ConstructorsCompareByValue<T, E>(x: T, y: T, e: E, e': E)
    ensures Result<T, E>.Ok(x) == Result<T, E>.Ok(y) <==> x == y
    ensures Result<T, E>.Error(e) == Result<T, E>.Error(e') <==> e == e'
    ensures Result<T, E>.Ok(x) != Result<T, E>.Error(e)
  {
  }

  /** `map` with the identity leaves every result as it was. */
  lemma {:induction false} MapIdentity<T, E>(r: Result<T, E>)
    ensures Map(r, x => x) == r
  {
  }

  /** Mapping twice is mapping once with the composition. */
  lemma {:induction false} MapCompose<T, E, B, C>(r: Result<T, E>, f: T -> B, g: B -> C)
    ensures Map(Map(r, f), g) == Map(r, x => g(f(x)))
  {
  }

  /** `map` keeps the side of the result: an error stays the same error. */
  lemma {:induction false} MapKeepsSide<T, E, B>(r: Result<T, E>, f: T -> B)
    ensures Map(r, f).Ok? <==> r.Ok?
    ensures Map(r, f).Error? ==> Map(r, f) == Error(r.e)
  {
  }
}
