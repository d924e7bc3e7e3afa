/** `flatten` of `docs_nbgen.py`: the elements of each sub-list, sub-list
    after sub-list. */
module Lists {

  function Flatten<T>(xss: seq<seq<T>>): seq<T> {
    if |xss| == 0 then [] else Flatten(xss[..|xss| - 1]) + xss[|xss| - 1]
  }

  lemma {:induction false} FlattenAppend<T>(xss: seq<seq<T>>, xs: seq<T>)
    ensures Flatten(xss + [xs]) == Flatten(xss) + xs
  {
    assert (xss + [xs])[..|xss|] == xss;
  }

  /** Flattening distributes over concatenation of the outer list. */
  lemma {:induction false} FlattenConcat<T>(a: seq<seq<T>>, b: seq<seq<T>>)
    ensures Flatten(a + b) == Flatten(a) + Flatten(b)
    decreases |b|
  {
    if |b| == 0 {
      assert a + b == a;
    } else {
      var b', last := b[..|b| - 1], b[|b| - 1];
      assert a + b == (a + b') + [last];
      assert b == b' + [last];
      FlattenAppend(a + b', last);
      FlattenConcat(a, b');
      FlattenAppend(b', last);
    }
  }

  /** The first sub-list comes first: the nested loops read front to back. */
  lemma {:induction false} FlattenCons<T>(xs: seq<T>, xss: seq<seq<T>>)
    ensures Flatten([xs] + xss) == xs + Flatten(xss)
  {
    FlattenConcat([xs], xss);
    assert Flatten([xs]) == Flatten([]) + xs;
  }

  /** An element is yielded exactly when it belongs to some sub-list. */
  lemma {:induction false} FlattenMember<T>(xss: seq<seq<T>>, x: T)
    ensures x in Flatten(xss) <==> exists k :: 0 <= k < |xss| && x in xss[k]
  {
    if |xss| > 0 {
      var init := xss[..|xss| - 1];
      FlattenMember(init, x);
      assert forall k :: 0 <= k < |init| ==> init[k] == xss[k];
      if x in xss[|xss| - 1] {
        assert x in Flatten(xss);
      }
    }
  }

  /** The nested loops of `flatten`, proved to yield `Flatten(lists)`. */
  method FlattenLoop<T>(lists: seq<seq<T>>) returns (out: seq<T>)
    ensures out == Flatten(lists)
  {
    out := [];
    var i := 0;
    while i < |lists|
      invariant i <= |lists|
      invariant out == Flatten(lists[..i])
    {
      var sublist := lists[i];
      var j := 0;
      while j < |sublist|
        invariant j <= |sublist|
        invariant out == Flatten(lists[..i]) + sublist[..j]
      {
        out := out + [sublist[j]];
        j := j + 1;
        assert sublist[..j] == sublist[..j - 1] + [sublist[j - 1]];
      }
      assert sublist[..j] == sublist;
      assert lists[..i + 1] == lists[..i] + [sublist];
      FlattenAppend(lists[..i], sublist);
      i := i + 1;
    }
    assert lists[..i] == lists;
  }
}
