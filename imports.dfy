/** Splicing imported sections into a document: `imports` of
    `bak/steps/imports.py` and its copy in `docs_nbgen.py`. The imports map
    an index to a list of inputs; each input is turned into sections by a
    loader (reading and segmenting a file, or running the pipeline steps),
    which is a parameter here. */
module Imports {
  import opened Lists
  import Strings

  /** Where an import index points once negative indices are normalised
      against the number of original sections: -1 is the end. */
  function Target(index: int, count: nat): int {
    if index < 0 then count + index + 1 else index
  }

  // ---------------------------------------------------------------------
  // Normalisation: negative keys are moved to their target in place.

  /** One iteration of the normalisation loop over the key `index`. */
  function NormaliseStep<F>(m: map<int, seq<F>>, index: int, count: nat): map<int, seq<F>> {
    if index < 0 && index in m then m[count + index + 1 := m[index]] - {index} else m
  }

  /** The imports after visiting the keys in `order` (the dictionary's
      iteration order). */
  function Normalised<F>(imports: map<int, seq<F>>, order: seq<int>, count: nat): map<int, seq<F>> {
    if |order| == 0 then imports
    else NormaliseStep(Normalised(imports, order[..|order| - 1], count), order[|order| - 1], count)
  }

  method Normalise<F>(imports: map<int, seq<F>>, order: seq<int>, count: nat) returns (m: map<int, seq<F>>)
    ensures m == Normalised(imports, order, count)
  {
    m := imports;
    var i := 0;
    while i < |order|
      invariant 0 <= i <= |order|
      invariant m == Normalised(imports, order[..i], count)
    {
      Strings.TakeNext(order, i);
      var index := order[i];
      if index < 0 && index in m {
        m := m[count + index + 1 := m[index]];
        m := m - {index};
      }
      i := i + 1;
    }
    assert order[..|order|] == order;
  }

  /** The keys of a dictionary, each once, in some order. */
  predicate IsKeyOrder<F>(imports: map<int, seq<F>>, order: seq<int>) {
    (forall j :: 0 <= j < |order| ==> order[j] in imports)
    && (forall k :: k in imports ==> k in order)
    && (forall j, l :: 0 <= j < l < |order| ==> order[j] != order[l])
  }

  /** No index points before the start, and no two indices point at the same place. */
  predicate TargetsDistinct<F>(imports: map<int, seq<F>>, count: nat) {
    (forall k :: k in imports ==> Target(k, count) >= 0)
    && (forall k, l :: k in imports && l in imports && k != l ==> Target(k, count) != Target(l, count))
  }

  ghost predicate Moved<F>(imports: map<int, seq<F>>, m: map<int, seq<F>>, done: seq<int>, count: nat) {
    (forall k :: k in imports && k < 0 && k in done ==> Target(k, count) in m && m[Target(k, count)] == imports[k] && k !in m)
    && (forall k :: k in imports && !(k < 0 && k in done) ==> k in m && m[k] == imports[k])
    && (forall t :: t in m ==> t in imports || exists k :: k in imports && k < 0 && k in done && Target(k, count) == t)
  }

  lemma {:induction false} NormalisedMoved<F>(imports: map<int, seq<F>>, order: seq<int>, count: nat)
    requires TargetsDistinct(imports, count)
    requires forall j :: 0 <= j < |order| ==> order[j] in imports
    requires forall j, l :: 0 <= j < l < |order| ==> order[j] != order[l]
    ensures Moved(imports, Normalised(imports, order, count), order, count)
  {
    if |order| > 0 {
      var init, index := order[..|order| - 1], order[|order| - 1];
      Strings.InitLast(order);
      NormalisedMoved(imports, init, count);
      assert index !in init by {
        forall j | 0 <= j < |init| ensures init[j] != index {
          assert init[j] == order[j];
        }
      }
      MovedStep(imports, Normalised(imports, init, count), init, index, count);
    }
  }

  /** Visiting one more key that has not been visited yet keeps `Moved`. */
  lemma {:induction false} MovedStep<F>(imports: map<int, seq<F>>, m: map<int, seq<F>>, done: seq<int>, index: int, count: nat)
    requires TargetsDistinct(imports, count) && Moved(imports, m, done, count)
    requires index in imports && index !in done
    ensures Moved(imports, NormaliseStep(m, index, count), done + [index], count)
  {
    if index < 0 {
      MovedNegative(imports, m, done, index, count);
    }
  }

  /** A negative key is moved to its target. */
  lemma {:induction false} MovedNegative<F>(imports: map<int, seq<F>>, m: map<int, seq<F>>, done: seq<int>, index: int, count: nat)
    requires TargetsDistinct(imports, count) && Moved(imports, m, done, count)
    requires index in imports && index !in done && index < 0
    ensures Moved(imports, NormaliseStep(m, index, count), done + [index], count)
  {
    var t := Target(index, count);
    var m' := NormaliseStep(m, index, count);
    assert index in m && m' == m[t := m[index]] - {index};
    forall k | k in imports && k < 0 && k in done + [index]
      ensures Target(k, count) in m' && m'[Target(k, count)] == imports[k] && k !in m'
    {
      if k != index {
        assert k in done;
      }
    }
    forall k | k in imports && !(k < 0 && k in done + [index])
      ensures k in m' && m'[k] == imports[k]
    {
      assert k != t;
    }
    forall u | u in m'
      ensures u in imports || exists k :: k in imports && k < 0 && k in done + [index] && Target(k, count) == u
    {
      if u == t {
        assert index in done + [index];
      }
    }
  }

  /** Once every key has been visited, each index (made non-negative against
      the original count) holds exactly the inputs it was given. */
  lemma {:induction false} NormalisedTargets<F>(imports: map<int, seq<F>>, order: seq<int>, count: nat)
    requires IsKeyOrder(imports, order) && TargetsDistinct(imports, count)
    ensures forall k :: k in imports ==>
      Target(k, count) in Normalised(imports, order, count) && Normalised(imports, order, count)[Target(k, count)] == imports[k]
    ensures forall t :: t in Normalised(imports, order, count) ==> t >= 0 && exists k :: k in imports && Target(k, count) == t
  {
    NormalisedMoved(imports, order, count);
    var m := Normalised(imports, order, count);
    forall t | t in m
      ensures t >= 0 && exists k :: k in imports && Target(k, count) == t
    {
      if t in imports && !(t < 0) {
        assert Target(t, count) == t;
      }
    }
  }

  // ---------------------------------------------------------------------
  // Splicing.

  /** The sections loaded for a list of inputs, input after input. */
  function Loaded<F, S>(files: seq<F>, load: F -> seq<S>): seq<S> {
    Flatten(seq(|files|, j requires 0 <= j < |files| => load(files[j])))
  }

  /** The sections imported at index `i`. */
  function At<F, S>(m: map<int, seq<F>>, i: int, load: F -> seq<S>): seq<S> {
    if i in m then Loaded(m[i], load) else []
  }

  /** The output for the first `i` original sections. */
  function SplicedPrefix<F, S>(sections: seq<S>, i: nat, m: map<int, seq<F>>, load: F -> seq<S>): seq<S>
    requires i <= |sections|
  {
    if i == 0 then []
    else SplicedPrefix(sections, i - 1, m, load) + At(m, i - 1, load) + [sections[i - 1]]
  }

  /** The whole output for already normalised imports. */
  function Spliced<F, S>(sections: seq<S>, m: map<int, seq<F>>, load: F -> seq<S>): seq<S> {
    SplicedPrefix(sections, |sections|, m, load) + At(m, |sections|, load)
  }

  /** `sections_from_imports`: the sections of each input, in list order. */
  method LoadAll<F, S>(files: seq<F>, load: F -> seq<S>) returns (out: seq<S>)
    ensures out == Loaded(files, load)
  {
    out := [];
    var j := 0;
    while j < |files|
      invariant 0 <= j <= |files|
      invariant out == Loaded(files[..j], load)
    {
      LoadedAppend(files[..j], files[j], load);
      assert files[..j + 1] == files[..j] + [files[j]];
      out := out + load(files[j]);
      j := j + 1;
    }
    assert files[..|files|] == files;
  }

  /** The generator: normalise the imports, then splice them in. */
  method ImportSections<F, S>(sections: seq<S>, imports: map<int, seq<F>>, order: seq<int>, load: F -> seq<S>)
    returns (out: seq<S>)
    ensures out == Spliced(sections, Normalised(imports, order, |sections|), load)
  {
    var m := Normalise(imports, order, |sections|);
    out := [];
    var i := 0;
    while i < |sections|
      invariant 0 <= i <= |sections|
      invariant out == SplicedPrefix(sections, i, m, load)
    {
      if i in m {
        var loaded := LoadAll(m[i], load);
        out := out + loaded;
      }
      out := out + [sections[i]];
      i := i + 1;
    }
    var n := |sections|;
    if n in m {
      var loaded := LoadAll(m[n], load);
      out := out + loaded;
    }
  }

  lemma {:induction false} LoadedAppend<F, S>(files: seq<F>, f: F, load: F -> seq<S>)
    ensures Loaded(files + [f], load) == Loaded(files, load) + load(f)
  {
    var xs := seq(|files|, j requires 0 <= j < |files| => load(files[j]));
    var ys := seq(|files + [f]|, j requires 0 <= j < |files + [f]| => load((files + [f])[j]));
    assert ys == xs + [load(f)];
    FlattenAppend(xs, load(f));
  }

  // ---------------------------------------------------------------------
  // Properties of splicing.

  /** Without imports the sections pass through unchanged. */
  lemma {:induction false} NoImportsUnchanged<F, S>(sections: seq<S>, load: F -> seq<S>)
    ensures Spliced(sections, map[], load) == sections
  {
    PrefixNoImports(sections, |sections|, load);
    assert sections[..|sections|] == sections;
  }

  lemma {:induction false} PrefixNoImports<F, S>(sections: seq<S>, i: nat, load: F -> seq<S>)
    requires i <= |sections|
    ensures SplicedPrefix(sections, i, map[], load) == sections[..i]
  {
    if i > 0 {
      PrefixNoImports(sections, i - 1, load);
      assert sections[..i] == sections[..i - 1] + [sections[i - 1]];
    }
  }

  /** Indices outside 0..len(sections) are never emitted. */
  lemma {:induction false} OutOfRangeIgnored<F, S>(sections: seq<S>, m: map<int, seq<F>>, load: F -> seq<S>)
    ensures Spliced(sections, m, load) ==
      Spliced(sections, map i | i in m && 0 <= i <= |sections| :: m[i], load)
  {
    var r := map i | i in m && 0 <= i <= |sections| :: m[i];
    PrefixRestricted(sections, |sections|, m, r, load);
  }

  lemma {:induction false} PrefixRestricted<F, S>(sections: seq<S>, i: nat, m: map<int, seq<F>>, r: map<int, seq<F>>, load: F -> seq<S>)
    requires i <= |sections|
    requires forall j :: 0 <= j <= |sections| ==> (j in m <==> j in r) && (j in m ==> m[j] == r[j])
    ensures SplicedPrefix(sections, i, m, load) == SplicedPrefix(sections, i, r, load)
  {
    if i > 0 {
      PrefixRestricted(sections, i - 1, m, r, load);
    }
  }

  /** The elements satisfying `p`, in order. */
  function Filter<S>(p: S -> bool, xs: seq<S>): seq<S> {
    if |xs| == 0 then []
    else Filter(p, xs[..|xs| - 1]) + (if p(xs[|xs| - 1]) then [xs[|xs| - 1]] else [])
  }

  lemma {:induction false} FilterConcat<S>(p: S -> bool, a: seq<S>, b: seq<S>)
    ensures Filter(p, a + b) == Filter(p, a) + Filter(p, b)
    decreases |b|
  {
    if |b| == 0 {
      assert a + b == a;
    } else {
      var b' := b[..|b| - 1];
      assert a + b == (a + b') + [b[|b| - 1]];
      assert (a + b)[..|a + b| - 1] == a + b';
      FilterConcat(p, a, b');
    }
  }

  lemma {:induction false} FilterNone<S>(p: S -> bool, xs: seq<S>)
    requires forall j :: 0 <= j < |xs| ==> !p(xs[j])
    ensures Filter(p, xs) == []
  {
    if |xs| > 0 {
      FilterNone(p, xs[..|xs| - 1]);
    }
  }

  lemma {:induction false} FilterAll<S>(p: S -> bool, xs: seq<S>)
    requires forall j :: 0 <= j < |xs| ==> p(xs[j])
    ensures Filter(p, xs) == xs
  {
    if |xs| > 0 {
      FilterAll(p, xs[..|xs| - 1]);
    }
  }

  lemma {:induction false} LoadedMembers<F, S>(files: seq<F>, load: F -> seq<S>, x: S)
    requires x in Loaded(files, load)
    ensures exists j :: 0 <= j < |files| && x in load(files[j])
  {
    var xs := seq(|files|, j requires 0 <= j < |files| => load(files[j]));
    FlattenMember(xs, x);
  }

  /** The import at every index, in index order, 0 to len(sections). */
  function AllImports<F, S>(m: map<int, seq<F>>, i: nat, load: F -> seq<S>): seq<S> {
    if i == 0 then [] else AllImports(m, i - 1, load) + At(m, i - 1, load)
  }

  function Not<S>(p: S -> bool): S -> bool {
    x => !p(x)
  }

  lemma {:induction false} ImportsNotOriginal<F, S>(m: map<int, seq<F>>, i: int, load: F -> seq<S>, isOriginal: S -> bool)
    requires forall f, x :: x in load(f) ==> !isOriginal(x)
    ensures Filter(isOriginal, At(m, i, load)) == []
    ensures Filter(Not(isOriginal), At(m, i, load)) == At(m, i, load)
  {
    var imp := At(m, i, load);
    forall j | 0 <= j < |imp| ensures !isOriginal(imp[j]) {
      LoadedMembers(m[i], load, imp[j]);
    }
    FilterNone(isOriginal, imp);
    FilterAll(Not(isOriginal), imp);
  }

  lemma {:induction false} FilterSingle<S>(p: S -> bool, x: S)
    ensures Filter(p, [x]) == if p(x) then [x] else []
  {
    assert [x][..0] == [];
  }

  /** One index of the splice, seen through a filter that drops the
      imported sections and keeps the original one. */
  lemma {:induction false} FilterStepOriginal<S>(p: S -> bool, pre: seq<S>, imp: seq<S>, s: S)
    requires Filter(p, imp) == [] && p(s)
    ensures Filter(p, pre + imp + [s]) == Filter(p, pre) + [s]
  {
    FilterConcat(p, pre + imp, [s]);
    FilterConcat(p, pre, imp);
    FilterSingle(p, s);
    assert Filter(p, pre) + [] == Filter(p, pre);
  }

  /** One index of the splice, seen through a filter that keeps the
      imported sections and drops the original one. */
  lemma {:induction false} FilterStepImported<S>(p: S -> bool, pre: seq<S>, imp: seq<S>, s: S)
    requires Filter(p, imp) == imp && !p(s)
    ensures Filter(p, pre + imp + [s]) == Filter(p, pre) + imp
  {
    FilterConcat(p, pre + imp, [s]);
    FilterConcat(p, pre, imp);
    FilterSingle(p, s);
    assert Filter(p, pre) + imp + [] == Filter(p, pre) + imp;
  }

  lemma {:induction false} PrefixOriginals<F, S>(sections: seq<S>, i: nat, m: map<int, seq<F>>, load: F -> seq<S>, isOriginal: S -> bool)
    requires i <= |sections|
    requires forall j :: 0 <= j < |sections| ==> isOriginal(sections[j])
    requires forall j :: 0 <= j < i ==> Filter(isOriginal, At(m, j, load)) == []
    ensures Filter(isOriginal, SplicedPrefix(sections, i, m, load)) == sections[..i]
  {
    if i > 0 {
      PrefixOriginals(sections, i - 1, m, load, isOriginal);
      FilterStepOriginal(isOriginal, SplicedPrefix(sections, i - 1, m, load), At(m, i - 1, load), sections[i - 1]);
      Strings.TakeLast(sections, i);
    }
  }

  lemma {:induction false} PrefixImports<F, S>(sections: seq<S>, i: nat, m: map<int, seq<F>>, load: F -> seq<S>, isOriginal: S -> bool)
    requires i <= |sections|
    requires forall j :: 0 <= j < |sections| ==> isOriginal(sections[j])
    requires forall j :: 0 <= j < i ==> Filter(Not(isOriginal), At(m, j, load)) == At(m, j, load)
    ensures Filter(Not(isOriginal), SplicedPrefix(sections, i, m, load)) == AllImports(m, i, load)
  {
    if i > 0 {
      PrefixImports(sections, i - 1, m, load, isOriginal);
      FilterStepImported(Not(isOriginal), SplicedPrefix(sections, i - 1, m, load), At(m, i - 1, load), sections[i - 1]);
    }
  }

  /** When loaded sections can be told apart from original ones: every
      original section is emitted exactly once and in its original order,
      and the imports are emitted in index order, those at len(sections)
      last. */
  lemma {:induction false} OriginalsAndImportsInOrder<F, S>(sections: seq<S>, m: map<int, seq<F>>, load: F -> seq<S>, isOriginal: S -> bool)
    requires forall j :: 0 <= j < |sections| ==> isOriginal(sections[j])
    requires forall f, x :: x in load(f) ==> !isOriginal(x)
    ensures Filter(isOriginal, Spliced(sections, m, load)) == sections
    ensures Filter(Not(isOriginal), Spliced(sections, m, load)) == AllImports(m, |sections| + 1, load)
  {
    var n := |sections|;
    var pre := SplicedPrefix(sections, n, m, load);
    var imp := At(m, n, load);
    forall j | 0 <= j <= n
      ensures Filter(isOriginal, At(m, j, load)) == []
      ensures Filter(Not(isOriginal), At(m, j, load)) == At(m, j, load)
    {
      ImportsNotOriginal(m, j, load, isOriginal);
    }
    PrefixOriginals(sections, n, m, load, isOriginal);
    PrefixImports(sections, n, m, load, isOriginal);
    FilterConcat(isOriginal, pre, imp);
    FilterConcat(Not(isOriginal), pre, imp);
    assert sections[..n] == sections;
  }
}
