/** The `cell_id` closures of `bak/steps/paragraphs_to_cells.py` and of
    `paragraphs_to_cells` in `docs_nbgen.py`: a header text becomes a slug
    (lower case, each run of non-word characters replaced by `-`, outer `-`
    removed), and a slug already used gets the first free suffix `-2`, `-3`,
    and so on. The two copies differ in what they record as used. */
module CellIds {
  import opened Strings

  // ---------------------------------------------------------------------
  // Slugs.

  /** Length of the leading run of non-word characters. */
  function NonWordLength(s: string): (n: nat)
    ensures n <= |s|
    ensures forall j :: 0 <= j < n ==> !IsWordChar(s[j])
    ensures n < |s| ==> IsWordChar(s[n])
  {
    if s == "" || IsWordChar(s[0]) then 0 else 1 + NonWordLength(s[1..])
  }

  /** `re.sub(r'[^\w]+', '-', s)`: every maximal run of non-word characters
      becomes one `-`. */
  function Dashes(s: string): (r: string)
    ensures forall j :: 0 <= j < |r| ==> r[j] == '-' || (r[j] in s && IsWordChar(r[j]))
    ensures r != "" ==> s != "" && (r[0] == '-' <==> !IsWordChar(s[0]))
    ensures forall j :: 0 <= j < |r| - 1 ==> !(r[j] == '-' && r[j + 1] == '-')
    decreases |s|
  {
    if s == "" then ""
    else if IsWordChar(s[0]) then
      var rest := Dashes(s[1..]);
      assert forall j :: 0 <= j < |rest| && rest[j] in s[1..] ==> rest[j] in s;
      [s[0]] + rest
    else
      var n := NonWordLength(s);
      var rest := Dashes(s[n..]);
      assert forall j :: 0 <= j < |rest| && rest[j] in s[n..] ==> rest[j] in s;
      "-" + rest
  }

  /** The id a header text asks for, before de-duplication. */
  function Slug(name: string): string {
    StripChars(Dashes(Lower(name)), {'-'})
  }

  predicate IsUpper(c: char) { 'A' <= c <= 'Z' }

  /** Lower-case word characters and single `-` separators. */
  predicate Dashed(s: string) {
    (forall j :: 0 <= j < |s| ==> (IsWordChar(s[j]) && !IsUpper(s[j])) || s[j] == '-')
    && (forall j :: 0 <= j < |s| - 1 ==> !(s[j] == '-' && s[j + 1] == '-'))
  }

  /** What every slug looks like: `Dashed`, with no `-` at either end. */
  predicate IsSlug(s: string) {
    Dashed(s) && (s != "" ==> s[0] != '-' && s[|s| - 1] != '-')
  }

  lemma {:induction false} LowerHasNoUpper(s: string)
    ensures forall j :: 0 <= j < |Lower(s)| ==> !IsUpper(Lower(s)[j])
    ensures forall j :: 0 <= j < |Lower(s)| ==> (IsWordChar(Lower(s)[j]) <==> IsWordChar(s[j]))
    decreases |s|
  {
    if s != "" {
      LowerHasNoUpper(s[1..]);
      assert Lower(s) == [LowerChar(s[0])] + Lower(s[1..]);
    }
  }

  lemma {:induction false} DashedSlice(s: string, i: nat, j: nat)
    requires Dashed(s) && i <= j <= |s|
    ensures Dashed(s[i..j])
  {
    assert forall k :: 0 <= k < j - i ==> s[i..j][k] == s[i + k];
  }

  /** Every slug is lower case, made of word characters and single `-`
      separators, and neither starts nor ends with `-`. */
  lemma {:induction false} SlugShape(name: string)
    ensures IsSlug(Slug(name))
  {
    var l := Lower(name);
    LowerHasNoUpper(name);
    var d := Dashes(l);
    assert Dashed(d) by {
      forall j | 0 <= j < |d|
        ensures (IsWordChar(d[j]) && !IsUpper(d[j])) || d[j] == '-'
      {
        if d[j] != '-' {
          var k :| 0 <= k < |l| && l[k] == d[j];
        }
      }
    }
    var r := RStripChars(d, {'-'});
    DashedSlice(d, 0, |r|);
    assert r == d[0..|r|];
    var s := LStripChars(r, {'-'});
    DashedSlice(r, |r| - |s|, |r|);
    assert s == r[|r| - |s|..|r|];
    if s != "" {
      assert s[|s| - 1] == r[|r| - 1];
    }
  }

  lemma {:induction false} DashesOfDashed(s: string)
    requires Dashed(s)
    ensures Dashes(s) == s
    decreases |s|
  {
    if s != "" {
      DashedSlice(s, 1, |s|);
      if IsWordChar(s[0]) {
        DashesOfDashed(s[1..]);
      } else {
        assert NonWordLength(s) == 1;
        DashesOfDashed(s[1..]);
      }
      assert s == [s[0]] + s[1..];
    }
  }

  lemma {:induction false} LowerOfLower(s: string)
    requires forall j :: 0 <= j < |s| ==> !IsUpper(s[j])
    ensures Lower(s) == s
    decreases |s|
  {
    if s != "" {
      LowerOfLower(s[1..]);
      assert s == [s[0]] + s[1..];
    }
  }

  /** A slug is its own slug. */
  lemma {:induction false} SlugOfSlug(s: string)
    requires IsSlug(s)
    ensures Slug(s) == s
  {
    LowerOfLower(s);
    DashesOfDashed(s);
    assert RStripChars(s, {'-'}) == s;
    assert LStripChars(s, {'-'}) == s;
  }

  /** Slugging is idempotent. */
  lemma {:induction false} SlugIdempotent(name: string)
    ensures Slug(Slug(name)) == Slug(name)
  {
    SlugShape(name);
    SlugOfSlug(Slug(name));
  }

  // ---------------------------------------------------------------------
  // Numbered ids and the first free suffix.

  /** `'{}-{}'.format(name, i)`. */
  function Numbered(name: string, i: nat): string {
    name + "-" + NatToString(i)
  }

  lemma {:induction false} NumberedInjective(name: string, i: nat, j: nat)
    requires Numbered(name, i) == Numbered(name, j)
    ensures i == j
  {
    var n := |name| + 1;
    assert NatToString(i) == Numbered(name, i)[n..];
    assert NatToString(j) == Numbered(name, j)[n..];
    NatToStringInjective(i, j);
  }

  /** The ids `name-2` up to `name-(i-1)`. */
  function Taken(name: string, i: nat): set<string> {
    if i <= 2 then {} else Taken(name, i - 1) + {Numbered(name, i - 1)}
  }

  lemma {:induction false} TakenMember(name: string, i: nat, j: nat)
    requires 2 <= j
    ensures Numbered(name, j) in Taken(name, i) <==> j < i
    decreases i
  {
    if i > 2 {
      TakenMember(name, i - 1, j);
      if Numbered(name, j) == Numbered(name, i - 1) {
        NumberedInjective(name, j, i - 1);
      }
    }
  }

  lemma {:induction false} TakenSize(name: string, i: nat)
    ensures |Taken(name, i)| == if i <= 2 then 0 else i - 2
    decreases i
  {
    if i > 2 {
      TakenSize(name, i - 1);
      TakenMember(name, i - 1, i - 1);
    }
  }

  lemma {:induction false} TakenSubset(used: set<string>, name: string, i: nat)
    requires forall j :: 2 <= j < i ==> Numbered(name, j) in used
    ensures Taken(name, i) <= used
    decreases i
  {
    if i > 2 {
      TakenSubset(used, name, i - 1);
    }
  }

  /** Pigeonholes: a finite set holds at most `|used|` numbered ids. */
  lemma {:induction false} Bound(used: set<string>, name: string, i: nat)
    requires 2 <= i && forall j :: 2 <= j < i ==> Numbered(name, j) in used
    ensures i - 2 <= |used|
  {
    var t := Taken(name, i);
    TakenSubset(used, name, i);
    TakenSize(name, i);
    assert used == t + (used - t);
    assert |used| == |t| + |used - t|;
  }

  /** The smallest suffix `k >= i` whose numbered id is unused; the search
      ends because `used` is finite. */
  function FirstFree(used: set<string>, name: string, i: nat): (k: nat)
    requires 2 <= i && forall j :: 2 <= j < i ==> Numbered(name, j) in used
    ensures i <= k && Numbered(name, k) !in used
    ensures forall j :: 2 <= j < k ==> Numbered(name, j) in used
    decreases |used| + 2 - i
  {
    if Numbered(name, i) !in used then i
    else
      Bound(used, name, i + 1);
      FirstFree(used, name, i + 1)
  }

  // ---------------------------------------------------------------------
  // `cell_id` as `bak/steps/paragraphs_to_cells.py` writes it.

  /** An id and the used-id set after choosing it. */
  datatype Alloc = Alloc(id: string, used: set<string>)

  /** The id for `name`: empty for an empty name, else the slug, numbered
      when the slug is taken. The chosen id is recorded. */
  function CellId(used: set<string>, name: string): (r: Alloc)
    ensures name == "" ==> r == Alloc("", used)
    ensures name != "" ==> r.id !in used && r.used == used + {r.id}
  {
    if name == "" then Alloc("", used)
    else
      var s := Slug(name);
      if s !in used then Alloc(s, used + {s})
      else
        var k := FirstFree(used, s, 2);
        Alloc(Numbered(s, k), used + {Numbered(s, k)})
  }

  /** The slug itself when it is free, else the smallest free `-k`. */
  lemma {:induction false} CellIdChoice(used: set<string>, name: string)
    requires name != ""
    ensures Slug(name) !in used ==> CellId(used, name).id == Slug(name)
    ensures Slug(name) in used ==>
      exists k :: 2 <= k && CellId(used, name).id == Numbered(Slug(name), k)
        && forall j :: 2 <= j < k ==> Numbered(Slug(name), j) in used
  {
    if Slug(name) in used {
      var k := FirstFree(used, Slug(name), 2);
      assert CellId(used, name).id == Numbered(Slug(name), k);
    }
  }

  /** `cell_id`, with its `while True` search, proved to compute `CellId`. */
  method NextCellId(used: set<string>, name: string) returns (id: string, used': set<string>)
    ensures Alloc(id, used') == CellId(used, name)
  {
    used' := used;
    if name == "" {
      return "", used';
    }
    var slug := Slug(name);
    if slug !in used' {
      used' := used' + {slug};
      return slug, used';
    }
    var i := 2;
    while true
      invariant 2 <= i && forall j :: 2 <= j < i ==> Numbered(slug, j) in used
      invariant FirstFree(used, slug, i) == FirstFree(used, slug, 2)
      decreases |used| + 2 - i
    {
      var numbered := slug + "-" + NatToString(i);
      if numbered !in used' {
        used' := used' + {numbered};
        return numbered, used';
      }
      Bound(used, slug, i + 1);
      i := i + 1;
    }
  }

  /** The ids chosen for a run of names, and the used set at the end. */
  function AllocAll(used: set<string>, names: seq<string>): (r: (seq<string>, set<string>))
    ensures |r.0| == |names|
  {
    if |names| == 0 then ([], used)
    else
      var prev := AllocAll(used, names[..|names| - 1]);
      var a := CellId(prev.1, names[|names| - 1]);
      (prev.0 + [a.id], a.used)
  }

  /** Every non-empty id chosen in a run is new and recorded, and no two
      are equal. */
  lemma {:induction false} AllocAllDistinct(used: set<string>, names: seq<string>)
    ensures forall k :: 0 <= k < |names| && AllocAll(used, names).0[k] != "" ==>
      AllocAll(used, names).0[k] !in used && AllocAll(used, names).0[k] in AllocAll(used, names).1
    ensures used <= AllocAll(used, names).1
    ensures forall k, l :: 0 <= k < l < |names| && AllocAll(used, names).0[k] != "" ==>
      AllocAll(used, names).0[k] != AllocAll(used, names).0[l]
  {
    if |names| > 0 {
      AllocAllDistinct(used, names[..|names| - 1]);
    }
  }

  // ---------------------------------------------------------------------
  // `cell_id` as `docs_nbgen.py` writes it.

  /** The `docs_nbgen.py` copy: no id for a missing or empty name, and on a
      collision it records the slug, which is already recorded, rather than
      the numbered id it returns. */
  function CellIdAsWritten(used: set<string>, name: Option<string>): (r: (Option<string>, set<string>))
    ensures name.None? || name.value == "" ==> r == (None, used)
  {
    if name.None? || name.value == "" then (None, used)
    else
      var s := Slug(name.value);
      if s !in used then (Some(s), used + {s})
      else (Some(Numbered(s, FirstFree(used, s, 2))), used + {s})
  }

  /** On a collision the as-written copy leaves the used set as it was, so
      a third use of a name gets the same id as the second. */
  lemma {:induction false} AsWrittenRepeats(used: set<string>, name: string)
    requires name != "" && Slug(name) !in used
    ensures var first := CellIdAsWritten(used, Some(name));
            var second := CellIdAsWritten(first.1, Some(name));
            var third := CellIdAsWritten(second.1, Some(name));
            second.0 == third.0 && first.0 != second.0
  {
    var s := Slug(name);
    var first := CellIdAsWritten(used, Some(name));
    assert s in first.1;
    var second := CellIdAsWritten(first.1, Some(name));
    assert second.1 == first.1;
    var k := FirstFree(first.1, s, 2);
    assert first.0 == Some(s) && second.0 == Some(Numbered(s, k));
    assert |Numbered(s, k)| > |s|;
  }

  lemma {:induction false} SlugOfCapitalA()
    ensures Slug("A") == "a"
  {
    assert Lower("A") == "a";
    assert Dashes("a") == "a" by {
      assert Dashes("a"[1..]) == "";
    }
    assert RStripChars("a", {'-'}) == "a";
    assert LStripChars("a", {'-'}) == "a";
  }

  /** The header text "A" three times: the as-written copy gives "a",
      "a-2" and "a-2" again. */
  lemma {:induction false} ThreeHeadersAsWritten()
    ensures CellIdAsWritten({}, Some("A")).0 == Some("a")
    ensures CellIdAsWritten({"a"}, Some("A")) == (Some("a-2"), {"a"})
  {
    SlugOfCapitalA();
    assert NatToString(2) == "2";
    assert Numbered("a", 2) == "a-2";
    assert FirstFree({"a"}, "a", 2) == 2;
    assert {"a"} + {"a"} == {"a"};
  }

  /** The same three names with the corrected copy: "a", "a-2", "a-3". */
  lemma {:induction false} ThreeHeadersCorrected()
    ensures CellId({}, "A") == Alloc("a", {"a"})
    ensures CellId({"a"}, "A") == Alloc("a-2", {"a", "a-2"})
    ensures CellId({"a", "a-2"}, "A").id == "a-3"
  {
    SlugOfCapitalA();
    assert NatToString(2) == "2" && NatToString(3) == "3";
    assert Numbered("a", 2) == "a-2";
    assert Numbered("a", 3) == "a-3";
    assert FirstFree({"a"}, "a", 2) == 2;
    assert FirstFree({"a", "a-2"}, "a", 3) == 3;
    assert FirstFree({"a", "a-2"}, "a", 2) == 3;
  }
}
