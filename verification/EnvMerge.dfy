/**
 Merging the environment-variable entries found by the documentation generator:
 one entry per name, folded in input order and sorted by component and name.
 Component names are lower-cased as ASCII.
 */
module EnvMerge {
  import opened Text

  datatype Need = Required | Optional

  datatype Entry = Entry(
    name: string, component: string, need: Need, default: string,
    description: string, sensitivity: string, sources: set<string>)

  /** What an entry already seen keeps, and what it takes from a later one of the same name. */
  function Absorb(e: Entry, x: Entry): Entry {
    var named := if e.component == "Other" && x.component != "Other"
                 then e.(component := x.component, description := x.description) else e;
    named.(sources := e.sources + x.sources,
           default := if e.default == "" && x.default != "" then x.default else e.default,
           need := if x.need.Required? && e.need.Optional? then x.need else e.need,
           sensitivity := if e.sensitivity != "sensitive" && x.sensitivity == "sensitive" then "sensitive" else e.sensitivity)
  }

  /** The entries of one name, in input order. */
  function Named(entries: seq<Entry>, name: string): seq<Entry> {
    if entries == [] then []
    else Named(entries[..|entries| - 1], name) + if entries[|entries| - 1].name == name then [entries[|entries| - 1]] else []
  }

  function Fold(g: seq<Entry>): Entry
    requires g != []
  {
    if |g| == 1 then g[0] else Absorb(Fold(g[..|g| - 1]), g[|g| - 1])
  }

  lemma {:induction false} NamedMembers(entries: seq<Entry>, name: string, e: Entry)
    ensures e in Named(entries, name) <==> e in entries && e.name == name
    decreases |entries|
  {
    if entries != [] {
      NamedMembers(entries[..|entries| - 1], name, e);
      assert entries == entries[..|entries| - 1] + [entries[|entries| - 1]];
    }
  }

  lemma {:induction false} FoldKeepsName(g: seq<Entry>, name: string)
    requires g != [] && forall e :: e in g ==> e.name == name
    ensures Fold(g).name == name
    decreases |g|
  {
    if |g| > 1 {
      FoldKeepsName(g[..|g| - 1], name);
    }
  }

  // ---------- The closed form ----------

  /** The first entry of a group that satisfies a test, if any does. */
  ghost predicate IsFirst(g: seq<Entry>, i: int, test: Entry -> bool) {
    0 <= i < |g| && test(g[i]) && forall j :: 0 <= j < i ==> !test(g[j])
  }

  ghost predicate Placed(e: Entry) {
    e.component != "Other"
  }

  /** Component and description come from the first entry with a real component, else from the first entry. */
  ghost predicate ComponentFrom(g: seq<Entry>, e: Entry) {
    if forall j :: 0 <= j < |g| ==> !Placed(g[j])
    then |g| > 0 && e.component == g[0].component && e.description == g[0].description
    else exists i :: IsFirst(g, i, Placed) && e.component == g[i].component && e.description == g[i].description
  }

  /** The default is the first one that is not empty, if there is one. */
  ghost predicate DefaultFrom(g: seq<Entry>, e: Entry) {
    if forall j :: 0 <= j < |g| ==> g[j].default == ""
    then e.default == ""
    else exists i :: 0 <= i < |g| && g[i].default != "" && e.default == g[i].default && forall j :: 0 <= j < i ==> g[j].default == ""
  }

  ghost predicate UnionOf(g: seq<Entry>, e: Entry) {
    && (e.need.Required? <==> exists x :: x in g && x.need.Required?)
    && (e.sensitivity == "sensitive" <==> exists x :: x in g && x.sensitivity == "sensitive")
    && (e.sensitivity != "sensitive" ==> |g| > 0 && e.sensitivity == g[0].sensitivity)
    && (forall s :: s in e.sources <==> exists x :: x in g && s in x.sources)
  }

  lemma ComponentStep(g: seq<Entry>, e: Entry, x: Entry)
    requires g != [] && ComponentFrom(g, e)
    ensures ComponentFrom(g + [x], Absorb(e, x))
  {
    var h := g + [x];
    assert forall j :: 0 <= j < |g| ==> h[j] == g[j];
    if i :| IsFirst(g, i, Placed) && e.component == g[i].component && e.description == g[i].description {
      assert IsFirst(h, i, Placed);
    } else if Placed(x) {
      assert h[|g|] == x && IsFirst(h, |g|, Placed);
    } else {
      assert forall j :: 0 <= j < |h| ==> !Placed(h[j]);
    }
  }

  lemma DefaultStep(g: seq<Entry>, e: Entry, x: Entry)
    requires g != [] && DefaultFrom(g, e)
    ensures DefaultFrom(g + [x], Absorb(e, x))
  {
    var h := g + [x];
    assert forall j :: 0 <= j < |g| ==> h[j] == g[j];
    assert h[|g|] == x;
  }

  lemma UnionStep(g: seq<Entry>, e: Entry, x: Entry)
    requires g != [] && UnionOf(g, e)
    ensures UnionOf(g + [x], Absorb(e, x))
  {
    assert forall y :: y in g + [x] <==> y in g || y == x;
    assert (g + [x])[0] == g[0];
  }

  lemma FoldUnfolds(g: seq<Entry>)
    requires |g| > 1
    ensures g == g[..|g| - 1] + [g[|g| - 1]] && Fold(g) == Absorb(Fold(g[..|g| - 1]), g[|g| - 1])
  {
    SplitLast(g);
  }

  lemma SplitLast(g: seq<Entry>)
    requires g != []
    ensures g == g[..|g| - 1] + [g[|g| - 1]]
  {
  }

  lemma {:induction false} FoldComponent(g: seq<Entry>)
    requires g != []
    ensures ComponentFrom(g, Fold(g))
    decreases |g|
  {
    if |g| == 1 {
      assert Placed(g[0]) ==> IsFirst(g, 0, Placed);
    } else {
      FoldComponent(g[..|g| - 1]);
      FoldUnfolds(g);
      ComponentStep(g[..|g| - 1], Fold(g[..|g| - 1]), g[|g| - 1]);
    }
  }

  lemma {:induction false} FoldDefault(g: seq<Entry>)
    requires g != []
    ensures DefaultFrom(g, Fold(g))
    decreases |g|
  {
    if |g| > 1 {
      FoldDefault(g[..|g| - 1]);
      FoldUnfolds(g);
      DefaultStep(g[..|g| - 1], Fold(g[..|g| - 1]), g[|g| - 1]);
    }
  }

  lemma {:induction false} FoldUnion(g: seq<Entry>)
    requires g != []
    ensures UnionOf(g, Fold(g))
    decreases |g|
  {
    if |g| == 1 {
      assert g == [g[0]] && g[0] in g;
    } else {
      FoldUnion(g[..|g| - 1]);
      FoldUnfolds(g);
      UnionStep(g[..|g| - 1], Fold(g[..|g| - 1]), g[|g| - 1]);
    }
  }

  /** The fold of a group, described without folding. */
  lemma FoldClosedForm(g: seq<Entry>)
    requires g != []
    ensures ComponentFrom(g, Fold(g)) && DefaultFrom(g, Fold(g)) && UnionOf(g, Fold(g))
  {
    FoldComponent(g);
    FoldDefault(g);
    FoldUnion(g);
  }

  /** Reordering the input changes neither sources nor need nor sensitivity. */
  lemma OrderDoesNotMatter(a: seq<Entry>, b: seq<Entry>, name: string)
    requires multiset(a) == multiset(b) && Named(a, name) != []
    ensures Named(b, name) != []
    ensures var x, y := Fold(Named(a, name)), Fold(Named(b, name));
            x.sources == y.sources && x.need == y.need && (x.sensitivity == "sensitive" <==> y.sensitivity == "sensitive")
  {
    var ga, gb := Named(a, name), Named(b, name);
    forall e
      ensures e in ga <==> e in gb
    {
      NamedMembers(a, name, e);
      NamedMembers(b, name, e);
      assert e in a <==> e in multiset(a);
      assert e in b <==> e in multiset(b);
    }
    assert ga[0] in gb;
    FoldClosedForm(ga);
    FoldClosedForm(gb);
  }

  // ---------- Sorting ----------

  predicate LexLess(a: string, b: string) {
    b != "" && (a == "" || a[0] < b[0] || (a[0] == b[0] && LexLess(a[1..], b[1..])))
  }

  lemma {:induction false} LexAsymmetric(a: string, b: string)
    ensures !(LexLess(a, b) && LexLess(b, a)) && !LexLess(a, a)
    decreases |a|
  {
    if a != "" {
      LexAsymmetric(a[1..], if b == "" then "" else b[1..]);
    }
  }

  lemma {:induction false} LexTotal(a: string, b: string)
    ensures LexLess(a, b) || LexLess(b, a) || a == b
    decreases |a|
  {
    if a != "" && b != "" && a[0] == b[0] {
      LexTotal(a[1..], b[1..]);
      assert a == [a[0]] + a[1..] && b == [b[0]] + b[1..];
    }
  }

  lemma {:induction false} LexTransitive(a: string, b: string, c: string)
    requires LexLess(a, b) && LexLess(b, c)
    ensures LexLess(a, c)
    decreases |a|
  {
    if a != "" && a[0] == b[0] && b[0] == c[0] {
      LexTransitive(a[1..], b[1..], c[1..]);
    }
  }

  /** The order of the report: by lower-cased component, then by name. */
  predicate Before(a: Entry, b: Entry) {
    LexLess(Lower(a.component), Lower(b.component))
    || (Lower(a.component) == Lower(b.component) && LexLess(a.name, b.name))
  }

  lemma BeforeIsOrder(a: Entry, b: Entry, c: Entry)
    ensures !(Before(a, b) && Before(b, a))
    ensures a.name != b.name ==> Before(a, b) || Before(b, a)
    ensures Before(a, b) && Before(b, c) ==> Before(a, c)
  {
    var x, y, z := Lower(a.component), Lower(b.component), Lower(c.component);
    LexAsymmetric(x, y);
    LexAsymmetric(a.name, b.name);
    LexTotal(x, y);
    LexTotal(a.name, b.name);
    if LexLess(x, y) && LexLess(y, z) {
      LexTransitive(x, y, z);
    }
    if LexLess(a.name, b.name) && LexLess(b.name, c.name) {
      LexTransitive(a.name, b.name, c.name);
    }
  }

  ghost predicate Sorted(s: seq<Entry>) {
    forall i, j :: 0 <= i < j < |s| ==> Before(s[i], s[j])
  }

  lemma {:induction false} LeastExists(m: map<string, Entry>, names: set<string>) returns (k: string)
    requires names != {} && names <= m.Keys && forall n :: n in m ==> m[n].name == n
    ensures k in names && forall n :: n in names && n != k ==> Before(m[k], m[n])
    decreases names
  {
    var x :| x in names;
    var rest := names - {x};
    k := x;
    if rest != {} {
      var y := LeastExists(m, rest);
      BeforeIsOrder(m[x], m[y], m[y]);
      k := if Before(m[x], m[y]) then x else y;
      forall n | n in names && n != k
        ensures Before(m[k], m[n])
      {
        if n in rest && n != y {
          BeforeIsOrder(m[x], m[y], m[n]);
        }
      }
    } else {
      assert forall n :: n in names ==> n == x || n in rest;
    }
  }

  /** Two strictly sorted lists with the same elements are the same list. */
  lemma {:induction false} SortedIsUnique(s: seq<Entry>, t: seq<Entry>)
    requires Sorted(s) && Sorted(t) && forall e :: e in s <==> e in t
    ensures s == t
    decreases |s|
  {
    assert s != [] ==> s[0] in s;
    assert t != [] ==> t[0] in t;
    if s != [] && t != [] {
      var a, b := s[0], t[0];
      assert a in t && b in s;
      BeforeIsOrder(a, b, b);
      assert a == b;
      forall e
        ensures e in s[1..] <==> e in t[1..]
      {
        BeforeIsOrder(a, e, e);
        assert e in s <==> e == a || e in s[1..];
        assert e in t <==> e == a || e in t[1..];
      }
      SortedIsUnique(s[1..], t[1..]);
      assert s == [a] + s[1..] && t == [a] + t[1..];
    }
  }

  // ---------- The merge ----------

  /** The list a merge returns: per name the fold of its group, sorted. */
  ghost predicate IsMerge(entries: seq<Entry>, out: seq<Entry>) {
    && Sorted(out)
    && (forall e :: e in out <==> Named(entries, e.name) != [] && e == Fold(Named(entries, e.name)))
  }

  lemma NamedSnoc(entries: seq<Entry>, x: Entry, name: string)
    ensures Named(entries + [x], name) == if x.name == name then Named(entries, name) + [x] else Named(entries, name)
  {
    assert (entries + [x])[..|entries|] == entries;
  }

  lemma FoldSnoc(g: seq<Entry>, x: Entry)
    ensures Fold(g + [x]) == if g == [] then x else Absorb(Fold(g), x)
  {
    if g == [] {
      assert g + [x] == [x];
    } else {
      assert (g + [x])[..|g|] == g;
    }
  }

  method Update(existing: Entry, x: Entry) returns (e: Entry)
    ensures e == Absorb(existing, x)
  {
    e := existing.(sources := existing.sources + x.sources);
    if e.component == "Other" && x.component != "Other" {
      e := e.(component := x.component, description := x.description);
    }
    if e.default == "" && x.default != "" {
      e := e.(default := x.default);
    }
    if x.need.Required? && e.need.Optional? {
      e := e.(need := x.need);
    }
    if e.sensitivity != "sensitive" && x.sensitivity == "sensitive" {
      e := e.(sensitivity := "sensitive");
    }
  }

  /** The dictionary after some entries: per name seen, the fold of its group. */
  ghost predicate Collected(entries: seq<Entry>, merged: map<string, Entry>) {
    && (forall n :: n in merged <==> Named(entries, n) != [])
    && (forall n :: n in merged ==> merged[n] == Fold(Named(entries, n)) && merged[n].name == n)
  }

  lemma CollectStep(entries: seq<Entry>, x: Entry, merged: map<string, Entry>)
    requires Collected(entries, merged)
    ensures Collected(entries + [x], merged[x.name := if x.name in merged then Absorb(merged[x.name], x) else x])
  {
    var merged' := merged[x.name := if x.name in merged then Absorb(merged[x.name], x) else x];
    forall n
      ensures n in merged' <==> Named(entries + [x], n) != []
      ensures n in merged' ==> merged'[n] == Fold(Named(entries + [x], n)) && merged'[n].name == n
    {
      NamedSnoc(entries, x, n);
      if n == x.name {
        FoldSnoc(Named(entries, n), x);
      }
    }
  }

  method CollectByName(entries: seq<Entry>) returns (merged: map<string, Entry>)
    ensures Collected(entries, merged)
  {
    merged := map[];
    var i := 0;
    while i < |entries|
      invariant 0 <= i <= |entries|
      invariant Collected(entries[..i], merged)
    {
      var x := entries[i];
      CollectStep(entries[..i], x, merged);
      assert entries[..i] + [x] == entries[..i + 1];
      if x.name !in merged {
        merged := merged[x.name := x];
      } else {
        var e := Update(merged[x.name], x);
        merged := merged[x.name := e];
      }
      i := i + 1;
    }
    assert entries[..|entries|] == entries;
  }

  method SortEntries(m: map<string, Entry>) returns (out: seq<Entry>)
    requires forall n :: n in m ==> m[n].name == n
    ensures Sorted(out) && forall e :: e in out <==> e.name in m && e == m[e.name]
  {
    out := [];
    var pending := m.Keys;
    while pending != {}
      invariant pending <= m.Keys && Sorted(out)
      invariant forall e :: e in out <==> e.name in m && e.name !in pending && e == m[e.name]
      invariant forall e, n :: e in out && n in pending ==> Before(e, m[n])
      decreases pending
    {
      ghost var least := LeastExists(m, pending);
      var k :| k in pending && forall n :: n in pending && n != k ==> Before(m[k], m[n]);
      assert forall i :: 0 <= i < |out| ==> out[i] in out;
      out := out + [m[k]];
      pending := pending - {k};
    }
  }

  method MergeEntries(entries: seq<Entry>) returns (out: seq<Entry>)
    ensures IsMerge(entries, out)
  {
    var merged := CollectByName(entries);
    out := SortEntries(merged);
  }

  // ---------- Merging again ----------

  ghost predicate DistinctNames(s: seq<Entry>) {
    forall i, j :: 0 <= i < j < |s| ==> s[i].name != s[j].name
  }

  lemma MergeHasDistinctNames(entries: seq<Entry>, out: seq<Entry>)
    requires IsMerge(entries, out)
    ensures DistinctNames(out)
  {
    forall i, j | 0 <= i < j < |out|
      ensures out[i].name != out[j].name
    {
      assert out[i] in out && out[j] in out;
      BeforeIsOrder(out[i], out[j], out[j]);
    }
  }

  lemma {:induction false} NamedNone(s: seq<Entry>, name: string)
    requires forall i :: 0 <= i < |s| ==> s[i].name != name
    ensures Named(s, name) == []
    decreases |s|
  {
    if s != [] {
      NamedNone(s[..|s| - 1], name);
    }
  }

  lemma {:induction false} NamedOne(s: seq<Entry>, i: nat)
    requires DistinctNames(s) && i < |s|
    ensures Named(s, s[i].name) == [s[i]]
    decreases |s|
  {
    var before := s[..|s| - 1];
    if i == |s| - 1 {
      NamedNone(before, s[i].name);
    } else {
      NamedOne(before, i);
    }
  }

  /** Merging a merged list changes nothing, and the merge of a list is determined by it. */
  lemma MergingAgainChangesNothing(entries: seq<Entry>, out: seq<Entry>, again: seq<Entry>)
    requires IsMerge(entries, out) && IsMerge(out, again)
    ensures again == out
  {
    MergeHasDistinctNames(entries, out);
    forall e
      ensures e in again <==> e in out
    {
      NamedMembers(out, e.name, e);
      if i :| 0 <= i < |out| && out[i].name == e.name {
        NamedOne(out, i);
        assert Fold([out[i]]) == out[i];
      } else {
        NamedNone(out, e.name);
      }
    }
    SortedIsUnique(again, out);
  }

  // ---------- In plain terms ----------

  /** a is smaller at place i: alike before it, and there a ends or has the smaller character. */
  ghost predicate SmallerAt(a: string, b: string, i: nat) {
    i <= |a| && i < |b| && a[..i] == b[..i] && (i == |a| || a[i] < b[i])
  }

  lemma SmallerBehind(a: string, b: string, i: nat)
    requires a != "" && b != "" && a[0] == b[0]
    ensures SmallerAt(a[1..], b[1..], i) <==> SmallerAt(a, b, i + 1)
  {
    if i < |a| && i + 1 < |b| {
      assert a[..i + 1] == [a[0]] + a[1..][..i] && b[..i + 1] == [b[0]] + b[1..][..i];
      assert a[1..][..i] == a[..i + 1][1..] && b[1..][..i] == b[..i + 1][1..];
    }
  }

  /** Two strings compare by their first difference, or by length if there is none. */
  lemma {:induction false} LexLessIff(a: string, b: string)
    ensures LexLess(a, b) <==> exists i: nat :: SmallerAt(a, b, i)
    decreases |a|
  {
    if a != "" && b != "" && a[0] == b[0] {
      LexLessIff(a[1..], b[1..]);
      if i: nat :| SmallerAt(a[1..], b[1..], i) {
        SmallerBehind(a, b, i);
        assert SmallerAt(a, b, i + 1);
      }
      if i: nat :| SmallerAt(a, b, i) {
        assert i > 0;
        SmallerBehind(a, b, i - 1);
        assert SmallerAt(a[1..], b[1..], i - 1);
      }
    } else if LexLess(a, b) {
      assert SmallerAt(a, b, 0);
    } else if a != "" && b != "" {
      forall i: nat | 0 < i
        ensures !SmallerAt(a, b, i)
      {
        if i <= |a| && i < |b| {
          assert a[..i][0] == a[0] && b[..i][0] == b[0];
        }
      }
      assert !SmallerAt(a, b, 0);
    }
  }

  /** A merge is in order of the component in lower case, and of the name where that is the same. */
  lemma MergeOrder(entries: seq<Entry>, out: seq<Entry>, i: nat, j: nat)
    requires IsMerge(entries, out) && i < j < |out|
    ensures LexLess(Lower(out[i].component), Lower(out[j].component))
         || (Lower(out[i].component) == Lower(out[j].component) && LexLess(out[i].name, out[j].name))
  {
  }

  /**
   A merge has an entry exactly for each name of the input. Component and description are those of
   the first entry of that name outside "Other", else of the first; the default is the first that is
   not empty; it is required, and sensitive, exactly when some entry of the name is; and it has the
   sources of all of them.
   */
  lemma MergeExactly(entries: seq<Entry>, out: seq<Entry>, e: Entry)
    requires IsMerge(entries, out) && e in out
    ensures exists x :: x in entries && x.name == e.name
    ensures var g := Named(entries, e.name);
            && g != []
            && (if exists i :: 0 <= i < |g| && g[i].component != "Other"
                then exists i :: 0 <= i < |g| && g[i].component != "Other" && (forall j :: 0 <= j < i ==> g[j].component == "Other")
                                 && e.component == g[i].component && e.description == g[i].description
                else e.component == g[0].component && e.description == g[0].description)
            && (if exists i :: 0 <= i < |g| && g[i].default != ""
                then exists i :: 0 <= i < |g| && g[i].default != "" && (forall j :: 0 <= j < i ==> g[j].default == "")
                                 && e.default == g[i].default
                else e.default == "")
            && (e.need == Required <==> exists x :: x in g && x.need == Required)
            && (e.sensitivity == "sensitive" <==> exists x :: x in g && x.sensitivity == "sensitive")
            && (forall s :: s in e.sources <==> exists x :: x in g && s in x.sources)
  {
    var g := Named(entries, e.name);
    FoldClosedForm(g);
    NamedMembers(entries, e.name, g[0]);
    assert g[0] in g;
    ComponentMeans(g, e);
    DefaultMeans(g, e);
  }

  lemma ComponentMeans(g: seq<Entry>, e: Entry)
    requires g != [] && ComponentFrom(g, e)
    ensures if exists i :: 0 <= i < |g| && g[i].component != "Other"
            then exists i :: 0 <= i < |g| && g[i].component != "Other" && (forall j :: 0 <= j < i ==> g[j].component == "Other")
                             && e.component == g[i].component && e.description == g[i].description
            else e.component == g[0].component && e.description == g[0].description
  {
    if i :| 0 <= i < |g| && g[i].component != "Other" {
      assert Placed(g[i]);
      var k :| IsFirst(g, k, Placed) && e.component == g[k].component && e.description == g[k].description;
      assert g[k].component != "Other" && forall j :: 0 <= j < k ==> !Placed(g[j]);
    }
  }

  lemma DefaultMeans(g: seq<Entry>, e: Entry)
    requires g != [] && DefaultFrom(g, e)
    ensures if exists i :: 0 <= i < |g| && g[i].default != ""
            then exists i :: 0 <= i < |g| && g[i].default != "" && (forall j :: 0 <= j < i ==> g[j].default == "")
                             && e.default == g[i].default
            else e.default == ""
  {
  }

  /** No name of the input is missing. */
  lemma MergeCovers(entries: seq<Entry>, out: seq<Entry>, x: Entry)
    requires IsMerge(entries, out) && x in entries
    ensures exists e :: e in out && e.name == x.name
  {
    NamedMembers(entries, x.name, x);
    var g := Named(entries, x.name);
    assert x in g;
    forall y | y in g
      ensures y.name == x.name
    {
      NamedMembers(entries, x.name, y);
    }
    FoldKeepsName(g, x.name);
    assert Fold(g) in out;
  }
}
