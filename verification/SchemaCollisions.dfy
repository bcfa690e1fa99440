/**
 Exactly when collisions of pointers do no harm: comparing a document with any older one
 that it extends is silent exactly when schema nodes that share a pointer read alike.
 Otherwise a reordering of its own members is reported.
 */
module SchemaCollisions {
  import opened Options
  import opened Decimals
  import opened SchemaDiff
  import opened SchemaDiffLaws
  import opened SchemaAdditions

  // ---------- A place is made the last of its pointer ----------

  function Without(ms: Members, key: string): Members {
    if ms.NoMembers? then ms
    else if ms.key == key then Without(ms.rest, key)
    else Member(ms.key, ms.value, Without(ms.rest, key))
  }

  function Replaced(ms: Members, key: string, value: Json): Members {
    if ms.NoMembers? then ms
    else Member(ms.key, if ms.key == key then value else ms.value, Replaced(ms.rest, key, value))
  }

  function Appended(ms: Members, key: string, value: Json): Members {
    if ms.NoMembers? then Member(key, value, ms) else Member(ms.key, ms.value, Appended(ms.rest, key, value))
  }

  /** The document with the members on the way to a place moved to the end of their objects. */
  function Promote(j: Json, path: seq<string>): Json
    decreases |path|
  {
    if path == [] || !j.Node? || path[0] !in Keys(j.members) then j
    else
      var below := Promote(At(j, path[0]), path[1..]);
      if j.kind.Dict? then Node(Dict, Appended(Without(j.members, path[0]), path[0], below))
      else Node(List, Replaced(j.members, path[0], below))
  }

  // ---------- Dictionaries of joined lists ----------

  lemma {:induction false} ToDictJoin(a: seq<(string, Json)>, b: seq<(string, Json)>)
    ensures ToDict(a + b) == ToDict(a) + ToDict(b)
    decreases |b|
  {
    if b == [] {
      assert a + b == a;
    } else {
      ToDictJoin(a, b[..|b| - 1]);
      assert (a + b)[..|a + b| - 1] == a + b[..|b| - 1];
    }
  }

  lemma {:induction false} NotInDict(pairs: seq<(string, Json)>, q: string)
    requires forall x :: x in pairs ==> x.0 != q
    ensures q !in ToDict(pairs)
    decreases |pairs|
  {
    if q in ToDict(pairs) {
      DictComesFromPairs(pairs, q);
      assert false;
    }
  }

  /** Looking q up in the list of pairs gives n. */
  ghost predicate Finds(pairs: seq<(string, Json)>, q: string, n: Json) {
    q in ToDict(pairs) && ToDict(pairs)[q] == n
  }

  lemma FindsBetween(a: seq<(string, Json)>, b: seq<(string, Json)>, c: seq<(string, Json)>, q: string, n: Json)
    requires Finds(b, q, n) && forall x :: x in c ==> x.0 != q
    ensures Finds(a + b + c, q, n)
  {
    ToDictJoin(a, b);
    ToDictJoin(a + b, c);
    NotInDict(c, q);
  }

  // ---------- Members of promoted documents ----------

  lemma {:induction false} AppendedNodes(ms: Members, key: string, value: Json, pointer: string)
    ensures NodesBelow(Appended(ms, key, value), pointer) == NodesBelow(ms, pointer) + SchemaNodes(value, pointer + "/" + key)
    decreases ms
  {
    if ms.NoMembers? {
      OneBelow(key, value, pointer);
      assert NodesBelow(ms, pointer) == [];
    } else {
      AppendedNodes(ms.rest, key, value, pointer);
    }
  }

  lemma {:induction false} AppendedLookup(ms: Members, key: string, value: Json, k: string)
    requires key !in Keys(ms)
    ensures Keys(Appended(ms, key, value)) == Keys(ms) + {key}
    ensures Lookup(Appended(ms, key, value), k) == if k == key then Some(value) else Lookup(ms, k)
    decreases ms
  {
    if ms.Member? {
      AppendedLookup(ms.rest, key, value, k);
    }
  }

  lemma {:induction false} WithoutLookup(ms: Members, key: string, k: string)
    ensures Keys(Without(ms, key)) == Keys(ms) - {key}
    ensures k != key ==> Lookup(Without(ms, key), k) == Lookup(ms, k)
    decreases ms
  {
    if ms.Member? {
      WithoutLookup(ms.rest, key, k);
    }
  }

  lemma {:induction false} ReplacedLookup(ms: Members, key: string, value: Json, k: string)
    ensures Keys(Replaced(ms, key, value)) == Keys(ms)
    ensures k in Keys(ms) ==> Lookup(Replaced(ms, key, value), k) == Some(if k == key then value else Lookup(ms, k).value)
    decreases ms
  {
    if ms.Member? {
      ReplacedLookup(ms.rest, key, value, k);
    }
  }

  lemma {:induction false} WithoutWellFormed(ms: Members, key: string)
    requires WellFormedMembers(ms) && DistinctKeys(ms)
    ensures WellFormedMembers(Without(ms, key)) && DistinctKeys(Without(ms, key))
    decreases ms
  {
    if ms.Member? {
      WithoutWellFormed(ms.rest, key);
      WithoutLookup(ms.rest, key, key);
    }
  }

  lemma {:induction false} AppendedWellFormed(ms: Members, key: string, value: Json)
    requires WellFormedMembers(ms) && DistinctKeys(ms) && key !in Keys(ms) && WellFormed(value)
    ensures WellFormedMembers(Appended(ms, key, value)) && DistinctKeys(Appended(ms, key, value))
    decreases ms
  {
    if ms.Member? {
      AppendedWellFormed(ms.rest, key, value);
      AppendedLookup(ms.rest, key, value, key);
    }
  }

  lemma {:induction false} ReplacedWellFormed(ms: Members, key: string, value: Json, i: nat)
    requires WellFormedMembers(ms) && IndexedFrom(ms, i) && WellFormed(value)
    ensures WellFormedMembers(Replaced(ms, key, value)) && IndexedFrom(Replaced(ms, key, value), i)
    decreases ms
  {
    if ms.Member? {
      ReplacedWellFormed(ms.rest, key, value, i + 1);
    }
  }

  lemma {:induction false} LookupIsWellFormed(ms: Members, key: string)
    requires WellFormedMembers(ms) && key in Keys(ms)
    ensures WellFormed(Lookup(ms, key).value)
    decreases ms
  {
    if ms.key != key {
      LookupIsWellFormed(ms.rest, key);
    }
  }

  // ---------- A promoted document is a reordering ----------

  lemma {:induction false} PromoteWellFormed(j: Json, path: seq<string>)
    requires WellFormed(j)
    ensures WellFormed(Promote(j, path)) && (IsDict(j) ==> IsDict(Promote(j, path)))
    decreases |path|
  {
    if path != [] && j.Node? && path[0] in Keys(j.members) {
      var key, below := path[0], Promote(At(j, path[0]), path[1..]);
      LookupIsWellFormed(j.members, key);
      PromoteWellFormed(At(j, key), path[1..]);
      if j.kind.Dict? {
        WithoutWellFormed(j.members, key);
        WithoutLookup(j.members, key, key);
        AppendedWellFormed(Without(j.members, key), key, below);
      } else {
        ReplacedWellFormed(j.members, key, below, 0);
      }
    }
  }

  lemma {:induction false} PromoteExtends(j: Json, path: seq<string>)
    requires WellFormed(j)
    ensures Extends(Promote(j, path), j)
    decreases |path|
  {
    if path == [] || !j.Node? || path[0] !in Keys(j.members) {
      ExtendsItself(j);
    } else {
      LookupIsWellFormed(j.members, path[0]);
      PromoteExtends(At(j, path[0]), path[1..]);
      PromoteWellFormed(j, path);
      if j.kind.Dict? {
        PromotedMembersExtend(j, path);
      } else {
        ReplacedItemsExtend(j.members, path[0], Promote(At(j, path[0]), path[1..]), 0);
      }
    }
  }

  lemma PromotedLookup(j: Json, path: seq<string>, k: string)
    requires IsDict(j) && path != [] && path[0] in Keys(j.members)
    ensures var ms := Promote(j, path).members;
            && Keys(ms) == Keys(j.members)
            && (k in Keys(ms) ==> Lookup(ms, k).value == if k == path[0] then Promote(At(j, k), path[1..]) else At(j, k))
  {
    WithoutLookup(j.members, path[0], k);
    AppendedLookup(Without(j.members, path[0]), path[0], Promote(At(j, path[0]), path[1..]), k);
  }

  lemma PromotedMembersExtend(j: Json, path: seq<string>)
    requires IsDict(j) && WellFormed(j) && path != [] && path[0] in Keys(j.members)
    requires Extends(Promote(At(j, path[0]), path[1..]), At(j, path[0])) && WellFormed(Promote(j, path))
    ensures Extends(Promote(j, path), j)
  {
    var ms := Promote(j, path).members;
    forall k | k in Keys(ms)
      ensures k in Keys(j.members) && Extends(Lookup(ms, k).value, Lookup(j.members, k).value)
    {
      PromotedLookup(j, path, k);
      MemberExtendsItself(j.members, k);
    }
    PromotedLookup(j, path, path[0]);
    MembersExtendIf(ms, j.members);
  }

  lemma {:induction false} ReplacedItemsExtend(ms: Members, key: string, value: Json, i: nat)
    requires WellFormedMembers(ms) && IndexedFrom(ms, i) && (key in Keys(ms) ==> Extends(value, Lookup(ms, key).value))
    ensures ItemsExtend(Replaced(ms, key, value), ms)
    decreases ms
  {
    if ms.Member? {
      ExtendsItself(ms.value);
      IndexedDistinct(ms, i);
      ReplacedItemsExtend(ms.rest, key, value, i + 1);
    }
  }

  // ---------- And its place is the last of its pointer ----------

  lemma {:induction false} PromotedIsFound(j: Json, pointer: string, path: seq<string>)
    requires WellFormed(j) && Reach(j, path).Some? && IsSchema(Reach(j, path).value)
    ensures Finds(SchemaNodes(Promote(j, path), pointer), PointerFrom(pointer, path), Reach(j, path).value)
    decreases |path|
  {
    if path == [] {
      RootIsFound(j, pointer);
    } else {
      var key, below := path[0], Promote(At(j, path[0]), path[1..]);
      LookupIsWellFormed(j.members, key);
      PromotedIsFound(At(j, key), pointer + "/" + key, path[1..]);
      var q, x := PointerFrom(pointer, path), Reach(j, path).value;
      if j.kind.Dict? {
        AppendedNodes(Without(j.members, key), key, below, pointer);
        FoundBelow(Promote(j, path), pointer, NodesBelow(Without(j.members, key), pointer),
                   SchemaNodes(below, pointer + "/" + key), [], q, x);
      } else {
        var tail := PointerShape(pointer + "/" + key, path[1..]);
        var before, after := ReplacedNodes(j.members, key, below, pointer, 0, q, tail);
        FoundBelow(Promote(j, path), pointer, before, SchemaNodes(below, pointer + "/" + key), after, q, x);
      }
    }
  }

  lemma RootIsFound(j: Json, pointer: string)
    requires IsSchema(j)
    ensures Finds(SchemaNodes(j, pointer), pointer, j)
  {
    var below := NodesBelow(j.members, pointer);
    forall x | x in below
      ensures x.0 != pointer
    {
      var key, tail := PointersBelow(j.members, pointer, x);
      assert |x.0| > |pointer|;
    }
    assert [(pointer, j)][..0] == [];
    assert Finds([(pointer, j)], pointer, j);
    FindsBetween([], [(pointer, j)], below, pointer, j);
    assert [] + [(pointer, j)] + below == SchemaNodes(j, pointer);
  }

  lemma FoundBelow(j: Json, pointer: string, before: seq<(string, Json)>, here: seq<(string, Json)>,
                   after: seq<(string, Json)>, q: string, x: Json)
    requires j.Node? && NodesBelow(j.members, pointer) == before + here + after
    requires Finds(here, q, x) && forall y :: y in after ==> y.0 != q
    ensures Finds(SchemaNodes(j, pointer), q, x)
  {
    var own := if IsSchema(j) then [(pointer, j)] else [];
    FindsBetween(own + before, here, after, q, x);
    assert own + before + here + after == own + (before + here + after);
  }

  /** Around an item of an array: the nodes of later items have other pointers, since indices hold no slash. */
  lemma {:induction false} ReplacedNodes(ms: Members, key: string, value: Json, pointer: string, i: nat, q: string, tail: string)
    returns (before: seq<(string, Json)>, after: seq<(string, Json)>)
    requires IndexedFrom(ms, i) && key in Keys(ms) && q == pointer + "/" + key + tail && EndsSegment(tail)
    ensures NodesBelow(Replaced(ms, key, value), pointer) == before + SchemaNodes(value, pointer + "/" + key) + after
    ensures forall y :: y in after ==> y.0 != q
    decreases ms
  {
    var rest := ms.rest;
    if ms.key == key {
      before := [];
      IndexedDistinct(ms, i);
      ReplacedAbsent(rest, key, value);
      after := NodesBelow(rest, pointer);
      forall y | y in after
        ensures y.0 != q
      {
        LaterItemDiffers(ms, pointer, i, y, tail);
      }
      assert [] + SchemaNodes(value, pointer + "/" + key) == SchemaNodes(value, pointer + "/" + key);
    } else {
      var b, a := ReplacedNodes(rest, key, value, pointer, i + 1, q, tail);
      before, after := SchemaNodes(ms.value, pointer + "/" + ms.key) + b, a;
      var here := SchemaNodes(value, pointer + "/" + key);
      assert SchemaNodes(ms.value, pointer + "/" + ms.key) + (b + here + a) == before + here + after;
    }
  }

  lemma {:induction false} ReplacedAbsent(ms: Members, key: string, value: Json)
    requires key !in Keys(ms)
    ensures Replaced(ms, key, value) == ms
    decreases ms
  {
    if ms.Member? {
      ReplacedAbsent(ms.rest, key, value);
    }
  }

  lemma {:induction false} IndexedNoSlash(ms: Members, i: nat, key: string)
    requires IndexedFrom(ms, i) && key in Keys(ms)
    ensures NoSlash(key)
  {
    var n := IndexedKeys(ms, i, key);
    assert forall m :: 0 <= m < |Decimal(n)| ==> IsDigit(Decimal(n)[m]);
  }

  lemma LaterItemDiffers(ms: Members, pointer: string, i: nat, y: (string, Json), tail: string)
    requires IndexedFrom(ms, i) && ms.Member? && y in NodesBelow(ms.rest, pointer) && EndsSegment(tail)
    ensures y.0 != pointer + "/" + ms.key + tail
  {
    var key, t := PointersBelow(ms.rest, pointer, y);
    IndexedDistinct(ms, i);
    IndexedNoSlash(ms, i, ms.key);
    IndexedNoSlash(ms.rest, i + 1, key);
    AfterHead(pointer, key, t);
    AfterHead(pointer, ms.key, tail);
    if y.0 == pointer + "/" + ms.key + tail {
      SegmentUnique(ms.key, tail, key, t);
      assert false;
    }
  }

  // ---------- Exactly when collisions do no harm ----------

  /** Schema nodes that share a pointer read like the one it is looked up to. */
  ghost predicate ReadsAlike(doc: Json) {
    forall x :: x in SchemaNodes(doc, "$") ==> x.0 in Indexed(doc) && NodeChanges(x.0, x.1, Indexed(doc)[x.0]) == {}
  }

  lemma {:induction false} AllLookedUp(pairs: seq<(string, Json)>, x: (string, Json))
    requires x in pairs
    ensures x.0 in ToDict(pairs)
    decreases |pairs|
  {
    if x != pairs[|pairs| - 1] {
      assert x in pairs[..|pairs| - 1];
      AllLookedUp(pairs[..|pairs| - 1], x);
    }
  }

  // An older document inherits regularity.

  lemma {:induction false} ObjectsStay(a: Json, b: Json)
    requires Extends(a, b) && HoldsObject(a)
    ensures HoldsObject(b)
    decreases a
  {
    if IsList(a) {
      ObjectsStayInItems(a.members, b.members);
    }
  }

  lemma {:induction false} ObjectsStayInItems(ms: Members, target: Members)
    requires ItemsExtend(ms, target) && SomeHoldsObject(ms)
    ensures SomeHoldsObject(target)
    decreases ms
  {
    if HoldsObject(ms.value) {
      ObjectsStay(ms.value, target.value);
    } else {
      ObjectsStayInItems(ms.rest, target.rest);
    }
  }

  lemma {:induction false} ItemsStay(ms: Members, target: Members, v: Json)
    requires ItemsExtend(ms, target) && v in Values(ms) && v.Node?
    ensures exists w :: w in Values(target) && w.Node?
    decreases ms
  {
    if v == ms.value {
      assert target.value in Values(target) && target.value.Node?;
    } else {
      ItemsStay(ms.rest, target.rest, v);
    }
  }

  lemma NodeInheritsRegularity(a: Json, b: Json)
    requires IsDict(a) && Extends(a, b) && ObjectFreeType(b) && Hashable(b)
    ensures ObjectFreeType(a) && Hashable(a)
  {
    if "type" in Keys(a.members) {
      MemberExtends(a.members, b.members, "type");
      var t := Get(a, "type").value;
      if IsList(t) && SomeHoldsObject(t.members) {
        ObjectsStayInItems(t.members, Get(b, "type").value.members);
      }
    }
    if "required" in Keys(a.members) {
      MemberExtends(a.members, b.members, "required");
      if v :| v in Required(a) && v.Node? {
        ItemsStay(Get(a, "required").value.members, Get(b, "required").value.members, v);
      }
    }
  }

  lemma RegularityIsInherited(previous: Json, current: Json)
    requires IsDict(previous) && Extends(previous, current) && Regular(current)
    ensures Regular(previous)
  {
    forall x | x in SchemaNodes(previous, "$")
      ensures ObjectFreeType(x.1) && Hashable(x.1)
    {
      var n := NodesExtend(previous, current, "$", x.0, x.1);
      assert (x.0, n).1 == n;
      NodeInheritsRegularity(x.1, n);
    }
    if "paths" in Keys(previous.members) {
      MemberExtends(previous.members, current.members, "paths");
      PathItemsInherited(Paths(previous), Paths(current));
    }
  }

  lemma PathItemsInherited(p: Json, c: Json)
    requires Extends(p, c) && (IsDict(c) ==> forall k :: k in Keys(c.members) ==> IsDict(At(c, k)))
    ensures IsDict(p) ==> forall k :: k in Keys(p.members) ==> IsDict(At(p, k))
  {
    if IsDict(p) {
      forall k | k in Keys(p.members)
        ensures IsDict(At(p, k))
      {
        MemberExtends(p.members, c.members, k);
      }
    }
  }

  /** With alike nodes a looked-up node of the older document compares silently. */
  lemma AlikeNodesSilent(previous: Json, current: Json, q: string)
    requires Extends(previous, current) && Regular(previous) && Regular(current) && ReadsAlike(current)
    requires q in Indexed(previous) && q in Indexed(current)
    ensures var a, c := Indexed(previous)[q], Indexed(current)[q];
            Hashable(a) && Hashable(c) && NodeChanges(q, a, c) == {}
  {
    var a, c := Indexed(previous)[q], Indexed(current)[q];
    DictComesFromPairs(SchemaNodes(previous, "$"), q);
    DictComesFromPairs(SchemaNodes(current, "$"), q);
    assert (q, a).1 == a && (q, c).1 == c;
    var b := NodesExtend(previous, current, "$", q, a);
    assert (q, b).0 == q && (q, b).1 == b;
    ExtendedTypeSame(a, b);
    ExtendedRequiredSame(a, b);
    NoNodeChanges(q, b, c);
  }

  lemma NoNodeChanges(q: string, a: Json, b: Json)
    ensures NodeChanges(q, a, b) == {} <==> !TypeDiffers(a, b) && Required(b) <= Required(a)
  {
    assert forall f :: f in Required(b) && f !in Required(a) ==> NewRequired(q, f) in NodeChanges(q, a, b);
    assert TypeDiffers(a, b) ==> TypeChanged(q, SchemaType(a).value, SchemaType(b).value) in NodeChanges(q, a, b);
  }

  lemma AlikeIsSilent(previous: Json, current: Json)
    requires IsDict(previous) && Extends(previous, current) && Regular(current) && ReadsAlike(current)
    ensures Silent(previous, current)
  {
    RegularityIsInherited(previous, current);
    var p, c := Paths(previous), Paths(current);
    if "paths" in Keys(previous.members) {
      MemberExtends(previous.members, current.members, "paths");
    }
    if BothDicts(p, c) {
      PathsSilent(p, c);
    }
    forall q | q in Indexed(previous) && q in Indexed(current)
      ensures Hashable(Indexed(previous)[q]) && Hashable(Indexed(current)[q])
      ensures NodeChanges(q, Indexed(previous)[q], Indexed(current)[q]) == {}
    {
      AlikeNodesSilent(previous, current, q);
    }
  }

  /** A node that reads differently from the one its pointer is looked up to: promoting it is reported. */
  lemma UnlikeShows(current: Json, x: (string, Json)) returns (previous: Json)
    requires IsDict(current) && WellFormed(current) && x in SchemaNodes(current, "$") && x.0 in Indexed(current)
    requires NodeChanges(x.0, x.1, Indexed(current)[x.0]) != {}
    ensures IsDict(previous) && WellFormed(previous) && Extends(previous, current) && !Silent(previous, current)
  {
    var path := IndexedIsReached(current, "$", x);
    previous := Promote(current, path);
    PromoteWellFormed(current, path);
    PromoteExtends(current, path);
    PromotedIsFound(current, "$", path);
    LookedUpChangesAreReported(previous, current, x.0);
  }

  /** The older documents that the promise is about. */
  ghost predicate Older(previous: Json, current: Json) {
    IsDict(previous) && WellFormed(previous) && Extends(previous, current)
  }

  /**
   For a regular document, with collisions or without: comparing it with any older document
   it extends is silent exactly when schema nodes that share a pointer read alike.
   */
  lemma CollisionsHarmlessIff(current: Json)
    requires IsDict(current) && WellFormed(current) && Regular(current)
    ensures (forall previous :: Older(previous, current) ==> Silent(previous, current)) <==> ReadsAlike(current)
  {
    if ReadsAlike(current) {
      forall previous | Older(previous, current)
        ensures Silent(previous, current)
      {
        AlikeIsSilent(previous, current);
      }
    } else {
      var x :| x in SchemaNodes(current, "$")
               && !(x.0 in Indexed(current) && NodeChanges(x.0, x.1, Indexed(current)[x.0]) == {});
      AllLookedUp(SchemaNodes(current, "$"), x);
      var previous := UnlikeShows(current, x);
      assert Older(previous, current);
    }
  }
}
