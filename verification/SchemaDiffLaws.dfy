/**
 What the breaking-change detector reports: nothing for documents that only gained
 members, and every type change and newly required field at a node that both
 documents have at the same place.
 */
module SchemaDiffLaws {
  import opened Options
  import opened Decimals
  import opened SchemaDiff

  // ---------- Dictionaries of pairs ----------

  ghost predicate DistinctPointers(pairs: seq<(string, Json)>) {
    forall i, j :: 0 <= i < j < |pairs| ==> pairs[i].0 != pairs[j].0
  }

  /** No two schema nodes of the document share a pointer string. */
  ghost predicate CollisionFree(doc: Json) {
    DistinctPointers(SchemaNodes(doc, "$"))
  }

  lemma {:induction false} DictComesFromPairs(pairs: seq<(string, Json)>, q: string)
    requires q in ToDict(pairs)
    ensures (q, ToDict(pairs)[q]) in pairs
    decreases |pairs|
  {
    var last := pairs[|pairs| - 1];
    if q != last.0 {
      DictComesFromPairs(pairs[..|pairs| - 1], q);
    } else {
      assert pairs[|pairs| - 1] == (q, ToDict(pairs)[q]);
    }
  }

  lemma {:induction false} DictHoldsPairs(pairs: seq<(string, Json)>, q: string, n: Json)
    requires DistinctPointers(pairs) && (q, n) in pairs
    ensures q in ToDict(pairs) && ToDict(pairs)[q] == n
    decreases |pairs|
  {
    var last := pairs[|pairs| - 1];
    if (q, n) != last {
      assert (q, n) in pairs[..|pairs| - 1];
      DictHoldsPairs(pairs[..|pairs| - 1], q, n);
    }
  }

  // ---------- Documents that only gained members ----------

  /** b is a with object members added anywhere, none of them named "type" or "required". */
  predicate Extends(a: Json, b: Json) {
    match a
    case Node(Dict, ms) =>
      && IsDict(b) && MembersExtend(ms, b.members)
      && forall k :: k in Keys(b.members) && k !in Keys(ms) ==> k != "type" && k != "required"
    case Node(List, ms) => IsList(b) && ItemsExtend(ms, b.members)
    case _ => a == b
  }

  predicate MembersExtend(ms: Members, target: Members) {
    ms.NoMembers? || (
      && ms.key in Keys(target) && Extends(ms.value, Lookup(target, ms.key).value)
      && MembersExtend(ms.rest, target))
  }

  predicate ItemsExtend(ms: Members, target: Members) {
    if ms.NoMembers? then target.NoMembers?
    else target.Member? && target.key == ms.key && Extends(ms.value, target.value) && ItemsExtend(ms.rest, target.rest)
  }

  lemma {:induction false} MemberExtends(ms: Members, target: Members, key: string)
    requires MembersExtend(ms, target) && key in Keys(ms)
    ensures key in Keys(target) && Extends(Lookup(ms, key).value, Lookup(target, key).value)
    decreases ms
  {
    if ms.key != key {
      MemberExtends(ms.rest, target, key);
    }
  }

  /** The value is an object, or an array that holds one at some depth. */
  predicate HoldsObject(j: Json) {
    j.Node? && (j.kind.Dict? || SomeHoldsObject(j.members))
  }

  predicate SomeHoldsObject(ms: Members) {
    ms.Member? && (HoldsObject(ms.value) || SomeHoldsObject(ms.rest))
  }

  /** Only objects can gain members. */
  lemma {:induction false} ObjectFreeSame(a: Json, b: Json)
    requires Extends(a, b) && !HoldsObject(a)
    ensures a == b
    decreases a
  {
    if a.Node? {
      ObjectFreeItemsSame(a.members, b.members);
    }
  }

  lemma {:induction false} ObjectFreeItemsSame(ms: Members, target: Members)
    requires ItemsExtend(ms, target) && !SomeHoldsObject(ms)
    ensures ms == target
    decreases ms
  {
    if ms.Member? {
      ObjectFreeSame(ms.value, target.value);
      ObjectFreeItemsSame(ms.rest, target.rest);
    }
  }

  lemma {:induction false} LeavesHoldNoObject(ms: Members)
    requires forall v :: v in Values(ms) ==> !v.Node?
    ensures !SomeHoldsObject(ms)
    decreases ms
  {
    if ms.Member? {
      LeavesHoldNoObject(ms.rest);
    }
  }

  /** A "type" that is a list holds no object. */
  predicate ObjectFreeType(j: Json) {
    match Get(j, "type") case Some(Node(List, ms)) => !SomeHoldsObject(ms) case _ => true
  }

  lemma ExtendedTypeSame(a: Json, b: Json)
    requires IsDict(a) && Extends(a, b) && ObjectFreeType(a)
    ensures SchemaType(a).Some? ==> SchemaType(b) == SchemaType(a)
  {
    if "type" in Keys(a.members) {
      MemberExtends(a.members, b.members, "type");
      var t, t' := Get(a, "type").value, Get(b, "type").value;
      if IsList(t) {
        ObjectFreeItemsSame(t.members, t'.members);
      }
    }
    if "$ref" in Keys(a.members) {
      MemberExtends(a.members, b.members, "$ref");
    }
  }

  lemma ExtendedRequiredSame(a: Json, b: Json)
    requires IsDict(a) && Extends(a, b) && Hashable(a)
    ensures Required(b) == Required(a)
  {
    if "required" in Keys(a.members) {
      MemberExtends(a.members, b.members, "required");
      var r, r' := Get(a, "required").value, Get(b, "required").value;
      if IsList(r) {
        LeavesHoldNoObject(r.members);
        ObjectFreeItemsSame(r.members, r'.members);
      }
    }
  }

  /** What the detector reads at a node is the same in an extension, or was absent. */
  lemma ExtendedNodeSilent(a: Json, b: Json, q: string)
    requires IsDict(a) && Extends(a, b) && ObjectFreeType(a) && Hashable(a)
    ensures Hashable(b) && NodeChanges(q, a, b) == {}
  {
    ExtendedTypeSame(a, b);
    ExtendedRequiredSame(a, b);
  }

  lemma {:induction false} BelowContains(ms: Members, pointer: string, key: string, x: (string, Json))
    requires key in Keys(ms) && x in SchemaNodes(Lookup(ms, key).value, pointer + "/" + key)
    ensures x in NodesBelow(ms, pointer)
    decreases ms
  {
    if ms.key != key {
      BelowContains(ms.rest, pointer, key, x);
    }
  }

  lemma SchemaExtends(a: Json, b: Json)
    requires IsSchema(a) && Extends(a, b)
    ensures IsSchema(b)
  {
    var k :| k in SCHEMA_KEYS && k in Keys(a.members);
    MemberExtends(a.members, b.members, k);
  }

  /** Every schema node is still there, under the same pointer, extended. */
  lemma {:induction false} NodesExtend(a: Json, b: Json, pointer: string, q: string, n: Json) returns (n': Json)
    requires Extends(a, b) && (q, n) in SchemaNodes(a, pointer)
    ensures (q, n') in SchemaNodes(b, pointer) && Extends(n, n') && IsDict(n)
    decreases a
  {
    if IsSchema(a) && (q, n) == (pointer, a) {
      SchemaExtends(a, b);
      n' := b;
    } else if a.kind.Dict? {
      n' := NodesExtendBelow(a.members, b.members, pointer, q, n);
    } else {
      n' := NodesExtendItems(a.members, b.members, pointer, q, n);
    }
  }

  lemma {:induction false} NodesExtendBelow(ms: Members, target: Members, pointer: string, q: string, n: Json) returns (n': Json)
    requires MembersExtend(ms, target) && (q, n) in NodesBelow(ms, pointer)
    ensures (q, n') in NodesBelow(target, pointer) && Extends(n, n') && IsDict(n)
    decreases ms
  {
    if (q, n) in SchemaNodes(ms.value, pointer + "/" + ms.key) {
      n' := NodesExtend(ms.value, Lookup(target, ms.key).value, pointer + "/" + ms.key, q, n);
      BelowContains(target, pointer, ms.key, (q, n'));
    } else {
      n' := NodesExtendBelow(ms.rest, target, pointer, q, n);
    }
  }

  lemma {:induction false} NodesExtendItems(ms: Members, target: Members, pointer: string, q: string, n: Json) returns (n': Json)
    requires ItemsExtend(ms, target) && (q, n) in NodesBelow(ms, pointer)
    ensures (q, n') in NodesBelow(target, pointer) && Extends(n, n') && IsDict(n)
    decreases ms
  {
    if (q, n) in SchemaNodes(ms.value, pointer + "/" + ms.key) {
      n' := NodesExtend(ms.value, target.value, pointer + "/" + ms.key, q, n);
    } else {
      n' := NodesExtendItems(ms.rest, target.rest, pointer, q, n);
    }
  }

  /** No "type" list holds an object, no "required" list an object or array, and path items are objects. */
  ghost predicate Regular(doc: Json) {
    && (forall x :: x in SchemaNodes(doc, "$") ==> ObjectFreeType(x.1) && Hashable(x.1))
    && (IsDict(Paths(doc)) ==> forall k :: k in Keys(Paths(doc).members) ==> IsDict(At(Paths(doc), k)))
  }

  lemma SharedNodesSilent(previous: Json, current: Json, q: string)
    requires Extends(previous, current) && Regular(previous) && CollisionFree(current)
    requires q in Indexed(previous) && q in Indexed(current)
    ensures var a, b := Indexed(previous)[q], Indexed(current)[q];
            Hashable(a) && Hashable(b) && NodeChanges(q, a, b) == {}
  {
    var a := Indexed(previous)[q];
    DictComesFromPairs(SchemaNodes(previous, "$"), q);
    assert (q, a).1 == a;
    var b := NodesExtend(previous, current, "$", q, a);
    DictHoldsPairs(SchemaNodes(current, "$"), q, b);
    ExtendedNodeSilent(a, b, q);
  }

  lemma PathsSilent(p: Json, c: Json)
    requires BothDicts(p, c) && MembersExtend(p.members, c.members) && forall k :: k in Keys(p.members) ==> IsDict(At(p, k))
    ensures PathChanges(p, c) == {}
    ensures forall k :: k in Keys(p.members) ==> k in Keys(c.members) && IsDict(At(c, k))
  {
    forall k | k in Keys(p.members)
      ensures k in Keys(c.members) && IsDict(At(c, k)) && Operations(At(p, k)) <= Operations(At(c, k))
    {
      MemberExtends(p.members, c.members, k);
      var a, b := At(p, k), At(c, k);
      forall m | m in Operations(a)
        ensures m in Operations(b)
      {
        MemberExtends(a.members, b.members, m);
      }
    }
  }

  /** Nothing is reported, and nothing raises. */
  ghost predicate Silent(previous: Json, current: Json) {
    !Raises(previous, current) && Changes(previous, current) == {}
  }

  /**
   Adding object members at any depth, none of them named "type" or "required", to a
   regular document is never reported, if the pointers of the result do not collide.
   */
  lemma AdditionsAreSilent(previous: Json, current: Json)
    requires IsDict(previous) && IsDict(current)
    requires Extends(previous, current) && Regular(previous) && CollisionFree(current)
    ensures Silent(previous, current)
  {
    var p, c := Paths(previous), Paths(current);
    if "paths" in Keys(previous.members) {
      MemberExtends(previous.members, current.members, "paths");
    }
    if BothDicts(p, c) {
      PathsSilent(p, c);
    }
    forall q | q in Indexed(previous) && q in Indexed(current)
      ensures Hashable(Indexed(previous)[q]) && Hashable(Indexed(current)[q])
      ensures NodeChanges(q, Indexed(previous)[q], Indexed(current)[q]) == {}
    {
      SharedNodesSilent(previous, current, q);
    }
  }

  /** A schema whose "type" lists one object. */
  function ObjectTyped(item: Members): Json {
    Node(Dict, Member("type", Node(List, Member("0", Node(Dict, item), NoMembers)), NoMembers))
  }

  lemma ObjectTypeText(item: Members)
    ensures SchemaType(ObjectTyped(item)) == Some("{" + MembersAsText(item) + "}")
  {
  }

  lemma ObjectTypedNodes(item: Members)
    requires item.NoMembers? || (item == Member("x", Str("y"), NoMembers))
    ensures WellFormed(ObjectTyped(item)) && SlashFree(ObjectTyped(item)) && IsSchema(ObjectTyped(item))
  {
    var j := ObjectTyped(item);
    assert "type" in Keys(j.members);
    assert Decimal(0) == "0";
  }

  /** A "type" list that holds an object is outside that promise: adding a member inside it is reported. */
  lemma CompositeTypeIsReported()
    ensures var a, b := ObjectTyped(NoMembers), ObjectTyped(Member("x", Str("y"), NoMembers));
            && Extends(a, b) && CollisionFree(a) && CollisionFree(b)
            && TypeChanged("$", "{}", "{x: y, }") in Changes(a, b)
  {
    var added := Member("x", Str("y"), NoMembers);
    var a, b := ObjectTyped(NoMembers), ObjectTyped(added);
    ObjectTypedNodes(NoMembers);
    ObjectTypedNodes(added);
    ObjectTypeText(NoMembers);
    ObjectTypeText(added);
    SlashFreeIsCollisionFree(a, "$");
    SlashFreeIsCollisionFree(b, "$");
    assert MembersAsText(added) == "x" + ": " + "y" + ", " + "";
    assert "{" + "" + "}" == "{}" && "{" + MembersAsText(added) + "}" == "{x: y, }";
    SharedChangesAreReported(a, b, []);
    assert TypeChanged("$", "{}", "{x: y, }") in NodeChanges("$", a, b);
  }

  function Typed(name: string): Json {
    Node(Dict, Member("type", Str(name), NoMembers))
  }

  lemma TypedIsSchema(name: string, pointer: string)
    ensures IsSchema(Typed(name)) && SchemaNodes(Typed(name), pointer) == [(pointer, Typed(name))]
    ensures SchemaType(Typed(name)) == Some(name)
  {
    assert "type" in Keys(Typed(name).members);
    OneBelow("type", Str(name), pointer);
  }

  lemma OneBelow(key: string, value: Json, pointer: string)
    ensures NodesBelow(Member(key, value, NoMembers), pointer) == SchemaNodes(value, pointer + "/" + key)
  {
    assert NodesBelow(NoMembers, pointer) == [];
  }

  /** Two documents with the same members in another order, whose nodes "a/b" and "b" in "a" share a pointer. */
  function Colliding(slashFirst: bool): Json {
    var nested := Node(Dict, Member("b", Typed("integer"), NoMembers));
    Node(Dict, if slashFirst then Member("a/b", Typed("string"), Member("a", nested, NoMembers))
               else Member("a", nested, Member("a/b", Typed("string"), NoMembers)))
  }

  lemma CollidingNodes(slashFirst: bool)
    ensures Indexed(Colliding(slashFirst)) == map["$/a/b" := if slashFirst then Typed("integer") else Typed("string")]
  {
    var nested := Node(Dict, Member("b", Typed("integer"), NoMembers));
    var doc := Colliding(slashFirst);
    assert Keys(doc.members) == {"a/b", "a"} && Keys(nested.members) == {"b"};
    TypedIsSchema("string", "$/a/b");
    TypedIsSchema("integer", "$/a/b");
    assert "$" + "/" + "a/b" == "$/a/b" && "$" + "/" + "a" + "/" + "b" == "$/a/b";
    OneBelow("b", Typed("integer"), "$" + "/" + "a");
    assert !IsSchema(nested) && SchemaNodes(nested, "$" + "/" + "a") == [] + [("$/a/b", Typed("integer"))];
    var s, i := [("$/a/b", Typed("string"))], [("$/a/b", Typed("integer"))];
    var nodes := SchemaNodes(doc, "$");
    assert nodes == if slashFirst then s + i else i + s;
    assert nodes[..1] == (if slashFirst then s else i) && nodes[..1][..0] == [];
    assert ToDict(nodes[..1]) == map["$/a/b" := nodes[0].1];
  }

  /** With colliding pointers the promise fails: reordering the members of a document is reported as a type change. */
  lemma CollisionIsReported()
    ensures Extends(Colliding(true), Colliding(false)) && Extends(Colliding(false), Colliding(true))
    ensures TypeChanged("$/a/b", "integer", "string") in Changes(Colliding(true), Colliding(false))
  {
    CollidingNodes(true);
    CollidingNodes(false);
    TypedIsSchema("string", "$/a/b");
    TypedIsSchema("integer", "$/a/b");
    var p, c := Indexed(Colliding(true)), Indexed(Colliding(false));
    assert TypeChanged("$/a/b", "integer", "string") in NodeChanges("$/a/b", p["$/a/b"], c["$/a/b"]);
    assert Keys(Colliding(true).members) == {"a/b", "a"} && Keys(Colliding(false).members) == {"a", "a/b"};
    var nested := Node(Dict, Member("b", Typed("integer"), NoMembers));
    assert Extends(Typed("string"), Typed("string")) && Extends(Typed("integer"), Typed("integer"));
    assert Extends(nested, nested);
  }

  // ---------- Pointers of slash-free documents ----------

  predicate NoSlash(s: string) {
    forall i :: 0 <= i < |s| ==> s[i] != '/'
  }

  predicate SlashFree(j: Json) {
    j.Node? ==> SlashFreeMembers(j.members)
  }

  predicate SlashFreeMembers(ms: Members) {
    ms.NoMembers? || (NoSlash(ms.key) && SlashFree(ms.value) && SlashFreeMembers(ms.rest))
  }

  /** A tail that ends a segment. */
  predicate EndsSegment(tail: string) {
    tail == "" || tail[0] == '/'
  }

  lemma SegmentUnique(k1: string, t1: string, k2: string, t2: string)
    requires NoSlash(k1) && NoSlash(k2) && EndsSegment(t1) && EndsSegment(t2) && k1 + t1 == k2 + t2
    ensures k1 == k2 && t1 == t2
  {
    var s := k1 + t1;
    assert forall i :: 0 <= i < |k1| ==> s[i] == k1[i];
    assert forall i :: 0 <= i < |k2| ==> s[i] == k2[i];
    assert k1 == s[..|k1|] && k2 == s[..|k2|] && t1 == s[|k1|..] && t2 == s[|k2|..];
  }

  /** Pointers below a value extend its own pointer by whole segments. */
  lemma {:induction false} PointersExtend(j: Json, pointer: string, x: (string, Json)) returns (tail: string)
    requires x in SchemaNodes(j, pointer)
    ensures x.0 == pointer + tail && EndsSegment(tail)
    decreases j
  {
    if IsSchema(j) && x == (pointer, j) {
      tail := "";
    } else {
      var key, rest := PointersBelow(j.members, pointer, x);
      tail := "/" + key + rest;
    }
  }

  lemma {:induction false} PointersBelow(ms: Members, pointer: string, x: (string, Json)) returns (key: string, tail: string)
    requires x in NodesBelow(ms, pointer)
    ensures key in Keys(ms) && x.0 == pointer + ("/" + key + tail) && EndsSegment(tail)
    ensures SlashFreeMembers(ms) ==> NoSlash(key)
    decreases ms
  {
    if x in SchemaNodes(ms.value, pointer + "/" + ms.key) {
      key := ms.key;
      tail := PointersExtend(ms.value, pointer + "/" + ms.key, x);
    } else {
      key, tail := PointersBelow(ms.rest, pointer, x);
    }
  }

  lemma {:induction false} IndexedKeys(ms: Members, i: nat, key: string) returns (n: nat)
    requires IndexedFrom(ms, i) && key in Keys(ms)
    ensures n >= i && key == Decimal(n)
    decreases ms
  {
    if key == ms.key {
      n := i;
    } else {
      n := IndexedKeys(ms.rest, i + 1, key);
    }
  }

  lemma {:induction false} IndexedDistinct(ms: Members, i: nat)
    requires IndexedFrom(ms, i)
    ensures DistinctKeys(ms)
    decreases ms
  {
    if ms.Member? {
      IndexedDistinct(ms.rest, i + 1);
      if ms.key in Keys(ms.rest) {
        var n := IndexedKeys(ms.rest, i + 1, ms.key);
        DecimalInjective(i, n);
        assert false;
      }
    }
  }

  lemma DistinctJoin(a: seq<(string, Json)>, b: seq<(string, Json)>)
    requires DistinctPointers(a) && DistinctPointers(b)
    requires forall x, y :: x in a && y in b ==> x.0 != y.0
    ensures DistinctPointers(a + b)
  {
  }

  /** Without slashes in keys, no two schema nodes share a pointer. */
  lemma {:induction false} SlashFreeIsCollisionFree(j: Json, pointer: string)
    requires WellFormed(j) && SlashFree(j)
    ensures DistinctPointers(SchemaNodes(j, pointer))
    decreases j
  {
    if j.Node? {
      if j.kind.List? {
        IndexedDistinct(j.members, 0);
      }
      DistinctBelow(j.members, pointer);
      var own := if IsSchema(j) then [(pointer, j)] else [];
      forall x, y | x in own && y in NodesBelow(j.members, pointer)
        ensures x.0 != y.0
      {
        var key, tail := PointersBelow(j.members, pointer, y);
        assert |y.0| > |pointer|;
      }
      DistinctJoin(own, NodesBelow(j.members, pointer));
    }
  }

  lemma {:induction false} DistinctBelow(ms: Members, pointer: string)
    requires WellFormedMembers(ms) && DistinctKeys(ms) && SlashFreeMembers(ms)
    ensures DistinctPointers(NodesBelow(ms, pointer))
    decreases ms
  {
    if ms.Member? {
      var first, rest := SchemaNodes(ms.value, pointer + "/" + ms.key), NodesBelow(ms.rest, pointer);
      SlashFreeIsCollisionFree(ms.value, pointer + "/" + ms.key);
      DistinctBelow(ms.rest, pointer);
      forall x, y | x in first && y in rest
        ensures x.0 != y.0
      {
        SiblingsDiffer(ms, pointer, x, y);
      }
      DistinctJoin(first, rest);
    }
  }

  lemma AfterHead(pointer: string, key: string, tail: string)
    ensures (pointer + "/" + key + tail)[|pointer| + 1..] == key + tail
    ensures pointer + "/" + key + tail == pointer + ("/" + key + tail)
  {
  }

  lemma SiblingsDiffer(ms: Members, pointer: string, x: (string, Json), y: (string, Json))
    requires ms.Member? && DistinctKeys(ms) && SlashFreeMembers(ms)
    requires x in SchemaNodes(ms.value, pointer + "/" + ms.key) && y in NodesBelow(ms.rest, pointer)
    ensures x.0 != y.0
  {
    var t1 := PointersExtend(ms.value, pointer + "/" + ms.key, x);
    var key, t2 := PointersBelow(ms.rest, pointer, y);
    AfterHead(pointer, ms.key, t1);
    AfterHead(pointer, key, t2);
    if x.0 == y.0 {
      SegmentUnique(ms.key, t1, key, t2);
      assert false;
    }
  }

  // ---------- Places ----------

  /** The value at a place: a list of member names from the root. */
  ghost function Reach(j: Json, path: seq<string>): Option<Json>
    decreases |path|
  {
    if path == [] then Some(j)
    else if j.Node? && path[0] in Keys(j.members) then Reach(At(j, path[0]), path[1..])
    else None
  }

  ghost function PointerFrom(pointer: string, path: seq<string>): string
    decreases |path|
  {
    if path == [] then pointer else PointerFrom(pointer + "/" + path[0], path[1..])
  }

  lemma {:induction false} ReachedIsIndexed(j: Json, pointer: string, path: seq<string>)
    requires Reach(j, path).Some? && IsSchema(Reach(j, path).value)
    ensures (PointerFrom(pointer, path), Reach(j, path).value) in SchemaNodes(j, pointer)
    decreases |path|
  {
    if path != [] {
      ReachedIsIndexed(At(j, path[0]), pointer + "/" + path[0], path[1..]);
      BelowContains(j.members, pointer, path[0], (PointerFrom(pointer, path), Reach(j, path).value));
    }
  }

  /**
   A node change is reported exactly when it is one between the nodes that its pointer is
   looked up to in the two documents.
   */
  lemma NodeReportIff(previous: Json, current: Json, x: Change)
    requires x.TypeChanged? || x.NewRequired?
    ensures var p, c := Indexed(previous), Indexed(current);
            x in Changes(previous, current) <==>
              x.pointer in p && x.pointer in c && x in NodeChanges(x.pointer, p[x.pointer], c[x.pointer])
  {
  }

  /**
   A type change between schema nodes at the same place is reported, and so is a newly
   required field, when each is the node that its pointer is looked up to.
   */
  lemma LookedUpChangesAreReported(previous: Json, current: Json, q: string)
    requires q in Indexed(previous) && q in Indexed(current)
    ensures NodeChanges(q, Indexed(previous)[q], Indexed(current)[q]) <= Changes(previous, current)
  {
    forall x | x in NodeChanges(q, Indexed(previous)[q], Indexed(current)[q])
      ensures x in Changes(previous, current)
    {
      NodeReportIff(previous, current, x);
    }
  }

  /** Without collisions that is so at every place. */
  lemma SharedChangesAreReported(previous: Json, current: Json, path: seq<string>)
    requires CollisionFree(previous) && CollisionFree(current)
    requires Reach(previous, path).Some? && IsSchema(Reach(previous, path).value)
    requires Reach(current, path).Some? && IsSchema(Reach(current, path).value)
    ensures NodeChanges(PointerFrom("$", path), Reach(previous, path).value, Reach(current, path).value) <= Changes(previous, current)
  {
    var q, a, b := PointerFrom("$", path), Reach(previous, path).value, Reach(current, path).value;
    ReachedIsIndexed(previous, "$", path);
    ReachedIsIndexed(current, "$", path);
    DictHoldsPairs(SchemaNodes(previous, "$"), q, a);
    DictHoldsPairs(SchemaNodes(current, "$"), q, b);
    LookedUpChangesAreReported(previous, current, q);
  }

  ghost predicate SlashFreePath(path: seq<string>) {
    forall i :: 0 <= i < |path| ==> NoSlash(path[i])
  }

  lemma {:induction false} LookupWellFormed(ms: Members, key: string)
    requires SlashFreeMembers(ms) && WellFormedMembers(ms) && key in Keys(ms)
    ensures NoSlash(key) && SlashFree(Lookup(ms, key).value) && WellFormed(Lookup(ms, key).value)
    decreases ms
  {
    if ms.key != key {
      LookupWellFormed(ms.rest, key);
    }
  }

  lemma {:induction false} IndexedIsReached(j: Json, pointer: string, x: (string, Json)) returns (path: seq<string>)
    requires WellFormed(j) && x in SchemaNodes(j, pointer)
    ensures PointerFrom(pointer, path) == x.0 && Reach(j, path) == Some(x.1) && IsSchema(x.1)
    decreases j
  {
    if IsSchema(j) && x == (pointer, j) {
      path := [];
    } else {
      if j.kind.List? {
        IndexedDistinct(j.members, 0);
      }
      var key, below := BelowIsReached(j.members, pointer, x);
      path := [key] + below;
      assert path[1..] == below;
    }
  }

  lemma {:induction false} BelowIsReached(ms: Members, pointer: string, x: (string, Json)) returns (key: string, path: seq<string>)
    requires WellFormedMembers(ms) && DistinctKeys(ms) && x in NodesBelow(ms, pointer)
    ensures key in Keys(ms) && PointerFrom(pointer + "/" + key, path) == x.0
    ensures Reach(Lookup(ms, key).value, path) == Some(x.1) && IsSchema(x.1)
    decreases ms
  {
    if x in SchemaNodes(ms.value, pointer + "/" + ms.key) {
      key := ms.key;
      path := IndexedIsReached(ms.value, pointer + "/" + ms.key, x);
    } else {
      key, path := BelowIsReached(ms.rest, pointer, x);
    }
  }

  lemma {:induction false} ReachedIsSlashFree(j: Json, path: seq<string>)
    requires WellFormed(j) && SlashFree(j) && Reach(j, path).Some?
    ensures SlashFreePath(path)
    decreases |path|
  {
    if path != [] {
      LookupWellFormed(j.members, path[0]);
      ReachedIsSlashFree(At(j, path[0]), path[1..]);
      assert forall i :: 1 <= i < |path| ==> path[i] == path[1..][i - 1];
    }
  }

  lemma {:induction false} PointerShape(pointer: string, path: seq<string>) returns (tail: string)
    ensures PointerFrom(pointer, path) == pointer + tail && EndsSegment(tail) && (path == [] <==> tail == "")
    decreases |path|
  {
    if path == [] {
      tail := "";
    } else {
      var more := PointerShape(pointer + "/" + path[0], path[1..]);
      tail := "/" + path[0] + more;
    }
  }

  /** Slash-free places are determined by their pointer. */
  lemma {:induction false} PointerInjective(pointer: string, a: seq<string>, b: seq<string>)
    requires SlashFreePath(a) && SlashFreePath(b) && PointerFrom(pointer, a) == PointerFrom(pointer, b)
    ensures a == b
    decreases |a|
  {
    var ta := PointerShape(pointer, a);
    var tb := PointerShape(pointer, b);
    assert (pointer + ta)[|pointer|..] == ta && (pointer + tb)[|pointer|..] == tb;
    if a != [] && b != [] {
      var ra := PointerShape(pointer + "/" + a[0], a[1..]);
      var rb := PointerShape(pointer + "/" + b[0], b[1..]);
      var head := pointer + "/";
      var whole := PointerFrom(pointer, a);
      assert whole == head + (a[0] + ra) && whole == head + (b[0] + rb);
      assert whole[|head|..] == a[0] + ra && whole[|head|..] == b[0] + rb;
      SegmentUnique(a[0], ra, b[0], rb);
      PointerInjective(pointer + "/" + a[0], a[1..], b[1..]);
    }
  }

  /** The place holds a schema node of the document. */
  ghost predicate SchemaAt(j: Json, path: seq<string>) {
    Reach(j, path).Some? && IsSchema(Reach(j, path).value)
  }

  /** Schema nodes of the two documents that share a pointer are at the same place. */
  ghost predicate PointersAgree(previous: Json, current: Json) {
    forall a, b :: SchemaAt(previous, a) && SchemaAt(current, b) && PointerFrom("$", a) == PointerFrom("$", b) ==> a == b
  }

  /** Then every node change reported is one between schema nodes at the same place. */
  lemma ReportsAreReal(previous: Json, current: Json, x: Change) returns (path: seq<string>)
    requires WellFormed(previous) && WellFormed(current) && PointersAgree(previous, current)
    requires x in Changes(previous, current) && (x.TypeChanged? || x.NewRequired?)
    ensures SchemaAt(previous, path) && SchemaAt(current, path)
    ensures x in NodeChanges(PointerFrom("$", path), Reach(previous, path).value, Reach(current, path).value)
  {
    var p, c, q := Indexed(previous), Indexed(current), x.pointer;
    NodeReportIff(previous, current, x);
    DictComesFromPairs(SchemaNodes(previous, "$"), q);
    DictComesFromPairs(SchemaNodes(current, "$"), q);
    path := IndexedIsReached(previous, "$", (q, p[q]));
    var path' := IndexedIsReached(current, "$", (q, c[q]));
    assert SchemaAt(previous, path) && SchemaAt(current, path');
  }

  /** Slash-free documents are of that kind. */
  lemma SlashFreePointersAgree(previous: Json, current: Json)
    requires WellFormed(previous) && WellFormed(current) && SlashFree(previous) && SlashFree(current)
    ensures PointersAgree(previous, current)
  {
    forall a, b | SchemaAt(previous, a) && SchemaAt(current, b) && PointerFrom("$", a) == PointerFrom("$", b)
      ensures a == b
    {
      ReachedIsSlashFree(previous, a);
      ReachedIsSlashFree(current, b);
      PointerInjective("$", a, b);
    }
  }

  // ---------- In plain terms ----------

  /** The members of "paths", if it is an object; a document without "paths" has none. */
  ghost predicate HasPaths(doc: Json, paths: Members) {
    IsDict(doc) && match Lookup(doc.members, "paths")
                   case Some(p) => p == Node(Dict, paths)
                   case None => paths == NoMembers
  }

  /** A path is reported as removed exactly when the older document has it and the newer has not. */
  lemma RemovedPathIff(previous: Json, current: Json, before: Members, after: Members, k: string)
    requires HasPaths(previous, before) && HasPaths(current, after)
    ensures RemovedPath(k) in Changes(previous, current) <==> k in Keys(before) && k !in Keys(after)
  {
  }

  /**
   An operation is reported as removed exactly when both documents have the path, and the older
   item has an object for the verb where the newer has none.
   */
  lemma RemovedOperationIff(previous: Json, current: Json, before: Members, after: Members, verb: string, k: string)
    requires HasPaths(previous, before) && HasPaths(current, after)
    ensures RemovedOperation(verb, k) in Changes(previous, current) <==>
              && k in Keys(before) && k in Keys(after)
              && verb in {"get", "put", "post", "delete", "options", "head", "patch", "trace"}
              && HasObject(Lookup(before, k).value, verb) && !HasObject(Lookup(after, k).value, verb)
  {
    if k in Keys(before) && k in Keys(after) {
      VerbsOf(Lookup(before, k).value, verb);
      VerbsOf(Lookup(after, k).value, verb);
    }
  }

  /** The value is an object with an object as that member. */
  ghost predicate HasObject(j: Json, key: string) {
    j.Node? && j.kind == Dict && key in Keys(j.members) && exists ms :: Lookup(j.members, key) == Some(Node(Dict, ms))
  }

  lemma VerbsOf(item: Json, verb: string)
    ensures verb in Operations(item) <==>
              verb in {"get", "put", "post", "delete", "options", "head", "patch", "trace"} && HasObject(item, verb)
  {
    if IsDict(item) && verb in Keys(item.members) && IsDict(Lookup(item.members, verb).value) {
      assert Lookup(item.members, verb) == Some(Node(Dict, Lookup(item.members, verb).value.members));
    }
  }

  /** A type change is reported exactly between looked-up nodes that both have a type, and different ones. */
  lemma TypeChangedIff(previous: Json, current: Json, q: string, before: string, after: string)
    ensures TypeChanged(q, before, after) in Changes(previous, current) <==>
              && q in Indexed(previous) && SchemaType(Indexed(previous)[q]) == Some(before)
              && q in Indexed(current) && SchemaType(Indexed(current)[q]) == Some(after)
              && before != after
  {
    NodeReportIff(previous, current, TypeChanged(q, before, after));
  }

  /** The member is a list with that value in it. */
  ghost predicate ListsValue(j: Json, key: string, v: Json) {
    IsDict(j) && exists ms :: Lookup(j.members, key) == Some(Node(List, ms)) && v in Values(ms)
  }

  /** A field is reported as newly required exactly when the newer looked-up node requires it and the older does not. */
  lemma NewRequiredIff(previous: Json, current: Json, q: string, field: Json)
    ensures NewRequired(q, field) in Changes(previous, current) <==>
              && q in Indexed(previous) && !ListsValue(Indexed(previous)[q], "required", field)
              && q in Indexed(current) && ListsValue(Indexed(current)[q], "required", field)
  {
    NodeReportIff(previous, current, NewRequired(q, field));
    if q in Indexed(previous) && q in Indexed(current) {
      RequiredIs(Indexed(previous)[q], field);
      RequiredIs(Indexed(current)[q], field);
    }
  }

  lemma RequiredIs(j: Json, field: Json)
    ensures field in Required(j) <==> ListsValue(j, "required", field)
  {
    if field in Required(j) {
      assert Lookup(j.members, "required") == Some(Node(List, Get(j, "required").value.members));
    }
  }

  /** The type of an object: its "type" if that is a string, or the parts of a list, or else where "$ref" points. */
  lemma SchemaTypeIs(ms: Members)
    ensures var t, ref := Lookup(ms, "type"), Lookup(ms, "$ref");
            SchemaType(Node(Dict, ms)) ==
              if t.Some? && t.value.Str? then Some(t.value.text)
              else if t.Some? && t.value.Node? && t.value.kind == List then Some(Alternatives(t.value.members))
              else if ref.Some? && ref.value.Str? then Some("ref:" + ref.value.text)
              else None
  {
  }

  /** Alternatives are joined by bars. */
  lemma AlternativesJoin(ms: Members)
    requires ms.Member? && ms.value.Str?
    ensures Alternatives(ms) == if ms.rest == NoMembers then ms.value.text else ms.value.text + "|" + Alternatives(ms.rest)
  {
  }

  /** A schema node is an object with one of eight keys. */
  lemma SchemaNodeIff(j: Json)
    requires j.Node? && j.kind == Dict
    ensures var ks := Keys(j.members);
            IsSchema(j) <==> "type" in ks || "properties" in ks || "items" in ks || "required" in ks
                             || "$ref" in ks || "allOf" in ks || "anyOf" in ks || "oneOf" in ks
  {
    var ks := Keys(j.members);
    if IsSchema(j) {
      var k :| k in SCHEMA_KEYS && k in ks;
    }
    assert "type" in SCHEMA_KEYS && "properties" in SCHEMA_KEYS && "items" in SCHEMA_KEYS && "required" in SCHEMA_KEYS;
    assert "$ref" in SCHEMA_KEYS && "allOf" in SCHEMA_KEYS && "anyOf" in SCHEMA_KEYS && "oneOf" in SCHEMA_KEYS;
  }

  /** Both documents have the path, and one has something else than an object for it. */
  ghost predicate SharedItemNoObject(before: Members, after: Members) {
    exists k :: k in Keys(before) && k in Keys(after) && !(IsDict(Lookup(before, k).value) && IsDict(Lookup(after, k).value))
  }

  ghost predicate LookedUpComposite(previous: Json, current: Json) {
    exists q :: q in Indexed(previous) && q in Indexed(current)
                && (RequiresComposite(Indexed(previous)[q]) || RequiresComposite(Indexed(current)[q]))
  }

  /** The detector raises exactly on a shared path whose item is no object, or a looked-up node that requires a composite value. */
  lemma RaisesIff(previous: Json, current: Json, before: Members, after: Members)
    requires HasPaths(previous, before) && HasPaths(current, after)
    ensures Raises(previous, current) <==> SharedItemNoObject(before, after) || LookedUpComposite(previous, current)
  {
    ItemsRaiseIff(previous, current, before, after);
    NodesRaiseIff(previous, current);
  }

  lemma NodesRaiseIff(previous: Json, current: Json)
    ensures LookedUpComposite(previous, current) <==>
      exists q :: q in Indexed(previous) && q in Indexed(current) && !(Hashable(Indexed(previous)[q]) && Hashable(Indexed(current)[q]))
  {
    if q :| q in Indexed(previous) && q in Indexed(current) && !(Hashable(Indexed(previous)[q]) && Hashable(Indexed(current)[q])) {
      HashableIff(Indexed(previous)[q]);
      HashableIff(Indexed(current)[q]);
      assert LookedUpComposite(previous, current);
    }
    if LookedUpComposite(previous, current) {
      var q :| q in Indexed(previous) && q in Indexed(current)
               && (RequiresComposite(Indexed(previous)[q]) || RequiresComposite(Indexed(current)[q]));
      HashableIff(Indexed(previous)[q]);
      HashableIff(Indexed(current)[q]);
    }
  }

  /** The "required" list holds an object or an array. */
  ghost predicate RequiresComposite(j: Json) {
    exists v :: ListsValue(j, "required", v) && v.Node?
  }

  lemma HashableIff(j: Json)
    ensures Hashable(j) <==> !RequiresComposite(j)
  {
    forall v
      ensures v in Required(j) <==> ListsValue(j, "required", v)
    {
      RequiredIs(j, v);
    }
  }

  lemma ItemsRaiseIff(previous: Json, current: Json, before: Members, after: Members)
    requires HasPaths(previous, before) && HasPaths(current, after)
    ensures BothDicts(Paths(previous), Paths(current))
    ensures SharedItemNoObject(before, after) <==>
      exists k :: k in Keys(Paths(previous).members) && k in Keys(Paths(current).members)
                  && !(IsDict(At(Paths(previous), k)) && IsDict(At(Paths(current), k)))
  {
    assert Paths(previous).members == before && Paths(current).members == after;
  }
}
