/**
 Exactly when additions are silent, for documents whose pointers do not collide: when the
 older one is regular. For an irregular one an extension that is reported, or that raises,
 is constructed: the document itself, or one in which every object gains a member.
 */
module SchemaAdditions {
  import opened Options
  import opened SchemaDiff
  import opened SchemaDiffLaws

  // ---------- Extension without change ----------

  /** Members extend when each does on its own. */
  lemma {:induction false} MembersExtendIf(ms: Members, target: Members)
    requires DistinctKeys(ms)
    requires forall k :: k in Keys(ms) ==> k in Keys(target) && Extends(Lookup(ms, k).value, Lookup(target, k).value)
    ensures MembersExtend(ms, target)
    decreases ms
  {
    if ms.Member? {
      assert Lookup(ms, ms.key) == Some(ms.value);
      forall k | k in Keys(ms.rest)
        ensures k in Keys(target) && Extends(Lookup(ms.rest, k).value, Lookup(target, k).value)
      {
        assert k in Keys(ms) && Lookup(ms, k) == Lookup(ms.rest, k);
      }
      MembersExtendIf(ms.rest, target);
    }
  }

  lemma {:induction false} ExtendsItself(j: Json)
    requires WellFormed(j)
    ensures Extends(j, j)
    decreases j
  {
    if IsDict(j) {
      forall k | k in Keys(j.members)
        ensures Extends(Lookup(j.members, k).value, Lookup(j.members, k).value)
      {
        MemberExtendsItself(j.members, k);
      }
      MembersExtendIf(j.members, j.members);
    } else if IsList(j) {
      ItemsExtendThemselves(j.members);
    }
  }

  lemma {:induction false} MemberExtendsItself(ms: Members, k: string)
    requires WellFormedMembers(ms) && k in Keys(ms)
    ensures Extends(Lookup(ms, k).value, Lookup(ms, k).value)
    decreases ms
  {
    if k == ms.key {
      ExtendsItself(ms.value);
    } else {
      MemberExtendsItself(ms.rest, k);
    }
  }

  lemma {:induction false} ItemsExtendThemselves(ms: Members)
    requires WellFormedMembers(ms)
    ensures ItemsExtend(ms, ms)
    decreases ms
  {
    if ms.Member? {
      ExtendsItself(ms.value);
      ItemsExtendThemselves(ms.rest);
    }
  }

  // ---------- Every object gains a member ----------

  function Grow(j: Json, key: string): Json {
    match j
    case Node(Dict, ms) => Node(Dict, Member(key, Str(""), GrowAll(ms, key)))
    case Node(List, ms) => Node(List, GrowAll(ms, key))
    case _ => j
  }

  function GrowAll(ms: Members, key: string): Members {
    if ms.NoMembers? then ms else Member(ms.key, Grow(ms.value, key), GrowAll(ms.rest, key))
  }

  /** No object or array in the value has a member of that name. */
  predicate FreshIn(key: string, j: Json) {
    j.Node? ==> key !in Keys(j.members) && FreshInAll(key, j.members)
  }

  predicate FreshInAll(key: string, ms: Members) {
    ms.NoMembers? || (FreshIn(key, ms.value) && FreshInAll(key, ms.rest))
  }

  lemma {:induction false} GrowKeys(ms: Members, key: string)
    ensures Keys(GrowAll(ms, key)) == Keys(ms)
    decreases ms
  {
    if ms.Member? {
      GrowKeys(ms.rest, key);
    }
  }

  lemma {:induction false} GrowLookup(ms: Members, key: string, k: string)
    requires k in Keys(ms)
    ensures Lookup(GrowAll(ms, key), k) == Some(Grow(Lookup(ms, k).value, key))
    decreases ms
  {
    if k != ms.key {
      GrowLookup(ms.rest, key, k);
    }
  }

  lemma {:induction false} GrowWellFormed(j: Json, key: string)
    requires WellFormed(j) && FreshIn(key, j)
    ensures WellFormed(Grow(j, key))
    decreases j
  {
    if j.Node? {
      GrowAllWellFormed(j.members, key);
      GrowKeys(j.members, key);
      if j.kind.Dict? {
        GrowDistinct(j.members, key);
      } else {
        GrowIndexed(j.members, key, 0);
      }
    }
  }

  lemma {:induction false} GrowAllWellFormed(ms: Members, key: string)
    requires WellFormedMembers(ms) && FreshInAll(key, ms)
    ensures WellFormedMembers(GrowAll(ms, key))
    decreases ms
  {
    if ms.Member? {
      GrowWellFormed(ms.value, key);
      GrowAllWellFormed(ms.rest, key);
    }
  }

  lemma {:induction false} GrowDistinct(ms: Members, key: string)
    requires DistinctKeys(ms)
    ensures DistinctKeys(GrowAll(ms, key))
    decreases ms
  {
    if ms.Member? {
      GrowKeys(ms.rest, key);
      GrowDistinct(ms.rest, key);
    }
  }

  lemma {:induction false} GrowIndexed(ms: Members, key: string, i: nat)
    requires IndexedFrom(ms, i)
    ensures IndexedFrom(GrowAll(ms, key), i)
    decreases ms
  {
    if ms.Member? {
      GrowIndexed(ms.rest, key, i + 1);
    }
  }

  lemma {:induction false} GrowExtends(j: Json, key: string)
    requires WellFormed(j) && FreshIn(key, j) && key != "type" && key != "required"
    ensures Extends(j, Grow(j, key))
    decreases j
  {
    if IsDict(j) {
      var grown := Grow(j, key).members;
      GrowKeys(j.members, key);
      forall k | k in Keys(j.members)
        ensures k in Keys(grown) && Extends(Lookup(j.members, k).value, Lookup(grown, k).value)
      {
        GrowLookup(j.members, key, k);
        GrowMemberExtends(j.members, key, k);
      }
      MembersExtendIf(j.members, grown);
    } else if IsList(j) {
      GrowItemsExtend(j.members, key);
    }
  }

  lemma {:induction false} GrowMemberExtends(ms: Members, key: string, k: string)
    requires WellFormedMembers(ms) && FreshInAll(key, ms) && key != "type" && key != "required" && k in Keys(ms)
    ensures Extends(Lookup(ms, k).value, Grow(Lookup(ms, k).value, key))
    decreases ms
  {
    if k == ms.key {
      GrowExtends(ms.value, key);
    } else {
      GrowMemberExtends(ms.rest, key, k);
    }
  }

  lemma {:induction false} GrowItemsExtend(ms: Members, key: string)
    requires WellFormedMembers(ms) && FreshInAll(key, ms) && key != "type" && key != "required"
    ensures ItemsExtend(ms, GrowAll(ms, key))
    decreases ms
  {
    if ms.Member? {
      GrowExtends(ms.value, key);
      GrowItemsExtend(ms.rest, key);
    }
  }

  // ---------- Pointers stay ----------

  function GrowPairs(pairs: seq<(string, Json)>, key: string): (grown: seq<(string, Json)>)
    ensures |grown| == |pairs|
    ensures forall i :: 0 <= i < |pairs| ==> grown[i] == (pairs[i].0, Grow(pairs[i].1, key))
  {
    seq(|pairs|, i requires 0 <= i < |pairs| => (pairs[i].0, Grow(pairs[i].1, key)))
  }

  lemma GrowPairsJoin(a: seq<(string, Json)>, b: seq<(string, Json)>, key: string)
    ensures GrowPairs(a + b, key) == GrowPairs(a, key) + GrowPairs(b, key)
  {
  }

  lemma GrowKeepsSchema(j: Json, key: string)
    requires key !in SCHEMA_KEYS
    ensures IsSchema(Grow(j, key)) == IsSchema(j)
  {
    if IsDict(j) {
      GrowKeys(j.members, key);
    }
  }

  lemma {:induction false} GrowNodes(j: Json, key: string, pointer: string)
    requires key !in SCHEMA_KEYS
    ensures SchemaNodes(Grow(j, key), pointer) == GrowPairs(SchemaNodes(j, pointer), key)
    decreases j
  {
    if j.Node? {
      GrowKeepsSchema(j, key);
      GrowNodesBelow(j.members, key, pointer);
      var own := if IsSchema(j) then [(pointer, j)] else [];
      GrowPairsJoin(own, NodesBelow(j.members, pointer), key);
      assert GrowPairs(own, key) == if IsSchema(j) then [(pointer, Grow(j, key))] else [];
      GrownBelow(j, key, pointer);
    }
  }

  lemma GrownBelow(j: Json, key: string, pointer: string)
    requires j.Node?
    ensures NodesBelow(Grow(j, key).members, pointer) == NodesBelow(GrowAll(j.members, key), pointer)
  {
    if j.kind.Dict? {
      var rest := NodesBelow(GrowAll(j.members, key), pointer);
      assert SchemaNodes(Str(""), pointer + "/" + key) + rest == rest;
    }
  }

  lemma {:induction false} GrowNodesBelow(ms: Members, key: string, pointer: string)
    requires key !in SCHEMA_KEYS
    ensures NodesBelow(GrowAll(ms, key), pointer) == GrowPairs(NodesBelow(ms, pointer), key)
    decreases ms
  {
    if ms.Member? {
      GrowNodes(ms.value, key, pointer + "/" + ms.key);
      GrowNodesBelow(ms.rest, key, pointer);
      GrowPairsJoin(SchemaNodes(ms.value, pointer + "/" + ms.key), NodesBelow(ms.rest, pointer), key);
    }
  }

  // ---------- Printed objects grow ----------

  lemma {:induction false} TextGrows(j: Json, key: string)
    ensures |AsText(Grow(j, key))| >= |AsText(j)|
    ensures HoldsObject(j) ==> |AsText(Grow(j, key))| > |AsText(j)|
    decreases j
  {
    if j.Node? {
      MembersTextGrows(j.members, key);
    }
  }

  lemma {:induction false} MembersTextGrows(ms: Members, key: string)
    ensures |MembersAsText(GrowAll(ms, key))| >= |MembersAsText(ms)|
    ensures SomeHoldsObject(ms) ==> |MembersAsText(GrowAll(ms, key))| > |MembersAsText(ms)|
    decreases ms
  {
    if ms.Member? {
      TextGrows(ms.value, key);
      MembersTextGrows(ms.rest, key);
    }
  }

  lemma {:induction false} AlternativesGrow(ms: Members, key: string)
    ensures |Alternatives(GrowAll(ms, key))| >= |Alternatives(ms)|
    ensures SomeHoldsObject(ms) ==> |Alternatives(GrowAll(ms, key))| > |Alternatives(ms)|
    decreases ms
  {
    if ms.Member? {
      TextGrows(ms.value, key);
      AlternativesGrow(ms.rest, key);
    }
  }

  /** A schema node whose "type" list holds an object reads differently once objects have grown. */
  lemma ObjectTypeGrows(j: Json, key: string)
    requires IsDict(j) && !ObjectFreeType(j) && key != "type"
    ensures TypeDiffers(j, Grow(j, key))
  {
    var ms := Get(j, "type").value.members;
    GrowLookup(j.members, key, "type");
    AlternativesGrow(ms, key);
  }

  // ---------- A key that is nowhere ----------

  function Max(a: nat, b: nat): nat {
    if a < b then b else a
  }

  function LongestKey(j: Json): nat {
    if j.Node? then LongestOf(j.members) else 0
  }

  function LongestOf(ms: Members): nat {
    if ms.NoMembers? then 0 else Max(|ms.key|, Max(LongestKey(ms.value), LongestOf(ms.rest)))
  }

  function Pluses(n: nat): (s: string)
    ensures |s| == n && forall i :: 0 <= i < n ==> s[i] == '+'
  {
    seq(n, _ => '+')
  }

  lemma {:induction false} LongIsFresh(j: Json, key: string)
    requires |key| > LongestKey(j)
    ensures FreshIn(key, j)
    decreases j
  {
    if j.Node? {
      LongIsFreshInAll(j.members, key);
    }
  }

  lemma {:induction false} LongIsFreshInAll(ms: Members, key: string)
    requires |key| > LongestOf(ms)
    ensures key !in Keys(ms) && FreshInAll(key, ms)
    decreases ms
  {
    if ms.Member? {
      LongIsFresh(ms.value, key);
      LongIsFreshInAll(ms.rest, key);
    }
  }

  lemma PlusesAreNoKeyword(n: nat)
    requires n >= 1
    ensures Pluses(n) !in SCHEMA_KEYS && Pluses(n) != "type" && Pluses(n) != "required"
  {
    assert Pluses(n)[0] == '+';
    assert forall k :: k in SCHEMA_KEYS ==> k[0] != '+';
  }

  // ---------- Without collisions: exactly the regular documents ----------

  /** A schema node with an object in its "type" list: growing every object is reported. */
  lemma ObjectTypeShows(previous: Json, x: (string, Json)) returns (current: Json)
    requires IsDict(previous) && WellFormed(previous) && CollisionFree(previous)
    requires x in SchemaNodes(previous, "$") && IsDict(x.1) && !ObjectFreeType(x.1)
    ensures IsDict(current) && WellFormed(current) && CollisionFree(current) && Extends(previous, current)
    ensures !Silent(previous, current)
  {
    var key := Pluses(LongestKey(previous) + 1);
    current := Grow(previous, key);
    LongIsFresh(previous, key);
    PlusesAreNoKeyword(LongestKey(previous) + 1);
    GrowWellFormed(previous, key);
    GrowExtends(previous, key);
    GrowNodes(previous, key, "$");
    GrownNodeIsLookedUp(previous, key, x);
    ObjectTypeGrows(x.1, key);
    LookedUpChangesAreReported(previous, current, x.0);
    assert TypeChanged(x.0, SchemaType(x.1).value, SchemaType(Grow(x.1, key)).value) in NodeChanges(x.0, x.1, Grow(x.1, key));
  }

  lemma GrownNodeIsLookedUp(previous: Json, key: string, x: (string, Json))
    requires CollisionFree(previous) && x in SchemaNodes(previous, "$")
    requires SchemaNodes(Grow(previous, key), "$") == GrowPairs(SchemaNodes(previous, "$"), key)
    ensures CollisionFree(Grow(previous, key))
    ensures x.0 in Indexed(previous) && Indexed(previous)[x.0] == x.1
    ensures x.0 in Indexed(Grow(previous, key)) && Indexed(Grow(previous, key))[x.0] == Grow(x.1, key)
  {
    var pairs := SchemaNodes(previous, "$");
    var i :| 0 <= i < |pairs| && pairs[i] == x;
    assert GrowPairs(pairs, key)[i] == (x.0, Grow(x.1, key));
    DictHoldsPairs(pairs, x.0, x.1);
    DictHoldsPairs(GrowPairs(pairs, key), x.0, Grow(x.1, key));
  }

  /** A document that is not regular otherwise raises when it is compared with itself. */
  lemma IrregularRaises(doc: Json, x: (string, Json))
    requires CollisionFree(doc) && x in SchemaNodes(doc, "$") && !Hashable(x.1)
    ensures Raises(doc, doc)
  {
    DictHoldsPairs(SchemaNodes(doc, "$"), x.0, x.1);
    assert x.0 in Indexed(doc) && !Hashable(Indexed(doc)[x.0]);
  }

  lemma {:induction false} NodesAreDicts(j: Json, pointer: string, x: (string, Json))
    requires x in SchemaNodes(j, pointer)
    ensures IsDict(x.1)
    decreases j
  {
    if !(IsSchema(j) && x == (pointer, j)) {
      NodesBelowAreDicts(j.members, pointer, x);
    }
  }

  lemma {:induction false} NodesBelowAreDicts(ms: Members, pointer: string, x: (string, Json))
    requires x in NodesBelow(ms, pointer)
    ensures IsDict(x.1)
    decreases ms
  {
    if x in SchemaNodes(ms.value, pointer + "/" + ms.key) {
      NodesAreDicts(ms.value, pointer + "/" + ms.key, x);
    } else {
      NodesBelowAreDicts(ms.rest, pointer, x);
    }
  }

  /** An irregular document has an extension that is reported, or raises. */
  lemma IrregularShows(previous: Json) returns (current: Json)
    requires IsDict(previous) && WellFormed(previous) && CollisionFree(previous) && !Regular(previous)
    ensures IsDict(current) && WellFormed(current) && CollisionFree(current) && Extends(previous, current)
    ensures !Silent(previous, current)
  {
    if x :| x in SchemaNodes(previous, "$") && !ObjectFreeType(x.1) {
      NodesAreDicts(previous, "$", x);
      current := ObjectTypeShows(previous, x);
    } else {
      current := previous;
      ExtendsItself(previous);
      if x :| x in SchemaNodes(previous, "$") && !Hashable(x.1) {
        IrregularRaises(previous, x);
      }
    }
  }

  /** The extensions that the promise is about. */
  ghost predicate CleanExtension(previous: Json, current: Json) {
    IsDict(current) && WellFormed(current) && CollisionFree(current) && Extends(previous, current)
  }

  /**
   For a document whose pointers do not collide: every extension of that kind is silent
   exactly when the document is regular.
   */
  lemma AdditionsSilentIff(previous: Json)
    requires IsDict(previous) && WellFormed(previous) && CollisionFree(previous)
    ensures (forall current :: CleanExtension(previous, current) ==> Silent(previous, current)) <==> Regular(previous)
  {
    if Regular(previous) {
      forall current | CleanExtension(previous, current)
        ensures Silent(previous, current)
      {
        AdditionsAreSilent(previous, current);
      }
    } else {
      var current := IrregularShows(previous);
      assert CleanExtension(previous, current);
    }
  }
}
