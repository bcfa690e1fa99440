/**
 The breaking-change detector for OpenAPI documents. A JSON value is a leaf or a
 node with named members; the members of an array are named by their decimal
 index, which is how the detector's pointers name them. Reported changes form a
 set: the order of the report is dropped.
 */
module SchemaDiff {
  import opened Options
  import opened Decimals

  datatype Kind = Dict | List

  datatype Json = Node(kind: Kind, members: Members) | Str(text: string) | Atom(repr: string)

  datatype Members = NoMembers | Member(key: string, value: Json, rest: Members)

  function Keys(ms: Members): set<string> {
    if ms.NoMembers? then {} else {ms.key} + Keys(ms.rest)
  }

  function Values(ms: Members): set<Json> {
    if ms.NoMembers? then {} else {ms.value} + Values(ms.rest)
  }

  function Lookup(ms: Members, key: string): (v: Option<Json>)
    ensures v.Some? <==> key in Keys(ms)
  {
    if ms.NoMembers? then None else if ms.key == key then Some(ms.value) else Lookup(ms.rest, key)
  }

  /** The member of an object; an array or a leaf has none. */
  function Get(j: Json, key: string): Option<Json> {
    if j.Node? && j.kind.Dict? then Lookup(j.members, key) else None
  }

  predicate IsDict(j: Json) {
    j.Node? && j.kind.Dict?
  }

  predicate IsList(j: Json) {
    j.Node? && j.kind.List?
  }

  /** Object keys are distinct; array members are named 0, 1, 2, ... */
  predicate WellFormed(j: Json) {
    match j
    case Node(Dict, ms) => WellFormedMembers(ms) && DistinctKeys(ms)
    case Node(List, ms) => WellFormedMembers(ms) && IndexedFrom(ms, 0)
    case _ => true
  }

  predicate WellFormedMembers(ms: Members) {
    ms.NoMembers? || (WellFormed(ms.value) && WellFormedMembers(ms.rest))
  }

  predicate DistinctKeys(ms: Members) {
    ms.NoMembers? || (ms.key !in Keys(ms.rest) && DistinctKeys(ms.rest))
  }

  predicate IndexedFrom(ms: Members, i: nat) {
    ms.NoMembers? || (ms.key == Decimal(i) && IndexedFrom(ms.rest, i + 1))
  }

  // ---------- Schema nodes ----------

  const SCHEMA_KEYS := {"type", "properties", "items", "required", "$ref", "allOf", "anyOf", "oneOf"}

  predicate IsSchema(j: Json) {
    IsDict(j) && exists k :: k in SCHEMA_KEYS && k in Keys(j.members)
  }

  /** Every schema node below a value, each with its pointer, in document order. */
  function SchemaNodes(j: Json, pointer: string): seq<(string, Json)> {
    if !j.Node? then []
    else (if IsSchema(j) then [(pointer, j)] else []) + NodesBelow(j.members, pointer)
  }

  function NodesBelow(ms: Members, pointer: string): seq<(string, Json)> {
    if ms.NoMembers? then []
    else SchemaNodes(ms.value, pointer + "/" + ms.key) + NodesBelow(ms.rest, pointer)
  }

  /** A dictionary built from pairs: for a repeated key the last pair wins. */
  function ToDict(pairs: seq<(string, Json)>): map<string, Json> {
    if pairs == [] then map[] else ToDict(pairs[..|pairs| - 1])[pairs[|pairs| - 1].0 := pairs[|pairs| - 1].1]
  }

  function Indexed(j: Json): map<string, Json> {
    ToDict(SchemaNodes(j, "$"))
  }

  // ---------- Types and required fields ----------

  /** How a value reads as text; composite values get a rendering of their members. */
  function AsText(j: Json): string {
    match j
    case Str(s) => s
    case Atom(r) => r
    case Node(kind, ms) => (if kind.Dict? then "{" else "[") + MembersAsText(ms) + (if kind.Dict? then "}" else "]")
  }

  function MembersAsText(ms: Members): string {
    if ms.NoMembers? then "" else ms.key + ": " + AsText(ms.value) + ", " + MembersAsText(ms.rest)
  }

  function Alternatives(ms: Members): string {
    if ms.NoMembers? then ""
    else if ms.rest.NoMembers? then AsText(ms.value)
    else AsText(ms.value) + "|" + Alternatives(ms.rest)
  }

  function SchemaType(j: Json): Option<string> {
    match Get(j, "type")
    case Some(Node(List, ms)) => Some(Alternatives(ms))
    case Some(Str(s)) => Some(s)
    case _ =>
      match Get(j, "$ref")
      case Some(Str(r)) => Some("ref:" + r)
      case _ => None
  }

  function Required(j: Json): set<Json> {
    match Get(j, "required")
    case Some(Node(List, ms)) => Values(ms)
    case _ => {}
  }

  /** Putting an object or an array into a Python set raises. */
  predicate Hashable(j: Json) {
    forall v :: v in Required(j) ==> !v.Node?
  }

  // ---------- The detector ----------

  datatype Change =
    | RemovedPath(path: string)
    | RemovedOperation(verb: string, path: string)
    | TypeChanged(pointer: string, before: string, after: string)
    | NewRequired(pointer: string, field: Json)

  const HTTP_METHODS := {"get", "put", "post", "delete", "options", "head", "patch", "trace"}

  /** The value of "paths"; a document without one counts as having an empty object. */
  function Paths(doc: Json): Json {
    match Get(doc, "paths") case Some(p) => p case None => Node(Dict, NoMembers)
  }

  function Operations(item: Json): set<string> {
    if IsDict(item) then set k | k in HTTP_METHODS && k in Keys(item.members) && IsDict(Lookup(item.members, k).value) else {}
  }

  function At(j: Json, key: string): Json
    requires j.Node? && key in Keys(j.members)
  {
    Lookup(j.members, key).value
  }

  predicate BothDicts(p: Json, c: Json) {
    IsDict(p) && IsDict(c)
  }

  function PathChanges(p: Json, c: Json): set<Change>
    requires BothDicts(p, c)
  {
    (set k | k in Keys(p.members) && k !in Keys(c.members) :: RemovedPath(k))
    + (set k, m | k in Keys(p.members) && k in Keys(c.members) && m in HTTP_METHODS
                  && m in Operations(At(p, k)) && m !in Operations(At(c, k)) :: RemovedOperation(m, k))
  }

  predicate TypeDiffers(a: Json, b: Json) {
    SchemaType(a).Some? && SchemaType(b).Some? && SchemaType(a) != SchemaType(b)
  }

  function NodeChanges(pointer: string, a: Json, b: Json): set<Change> {
    (if TypeDiffers(a, b) then {TypeChanged(pointer, SchemaType(a).value, SchemaType(b).value)} else {})
    + (set f | f in Required(b) && f !in Required(a) :: NewRequired(pointer, f))
  }

  function SharedNodeChanges(p: map<string, Json>, c: map<string, Json>): set<Change> {
    set q, x | q in p && q in c && x in NodeChanges(q, p[q], c[q]) :: x
  }

  function Changes(previous: Json, current: Json): set<Change> {
    (if BothDicts(Paths(previous), Paths(current)) then PathChanges(Paths(previous), Paths(current)) else {})
    + SharedNodeChanges(Indexed(previous), Indexed(current))
  }

  /** A path item that is not an object, or a required list with an object or array in it, makes the detector raise. */
  ghost predicate Raises(previous: Json, current: Json) {
    || (BothDicts(Paths(previous), Paths(current))
        && exists k :: k in Keys(Paths(previous).members) && k in Keys(Paths(current).members)
                       && !(IsDict(At(Paths(previous), k)) && IsDict(At(Paths(current), k))))
    || (exists q :: q in Indexed(previous) && q in Indexed(current)
                    && !(Hashable(Indexed(previous)[q]) && Hashable(Indexed(current)[q])))
  }

  method ComparePaths(p: Json, c: Json) returns (r: Option<set<Change>>)
    requires BothDicts(p, c)
    ensures r.None? <==> exists k :: k in Keys(p.members) && k in Keys(c.members) && !(IsDict(At(p, k)) && IsDict(At(c, k)))
    ensures r.Some? ==> r.value == PathChanges(p, c)
  {
    var removed := set k | k in Keys(p.members) && k !in Keys(c.members) :: RemovedPath(k);
    var operations: set<Change> := {};
    var shared := Keys(p.members) * Keys(c.members);
    var pending := shared;
    while pending != {}
      invariant pending <= shared
      invariant forall k :: k in shared - pending ==> IsDict(At(p, k)) && IsDict(At(c, k))
      invariant operations == set k, m | k in shared && k !in pending && m in HTTP_METHODS
                                         && m in Operations(At(p, k)) && m !in Operations(At(c, k)) :: RemovedOperation(m, k)
      decreases pending
    {
      var k :| k in pending;
      if !IsDict(At(p, k)) || !IsDict(At(c, k)) {
        return None;
      }
      operations := operations + set m | m in Operations(At(p, k)) - Operations(At(c, k)) :: RemovedOperation(m, k);
      pending := pending - {k};
    }
    return Some(removed + operations);
  }

  method CompareNodes(p: map<string, Json>, c: map<string, Json>) returns (r: Option<set<Change>>)
    ensures r.None? <==> exists q :: q in p && q in c && !(Hashable(p[q]) && Hashable(c[q]))
    ensures r.Some? ==> r.value == SharedNodeChanges(p, c)
  {
    var changes: set<Change> := {};
    var shared := p.Keys * c.Keys;
    var pending := shared;
    while pending != {}
      invariant pending <= shared
      invariant forall q :: q in shared - pending ==> Hashable(p[q]) && Hashable(c[q])
      invariant changes == set q, x | q in shared && q !in pending && x in NodeChanges(q, p[q], c[q]) :: x
      decreases pending
    {
      var q :| q in pending;
      if !Hashable(p[q]) || !Hashable(c[q]) {
        return None;
      }
      changes := changes + NodeChanges(q, p[q], c[q]);
      pending := pending - {q};
    }
    return Some(changes);
  }

  method DetectBreakingChanges(previous: Json, current: Json) returns (r: Option<set<Change>>)
    requires IsDict(previous) && IsDict(current)
    ensures r.None? <==> Raises(previous, current)
    ensures r.Some? ==> r.value == Changes(previous, current)
  {
    var changes: set<Change> := {};
    var p, c := Paths(previous), Paths(current);
    if BothDicts(p, c) {
      var found := ComparePaths(p, c);
      if found.None? {
        return None;
      }
      changes := found.value;
    }
    var found := CompareNodes(Indexed(previous), Indexed(current));
    if found.None? {
      return None;
    }
    return Some(changes + found.value);
  }
}
