/**
 The depth-first walk over the secrets of a Vault mount. A path is its list of
 segments, so the string operations on slashes become operations on lists. A
 directory exists while a secret lies below it; listing a directory that does not
 exist, or that the token may not list, raises.
 */
module SecretWalk {
  type Path = seq<string>

  type Store = map<Path, string>

  /** An entry of a listing: a secret, or a directory (a name that ends in a slash). */
  datatype Entry = Entry(name: string, isDir: bool)

  ghost function Listing(store: Store, dir: Path): set<Entry> {
    set p | p in store && dir < p :: Entry(p[|dir|], |p| > |dir| + 1)
  }

  // ---------- What a walk should find ----------

  /** The directories at or below the root. */
  ghost function Dirs(store: Store, root: Path): set<Path> {
    {root} + set p, i | p in store && root < p && |root| <= i < |p| :: p[..i]
  }

  /** No directory from `from` down to but not including the path is closed to listing. */
  predicate OpenTo(denied: set<Path>, from: Path, p: Path)
    requires from <= p
  {
    forall i :: |from| <= i < |p| ==> p[..i] !in denied
  }

  /** The secrets below the root that listings lead to. */
  ghost function Visible(store: Store, denied: set<Path>, root: Path): set<Path> {
    set p | p in store && root < p && OpenTo(denied, root, p)
  }

  predicate CannotList(store: Store, denied: set<Path>, dir: Path) {
    dir in denied || forall p :: p in store ==> !(dir < p)
  }

  /** The directories the walk reaches and cannot list. */
  ghost function Blocked(store: Store, denied: set<Path>, root: Path): set<Path> {
    set d | d in Dirs(store, root) && root <= d && OpenTo(denied, root, d) && CannotList(store, denied, d)
  }

  // ---------- The walk ----------

  ghost predicate Covered(stack: seq<Path>, p: Path) {
    exists s :: s in stack && s <= p
  }

  ghost predicate CoveredBelow(stack: seq<Path>, p: Path) {
    exists s :: s in stack && s < p
  }

  ghost predicate Antichain(stack: seq<Path>) {
    forall i, j :: 0 <= i < |stack| && 0 <= j < |stack| && i != j ==> !(stack[i] <= stack[j])
  }

  ghost function DoneSecrets(store: Store, denied: set<Path>, root: Path, stack: seq<Path>): set<Path> {
    set p | p in Visible(store, denied, root) && !CoveredBelow(stack, p)
  }

  ghost function DoneBlocked(store: Store, denied: set<Path>, root: Path, stack: seq<Path>): set<Path> {
    set d | d in Blocked(store, denied, root) && !Covered(stack, d)
  }

  ghost function Ahead(store: Store, root: Path, stack: seq<Path>): set<Path> {
    set d | d in Dirs(store, root) && Covered(stack, d)
  }

  /** The walk's invariant: the stack holds reachable, unrelated directories; what they do not cover has been found. */
  ghost predicate WalkInv(store: Store, denied: set<Path>, root: Path, stack: seq<Path>, found: seq<Path>) {
    && Antichain(stack)
    && (forall s :: s in stack ==> s in Dirs(store, root) && root <= s && OpenTo(denied, root, s))
    && multiset(found) == multiset(DoneSecrets(store, denied, root, stack)) + multiset(DoneBlocked(store, denied, root, stack))
  }

  ghost function Files(current: Path, keys: seq<Entry>): seq<Path> {
    if keys == [] then []
    else Files(current, keys[..|keys| - 1]) + if keys[|keys| - 1].isDir then [] else [current + [keys[|keys| - 1].name]]
  }

  ghost function Subdirs(current: Path, keys: seq<Entry>): seq<Path> {
    if keys == [] then []
    else Subdirs(current, keys[..|keys| - 1]) + if keys[|keys| - 1].isDir then [current + [keys[|keys| - 1].name]] else []
  }

  ghost predicate NoRepeats<T>(s: seq<T>) {
    forall i, j :: 0 <= i < j < |s| ==> s[i] != s[j]
  }

  lemma {:induction false} FilesAre(current: Path, keys: seq<Entry>, p: Path)
    ensures p in Files(current, keys) <==> exists e :: e in keys && !e.isDir && p == current + [e.name]
    decreases |keys|
  {
    if keys != [] {
      var last := keys[|keys| - 1];
      FilesAre(current, keys[..|keys| - 1], p);
      assert forall e :: e in keys <==> e in keys[..|keys| - 1] || e == last;
    }
  }

  lemma {:induction false} SubdirsAre(current: Path, keys: seq<Entry>, p: Path)
    ensures p in Subdirs(current, keys) <==> exists e :: e in keys && e.isDir && p == current + [e.name]
    decreases |keys|
  {
    if keys != [] {
      var last := keys[|keys| - 1];
      SubdirsAre(current, keys[..|keys| - 1], p);
      assert forall e :: e in keys <==> e in keys[..|keys| - 1] || e == last;
    }
  }

  lemma LastSegment(current: Path, a: string, b: string)
    requires current + [a] == current + [b]
    ensures a == b
  {
    assert (current + [a])[|current|] == (current + [b])[|current|];
  }

  lemma {:induction false} FilesDistinct(current: Path, keys: seq<Entry>)
    requires NoRepeats(keys)
    ensures NoRepeats(Files(current, keys)) && NoRepeats(Subdirs(current, keys))
    ensures forall d :: d in Subdirs(current, keys) ==> |d| == |current| + 1 && current <= d
    decreases |keys|
  {
    if keys != [] {
      var before, last := keys[..|keys| - 1], keys[|keys| - 1];
      FilesDistinct(current, before);
      var p := current + [last.name];
      FilesAre(current, before, p);
      SubdirsAre(current, before, p);
      if !last.isDir && p in Files(current, before) {
        var e :| e in before && !e.isDir && p == current + [e.name];
        LastSegment(current, e.name, last.name);
        assert false;
      }
      if last.isDir && p in Subdirs(current, before) {
        var e :| e in before && e.isDir && p == current + [e.name];
        LastSegment(current, e.name, last.name);
        assert false;
      }
    }
  }

  // ---------- One step of the walk ----------

  lemma PrefixesCompare(a: Path, b: Path, c: Path)
    requires a <= c && b <= c && |a| <= |b|
    ensures a <= b
  {
  }

  /** The listed entries, as paths. */
  ghost predicate Lists(store: Store, current: Path, keys: seq<Entry>) {
    NoRepeats(keys) && forall e :: e in keys <==> e in Listing(store, current)
  }

  lemma FileIff(store: Store, current: Path, keys: seq<Entry>, f: Path)
    requires Lists(store, current, keys)
    ensures f in Files(current, keys) <==> f in store && current < f && |f| == |current| + 1
  {
    FilesAre(current, keys, f);
    if f in Files(current, keys) {
      var e :| e in keys && !e.isDir && f == current + [e.name];
      var p :| p in store && current < p && e == Entry(p[|current|], |p| > |current| + 1);
      assert p == current + [p[|current|]];
    }
    if f in store && current < f && |f| == |current| + 1 {
      var e := Entry(f[|current|], false);
      assert e in Listing(store, current) && f == current + [e.name];
    }
  }

  lemma SubdirIff(store: Store, current: Path, keys: seq<Entry>, d: Path)
    requires Lists(store, current, keys)
    ensures d in Subdirs(current, keys) <==> |d| == |current| + 1 && current < d && exists p :: p in store && d < p
  {
    SubdirsAre(current, keys, d);
    if d in Subdirs(current, keys) {
      var e :| e in keys && e.isDir && d == current + [e.name];
      var p :| p in store && current < p && e == Entry(p[|current|], |p| > |current| + 1);
      assert d == p[..|d|];
    }
    if |d| == |current| + 1 && current < d && exists p :: p in store && d < p {
      var p :| p in store && d < p;
      var e := Entry(p[|current|], true);
      assert p[|current|] == d[|current|];
      assert e in Listing(store, current) && d == current + [e.name];
    }
  }

  lemma TopIsAlone(stack: seq<Path>, current: Path, s: Path)
    requires Antichain(stack + [current]) && s in stack
    ensures !(s <= current) && !(current <= s)
  {
    var all := stack + [current];
    var i :| 0 <= i < |stack| && stack[i] == s;
    assert all[i] == s && all[|stack|] == current;
  }

  lemma AntichainDrops(stack: seq<Path>, current: Path)
    requires Antichain(stack + [current])
    ensures Antichain(stack)
  {
    assert forall i :: 0 <= i < |stack| ==> (stack + [current])[i] == stack[i];
  }

  lemma CoverSplit(stack: seq<Path>, more: seq<Path>, p: Path)
    ensures Covered(stack + more, p) <==> Covered(stack, p) || Covered(more, p)
    ensures CoveredBelow(stack + more, p) <==> CoveredBelow(stack, p) || CoveredBelow(more, p)
  {
    assert forall s :: s in stack + more <==> s in stack || s in more;
  }

  lemma CoverPush(stack: seq<Path>, current: Path, p: Path)
    ensures Covered(stack + [current], p) <==> Covered(stack, p) || current <= p
    ensures CoveredBelow(stack + [current], p) <==> CoveredBelow(stack, p) || current < p
  {
    CoverSplit(stack, [current], p);
    assert current in [current] && forall s :: s in [current] ==> s == current;
  }

  /** A directory strictly below one on the stack that cannot be listed is not reachable. */
  lemma NothingBehindBlocked(store: Store, denied: set<Path>, root: Path, current: Path, p: Path)
    requires root <= current && current < p && OpenTo(denied, root, p)
    requires p in store || (p in Dirs(store, root) && p != root)
    ensures !CannotList(store, denied, current)
  {
    assert p[..|current|] == current;
    if p !in store {
      var q, i :| q in store && root < q && |root| <= i < |q| && p == q[..i];
      assert current < q;
    }
  }

  lemma BlockedHidesNothing(store: Store, denied: set<Path>, root: Path, stack: seq<Path>, current: Path)
    requires root <= current && CannotList(store, denied, current)
    ensures DoneSecrets(store, denied, root, stack) == DoneSecrets(store, denied, root, stack + [current])
  {
    forall p | p in Visible(store, denied, root)
      ensures CoveredBelow(stack + [current], p) <==> CoveredBelow(stack, p)
    {
      CoverPush(stack, current, p);
      if current < p {
        NothingBehindBlocked(store, denied, root, current, p);
        assert false;
      }
    }
  }

  lemma BlockedIsFound(store: Store, denied: set<Path>, root: Path, stack: seq<Path>, current: Path)
    requires current in Dirs(store, root) && root <= current && OpenTo(denied, root, current) && CannotList(store, denied, current)
    requires Antichain(stack + [current])
    ensures DoneBlocked(store, denied, root, stack) == DoneBlocked(store, denied, root, stack + [current]) + {current}
    ensures current !in DoneBlocked(store, denied, root, stack + [current])
  {
    forall d | d in Blocked(store, denied, root)
      ensures Covered(stack + [current], d) <==> Covered(stack, d) || d == current
    {
      CoverPush(stack, current, d);
      if current <= d && d != current {
        NothingBehindBlocked(store, denied, root, current, d);
        assert false;
      }
    }
    if Covered(stack, current) {
      var s :| s in stack && s <= current;
      TopIsAlone(stack, current, s);
      assert false;
    }
  }

  lemma PopBlocked(store: Store, denied: set<Path>, root: Path, stack: seq<Path>, current: Path, found: seq<Path>)
    requires WalkInv(store, denied, root, stack + [current], found) && CannotList(store, denied, current)
    ensures WalkInv(store, denied, root, stack, found + [current])
  {
    assert current in stack + [current] && forall s :: s in stack ==> s in stack + [current];
    AntichainDrops(stack, current);
    BlockedHidesNothing(store, denied, root, stack, current);
    BlockedIsFound(store, denied, root, stack, current);
    var done, all := DoneBlocked(store, denied, root, stack), DoneBlocked(store, denied, root, stack + [current]);
    assert multiset(done) == multiset(all) + multiset{current};
    assert multiset(found + [current]) == multiset(found) + multiset{current};
  }

  /** After listing, the stack covers what it did, less the directory itself and the secrets directly in it. */
  lemma ListedCover(store: Store, root: Path, stack: seq<Path>, current: Path, keys: seq<Entry>, p: Path)
    requires Lists(store, current, keys) && (p in store || exists q :: q in store && p < q)
    ensures CoveredBelow(Subdirs(current, keys), p) <==> current < p && |p| > |current| + 1
    ensures Covered(Subdirs(current, keys), p) && current < p && |p| == |current| + 1 ==> exists q :: q in store && p < q
    ensures Covered(Subdirs(current, keys), p) ==> current < p
    ensures current < p && (|p| > |current| + 1 || exists q :: q in store && p < q) ==> Covered(Subdirs(current, keys), p)
  {
    if Covered(Subdirs(current, keys), p) {
      var s :| s in Subdirs(current, keys) && s <= p;
      SubdirIff(store, current, keys, s);
    }
    if CoveredBelow(Subdirs(current, keys), p) {
      var s :| s in Subdirs(current, keys) && s < p;
      SubdirIff(store, current, keys, s);
    }
    if current < p && (|p| > |current| + 1 || exists q :: q in store && p < q) {
      var s := p[..|current| + 1];
      var q :| q in store && p <= q && s < q;
      SubdirIff(store, current, keys, s);
      assert s in Subdirs(current, keys);
    }
  }

  lemma FileIsVisible(store: Store, denied: set<Path>, root: Path, stack: seq<Path>, current: Path, f: Path)
    requires f in store && current < f && |f| == |current| + 1
    requires current !in denied && root <= current && OpenTo(denied, root, current) && Antichain(stack + [current])
    ensures f in Visible(store, denied, root) && !CoveredBelow(stack, f)
  {
    assert f[..|current|] == current;
    assert forall i :: |root| <= i < |current| ==> f[..i] == current[..i];
    if CoveredBelow(stack, f) {
      var s :| s in stack && s < f;
      PrefixesCompare(s, current, f);
      TopIsAlone(stack, current, s);
      assert false;
    }
  }

  /** Listing a directory adds to what is done exactly the secrets directly in it. */
  lemma FilesBecomeFound(store: Store, denied: set<Path>, root: Path, stack: seq<Path>, current: Path, keys: seq<Entry>)
    requires Lists(store, current, keys) && current !in denied && root <= current && OpenTo(denied, root, current)
    requires Antichain(stack + [current])
    ensures forall p :: p in DoneSecrets(store, denied, root, stack + Subdirs(current, keys))
                   <==> p in Files(current, keys) || p in DoneSecrets(store, denied, root, stack + [current])
    ensures forall p :: p in Files(current, keys) ==> p !in DoneSecrets(store, denied, root, stack + [current])
  {
    forall p
      ensures p in DoneSecrets(store, denied, root, stack + Subdirs(current, keys))
         <==> p in Files(current, keys) || p in DoneSecrets(store, denied, root, stack + [current])
      ensures p in Files(current, keys) ==> p !in DoneSecrets(store, denied, root, stack + [current])
    {
      FileIff(store, current, keys, p);
      CoverSplit(stack, Subdirs(current, keys), p);
      CoverPush(stack, current, p);
      if p in Files(current, keys) {
        FileIsVisible(store, denied, root, stack, current, p);
      }
      if p in store {
        ListedCover(store, root, stack, current, keys, p);
      }
    }
  }

  lemma BlockedStay(store: Store, denied: set<Path>, root: Path, stack: seq<Path>, current: Path, keys: seq<Entry>)
    requires Lists(store, current, keys) && !CannotList(store, denied, current) && root <= current
    ensures DoneBlocked(store, denied, root, stack + Subdirs(current, keys)) == DoneBlocked(store, denied, root, stack + [current])
  {
    var subs := Subdirs(current, keys);
    forall d | d in Blocked(store, denied, root)
      ensures Covered(stack + subs, d) <==> Covered(stack + [current], d)
    {
      assert d != current;
      CoverSplit(stack, subs, d);
      CoverPush(stack, current, d);
      if d != root {
        var q, i :| q in store && root < q && |root| <= i < |q| && d == q[..i];
        assert d < q;
        ListedCover(store, root, stack, current, keys, d);
        assert Covered(subs, d) <==> current < d;
      } else {
        assert !Covered(subs, d) by {
          if Covered(subs, d) {
            var s :| s in subs && s <= d;
            SubdirIff(store, current, keys, s);
            assert false;
          }
        }
      }
    }
  }

  lemma SubdirsReachable(store: Store, denied: set<Path>, root: Path, current: Path, keys: seq<Entry>, d: Path)
    requires Lists(store, current, keys) && current !in denied && root <= current && OpenTo(denied, root, current)
    requires d in Subdirs(current, keys)
    ensures d in Dirs(store, root) && root <= d && OpenTo(denied, root, d)
  {
    SubdirIff(store, current, keys, d);
    var p :| p in store && d < p;
    assert d == p[..|d|] && d[..|current|] == current;
    assert forall i :: |root| <= i < |current| ==> d[..i] == current[..i];
  }

  lemma AntichainExtends(stack: seq<Path>, current: Path, subs: seq<Path>)
    requires Antichain(stack + [current]) && NoRepeats(subs)
    requires forall d :: d in subs ==> |d| == |current| + 1 && current <= d
    ensures Antichain(stack + subs)
  {
    var all := stack + subs;
    AntichainDrops(stack, current);
    forall i, j | 0 <= i < |all| && 0 <= j < |all| && i != j
      ensures !(all[i] <= all[j])
    {
      var a, b := all[i], all[j];
      if i >= |stack| && j >= |stack| {
        assert a == subs[i - |stack|] && b == subs[j - |stack|];
        assert a <= b ==> a == b;
      } else if i >= |stack| {
        assert a in subs && b in stack;
        TopIsAlone(stack, current, b);
        assert a <= b ==> current <= b;
      } else if j >= |stack| {
        assert b in subs && a in stack;
        TopIsAlone(stack, current, a);
        assert a <= b ==> |a| <= |current| || a == b;
        if a <= b {
          if |a| <= |current| {
            PrefixesCompare(a, current, b);
          }
          assert false;
        }
      } else {
        assert stack[i] == a && stack[j] == b;
      }
    }
  }

  lemma MultisetOfDistinct(s: seq<Path>, elems: set<Path>)
    requires NoRepeats(s) && forall p :: p in s <==> p in elems
    ensures multiset(s) == multiset(elems)
  {
    forall p
      ensures multiset(s)[p] == multiset(elems)[p]
    {
      CountDistinct(s, p);
    }
  }

  lemma {:induction false} CountDistinct(s: seq<Path>, p: Path)
    requires NoRepeats(s)
    ensures multiset(s)[p] == if p in s then 1 else 0
    decreases |s|
  {
    if s != [] {
      CountDistinct(s[1..], p);
      assert s == [s[0]] + s[1..];
    }
  }

  lemma StackStaysReachable(store: Store, denied: set<Path>, root: Path, stack: seq<Path>, current: Path, keys: seq<Entry>, found: seq<Path>)
    requires WalkInv(store, denied, root, stack + [current], found)
    requires !CannotList(store, denied, current) && Lists(store, current, keys)
    ensures Antichain(stack + Subdirs(current, keys))
    ensures forall s :: s in stack + Subdirs(current, keys) ==> s in Dirs(store, root) && root <= s && OpenTo(denied, root, s)
  {
    var subs := Subdirs(current, keys);
    assert current in stack + [current];
    FilesDistinct(current, keys);
    AntichainExtends(stack, current, subs);
    forall s | s in stack + subs
      ensures s in Dirs(store, root) && root <= s && OpenTo(denied, root, s)
    {
      if s in subs {
        SubdirsReachable(store, denied, root, current, keys, s);
      } else {
        assert s in stack + [current];
      }
    }
  }

  lemma MultisetSum(before: set<Path>, added: set<Path>, after: set<Path>)
    requires before !! added && after == before + added
    ensures multiset(after) == multiset(before) + multiset(added)
  {
  }

  lemma PopListed(store: Store, denied: set<Path>, root: Path, stack: seq<Path>, current: Path, keys: seq<Entry>, found: seq<Path>)
    requires WalkInv(store, denied, root, stack + [current], found)
    requires !CannotList(store, denied, current) && Lists(store, current, keys)
    ensures WalkInv(store, denied, root, stack + Subdirs(current, keys), found + Files(current, keys))
  {
    var subs, files := Subdirs(current, keys), Files(current, keys);
    assert current in stack + [current];
    StackStaysReachable(store, denied, root, stack, current, keys, found);
    FilesDistinct(current, keys);
    FilesBecomeFound(store, denied, root, stack, current, keys);
    BlockedStay(store, denied, root, stack, current, keys);
    var added := set f | f in files;
    MultisetOfDistinct(files, added);
    MultisetSum(DoneSecrets(store, denied, root, stack + [current]), added, DoneSecrets(store, denied, root, stack + subs));
    assert multiset(found + files) == multiset(found) + multiset(files);
  }

  /** Each step leaves fewer directories ahead. */
  lemma LessAhead(store: Store, root: Path, stack: seq<Path>, current: Path, more: seq<Path>)
    requires Antichain(stack + [current]) && current in Dirs(store, root)
    requires forall d :: d in more ==> current < d
    ensures Ahead(store, root, stack + more) < Ahead(store, root, stack + [current])
  {
    forall d | d in Ahead(store, root, stack + more)
      ensures d in Ahead(store, root, stack + [current]) && d != current
    {
      CoverSplit(stack, more, d);
      CoverPush(stack, current, d);
      if Covered(stack, d) {
        var s :| s in stack && s <= d;
        TopIsAlone(stack, current, s);
      } else {
        var s :| s in more && s <= d;
        assert current in [current] && current <= d;
      }
    }
    CoverPush(stack, current, current);
    assert current in Ahead(store, root, stack + [current]) && current !in Ahead(store, root, stack + more);
  }
}
