/**
 The migration of legacy Vault secrets to the default tenant: a walk, then a copy
 of every eligible secret. Nothing else writes meanwhile; at some paths reading a
 copy back may still disagree with what was written, and then the run stops.
 */
module SecretMigration {
  import opened Options
  import opened SecretWalk

  // ---------- The copy ----------

  /** The path relative to the root; a path that is not below the root is kept whole. */
  function Relative(root: Path, p: Path): Path {
    if root < p then p[|root|..] else p
  }

  /** At least a domain and a resource, outside the tenants' own and the platform's own domains. */
  predicate Eligible(root: Path, p: Path) {
    var r := Relative(root, p);
    |r| >= 2 && r[0] != "" && r[0] != "tenants" && r[0] != "_platform"
  }

  function Target(root: Path, p: Path): Path {
    root + ["tenants", "default"] + Relative(root, p)
  }

  /** The path that a target was copied from. */
  function SourceOf(root: Path, q: Path): Path {
    if |q| >= |root| + 2 then root + q[|root| + 2..] else q
  }

  lemma TargetInverts(root: Path, p: Path)
    requires root < p
    ensures SourceOf(root, Target(root, p)) == p
    ensures root < Target(root, p) && !Eligible(root, Target(root, p))
  {
    var t := Target(root, p);
    assert t[|root| + 2..] == p[|root|..];
    assert t[..|root|] == root && Relative(root, t)[0] == "tenants";
  }

  lemma TargetsDiffer(root: Path, p: Path, q: Path)
    requires root < p && root < q && Target(root, p) == Target(root, q)
    ensures p == q
  {
    TargetInverts(root, p);
    TargetInverts(root, q);
  }

  /** The paths a run copies from a store. */
  ghost function Movable(store: Store, root: Path): set<Path> {
    set p | p in store && root < p && Eligible(root, p)
  }

  /** After copying the given sources, and only those. */
  ghost predicate CopiedOnly(before: Store, after: Store, root: Path, sources: set<Path>) {
    && after.Keys == before.Keys + (set p | p in sources :: Target(root, p))
    && (forall p :: p in sources ==> p in before && after[Target(root, p)] == before[p])
    && (forall q :: q in before && (forall p :: p in sources ==> Target(root, p) != q) ==> after[q] == before[q])
  }

  /** The whole effect of a run: every movable secret copied, nothing else touched. */
  ghost predicate Migrated(before: Store, after: Store, root: Path) {
    CopiedOnly(before, after, root, Movable(before, root))
  }

  lemma CopyOne(before: Store, mid: Store, root: Path, sources: set<Path>, p: Path)
    requires CopiedOnly(before, mid, root, sources) && p in Movable(before, root) && sources <= Movable(before, root) && p !in sources
    ensures p in mid && CopiedOnly(before, mid[Target(root, p) := mid[p]], root, sources + {p})
  {
    assert forall s :: s in sources ==> Target(root, s) != p by {
      forall s | s in sources
        ensures Target(root, s) != p
      {
        TargetInverts(root, s);
      }
    }
    forall s | s in sources
      ensures Target(root, s) != Target(root, p)
    {
      if Target(root, s) == Target(root, p) {
        TargetsDiffer(root, s, p);
        assert false;
      }
    }
  }

  /** Legacy secrets keep their values, and every movable one has an equal copy at its own target. */
  lemma MigrationPreserves(before: Store, after: Store, root: Path, p: Path)
    requires Migrated(before, after, root) && p in Movable(before, root)
    ensures p in after && after[p] == before[p]
    ensures Target(root, p) in after && after[Target(root, p)] == before[p]
  {
    forall s | s in Movable(before, root)
      ensures Target(root, s) != p
    {
      TargetInverts(root, s);
    }
  }

  /** A run moves the same secrets again, and a second run leaves every value as it is. */
  lemma SecondRunChangesNothing(before: Store, after: Store, again: Store, root: Path)
    requires Migrated(before, after, root) && Migrated(after, again, root)
    ensures again == after && Movable(after, root) == Movable(before, root)
  {
    forall p | p in Movable(after, root)
      ensures p in Movable(before, root)
    {
      forall s | s in Movable(before, root)
        ensures Target(root, s) != p
      {
        TargetInverts(root, s);
      }
    }
    forall p | p in Movable(before, root)
      ensures p in Movable(after, root)
    {
      MigrationPreserves(before, after, root, p);
    }
    forall q | q in after
      ensures again[q] == after[q]
    {
      if s :| s in Movable(after, root) && Target(root, s) == q {
        MigrationPreserves(before, after, root, s);
        assert again[Target(root, s)] == after[s];
      }
    }
  }

  /** Every directory below the root may be listed, and there is a secret below the root. */
  ghost predicate Listable(store: Store, denied: set<Path>, root: Path) {
    (forall d :: d in Dirs(store, root) ==> d !in denied) && exists p :: p in store && root < p
  }

  /** Then the walk finds each secret below the root exactly once, and nothing else. */
  lemma ListableFindsAll(store: Store, denied: set<Path>, root: Path)
    requires Listable(store, denied, root)
    ensures Blocked(store, denied, root) == {}
    ensures Visible(store, denied, root) == set p | p in store && root < p
  {
    forall d | d in Dirs(store, root)
      ensures !CannotList(store, denied, d)
    {
      if d != root {
        var p, i :| p in store && root < p && |root| <= i < |p| && d == p[..i];
        assert d < p;
      }
    }
    forall p | p in store && root < p
      ensures OpenTo(denied, root, p)
    {
      forall i | |root| <= i < |p|
        ensures p[..i] !in denied
      {
        assert p[..i] in Dirs(store, root);
      }
    }
  }

  lemma RepeatCounts(s: seq<Path>, i: nat, j: nat)
    requires i < j < |s| && s[i] == s[j]
    ensures multiset(s)[s[i]] >= 2
  {
    var a, b := s[..j], s[j..];
    assert s == a + b && a[i] == s[i] && b[0] == s[i];
    assert s[i] in multiset(a) && s[i] in multiset(b);
  }

  lemma NoRepeatsFromMultiset(s: seq<Path>, elems: set<Path>)
    requires multiset(s) == multiset(elems)
    ensures NoRepeats(s) && forall p :: p in s <==> p in elems
  {
    forall i, j | 0 <= i < j < |s|
      ensures s[i] != s[j]
    {
      if s[i] == s[j] {
        RepeatCounts(s, i, j);
        assert false;
      }
    }
    forall p
      ensures p in s <==> p in elems
    {
      assert p in s <==> p in multiset(s);
    }
  }

  /** Nothing is lost, and a path that changed is the target of an eligible secret and equals it. */
  ghost predicate OnlyTargetsTouched(before: Store, after: Store, root: Path) {
    && before.Keys <= after.Keys
    && (forall p :: p in before && Eligible(root, p) ==> after[p] == before[p])
    && (forall q {:trigger Explained(before, after, root, q)} :: q in after ==> Explained(before, after, root, q))
  }

  ghost predicate Explained(before: Store, after: Store, root: Path, q: Path)
    requires q in after
  {
    || (q in before && after[q] == before[q])
    || (exists p :: p in before && Eligible(root, p) && Target(root, p) == q && after[q] == before[p])
  }

  lemma TargetIneligible(root: Path, p: Path)
    ensures root < Target(root, p) && !Eligible(root, Target(root, p))
  {
    var t := Target(root, p);
    assert t[..|root|] == root && Relative(root, t)[0] == "tenants";
  }

  lemma EligibleWasThere(before: Store, mid: Store, root: Path, p: Path)
    requires OnlyTargetsTouched(before, mid, root) && p in mid && Eligible(root, p)
    ensures p in before
  {
    assert Explained(before, mid, root, p);
    if p !in before {
      var s :| s in before && Eligible(root, s) && Target(root, s) == p;
      TargetIneligible(root, s);
      assert false;
    }
  }

  lemma TouchOne(before: Store, mid: Store, root: Path, p: Path)
    requires OnlyTargetsTouched(before, mid, root) && p in mid && Eligible(root, p)
    ensures OnlyTargetsTouched(before, mid[Target(root, p) := mid[p]], root)
  {
    EligibleWasThere(before, mid, root, p);
    TargetIneligible(root, p);
    var after := mid[Target(root, p) := mid[p]];
    forall q | q in after
      ensures Explained(before, after, root, q)
    {
      assert q in mid ==> Explained(before, mid, root, q);
    }
  }

  ghost function MovedSoFar(found: seq<Path>, i: nat, root: Path): set<Path>
    requires i <= |found|
  {
    set p | p in found[..i] && Eligible(root, p)
  }

  lemma MoveNext(found: seq<Path>, i: nat, root: Path)
    requires i < |found| && NoRepeats(found)
    ensures found[i] !in MovedSoFar(found, i, root)
    ensures MovedSoFar(found, i + 1, root) == MovedSoFar(found, i, root) + if Eligible(root, found[i]) then {found[i]} else {}
  {
    assert found[..i + 1] == found[..i] + [found[i]];
  }

  /** The state of a run over a listable root before found path i. */
  ghost predicate Progress(before: Store, now: Store, root: Path, found: seq<Path>, i: nat, migrated: nat, dryRun: bool) {
    && i <= |found| && NoRepeats(found) && (forall p :: p in found <==> p in before && root < p)
    && migrated == |MovedSoFar(found, i, root)|
    && if dryRun then now == before else CopiedOnly(before, now, root, MovedSoFar(found, i, root))
  }

  lemma ProgressStart(store: Store, denied: set<Path>, root: Path, found: seq<Path>, dryRun: bool)
    requires multiset(found) == multiset(Visible(store, denied, root)) + multiset(Blocked(store, denied, root))
    ensures Listable(store, denied, root) ==> Progress(store, store, root, found, 0, 0, dryRun)
    ensures OnlyTargetsTouched(store, store, root)
  {
    if Listable(store, denied, root) {
      ListableFindsAll(store, denied, root);
      assert multiset(found) == multiset(Visible(store, denied, root));
      NoRepeatsFromMultiset(found, Visible(store, denied, root));
      assert MovedSoFar(found, 0, root) == {};
    }
  }

  lemma ProgressStep(before: Store, now: Store, root: Path, found: seq<Path>, i: nat, migrated: nat, dryRun: bool)
    requires Progress(before, now, root, found, i, migrated, dryRun) && i < |found|
    ensures var p := found[i];
            && p in now
            && Progress(before, if Eligible(root, p) && !dryRun then now[Target(root, p) := now[p]] else now,
                        root, found, i + 1, if Eligible(root, p) then migrated + 1 else migrated, dryRun)
  {
    var p, moved := found[i], MovedSoFar(found, i, root);
    MoveNext(found, i, root);
    assert p in found && forall q :: q in found[..i] ==> q in found;
    if Eligible(root, p) && !dryRun {
      assert moved <= Movable(before, root);
      CopyOne(before, now, root, moved, p);
    }
  }

  /** What the loop of a run keeps, at any root. */
  ghost predicate RunInv(before: Store, now: Store, root: Path, found: seq<Path>, i: nat, migrated: nat, dryRun: bool, nice: bool) {
    && (dryRun ==> now == before)
    && OnlyTargetsTouched(before, now, root)
    && (nice ==> Progress(before, now, root, found, i, migrated, dryRun))
  }

  lemma RunStep(before: Store, now: Store, root: Path, found: seq<Path>, i: nat, migrated: nat, dryRun: bool, nice: bool)
    requires RunInv(before, now, root, found, i, migrated, dryRun, nice) && i < |found|
    ensures var p := found[i];
            var copies := Eligible(root, p) && !dryRun;
            && (nice ==> p in now)
            && (copies ==> p in now ==>
                  RunInv(before, now[Target(root, p) := now[p]], root, found, i + 1, migrated + 1, dryRun, nice))
            && (!copies ==>
                  RunInv(before, now, root, found, i + 1, if Eligible(root, p) then migrated + 1 else migrated, dryRun, nice))
  {
    if nice {
      ProgressStep(before, now, root, found, i, migrated, dryRun);
    }
    if Eligible(root, found[i]) && !dryRun && found[i] in now {
      TouchOne(before, now, root, found[i]);
    }
  }

  /** Whether a run goes on, reading a path has raised, or a copy was read back wrong. */
  datatype Status = Going | RaisedError | Mismatch

  /** A run before its next path. */
  datatype Running = Running(store: Store, migrated: nat, status: Status)

  /**
   One path of the run: skipped, counted only in a dry run, or copied and read back; reading what
   holds no secret raises.
   */
  function RunOne(r: Running, root: Path, p: Path, dryRun: bool, misread: set<Path>): Running {
    if !r.status.Going? || !Eligible(root, p) then r
    else if dryRun then r.(migrated := r.migrated + 1)
    else if p !in r.store then r.(status := RaisedError)
    else
      var copied := r.(store := r.store[Target(root, p) := r.store[p]]);
      if Target(root, p) in misread then copied.(status := Mismatch) else copied.(migrated := r.migrated + 1)
  }

  function RunUpTo(store: Store, root: Path, found: seq<Path>, i: nat, dryRun: bool, misread: set<Path>): Running
    requires i <= |found|
  {
    if i == 0 then Running(store, 0, Going)
    else RunOne(RunUpTo(store, root, found, i - 1, dryRun, misread), root, found[i - 1], dryRun, misread)
  }

  lemma {:induction false} StoppedStays(store: Store, root: Path, found: seq<Path>, i: nat, j: nat, dryRun: bool, misread: set<Path>)
    requires i <= j <= |found| && !RunUpTo(store, root, found, i, dryRun, misread).status.Going?
    ensures RunUpTo(store, root, found, j, dryRun, misread) == RunUpTo(store, root, found, i, dryRun, misread)
    decreases j
  {
    if i < j {
      StoppedStays(store, root, found, i, j - 1, dryRun, misread);
    }
  }

  /** One of the first i paths is copied to where it is read back wrong. */
  ghost predicate SomeMisread(root: Path, found: seq<Path>, i: nat, misread: set<Path>) {
    exists k :: 0 <= k < i && k < |found| && Eligible(root, found[k]) && Target(root, found[k]) in misread
  }

  lemma MisreadSnoc(root: Path, found: seq<Path>, i: nat, misread: set<Path>)
    requires i < |found|
    ensures SomeMisread(root, found, i + 1, misread)
       <==> SomeMisread(root, found, i, misread) || (Eligible(root, found[i]) && Target(root, found[i]) in misread)
  {
  }

  /** A run that goes on has read every copy back right; one that failed has not. */
  lemma {:induction false} MisreadStops(store: Store, root: Path, found: seq<Path>, i: nat, dryRun: bool, misread: set<Path>)
    requires i <= |found|
    ensures var status := RunUpTo(store, root, found, i, dryRun, misread).status;
            && (status.Going? ==> dryRun || !SomeMisread(root, found, i, misread))
            && (status.Mismatch? ==> !dryRun && SomeMisread(root, found, i, misread))
    decreases i
  {
    if i > 0 {
      MisreadStops(store, root, found, i - 1, dryRun, misread);
      MisreadSnoc(root, found, i - 1, misread);
    }
  }

  /** What a run keeps, whether it goes on or has stopped. */
  ghost predicate RunKept(store: Store, r: Running, root: Path, found: seq<Path>, i: nat, dryRun: bool, nice: bool) {
    && (dryRun ==> r.store == store) && OnlyTargetsTouched(store, r.store, root)
    && (nice ==> !r.status.RaisedError?)
    && (r.status.Going? ==> RunInv(store, r.store, root, found, i, r.migrated, dryRun, nice))
  }

  lemma StartKept(store: Store, root: Path, found: seq<Path>, dryRun: bool, nice: bool)
    requires RunInv(store, store, root, found, 0, 0, dryRun, nice)
    ensures RunKept(store, Running(store, 0, Going), root, found, 0, dryRun, nice)
  {
  }

  lemma RunOneKeeps(store: Store, r: Running, r': Running, root: Path, found: seq<Path>, i: nat, dryRun: bool, nice: bool,
                    misread: set<Path>)
    requires i < |found| && RunKept(store, r, root, found, i, dryRun, nice) && r' == RunOne(r, root, found[i], dryRun, misread)
    ensures RunKept(store, r', root, found, i + 1, dryRun, nice)
  {
    if r.status.Going? {
      RunStep(store, r.store, root, found, i, r.migrated, dryRun, nice);
    }
  }

  /** What holds before the first path, and is kept by each, holds at every point. */
  lemma {:induction false} RunInduction(kept: (Running, nat) -> bool, store: Store, root: Path, found: seq<Path>, i: nat,
                                        dryRun: bool, misread: set<Path>)
    requires i <= |found| && kept(Running(store, 0, Going), 0)
    requires forall r, j: nat :: j < |found| && kept(r, j) ==> kept(RunOne(r, root, found[j], dryRun, misread), j + 1)
    ensures kept(RunUpTo(store, root, found, i, dryRun, misread), i)
    decreases i
  {
    if i > 0 {
      RunInduction(kept, store, root, found, i - 1, dryRun, misread);
    }
  }

  lemma RunKeepsInv(store: Store, root: Path, found: seq<Path>, i: nat, dryRun: bool, nice: bool, misread: set<Path>)
    requires i <= |found| && RunKept(store, Running(store, 0, Going), root, found, 0, dryRun, nice)
    ensures RunKept(store, RunUpTo(store, root, found, i, dryRun, misread), root, found, i, dryRun, nice)
  {
    var kept := (r: Running, j: nat) => RunKept(store, r, root, found, j, dryRun, nice);
    forall r, j: nat | j < |found| && kept(r, j)
      ensures kept(RunOne(r, root, found[j], dryRun, misread), j + 1)
    {
      RunOneKeeps(store, r, RunOne(r, root, found[j], dryRun, misread), root, found, j, dryRun, nice, misread);
    }
    RunInduction(kept, store, root, found, i, dryRun, misread);
  }

  /** The copy of some movable secret is read back wrong. */
  ghost predicate MovableMisread(store: Store, root: Path, misread: set<Path>) {
    exists p :: p in Movable(store, root) && Target(root, p) in misread
  }

  lemma FoundMisread(store: Store, root: Path, found: seq<Path>, misread: set<Path>)
    requires forall p :: p in found <==> p in store && root < p
    ensures SomeMisread(root, found, |found|, misread) <==> MovableMisread(store, root, misread)
  {
    if k :| 0 <= k < |found| && Eligible(root, found[k]) && Target(root, found[k]) in misread {
      assert found[k] in found && found[k] in Movable(store, root);
    }
    if p :| p in Movable(store, root) && Target(root, p) in misread {
      assert p in found;
    }
  }

  /**
   However a run over the walked paths ends, it changes nothing but targets of eligible
   secrets, each to the value of its source. Over a listable root it stops early exactly when
   it copies and some copy is read back wrong; otherwise it finishes, having copied every
   movable secret, or having counted them in a dry run.
   */
  lemma RunIsConservative(store: Store, denied: set<Path>, root: Path, found: seq<Path>, dryRun: bool, misread: set<Path>)
    requires multiset(found) == multiset(Visible(store, denied, root)) + multiset(Blocked(store, denied, root))
    ensures var r := RunUpTo(store, root, found, |found|, dryRun, misread);
            && OnlyTargetsTouched(store, r.store, root)
            && (dryRun ==> r.store == store)
            && (Listable(store, denied, root) ==>
                  r.status == if !dryRun && MovableMisread(store, root, misread) then Mismatch else Going)
            && (Listable(store, denied, root) && r.status.Going? ==>
                  r.migrated == |Movable(store, root)| && (!dryRun ==> Migrated(store, r.store, root)))
  {
    var r := RunUpTo(store, root, found, |found|, dryRun, misread);
    ProgressStart(store, denied, root, found, dryRun);
    StartKept(store, root, found, dryRun, Listable(store, denied, root));
    RunKeepsInv(store, root, found, |found|, dryRun, Listable(store, denied, root), misread);
    if Listable(store, denied, root) {
      MisreadStops(store, root, found, |found|, dryRun, misread);
      FoundMisread(store, root, found, misread);
      if r.status.Going? {
        ProgressEnd(store, r.store, root, found, r.migrated, dryRun);
      }
    }
  }

  /** An eligible secret below the root already has its copy after a run. */
  lemma CopiedAlready(before: Store, after: Store, root: Path, p: Path)
    requires Migrated(before, after, root) && p in after && root < p && Eligible(root, p)
    ensures Target(root, p) in after && after[Target(root, p)] == after[p]
  {
    forall s | s in Movable(before, root)
      ensures Target(root, s) != p
    {
      TargetInverts(root, s);
    }
    assert p in Movable(before, root);
    MigrationPreserves(before, after, root, p);
  }

  lemma RootStaysListable(before: Store, after: Store, denied: set<Path>, root: Path)
    requires Listable(before, denied, root) && Migrated(before, after, root)
    ensures !CannotList(after, denied, root)
  {
    var q :| q in before && root < q;
    assert q in before.Keys && q in after;
    assert root in Dirs(before, root);
  }

  lemma InOneOf(found: seq<Path>, a: set<Path>, b: set<Path>, p: Path)
    requires multiset(found) == multiset(a) + multiset(b) && p in found
    ensures p in a || p in b
  {
    assert p in multiset(found);
  }

  /** A walk finds only paths strictly below a root that can be listed. */
  lemma FoundBelow(store: Store, denied: set<Path>, root: Path, p: Path)
    requires !CannotList(store, denied, root)
    requires p in Visible(store, denied, root) || p in Blocked(store, denied, root)
    ensures root < p
  {
    if p in Blocked(store, denied, root) {
      assert root <= p && p != root;
    }
  }

  /** Copying the path would change nothing. */
  predicate AlreadyCopied(store: Store, root: Path, p: Path) {
    p in store && Eligible(root, p) ==> Target(root, p) in store && store[Target(root, p)] == store[p]
  }

  lemma FoundIsSettled(before: Store, after: Store, denied: set<Path>, root: Path, found: seq<Path>, p: Path)
    requires Listable(before, denied, root) && Migrated(before, after, root) && p in found
    requires multiset(found) == multiset(Visible(after, denied, root)) + multiset(Blocked(after, denied, root))
    ensures AlreadyCopied(after, root, p)
  {
    RootStaysListable(before, after, denied, root);
    InOneOf(found, Visible(after, denied, root), Blocked(after, denied, root), p);
    FoundBelow(after, denied, root, p);
    if p in after && Eligible(root, p) {
      CopiedAlready(before, after, root, p);
    }
  }

  lemma {:induction false} SettledRun(store: Store, root: Path, found: seq<Path>, i: nat, dryRun: bool, misread: set<Path>)
    requires i <= |found| && forall k :: 0 <= k < |found| ==> AlreadyCopied(store, root, found[k])
    ensures RunUpTo(store, root, found, i, dryRun, misread).store == store
    decreases i
  {
    if i > 0 {
      SettledRun(store, root, found, i - 1, dryRun, misread);
      var p := found[i - 1];
      assert AlreadyCopied(store, root, p);
      if p in store && Eligible(root, p) {
        assert store[Target(root, p) := store[p]] == store;
      }
    }
  }

  /**
   After a run over a listable root, a second run leaves every value as it is at every
   point, even if the new tenant directories may not be listed, or it stops half way.
   */
  lemma SecondRunKeepsStore(before: Store, after: Store, denied: set<Path>, root: Path, found: seq<Path>, i: nat,
                            dryRun: bool, misread: set<Path>)
    requires Listable(before, denied, root) && Migrated(before, after, root) && i <= |found|
    requires multiset(found) == multiset(Visible(after, denied, root)) + multiset(Blocked(after, denied, root))
    ensures RunUpTo(after, root, found, i, dryRun, misread).store == after
  {
    forall k | 0 <= k < |found|
      ensures AlreadyCopied(after, root, found[k])
    {
      FoundIsSettled(before, after, denied, root, found, found[k]);
    }
    SettledRun(after, root, found, i, dryRun, misread);
  }

  lemma ProgressEnd(before: Store, now: Store, root: Path, found: seq<Path>, migrated: nat, dryRun: bool)
    requires Progress(before, now, root, found, |found|, migrated, dryRun)
    ensures migrated == |Movable(before, root)| && (!dryRun ==> Migrated(before, now, root))
  {
    assert found[..|found|] == found;
    assert MovedSoFar(found, |found|, root) == Movable(before, root);
  }

  // ---------- The tool ----------

  class Vault {
    var store: Store
    const denied: set<Path>
    const misread: set<Path>

    constructor (store: Store, denied: set<Path>, misread: set<Path>)
      ensures this.store == store && this.denied == denied && this.misread == misread
    {
      this.store, this.denied, this.misread := store, denied, misread;
    }

    /** Listing a directory: its entries in some order, each once. */
    method ListSecrets(dir: Path) returns (keys: Option<seq<Entry>>)
      ensures keys.None? <==> CannotList(store, denied, dir)
      ensures keys.Some? ==> Lists(store, dir, keys.value)
    {
      if dir in denied {
        return None;
      }
      var pending := set p | p in store && dir < p :: Entry(p[|dir|], |p| > |dir| + 1);
      assert forall p :: p in store && dir < p ==> Entry(p[|dir|], |p| > |dir| + 1) in pending;
      if pending == {} {
        return None;
      }
      ghost var all := pending;
      var listed: seq<Entry> := [];
      while pending != {}
        invariant NoRepeats(listed) && pending <= all
        invariant forall e :: e in listed <==> e in all && e !in pending
        decreases pending
      {
        var e :| e in pending;
        pending := pending - {e};
        listed := listed + [e];
      }
      return Some(listed);
    }

    method Walk(root: Path) returns (found: seq<Path>)
      requires root != []
      ensures multiset(found) == multiset(Visible(store, denied, root)) + multiset(Blocked(store, denied, root))
    {
      found := [];
      var stack := [root];
      assert DoneSecrets(store, denied, root, stack) == {} && DoneBlocked(store, denied, root, stack) == {} by {
        assert root in stack;
      }
      while stack != []
        invariant WalkInv(store, denied, root, stack, found)
        decreases |Ahead(store, root, stack)|
      {
        var current, rest := stack[|stack| - 1], stack[..|stack| - 1];
        assert stack == rest + [current] && current in stack;
        ghost var before := Ahead(store, root, stack);
        var keys := ListSecrets(current);
        if keys.None? {
          PopBlocked(store, denied, root, rest, current, found);
          LessAhead(store, root, rest, current, []);
          assert rest + [] == rest;
          found := found + [current];
          stack := rest;
        } else {
          PopListed(store, denied, root, rest, current, keys.value, found);
          FilesDistinct(current, keys.value);
          LessAhead(store, root, rest, current, Subdirs(current, keys.value));
          found, stack := Expand(current, keys.value, found, rest);
        }
        Smaller(Ahead(store, root, stack), before);
      }
      assert DoneSecrets(store, denied, root, []) == Visible(store, denied, root);
      assert DoneBlocked(store, denied, root, []) == Blocked(store, denied, root);
    }

    /** One path of the run: read the secret, write its copy and read it back, unless it is skipped. */
    method Copy(root: Path, p: Path, dryRun: bool) returns (status: Status)
      modifies this`store
      ensures status.RaisedError? <==> Eligible(root, p) && !dryRun && p !in old(store)
      ensures status.Mismatch? <==> Eligible(root, p) && !dryRun && p in old(store) && Target(root, p) in misread
      ensures store == if Eligible(root, p) && !dryRun && p in old(store)
                       then old(store)[Target(root, p) := old(store)[p]] else old(store)
    {
      if Eligible(root, p) && !dryRun {
        if p !in store {
          return RaisedError;
        }
        store := store[Target(root, p) := store[p]];
        if Target(root, p) in misread {
          return Mismatch;
        }
      }
      return Going;
    }

    /**
     The run itself. However it ends it changes nothing but targets of eligible
     secrets, each to the value of its source. Over a listable root it fails exactly when
     some copy is read back wrong; otherwise it has copied every movable secret, or counted
     them in a dry run.
     */
    method Migrate(root: Path, dryRun: bool) returns (exit: Exit)
      requires root != []
      modifies this`store
      ensures OnlyTargetsTouched(old(store), store, root)
      ensures dryRun ==> store == old(store)
      ensures Listable(old(store), denied, root) ==>
                exit == if !dryRun && MovableMisread(old(store), root, misread) then Stopped(Mismatch)
                        else Finished(|Movable(old(store), root)|)
      ensures Listable(old(store), denied, root) && !dryRun && exit.Finished? ==> Migrated(old(store), store, root)
    {
      var found := Walk(root);
      RunIsConservative(store, denied, root, found, dryRun, misread);
      exit := RunPaths(root, found, dryRun);
    }

    /** The copy loop. */
    method RunPaths(root: Path, found: seq<Path>, dryRun: bool) returns (exit: Exit)
      modifies this`store
      ensures var r := RunUpTo(old(store), root, found, |found|, dryRun, misread);
              store == r.store && exit == if r.status.Going? then Finished(r.migrated) else Stopped(r.status)
    {
      var migrated, i := 0, 0;
      while i < |found|
        invariant 0 <= i <= |found|
        invariant RunUpTo(old(store), root, found, i, dryRun, misread) == Running(store, migrated, Going)
      {
        var status := Copy(root, found[i], dryRun);
        i := i + 1;
        if !status.Going? {
          StoppedStays(old(store), root, found, i, |found|, dryRun, misread);
          return Stopped(status);
        }
        migrated := if Eligible(root, found[i - 1]) then migrated + 1 else migrated;
      }
      return Finished(migrated);
    }

    method Expand(current: Path, keys: seq<Entry>, found: seq<Path>, stack: seq<Path>)
      returns (found': seq<Path>, stack': seq<Path>)
      ensures found' == found + Files(current, keys) && stack' == stack + Subdirs(current, keys)
    {
      found', stack' := found, stack;
      var i := 0;
      while i < |keys|
        invariant 0 <= i <= |keys|
        invariant found' == found + Files(current, keys[..i]) && stack' == stack + Subdirs(current, keys[..i])
      {
        assert keys[..i + 1][..i] == keys[..i];
        if keys[i].isDir {
          stack' := stack' + [current + [keys[i].name]];
        } else {
          found' := found' + [current + [keys[i].name]];
        }
        i := i + 1;
      }
      assert keys[..|keys|] == keys;
    }
  }

  /** The exit of a run: the number migrated, or why it stopped. */
  datatype Exit = Finished(migrated: nat) | Stopped(status: Status)

  lemma Smaller<T>(a: set<T>, b: set<T>)
    requires a < b
    ensures |a| < |b|
  {
    assert b == a + (b - a) && b - a != {};
  }

  // ---------- In plain terms ----------

  /** What is moved: paths with a domain other than "tenants" and "_platform", and a resource, below the root. */
  lemma MovableIff(store: Store, root: Path, p: Path)
    ensures p in Movable(store, root) <==>
              p in store && |p| >= |root| + 2 && root <= p
              && p[|root|] != "" && p[|root|] != "tenants" && p[|root|] != "_platform"
  {
    if root < p {
      assert p[|root|..][0] == p[|root|];
    }
  }

  /** Where it is moved: below the root, to the default tenant. */
  lemma TargetIs(root: Path, r: Path)
    requires r != []
    ensures Target(root, root + r) == root + ["tenants", "default"] + r
  {
    assert root < root + r && (root + r)[|root|..] == r;
  }

  /** A secret below the root is copied to the default tenant, with its value, if it has such a domain and a resource. */
  lemma MigratedExactly(before: Store, after: Store, root: Path, r: Path)
    requires Migrated(before, after, root) && root + r in before && |r| >= 2
    requires r[0] != "" && r[0] != "tenants" && r[0] != "_platform"
    ensures root + r in after && after[root + r] == before[root + r]
    ensures root + ["tenants", "default"] + r in after && after[root + ["tenants", "default"] + r] == before[root + r]
  {
    MovableIff(before, root, root + r);
    TargetIs(root, r);
    MigrationPreserves(before, after, root, root + r);
  }

  /** Every path that is not such a copy is as it was, present or absent. */
  lemma OthersUntouched(before: Store, after: Store, root: Path, q: Path)
    requires Migrated(before, after, root)
    requires forall r: Path :: |r| >= 2 && r[0] != "" && r[0] != "tenants" && r[0] != "_platform" && root + r in before ==>
               q != root + ["tenants", "default"] + r
    ensures q in after <==> q in before
    ensures q in before ==> after[q] == before[q]
  {
    forall p | p in Movable(before, root)
      ensures Target(root, p) != q
    {
      var r := p[|root|..];
      MovableIff(before, root, p);
      assert p == root + r;
      TargetIs(root, r);
    }
  }
}
