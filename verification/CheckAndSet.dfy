/**
 The check-and-set write loop of `Put`, over all interleavings of any number of
 callers and providers: writes are never lost, never duplicated, and a caller
 gives up only after enough rivals have succeeded.
 */
module CheckAndSet {
  import opened Options
  import opened VaultStore
  import opened SecretRuns

  // ---------- Each accepted write owns one version ----------

  ghost predicate WinsInv(s: State) {
    && (forall i :: 0 <= i < |s.wins| ==> Lands(s, s.wins[i]))
    && (forall i, j :: 0 <= i < j < |s.wins| && s.wins[i].path == s.wins[j].path ==> s.wins[i].base < s.wins[j].base)
  }

  /** The write created exactly the version directly above its base, and its data is there. */
  ghost predicate Lands(s: State, w: Win) {
    && w.base < CurrentVersion(s.store, w.path)
    && Versions(s.store, w.path)[w.base].data == w.data
  }

  lemma LandsPersists(cfg: Config, s: State, e: Event, w: Win)
    requires Enabled(cfg, s, e) && Lands(s, w)
    ensures Lands(Step(cfg, s, e), w)
  {
  }

  lemma StepKeepsWins(cfg: Config, s: State, e: Event)
    requires Enabled(cfg, s, e) && WinsInv(s)
    ensures WinsInv(Step(cfg, s, e))
  {
    var s' := Step(cfg, s, e);
    assert s'.wins[..|s.wins|] == s.wins;
    forall i | 0 <= i < |s'.wins|
      ensures Lands(s', s'.wins[i])
    {
      if i < |s.wins| {
        assert s'.wins[i] == s.wins[i];
        LandsPersists(cfg, s, e, s.wins[i]);
      }
    }
    forall i, j | 0 <= i < j < |s'.wins| && s'.wins[i].path == s'.wins[j].path
      ensures s'.wins[i].base < s'.wins[j].base
    {
      assert s'.wins[i] == s.wins[i] && Lands(s, s.wins[i]);
    }
  }

  /**
   In every run no two accepted writes of a path share a base version, each one's
   data is the version directly above its base, and later writes have larger bases.
   */
  lemma {:induction false} WritesNeverCollide(cfg: Config, s: State, es: seq<Event>)
    requires Initial(s) && Legal(cfg, s, es)
    ensures WinsInv(After(cfg, s, es))
    decreases |es|
  {
    if es != [] {
      WritesNeverCollide(cfg, s, es[..|es| - 1]);
      StepKeepsWins(cfg, After(cfg, s, es[..|es| - 1]), es[|es| - 1]);
    }
  }

  // ---------- Conservation of versions ----------

  ghost function OutsideWrites(es: seq<Event>, path: string): nat {
    if es == [] then 0
    else OutsideWrites(es[..|es| - 1], path) + if es[|es| - 1].OutsideWrite? && es[|es| - 1].path == path then 1 else 0
  }

  ghost function WinsOn(wins: seq<Win>, path: string): nat {
    if wins == [] then 0
    else WinsOn(wins[..|wins| - 1], path) + if wins[|wins| - 1].path == path then 1 else 0
  }

  /** One step adds a version only by an outside write or together with one accepted put. */
  lemma StepAddsVersions(cfg: Config, s: State, e: Event, path: string)
    requires Enabled(cfg, s, e)
    ensures var s' := Step(cfg, s, e);
            && (s'.wins == s.wins || (exists w :: s'.wins == s.wins + [w]))
            && CurrentVersion(s'.store, path) == CurrentVersion(s.store, path)
                 + (if e.OutsideWrite? && e.path == path then 1 else 0)
                 + (if s'.wins != s.wins && s'.wins[|s'.wins| - 1].path == path then 1 else 0)
  {
  }

  /** A path gains one version per outside write and one per accepted put: conflicts and failures add none. */
  lemma {:induction false} VersionsAreConserved(cfg: Config, s: State, es: seq<Event>, path: string)
    requires Initial(s) && Legal(cfg, s, es)
    ensures CurrentVersion(After(cfg, s, es).store, path)
         == CurrentVersion(s.store, path) + OutsideWrites(es, path) + WinsOn(After(cfg, s, es).wins, path)
    decreases |es|
  {
    if es != [] {
      var before := es[..|es| - 1];
      VersionsAreConserved(cfg, s, before, path);
      StepAddsVersions(cfg, After(cfg, s, before), es[|es| - 1], path);
      var w, w' := After(cfg, s, before).wins, After(cfg, s, es).wins;
      if w' != w {
        assert w'[..|w'| - 1] == w;
      }
    }
  }

  // ---------- Completed puts ----------

  /** A put that is flushing, or has returned success, stands for an accepted write. */
  ghost predicate Backed(s: State, path: string, version: nat) {
    exists i :: 0 <= i < |s.wins| && s.wins[i].path == path && s.wins[i].base + 1 == version
  }

  ghost predicate BackedInv(s: State) {
    && (forall c :: c in s.calls && s.calls[c].PutFlushing? ==> Backed(s, s.calls[c].path, s.calls[c].written))
    && (forall i :: 0 <= i < |s.log| && s.log[i].Wrote? ==> Backed(s, s.log[i].path, s.log[i].version))
  }

  lemma BackedPersists(cfg: Config, s: State, e: Event, path: string, version: nat)
    requires Enabled(cfg, s, e) && Backed(s, path, version)
    ensures Backed(Step(cfg, s, e), path, version)
  {
    var i :| 0 <= i < |s.wins| && s.wins[i].path == path && s.wins[i].base + 1 == version;
    assert Step(cfg, s, e).wins[i] == s.wins[i];
  }

  lemma StepKeepsBacked(cfg: Config, s: State, e: Event)
    requires Enabled(cfg, s, e) && BackedInv(s)
    ensures BackedInv(Step(cfg, s, e))
  {
    var s' := Step(cfg, s, e);
    forall c | c in s'.calls && s'.calls[c].PutFlushing?
      ensures Backed(s', s'.calls[c].path, s'.calls[c].written)
    {
      if c in s.calls && s.calls[c] == s'.calls[c] {
        BackedPersists(cfg, s, e, s.calls[c].path, s.calls[c].written);
      } else {
        assert s'.wins[|s.wins|].path == s'.calls[c].path;
      }
    }
    LogGrows(cfg, s, e);
    forall i | 0 <= i < |s'.log| && s'.log[i].Wrote?
      ensures Backed(s', s'.log[i].path, s'.log[i].version)
    {
      if i < |s.log| {
        assert s'.log[i] == s'.log[..|s.log|][i];
        BackedPersists(cfg, s, e, s.log[i].path, s.log[i].version);
      } else {
        BackedPersists(cfg, s, e, s'.log[i].path, s'.log[i].version);
      }
    }
  }

  /** Every put that returned success stands for an accepted write of exactly the version it reports. */
  lemma {:induction false} SuccessIsReal(cfg: Config, s: State, es: seq<Event>)
    requires Initial(s) && Legal(cfg, s, es)
    ensures BackedInv(After(cfg, s, es))
    decreases |es|
  {
    if es != [] {
      SuccessIsReal(cfg, s, es[..|es| - 1]);
      StepKeepsBacked(cfg, After(cfg, s, es[..|es| - 1]), es[|es| - 1]);
    }
  }

  // ---------- Progress ----------

  ghost predicate RivalsOf(cfg: Config, store: Store, c: Caller, call: Call) {
    match call
    case PutReading(path, _, attempt, begun) =>
      c.provider in cfg && attempt < cfg[c.provider].retryAttempts && begun + attempt <= CurrentVersion(store, path)
    case PutWriting(path, _, attempt, begun, cas) =>
      c.provider in cfg && attempt < cfg[c.provider].retryAttempts && begun + attempt <= cas <= CurrentVersion(store, path)
    case _ => true
  }

  /** Each conflict a put has met stands for a version some rival added since the put began. */
  ghost predicate RivalsInv(cfg: Config, s: State) {
    forall c :: c in s.calls ==> RivalsOf(cfg, s.store, c, s.calls[c])
  }

  /** The step of a put's own caller either spends one attempt or ends the put. */
  lemma OwnStep(cfg: Config, s: State, e: Event, c: Caller)
    requires Enabled(cfg, s, e) && Actor(e) == Some(c) && RivalsOf(cfg, s.store, c, CallOf(s, c))
    ensures RivalsOf(cfg, Step(cfg, s, e).store, c, CallOf(Step(cfg, s, e), c))
  {
  }

  lemma StepKeepsRivals(cfg: Config, s: State, e: Event)
    requires Enabled(cfg, s, e) && RivalsInv(cfg, s)
    ensures RivalsInv(cfg, Step(cfg, s, e))
  {
    var s' := Step(cfg, s, e);
    forall c | c in s'.calls
      ensures RivalsOf(cfg, s'.store, c, s'.calls[c])
    {
      assert RivalsOf(cfg, s.store, c, CallOf(s, c));
      if Actor(e) == Some(c) {
        OwnStep(cfg, s, e, c);
      } else {
        OthersUntouched(cfg, s, e, c);
        if s'.calls[c].PutReading? || s'.calls[c].PutWriting? {
          VersionsGrow(cfg, s, e, s'.calls[c].path);
        }
      }
    }
  }

  lemma {:induction false} RivalsAlongRun(cfg: Config, s: State, es: seq<Event>)
    requires Initial(s) && Legal(cfg, s, es)
    ensures RivalsInv(cfg, After(cfg, s, es))
    decreases |es|
  {
    if es != [] {
      RivalsAlongRun(cfg, s, es[..|es| - 1]);
      StepKeepsRivals(cfg, After(cfg, s, es[..|es| - 1]), es[|es| - 1]);
    }
  }

  /**
   A put ends with "conflict after retries" only when at least as many rival
   versions as it has attempts were added to the path since it began.
   */
  lemma GivingUpNeedsRivals(cfg: Config, s: State, es: seq<Event>, c: Caller)
    requires Initial(s) && Legal(cfg, s, es) && Enabled(cfg, After(cfg, s, es), PutWrite(c, true))
    requires CallOf(Step(cfg, After(cfg, s, es), PutWrite(c, true)), c).Idle?
    ensures var before := After(cfg, s, es);
            var call := CallOf(before, c);
            CurrentVersion(before.store, call.path) >= call.begun + cfg[c.provider].retryAttempts
  {
    RivalsAlongRun(cfg, s, es);
    assert c in After(cfg, s, es).calls;
  }

  // ---------- Bounded effort ----------

  ghost function WritesBy(es: seq<Event>, c: Caller): nat {
    if es == [] then 0
    else WritesBy(es[..|es| - 1], c) + if es[|es| - 1].PutWrite? && es[|es| - 1].caller == c then 1 else 0
  }

  /** The attempts a put has already spent; a put that is over has spent what it was allowed at most. */
  ghost function Spent(cfg: Config, call: Call, c: Caller): nat
    requires c.provider in cfg
  {
    match call
    case PutReading(_, _, attempt, _) => attempt
    case PutWriting(_, _, attempt, _, _) => attempt
    case _ => cfg[c.provider].retryAttempts
  }

  /** No call of `c` begins in the run. */
  ghost predicate NoNewCall(es: seq<Event>, c: Caller) {
    forall i :: 0 <= i < |es| ==>
      !(es[i].PutStart? && es[i].caller == c) && !(es[i].GetLoad? && es[i].caller == c)
  }

  predicate InPut(call: Call) {
    call.PutReading? || call.PutWriting? || call.PutFlushing? || call.Idle?
  }

  lemma StepSpends(cfg: Config, s: State, e: Event, c: Caller)
    requires Enabled(cfg, s, e) && c.provider in cfg && NoNewCall([e], c)
    requires InPut(CallOf(s, c)) && RivalsOf(cfg, s.store, c, CallOf(s, c))
    ensures InPut(CallOf(Step(cfg, s, e), c))
    ensures Spent(cfg, CallOf(s, c), c) + (if e.PutWrite? && e.caller == c then 1 else 0)
         <= Spent(cfg, CallOf(Step(cfg, s, e), c), c)
  {
    assert [e][0] == e;
    if Actor(e) != Some(c) {
      OthersUntouched(cfg, s, e, c);
    }
  }

  lemma {:induction false} WritesAreBounded(cfg: Config, s: State, es: seq<Event>, c: Caller)
    requires Legal(cfg, s, es) && RivalsInv(cfg, s) && c.provider in cfg && NoNewCall(es, c) && InPut(CallOf(s, c))
    ensures RivalsInv(cfg, After(cfg, s, es)) && InPut(CallOf(After(cfg, s, es), c))
    ensures Spent(cfg, CallOf(s, c), c) + WritesBy(es, c) <= Spent(cfg, CallOf(After(cfg, s, es), c), c)
    decreases |es|
  {
    if es != [] {
      var before := es[..|es| - 1];
      WritesAreBounded(cfg, s, before, c);
      var m := After(cfg, s, before);
      StepKeepsRivals(cfg, m, es[|es| - 1]);
      assert RivalsOf(cfg, m.store, c, CallOf(m, c));
      StepSpends(cfg, m, es[|es| - 1], c);
    }
  }

  /** From its start to its end, whatever else happens, a put sends at most RetryAttempts writes. */
  lemma PutStopsInTime(cfg: Config, s: State, es: seq<Event>, more: seq<Event>, c: Caller, path: string, data: Data)
    requires Initial(s) && Legal(cfg, s, es) && Enabled(cfg, After(cfg, s, es), PutStart(c, path, data))
    requires cfg[c.provider].retryAttempts > 0
    requires Legal(cfg, Step(cfg, After(cfg, s, es), PutStart(c, path, data)), more) && NoNewCall(more, c)
    ensures WritesBy(more, c) <= cfg[c.provider].retryAttempts
  {
    RivalsAlongRun(cfg, s, es);
    var begun := Step(cfg, After(cfg, s, es), PutStart(c, path, data));
    StepKeepsRivals(cfg, After(cfg, s, es), PutStart(c, path, data));
    WritesAreBounded(cfg, begun, more, c);
    var last := CallOf(After(cfg, begun, more), c);
    assert RivalsInv(cfg, After(cfg, begun, more));
    assert last.PutReading? || last.PutWriting? ==> c in After(cfg, begun, more).calls;
  }
}
