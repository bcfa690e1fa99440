/**
 When reads never go back. A provider's gets return, per path and key, versions
 that never decrease, and never a version older than its own completed put, exactly
 in the runs in which, between the load and the late store of each fresh hit, the
 provider answers nothing newer for its key and completes no newer put on its path.
 Runs without overlapping calls are of that kind; a run that is not is given.
 */
module MonotoneReads {
  import opened Options
  import opened SecretCache
  import opened VaultStore
  import opened SecretRuns

  /** The later outcome does not contradict the earlier one. */
  predicate InOrder(a: Outcome, b: Outcome) {
    match (a, b)
    case (Served(p, k, _, n, _, _, _), Served(p', k', _, n', _, _, _)) => p == p' && k == k' ==> n <= n'
    case (Wrote(p, path, n), Served(p', k', _, n', _, _, _)) => p == p' && path == k'.path ==> n <= n'
    case _ => true
  }

  ghost predicate Monotone(log: seq<Outcome>) {
    forall i, j :: 0 <= i < j < |log| ==> InOrder(log[i], log[j])
  }

  /** The outcome is no newer than version n of the key, as far as the provider has answered for it or written to its path. */
  predicate NoNewer(a: Outcome, provider: nat, k: CacheKey, n: nat) {
    match a
    case Served(p, k', _, m, _, _, _) => p == provider && k' == k ==> m <= n
    case Wrote(p, path, m) => p == provider && path == k.path ==> m <= n
  }

  /** A fresh hit that comes to its store finds nothing newer answered or written meanwhile. */
  ghost predicate InTime(s: State, e: Event) {
    e.GetStore? && CallOf(s, e.caller).GetHit? ==>
      forall i :: 0 <= i < |s.log| ==>
        NoNewer(s.log[i], e.caller.provider, CallOf(s, e.caller).key, CallOf(s, e.caller).loaded.origin)
  }

  ghost predicate StoresInTime(cfg: Config, s: State, es: seq<Event>)
    requires Legal(cfg, s, es)
    decreases |es|
  {
    es == [] || (
      && StoresInTime(cfg, s, es[..|es| - 1])
      && InTime(After(cfg, s, es[..|es| - 1]), es[|es| - 1]))
  }

  /** The cached version is at least as new as everything the provider has already answered. */
  ghost predicate Supports(s: State, a: Outcome) {
    match a
    case Served(p, k, _, n, _, _, _) =>
      && n <= CurrentVersion(s.store, k.path)
      && (k in CacheOf(s, p) ==> n <= CacheOf(s, p)[k].origin)
    case Wrote(p, path, n) =>
      && n <= CurrentVersion(s.store, path)
      && (forall k :: k in CacheOf(s, p) && k.path == path ==> n <= CacheOf(s, p)[k].origin)
  }

  ghost predicate OrderInv(s: State) {
    && (forall i :: 0 <= i < |s.log| ==> Supports(s, s.log[i]))
    && (forall c :: c in s.calls && s.calls[c].PutFlushing? ==>
          s.calls[c].written <= CurrentVersion(s.store, s.calls[c].path))
    && (forall c :: c in s.calls && s.calls[c].GetHit? ==>
          s.calls[c].loaded.origin <= CurrentVersion(s.store, s.calls[c].key.path))
    && (forall p, k :: k in CacheOf(s, p) ==> CacheOf(s, p)[k].origin <= CurrentVersion(s.store, k.path))
    && Monotone(s.log)
  }

  /** After a step a cached version is the one cached before, Vault's current one, or the one a late store brings back. */
  lemma CachedVersion(cfg: Config, s: State, e: Event, p: nat, k: CacheKey)
    requires Enabled(cfg, s, e) && k in CacheOf(Step(cfg, s, e), p)
    ensures var n := CacheOf(Step(cfg, s, e), p)[k].origin;
            || (k in CacheOf(s, p) && n == CacheOf(s, p)[k].origin)
            || n == CurrentVersion(s.store, k.path)
            || (e.GetStore? && e.caller.provider == p && CallOf(s, e.caller).GetHit?
                && CallOf(s, e.caller).key == k && CallOf(s, e.caller).loaded.origin == n)
  {
    CacheProvenance(cfg, s, e, p, k);
  }

  lemma StepKeepsSupport(cfg: Config, s: State, e: Event, i: nat)
    requires Enabled(cfg, s, e) && InTime(s, e) && i < |s.log| && Supports(s, s.log[i])
    ensures Supports(Step(cfg, s, e), s.log[i])
  {
    var s' := Step(cfg, s, e);
    match s.log[i]
    case Served(p, k, _, n, _, _, _) =>
      VersionsGrow(cfg, s, e, k.path);
      if k in CacheOf(s', p) {
        CachedVersion(cfg, s, e, p, k);
      }
    case Wrote(p, path, n) =>
      VersionsGrow(cfg, s, e, path);
      forall k | k in CacheOf(s', p) && k.path == path
        ensures n <= CacheOf(s', p)[k].origin
      {
        CachedVersion(cfg, s, e, p, k);
      }
  }

  /** The version of a step's answer: the cached one, Vault's current one, or the one a fresh hit loaded. */
  lemma NewAnswerFrom(cfg: Config, s: State, e: Event)
    requires Enabled(cfg, s, e) && |Step(cfg, s, e).log| > |s.log| && Step(cfg, s, e).log[|s.log|].Served?
    ensures var b := Step(cfg, s, e).log[|s.log|];
            || (b.key in CacheOf(s, b.provider) && b.origin == CacheOf(s, b.provider)[b.key].origin)
            || b.origin == CurrentVersion(s.store, b.key.path)
            || (e.GetStore? && e.caller.provider == b.provider && CallOf(s, e.caller).GetHit?
                && CallOf(s, e.caller).key == b.key && CallOf(s, e.caller).loaded.origin == b.origin)
  {
  }

  /** The outcome a step logs is in order with every earlier one, if a store is in time. */
  lemma NewOutcomeInOrder(cfg: Config, s: State, e: Event, i: nat)
    requires Enabled(cfg, s, e) && InTime(s, e) && |Step(cfg, s, e).log| > |s.log|
    requires i < |s.log| && Supports(s, s.log[i])
    ensures InOrder(s.log[i], Step(cfg, s, e).log[|s.log|])
  {
    if Step(cfg, s, e).log[|s.log|].Served? {
      NewAnswerFrom(cfg, s, e);
    }
  }

  lemma StoreSupported(cfg: Config, s: State, c: Caller)
    requires Enabled(cfg, s, GetStore(c)) && OrderInv(s) && |Step(cfg, s, GetStore(c)).log| > |s.log|
    ensures Supports(Step(cfg, s, GetStore(c)), Step(cfg, s, GetStore(c)).log[|s.log|])
  {
  }

  lemma ReplySupported(cfg: Config, s: State, c: Caller)
    requires Enabled(cfg, s, GetReply(c)) && OrderInv(s) && |Step(cfg, s, GetReply(c)).log| > |s.log|
    ensures Supports(Step(cfg, s, GetReply(c)), Step(cfg, s, GetReply(c)).log[|s.log|])
  {
  }

  lemma FailSupported(cfg: Config, s: State, c: Caller, forbidden: bool)
    requires Enabled(cfg, s, GetFail(c, forbidden)) && OrderInv(s) && |Step(cfg, s, GetFail(c, forbidden)).log| > |s.log|
    ensures Supports(Step(cfg, s, GetFail(c, forbidden)), Step(cfg, s, GetFail(c, forbidden)).log[|s.log|])
  {
  }

  lemma FlushSupported(cfg: Config, s: State, c: Caller)
    requires Enabled(cfg, s, PutFlush(c)) && OrderInv(s) && |Step(cfg, s, PutFlush(c)).log| > |s.log|
    ensures Supports(Step(cfg, s, PutFlush(c)), Step(cfg, s, PutFlush(c)).log[|s.log|])
  {
  }

  /** It is supported afterwards. */
  lemma NewOutcomeSupported(cfg: Config, s: State, e: Event)
    requires Enabled(cfg, s, e) && OrderInv(s) && |Step(cfg, s, e).log| > |s.log|
    ensures Supports(Step(cfg, s, e), Step(cfg, s, e).log[|s.log|])
  {
    match e
    case GetStore(c) => StoreSupported(cfg, s, c);
    case GetReply(c) => ReplySupported(cfg, s, c);
    case GetFail(c, forbidden) => FailSupported(cfg, s, c, forbidden);
    case PutFlush(c) => FlushSupported(cfg, s, c);
    case _ =>
  }

  lemma LogKept(cfg: Config, s: State, e: Event, i: nat)
    requires Enabled(cfg, s, e) && i < |s.log|
    ensures i < |Step(cfg, s, e).log| && Step(cfg, s, e).log[i] == s.log[i]
  {
    LogGrows(cfg, s, e);
    assert Step(cfg, s, e).log[i] == Step(cfg, s, e).log[..|s.log|][i];
  }

  /** Adding one outcome that is in order with all the others. */
  lemma MonotoneExtends(log: seq<Outcome>, log': seq<Outcome>)
    requires Monotone(log) && |log| <= |log'| <= |log| + 1 && log'[..|log|] == log
    requires |log'| > |log| ==> forall i :: 0 <= i < |log| ==> InOrder(log[i], log'[|log|])
    ensures Monotone(log')
  {
    forall i, j | 0 <= i < j < |log'|
      ensures InOrder(log'[i], log'[j])
    {
      assert log'[i] == log'[..|log|][i];
      assert j < |log| ==> log'[j] == log'[..|log|][j];
    }
  }

  lemma LogStaysOrdered(cfg: Config, s: State, e: Event)
    requires Enabled(cfg, s, e) && InTime(s, e) && OrderInv(s)
    ensures Monotone(Step(cfg, s, e).log)
  {
    LogGrows(cfg, s, e);
    if |Step(cfg, s, e).log| > |s.log| {
      forall i | 0 <= i < |s.log|
        ensures InOrder(s.log[i], Step(cfg, s, e).log[|s.log|])
      {
        NewOutcomeInOrder(cfg, s, e, i);
      }
    }
    MonotoneExtends(s.log, Step(cfg, s, e).log);
  }

  lemma LogStaysSupported(cfg: Config, s: State, e: Event)
    requires Enabled(cfg, s, e) && InTime(s, e) && OrderInv(s)
    ensures forall i :: 0 <= i < |Step(cfg, s, e).log| ==> Supports(Step(cfg, s, e), Step(cfg, s, e).log[i])
  {
    LogGrows(cfg, s, e);
    forall i | 0 <= i < |Step(cfg, s, e).log|
      ensures Supports(Step(cfg, s, e), Step(cfg, s, e).log[i])
    {
      if i < |s.log| {
        LogKept(cfg, s, e, i);
        StepKeepsSupport(cfg, s, e, i);
      } else {
        NewOutcomeSupported(cfg, s, e);
      }
    }
  }

  lemma PendingWriteStays(cfg: Config, s: State, e: Event, c: Caller)
    requires Enabled(cfg, s, e) && OrderInv(s)
    requires c in Step(cfg, s, e).calls && Step(cfg, s, e).calls[c].PutFlushing?
    ensures Step(cfg, s, e).calls[c].written <= CurrentVersion(Step(cfg, s, e).store, Step(cfg, s, e).calls[c].path)
  {
    var call := Step(cfg, s, e).calls[c];
    if Actor(e) != Some(c) {
      OthersUntouched(cfg, s, e, c);
      VersionsGrow(cfg, s, e, call.path);
    }
  }

  lemma CachedStaysBounded(cfg: Config, s: State, e: Event, p: nat, k: CacheKey)
    requires Enabled(cfg, s, e) && OrderInv(s) && k in CacheOf(Step(cfg, s, e), p)
    ensures CacheOf(Step(cfg, s, e), p)[k].origin <= CurrentVersion(Step(cfg, s, e).store, k.path)
  {
    CachedVersion(cfg, s, e, p, k);
    VersionsGrow(cfg, s, e, k.path);
  }

  lemma LoadedStaysBounded(cfg: Config, s: State, e: Event, c: Caller)
    requires Enabled(cfg, s, e) && OrderInv(s) && c in Step(cfg, s, e).calls && Step(cfg, s, e).calls[c].GetHit?
    ensures var hit := Step(cfg, s, e).calls[c];
            hit.loaded.origin <= CurrentVersion(Step(cfg, s, e).store, hit.key.path)
  {
    HitProvenance(cfg, s, e, c);
    VersionsGrow(cfg, s, e, Step(cfg, s, e).calls[c].key.path);
  }

  lemma StepKeepsOrder(cfg: Config, s: State, e: Event)
    requires Enabled(cfg, s, e) && InTime(s, e) && OrderInv(s)
    ensures OrderInv(Step(cfg, s, e))
  {
    var s' := Step(cfg, s, e);
    LogStaysOrdered(cfg, s, e);
    LogStaysSupported(cfg, s, e);
    forall c | c in s'.calls && s'.calls[c].PutFlushing?
      ensures s'.calls[c].written <= CurrentVersion(s'.store, s'.calls[c].path)
    {
      PendingWriteStays(cfg, s, e, c);
    }
    forall c | c in s'.calls && s'.calls[c].GetHit?
      ensures s'.calls[c].loaded.origin <= CurrentVersion(s'.store, s'.calls[c].key.path)
    {
      LoadedStaysBounded(cfg, s, e, c);
    }
    forall p, k | k in CacheOf(s', p)
      ensures CacheOf(s', p)[k].origin <= CurrentVersion(s'.store, k.path)
    {
      CachedStaysBounded(cfg, s, e, p, k);
    }
  }

  lemma {:induction false} OrderAlongRun(cfg: Config, s: State, es: seq<Event>)
    requires Initial(s) && Legal(cfg, s, es) && StoresInTime(cfg, s, es)
    ensures OrderInv(After(cfg, s, es))
    decreases |es|
  {
    if es != [] {
      OrderAlongRun(cfg, s, es[..|es| - 1]);
      StepKeepsOrder(cfg, After(cfg, s, es[..|es| - 1]), es[|es| - 1]);
    }
  }

  /** In an ordered log no store came late: the answer of a late one is out of order with what it ignored. */
  lemma LateStoreShows(cfg: Config, s: State, e: Event)
    requires Enabled(cfg, s, e) && Monotone(Step(cfg, s, e).log)
    ensures InTime(s, e) && Monotone(s.log)
  {
    var s' := Step(cfg, s, e);
    LogGrows(cfg, s, e);
    forall i, j | 0 <= i < j < |s.log|
      ensures InOrder(s.log[i], s.log[j])
    {
      assert s'.log[..|s.log|][i] == s'.log[i] && s'.log[..|s.log|][j] == s'.log[j];
    }
    if e.GetStore? {
      var hit := CallOf(s, e.caller);
      forall i | 0 <= i < |s.log|
        ensures NoNewer(s.log[i], e.caller.provider, hit.key, hit.loaded.origin)
      {
        assert s'.log[i] == s.log[i];
        assert InOrder(s'.log[i], s'.log[|s.log|]);
      }
    }
  }

  lemma {:induction false} OrderedMeansInTime(cfg: Config, s: State, es: seq<Event>)
    requires Legal(cfg, s, es) && Monotone(After(cfg, s, es).log)
    ensures StoresInTime(cfg, s, es)
    decreases |es|
  {
    if es != [] {
      LateStoreShows(cfg, After(cfg, s, es[..|es| - 1]), es[|es| - 1]);
      OrderedMeansInTime(cfg, s, es[..|es| - 1]);
    }
  }

  lemma InTimeIff(cfg: Config, s: State, es: seq<Event>)
    requires Initial(s) && Legal(cfg, s, es)
    ensures Monotone(After(cfg, s, es).log) <==> StoresInTime(cfg, s, es)
  {
    if StoresInTime(cfg, s, es) {
      OrderAlongRun(cfg, s, es);
    }
    if Monotone(After(cfg, s, es).log) {
      OrderedMeansInTime(cfg, s, es);
    }
  }

  // ---------- Between the load and the store ----------

  /** How much had been answered when the caller last began a get. */
  ghost function LogAtLoad(cfg: Config, s: State, es: seq<Event>, c: Caller): nat
    requires Legal(cfg, s, es)
    decreases |es|
  {
    if es == [] then 0
    else
      var before := es[..|es| - 1];
      match es[|es| - 1]
      case GetLoad(d, _, _) => if d == c then |After(cfg, s, before).log| else LogAtLoad(cfg, s, before, c)
      case _ => LogAtLoad(cfg, s, before, c)
  }

  /** The next event is no late store, or nothing newer was answered or written since its load. */
  ghost predicate NothingNewerMeanwhile(cfg: Config, s: State, es: seq<Event>, e: Event)
    requires Legal(cfg, s, es)
  {
    var m := After(cfg, s, es);
    e.GetStore? && CallOf(m, e.caller).GetHit? ==>
      forall i :: LogAtLoad(cfg, s, es, e.caller) <= i < |m.log| ==>
        NoNewer(m.log[i], e.caller.provider, CallOf(m, e.caller).key, CallOf(m, e.caller).loaded.origin)
  }

  ghost predicate WindowsClear(cfg: Config, s: State, es: seq<Event>)
    requires Legal(cfg, s, es)
    decreases |es|
  {
    es == [] || (
      && WindowsClear(cfg, s, es[..|es| - 1])
      && NothingNewerMeanwhile(cfg, s, es[..|es| - 1], es[|es| - 1]))
  }

  /** A held entry is no older than the first n outcomes. */
  ghost predicate LoadedNewestAt(m: State, c: Caller, n: nat) {
    n <= |m.log| && (CallOf(m, c).GetHit? ==>
      forall i :: 0 <= i < n ==> NoNewer(m.log[i], c.provider, CallOf(m, c).key, CallOf(m, c).loaded.origin))
  }

  /** Only the load itself begins to hold an entry, and it is the cached one. */
  lemma HitBegins(cfg: Config, s: State, e: Event, c: Caller)
    requires Enabled(cfg, s, e) && CallOf(Step(cfg, s, e), c).GetHit?
    ensures var hit := CallOf(Step(cfg, s, e), c);
            if e.GetLoad? && e.caller == c then hit.key in CacheOf(s, c.provider) && CacheOf(s, c.provider)[hit.key] == hit.loaded
            else CallOf(s, c) == hit
  {
    if Actor(e) != Some(c) {
      OthersUntouched(cfg, s, e, c);
    }
  }

  lemma LoadIsNewest(cfg: Config, s: State, e: Event, c: Caller)
    requires Enabled(cfg, s, e) && OrderInv(s) && e.GetLoad? && e.caller == c
    ensures LoadedNewestAt(Step(cfg, s, e), c, |s.log|)
  {
    LogGrows(cfg, s, e);
    if CallOf(Step(cfg, s, e), c).GetHit? {
      var hit := CallOf(Step(cfg, s, e), c);
      HitBegins(cfg, s, e, c);
      forall i | 0 <= i < |s.log|
        ensures NoNewer(Step(cfg, s, e).log[i], c.provider, hit.key, hit.loaded.origin)
      {
        LogKept(cfg, s, e, i);
        assert Supports(s, s.log[i]);
      }
    }
  }

  lemma HeldStaysNewest(cfg: Config, s: State, e: Event, c: Caller, n: nat)
    requires Enabled(cfg, s, e) && !(e.GetLoad? && e.caller == c) && LoadedNewestAt(s, c, n)
    ensures LoadedNewestAt(Step(cfg, s, e), c, n)
  {
    LogGrows(cfg, s, e);
    if CallOf(Step(cfg, s, e), c).GetHit? {
      HitBegins(cfg, s, e, c);
      forall i | 0 <= i < n
        ensures Step(cfg, s, e).log[i] == s.log[i]
      {
        LogKept(cfg, s, e, i);
      }
    }
  }

  /** With every window clear, what was answered before a load is no newer either, so stores are in time. */
  lemma {:induction false} ClearMeansInTime(cfg: Config, s: State, es: seq<Event>)
    requires Initial(s) && Legal(cfg, s, es) && WindowsClear(cfg, s, es)
    ensures StoresInTime(cfg, s, es) && forall c :: LoadedNewestAt(After(cfg, s, es), c, LogAtLoad(cfg, s, es, c))
    decreases |es|
  {
    if es != [] {
      var before, e := es[..|es| - 1], es[|es| - 1];
      ClearMeansInTime(cfg, s, before);
      OrderAlongRun(cfg, s, before);
      forall c
        ensures LoadedNewestAt(After(cfg, s, es), c, LogAtLoad(cfg, s, es, c))
      {
        if e.GetLoad? && e.caller == c {
          LoadIsNewest(cfg, After(cfg, s, before), e, c);
        } else {
          HeldStaysNewest(cfg, After(cfg, s, before), e, c, LogAtLoad(cfg, s, before, c));
        }
      }
      ClearStepInTime(cfg, s, before, e);
    }
  }

  lemma ClearStepInTime(cfg: Config, s: State, es: seq<Event>, e: Event)
    requires Legal(cfg, s, es) && NothingNewerMeanwhile(cfg, s, es, e)
    requires forall c :: LoadedNewestAt(After(cfg, s, es), c, LogAtLoad(cfg, s, es, c))
    ensures InTime(After(cfg, s, es), e)
  {
    if e.GetStore? {
      assert LoadedNewestAt(After(cfg, s, es), e.caller, LogAtLoad(cfg, s, es, e.caller));
    }
  }

  lemma {:induction false} InTimeMeansClear(cfg: Config, s: State, es: seq<Event>)
    requires Legal(cfg, s, es) && StoresInTime(cfg, s, es)
    ensures WindowsClear(cfg, s, es)
    decreases |es|
  {
    if es != [] {
      InTimeMeansClear(cfg, s, es[..|es| - 1]);
    }
  }

  /**
   In every interleaving reads never go back, past earlier answers or past the provider's own
   completed puts, exactly when between the load and the late store of every fresh hit the
   provider answers nothing newer for the key, and completes no newer put on the path.
   */
  lemma MonotoneIff(cfg: Config, s: State, es: seq<Event>)
    requires Initial(s) && Legal(cfg, s, es)
    ensures Monotone(After(cfg, s, es).log) <==> WindowsClear(cfg, s, es)
  {
    InTimeIff(cfg, s, es);
    if WindowsClear(cfg, s, es) {
      ClearMeansInTime(cfg, s, es);
    }
    if StoresInTime(cfg, s, es) {
      InTimeMeansClear(cfg, s, es);
    }
  }

  // ---------- Runs without overlapping calls ----------

  ghost predicate Quiet(s: State, provider: nat) {
    forall c :: c in s.calls && c.provider == provider ==> s.calls[c].Idle?
  }

  /** A call on a provider (a flush is one) begins only while no other is in progress there. */
  ghost predicate SequentialStep(s: State, e: Event) {
    match e
    case Evict(p, _) => Quiet(s, p)
    case GetLoad(c, _, _) => Quiet(s, c.provider)
    case PutStart(c, _, _) => Quiet(s, c.provider)
    case _ => true
  }

  ghost predicate Sequential(cfg: Config, s: State, es: seq<Event>)
    requires Legal(cfg, s, es)
    decreases |es|
  {
    es == [] || (
      && Sequential(cfg, s, es[..|es| - 1])
      && SequentialStep(After(cfg, s, es[..|es| - 1]), es[|es| - 1]))
  }

  ghost predicate SequentialInv(s: State) {
    && (forall c, d :: c in s.calls && d in s.calls && c.provider == d.provider && c != d ==>
          s.calls[c].Idle? || s.calls[d].Idle?)
    && (forall c :: c in s.calls && s.calls[c].GetHit? ==>
          s.calls[c].key in CacheOf(s, c.provider)
          && CacheOf(s, c.provider)[s.calls[c].key].origin == s.calls[c].loaded.origin)
  }

  lemma OtherCachesUntouched(cfg: Config, s: State, e: Event, p: nat)
    requires Enabled(cfg, s, e)
    requires Actor(e).Some? ==> Actor(e).value.provider != p
    requires e.Evict? ==> e.provider != p
    ensures CacheOf(Step(cfg, s, e), p) == CacheOf(s, p)
  {
  }

  lemma StepKeepsSequential(cfg: Config, s: State, e: Event)
    requires Enabled(cfg, s, e) && SequentialInv(s) && SequentialStep(s, e)
    ensures SequentialInv(Step(cfg, s, e))
  {
    var s' := Step(cfg, s, e);
    forall c, d | c in s'.calls && d in s'.calls && c.provider == d.provider && c != d
      ensures s'.calls[c].Idle? || s'.calls[d].Idle?
    {
      if Actor(e) != Some(c) { OthersUntouched(cfg, s, e, c); }
      if Actor(e) != Some(d) { OthersUntouched(cfg, s, e, d); }
    }
    forall c | c in s'.calls && s'.calls[c].GetHit?
      ensures s'.calls[c].key in CacheOf(s', c.provider)
      ensures CacheOf(s', c.provider)[s'.calls[c].key].origin == s'.calls[c].loaded.origin
    {
      if Actor(e) != Some(c) {
        OthersUntouched(cfg, s, e, c);
        OtherCachesUntouched(cfg, s, e, c.provider);
      }
    }
  }

  /** A hit that stores over the version it loaded is in time, since the cached version supports every answer. */
  lemma SameVersionIsInTime(s: State, e: Event)
    requires SequentialInv(s) && OrderInv(s)
    ensures InTime(s, e)
  {
    if e.GetStore? && CallOf(s, e.caller).GetHit? {
      var hit := CallOf(s, e.caller);
      forall i | 0 <= i < |s.log|
        ensures NoNewer(s.log[i], e.caller.provider, hit.key, hit.loaded.origin)
      {
        assert Supports(s, s.log[i]);
      }
    }
  }

  lemma {:induction false} SequentialIsInTime(cfg: Config, s: State, es: seq<Event>)
    requires Initial(s) && Legal(cfg, s, es) && Sequential(cfg, s, es)
    ensures SequentialInv(After(cfg, s, es)) && StoresInTime(cfg, s, es)
    decreases |es|
  {
    if es != [] {
      var before := After(cfg, s, es[..|es| - 1]);
      SequentialIsInTime(cfg, s, es[..|es| - 1]);
      OrderAlongRun(cfg, s, es[..|es| - 1]);
      SameVersionIsInTime(before, es[|es| - 1]);
      StepKeepsSequential(cfg, before, es[|es| - 1]);
    }
  }

  /**
   Without overlapping calls, whatever other writers do to Vault, a provider's
   gets never go back to an older version, and never answer with a version older
   than one of its own completed puts, fresh, stale or re-read alike.
   */
  lemma SequentialReadsAreMonotone(cfg: Config, s: State, es: seq<Event>)
    requires Initial(s) && Legal(cfg, s, es) && Sequential(cfg, s, es)
    ensures Monotone(After(cfg, s, es).log)
  {
    SequentialIsInTime(cfg, s, es);
    InTimeMeansClear(cfg, s, es);
    MonotoneIff(cfg, s, es);
  }

  // ---------- Overlapping calls ----------

  ghost predicate CachedWasServed(s: State) {
    forall p, k :: k in CacheOf(s, p) ==> ServedAs(s.log, p, k, CacheOf(s, p)[k].origin)
  }

  ghost predicate ServedAs(log: seq<Outcome>, p: nat, k: CacheKey, n: nat) {
    exists i :: 0 <= i < |log| && log[i].Served? && log[i].provider == p && log[i].key == k && log[i].origin == n
  }

  ghost predicate ServedInv(s: State) {
    && CachedWasServed(s)
    && forall c :: c in s.calls && s.calls[c].GetHit? ==> ServedAs(s.log, c.provider, s.calls[c].key, s.calls[c].loaded.origin)
  }

  lemma ServedPersists(cfg: Config, s: State, e: Event, p: nat, k: CacheKey, n: nat)
    requires Enabled(cfg, s, e) && ServedAs(s.log, p, k, n)
    ensures ServedAs(Step(cfg, s, e).log, p, k, n)
  {
    LogGrows(cfg, s, e);
    var i :| 0 <= i < |s.log| && s.log[i].Served? && s.log[i].provider == p && s.log[i].key == k && s.log[i].origin == n;
    assert Step(cfg, s, e).log[i] == Step(cfg, s, e).log[..|s.log|][i];
  }

  lemma StepKeepsServed(cfg: Config, s: State, e: Event)
    requires Enabled(cfg, s, e) && ServedInv(s)
    ensures ServedInv(Step(cfg, s, e))
  {
    var s' := Step(cfg, s, e);
    forall p, k | k in CacheOf(s', p)
      ensures ServedAs(s'.log, p, k, CacheOf(s', p)[k].origin)
    {
      CacheProvenance(cfg, s, e, p, k);
      var t := CacheOf(s', p)[k];
      if k in CacheOf(s, p) && CacheOf(s, p)[k] == t {
        ServedPersists(cfg, s, e, p, k, t.origin);
      } else {
        assert s'.log[|s.log|].origin == t.origin;
      }
    }
    forall c | c in s'.calls && s'.calls[c].GetHit?
      ensures ServedAs(s'.log, c.provider, s'.calls[c].key, s'.calls[c].loaded.origin)
    {
      ServedPersists(cfg, s, e, c.provider, s'.calls[c].key, s'.calls[c].loaded.origin);
    }
  }

  lemma {:induction false} ServedAlongRun(cfg: Config, s: State, es: seq<Event>)
    requires Initial(s) && Legal(cfg, s, es)
    ensures ServedInv(After(cfg, s, es))
    decreases |es|
  {
    if es != [] {
      ServedAlongRun(cfg, s, es[..|es| - 1]);
      StepKeepsServed(cfg, After(cfg, s, es[..|es| - 1]), es[|es| - 1]);
    }
  }

  /**
   One way to be late can be seen in the cache alone, since what is cached was served: a
   fresh hit that stores its entry back over a newer cached version.
   */
  lemma OverwritingNewerBreaksOrder(cfg: Config, s: State, es: seq<Event>, c: Caller)
    requires Initial(s) && Legal(cfg, s, es + [GetStore(c)])
    requires Legal(cfg, s, es) && CallOf(After(cfg, s, es), c).GetHit?
    requires var before, hit := After(cfg, s, es), CallOf(After(cfg, s, es), c);
             hit.key in CacheOf(before, c.provider)
             && CacheOf(before, c.provider)[hit.key].origin > hit.loaded.origin
    ensures !Monotone(After(cfg, s, es + [GetStore(c)]).log)
  {
    assert (es + [GetStore(c)])[..|es|] == es;
    var before := After(cfg, s, es);
    var hit := CallOf(before, c);
    ServedAlongRun(cfg, s, es);
    var n := CacheOf(before, c.provider)[hit.key].origin;
    assert ServedAs(before.log, c.provider, hit.key, n);
    var i :| 0 <= i < |before.log| && before.log[i].Served? && before.log[i].provider == c.provider
             && before.log[i].key == hit.key && before.log[i].origin == n;
    var after := After(cfg, s, es + [GetStore(c)]);
    assert after.log[i] == before.log[i];
    assert !InOrder(after.log[i], after.log[|before.log|]);
  }

  lemma Extend(cfg: Config, s: State, es: seq<Event>, e: Event)
    requires Legal(cfg, s, es) && Enabled(cfg, After(cfg, s, es), e)
    ensures Legal(cfg, s, es + [e]) && After(cfg, s, es + [e]) == Step(cfg, After(cfg, s, es), e)
  {
    assert (es + [e])[..|es|] == es;
  }

  /**
   Such runs exist. One caller's hit spans another caller's whole put; its late
   store revives the flushed entry, and the putting caller, whose put has
   returned, then reads the version before its own write.
   */
  lemma OverlapCanGoBack() returns (cfg: Config, s: State, es: seq<Event>)
    ensures Initial(s) && Legal(cfg, s, es)
    ensures var log := After(cfg, s, es).log;
            && |log| == 4 && log[1] == Wrote(0, "p", 2)
            && log[3].Served? && log[3].provider == 0 && log[3].key.path == "p" && log[3].origin == 1
            && !Monotone(log)
  {
    cfg := map[0 := Settings(10, 20, 3)];
    var k := CacheKey("p", "k");
    var a, b := Caller(0, 0), Caller(0, 1);
    s := State(0, map["p" := [Version(map["k" := Text("old")], 0, None)]], map[], map[], [], []);
    es := HitThenPut(cfg, s, a, b, k);
    var s8 := After(cfg, s, es);
    Extend(cfg, s, es, GetStore(a));
    es := es + [GetStore(a)];
    var s9 := After(cfg, s, es);
    assert CacheOf(s9, 0)[k].origin == 1 && CallOf(s9, b).Idle?;
    Extend(cfg, s, es, GetLoad(b, k, false));
    es := es + [GetLoad(b, k, false)];
    var s10 := After(cfg, s, es);
    assert CallOf(s10, b).GetHit? && CallOf(s10, b).loaded.origin == 1;
    Extend(cfg, s, es, GetStore(b));
    es := es + [GetStore(b)];
    assert !InOrder(After(cfg, s, es).log[1], After(cfg, s, es).log[3]);
  }

  /** First half of that run: `a` holds a loaded entry while `b` completes a put. */
  lemma HitThenPut(cfg: Config, s: State, a: Caller, b: Caller, k: CacheKey) returns (es: seq<Event>)
    requires Initial(s) && cfg == map[0 := Settings(10, 20, 3)] && k == CacheKey("p", "k")
    requires a == Caller(0, 0) && b == Caller(0, 1)
    requires s.now == 0 && s.store == map["p" := [Version(map["k" := Text("old")], 0, None)]]
    ensures Legal(cfg, s, es)
    ensures var m := After(cfg, s, es);
            && m.now == 0 && |m.log| == 2 && m.log[1] == Wrote(0, "p", 2)
            && CallOf(m, b) == Idle
            && CallOf(m, a) == GetHit(k, false, Tagged(NewEntry("old", 0, 10), 1), 0)
  {
    es := LoadedHit(cfg, s, a, k);
    var newer: Data := map["k" := Text("new")];
    Extend(cfg, s, es, PutStart(b, "p", newer));
    es := es + [PutStart(b, "p", newer)];
    assert CallOf(After(cfg, s, es), b) == PutReading("p", newer, 0, 1);
    Extend(cfg, s, es, PutVersion(b, true));
    es := es + [PutVersion(b, true)];
    assert CallOf(After(cfg, s, es), b) == PutWriting("p", newer, 0, 1, 1);
    Extend(cfg, s, es, PutWrite(b, true));
    es := es + [PutWrite(b, true)];
    assert CallOf(After(cfg, s, es), b) == PutFlushing("p", 2);
    Extend(cfg, s, es, PutFlush(b));
    es := es + [PutFlush(b)];
  }

  lemma LoadedHit(cfg: Config, s: State, a: Caller, k: CacheKey) returns (es: seq<Event>)
    requires Initial(s) && cfg == map[0 := Settings(10, 20, 3)] && k == CacheKey("p", "k") && a == Caller(0, 0)
    requires s.now == 0 && s.store == map["p" := [Version(map["k" := Text("old")], 0, None)]]
    ensures Legal(cfg, s, es)
    ensures var m := After(cfg, s, es);
            && m.now == 0 && m.store == s.store && |m.log| == 1
            && m.calls == map[a := GetHit(k, false, Tagged(NewEntry("old", 0, 10), 1), 0)]
  {
    Extend(cfg, s, [], GetLoad(a, k, false));
    es := [] + [GetLoad(a, k, false)];
    assert CallOf(After(cfg, s, es), a) == GetMiss(k, false);
    Extend(cfg, s, es, GetReply(a));
    es := es + [GetReply(a)];
    assert CacheOf(After(cfg, s, es), 0)[k] == Tagged(NewEntry("old", 0, 10), 1);
    Extend(cfg, s, es, GetLoad(a, k, false));
    es := es + [GetLoad(a, k, false)];
  }
}
