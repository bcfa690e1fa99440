/**
 Any number of providers, each shared by any number of concurrent callers, over
 one Vault. A run interleaves the atomic steps of those callers with the clock,
 with other writers of Vault and with cache evictions. `getFresh` is two steps:
 it loads and checks an entry, and only later stores it back. A network reply
 and the cache update it causes are one step.

 A cached entry carries the number of the Vault version it was read from and a
 call carries the version its path had when the call began. The program keeps
 neither; they only let the theorems speak of versions.
 */
module SecretRuns {
  import opened Options
  import opened SecretCache
  import opened VaultStore

  datatype Settings = Settings(ttl: int, maxStaleness: int, retryAttempts: nat)

  type Config = map<nat, Settings>

  datatype Caller = Caller(provider: nat, thread: nat)

  datatype Tagged = Tagged(entry: CacheEntry, origin: nat)

  type TaggedCache = map<CacheKey, Tagged>

  datatype Call =
    | Idle
    | GetHit(key: CacheKey, critical: bool, loaded: Tagged, checkedAt: int)
    | GetMiss(key: CacheKey, critical: bool)
    | PutReading(path: string, data: Data, attempt: nat, begun: nat)
    | PutWriting(path: string, data: Data, attempt: nat, begun: nat, cas: nat)
    | PutFlushing(path: string, written: nat)

  datatype Source = Fresh | Stale | Direct

  /** What callers observe: values returned by gets, and puts that returned success. */
  datatype Outcome =
    | Served(provider: nat, key: CacheKey, value: string, origin: nat, critical: bool, source: Source, at: int)
    | Wrote(provider: nat, path: string, version: nat)

  /** An accepted check-and-set write, with the version it was based on. */
  datatype Win = Win(caller: Caller, path: string, base: nat, data: Data)

  datatype State = State(
    now: int, store: Store, caches: map<nat, TaggedCache>, calls: map<Caller, Call>,
    log: seq<Outcome>, wins: seq<Win>)

  datatype Event =
    | Tick(delta: nat)
    | OutsideWrite(path: string, data: Data)
    | OutsideDestroy(path: string, version: nat)
    | Evict(provider: nat, keys: set<CacheKey>)
    | GetLoad(caller: Caller, key: CacheKey, critical: bool)
    | GetStore(caller: Caller)
    | GetReply(caller: Caller)
    | GetFail(caller: Caller, forbidden: bool)
    | PutStart(caller: Caller, path: string, data: Data)
    | PutVersion(caller: Caller, delivered: bool)
    | PutWrite(caller: Caller, delivered: bool)
    | PutFlush(caller: Caller)

  // ---------- The step function ----------

  function CacheOf(s: State, provider: nat): TaggedCache {
    if provider in s.caches then s.caches[provider] else map[]
  }

  function CallOf(s: State, c: Caller): Call {
    if c in s.calls then s.calls[c] else Idle
  }

  function WithCall(s: State, c: Caller, call: Call): State {
    s.(calls := s.calls[c := call])
  }

  function WithCache(s: State, provider: nat, cache: TaggedCache): State {
    s.(caches := s.caches[provider := cache])
  }

  function Serve(s: State, r: Outcome): State {
    s.(log := s.log + [r])
  }

  /** An empty key asks for the key "value". */
  function Defaulted(k: CacheKey): CacheKey {
    if k.key == "" then k.(key := "value") else k
  }

  predicate Enabled(cfg: Config, s: State, e: Event) {
    match e
    case Tick(_) => true
    case OutsideWrite(_, _) => true
    case OutsideDestroy(_, _) => true
    case Evict(p, _) => p in cfg
    case GetLoad(c, _, _) => c.provider in cfg && CallOf(s, c).Idle?
    case GetStore(c) => c.provider in cfg && CallOf(s, c).GetHit?
    case GetReply(c) =>
      c.provider in cfg && CallOf(s, c).GetMiss? && Current(s.store, CallOf(s, c).key.path).Some?
    case GetFail(c, _) => c.provider in cfg && CallOf(s, c).GetMiss?
    case PutStart(c, _, _) => c.provider in cfg && CallOf(s, c).Idle?
    case PutVersion(c, _) => c.provider in cfg && CallOf(s, c).PutReading?
    case PutWrite(c, _) => c.provider in cfg && CallOf(s, c).PutWriting?
    case PutFlush(c) => c.provider in cfg && CallOf(s, c).PutFlushing?
  }

  function Step(cfg: Config, s: State, e: Event): State
    requires Enabled(cfg, s, e)
  {
    match e
    case Tick(d) => s.(now := s.now + d)
    case OutsideWrite(path, data) => s.(store := Append(s.store, path, data, s.now))
    case OutsideDestroy(path, v) => s.(store := Destroy(s.store, path, v, s.now))
    case Evict(p, keys) => WithCache(s, p, CacheOf(s, p) - keys)
    case GetLoad(c, key, critical) => LoadStep(s, c, Defaulted(key), critical)
    case GetStore(c) => StoreStep(s, c)
    case GetReply(c) => ReplyStep(cfg, s, c)
    case GetFail(c, forbidden) => FailStep(cfg, s, c, forbidden)
    case PutStart(c, path, data) =>
      if cfg[c.provider].retryAttempts == 0 then s
      else WithCall(s, c, PutReading(path, data, 0, CurrentVersion(s.store, path)))
    case PutVersion(c, delivered) =>
      var call := CallOf(s, c);
      WithCall(s, c, if delivered
        then PutWriting(call.path, call.data, call.attempt, call.begun, CurrentVersion(s.store, call.path))
        else Idle)
    case PutWrite(c, delivered) => WriteStep(cfg, s, c, delivered)
    case PutFlush(c) =>
      var call := CallOf(s, c);
      var cache := CacheOf(s, c.provider);
      Serve(WithCall(WithCache(s, c.provider, cache - (set k | k in cache && Selected(k, call.path))), c, Idle),
            Wrote(c.provider, call.path, call.written))
  }

  function LoadStep(s: State, c: Caller, key: CacheKey, critical: bool): State {
    var cache := CacheOf(s, c.provider);
    if key in cache && IsFresh(cache[key].entry, s.now)
    then WithCall(s, c, GetHit(key, critical, cache[key], s.now))
    else WithCall(s, c, GetMiss(key, critical))
  }

  function StoreStep(s: State, c: Caller): State
    requires CallOf(s, c).GetHit?
  {
    var call := CallOf(s, c);
    var touched := call.loaded.(entry := Touched(call.loaded.entry, s.now));
    Serve(WithCall(WithCache(s, c.provider, CacheOf(s, c.provider)[call.key := touched]), c, Idle),
          Served(c.provider, call.key, call.loaded.entry.value, call.loaded.origin, call.critical, Fresh, call.checkedAt))
  }

  function ReplyStep(cfg: Config, s: State, c: Caller): State
    requires c.provider in cfg && CallOf(s, c).GetMiss? && Current(s.store, CallOf(s, c).key.path).Some?
  {
    var call := CallOf(s, c);
    var data := Current(s.store, call.key.path).value.data;
    if call.key.key in data && data[call.key.key].Text? then
      var value := data[call.key.key].text;
      var n := CurrentVersion(s.store, call.key.path);
      var entry := Tagged(NewEntry(value, s.now, cfg[c.provider].ttl), n);
      Serve(WithCall(WithCache(s, c.provider, CacheOf(s, c.provider)[call.key := entry]), c, Idle),
            Served(c.provider, call.key, value, n, call.critical, Direct, s.now))
    else
      WithCall(s, c, Idle)
  }

  function FailStep(cfg: Config, s: State, c: Caller, forbidden: bool): State
    requires c.provider in cfg && CallOf(s, c).GetMiss?
  {
    var call := CallOf(s, c);
    var cache := CacheOf(s, c.provider);
    if !forbidden && !call.critical && call.key in cache
       && IsServable(cache[call.key].entry, s.now, cfg[c.provider].maxStaleness)
    then Serve(WithCall(s, c, Idle),
               Served(c.provider, call.key, cache[call.key].entry.value, cache[call.key].origin, false, Stale, s.now))
    else WithCall(s, c, Idle)
  }

  function WriteStep(cfg: Config, s: State, c: Caller, delivered: bool): State
    requires c.provider in cfg && CallOf(s, c).PutWriting?
  {
    var call := CallOf(s, c);
    if !delivered then
      WithCall(s, c, Idle)
    else if call.cas == CurrentVersion(s.store, call.path) then
      WithCall(s, c, PutFlushing(call.path, call.cas + 1))
        .(store := Append(s.store, call.path, call.data, s.now),
          wins := s.wins + [Win(c, call.path, call.cas, call.data)])
    else if call.attempt + 1 < cfg[c.provider].retryAttempts then
      WithCall(s, c, PutReading(call.path, call.data, call.attempt + 1, call.begun))
    else
      WithCall(s, c, Idle)
  }

  // ---------- Runs ----------

  ghost predicate Initial(s: State) {
    UpTo(s.store, s.now) && s.caches == map[] && s.calls == map[] && s.log == [] && s.wins == []
  }

  /** Every event of the run was enabled when it happened. */
  ghost predicate Legal(cfg: Config, s: State, es: seq<Event>)
    decreases |es|, 0
  {
    es == [] || (
      && Legal(cfg, s, es[..|es| - 1])
      && Enabled(cfg, After(cfg, s, es[..|es| - 1]), es[|es| - 1]))
  }

  ghost function After(cfg: Config, s: State, es: seq<Event>): State
    requires Legal(cfg, s, es)
    decreases |es|, 1
  {
    if es == [] then s else Step(cfg, After(cfg, s, es[..|es| - 1]), es[|es| - 1])
  }

  // ---------- What a step leaves alone ----------

  lemma VersionsGrow(cfg: Config, s: State, e: Event, path: string)
    requires Enabled(cfg, s, e)
    ensures CurrentVersion(s.store, path) <= CurrentVersion(Step(cfg, s, e).store, path)
  {
  }

  /** The caller of a step, when it belongs to a call. */
  function Actor(e: Event): Option<Caller> {
    match e
    case Tick(_) => None
    case OutsideWrite(_, _) => None
    case OutsideDestroy(_, _) => None
    case Evict(_, _) => None
    case _ => Some(e.caller)
  }

  lemma OthersUntouched(cfg: Config, s: State, e: Event, c: Caller)
    requires Enabled(cfg, s, e) && Actor(e) != Some(c)
    ensures CallOf(Step(cfg, s, e), c) == CallOf(s, c)
  {
  }

  // ---------- Bounded staleness ----------

  /** An entry holds a value that Vault had for its key at the instant of the last success. */
  ghost predicate Truthful(cfg: Config, s: State, provider: nat, k: CacheKey, t: Tagged) {
    && provider in cfg
    && t.entry.expiresAt == t.entry.lastSuccess + cfg[provider].ttl
    && t.entry.lastSuccess <= s.now
    && HeldAt(s.store, k.path, k.key, t.entry.value, t.origin, t.entry.lastSuccess)
  }

  function Bound(st: Settings, source: Source): int {
    match source
    case Fresh => st.ttl
    case Stale => st.maxStaleness
    case Direct => 0
  }

  /** The served value was Vault's at some instant no further back than `bound`. */
  ghost predicate HeldWithin(store: Store, r: Outcome, bound: int)
    requires r.Served?
  {
    exists t :: r.at - bound <= t <= r.at && HeldAt(store, r.key.path, r.key.key, r.value, r.origin, t)
  }

  ghost predicate Timely(cfg: Config, s: State, r: Outcome)
    requires r.Served?
  {
    && r.provider in cfg && r.at <= s.now
    && (r.critical ==> r.source != Stale)
    && HeldWithin(s.store, r, Bound(cfg[r.provider], r.source))
  }

  ghost predicate StalenessInv(cfg: Config, s: State) {
    && (forall p :: p in s.caches ==> forall k :: k in s.caches[p] ==> Truthful(cfg, s, p, k, s.caches[p][k]))
    && (forall c :: c in s.calls && s.calls[c].GetHit? ==>
          && Truthful(cfg, s, c.provider, s.calls[c].key, s.calls[c].loaded)
          && s.calls[c].loaded.entry.lastSuccess <= s.calls[c].checkedAt <= s.now
          && IsFresh(s.calls[c].loaded.entry, s.calls[c].checkedAt))
    && (forall i :: 0 <= i < |s.log| && s.log[i].Served? ==> Timely(cfg, s, s.log[i]))
  }

  /** Vault's past, up to now, is the same after any step. */
  lemma StepKeepsHistory(cfg: Config, s: State, e: Event, path: string, key: string, value: string, n: nat, t: int)
    requires Enabled(cfg, s, e)
    requires HeldAt(s.store, path, key, value, n, t) && t <= s.now
    ensures HeldAt(Step(cfg, s, e).store, path, key, value, n, t)
  {
    match e
    case OutsideWrite(p, data) => AppendKeepsHistory(s.store, p, data, s.now, path, key, value, n, t);
    case OutsideDestroy(p, v) => DestroyKeepsHistory(s.store, p, v, s.now, path, key, value, n, t);
    case PutWrite(c, _) =>
      var call := CallOf(s, c);
      AppendKeepsHistory(s.store, call.path, call.data, s.now, path, key, value, n, t);
    case _ =>
  }

  lemma StepKeepsTruth(cfg: Config, s: State, e: Event, p: nat, k: CacheKey, t: Tagged)
    requires Enabled(cfg, s, e) && Truthful(cfg, s, p, k, t)
    ensures Truthful(cfg, Step(cfg, s, e), p, k, t)
  {
    StepKeepsHistory(cfg, s, e, k.path, k.key, t.entry.value, t.origin, t.entry.lastSuccess);
  }

  lemma StepKeepsTimely(cfg: Config, s: State, e: Event, r: Outcome)
    requires Enabled(cfg, s, e) && r.Served? && Timely(cfg, s, r)
    ensures Timely(cfg, Step(cfg, s, e), r)
  {
    var bound := Bound(cfg[r.provider], r.source);
    var t :| r.at - bound <= t <= r.at && HeldAt(s.store, r.key.path, r.key.key, r.value, r.origin, t);
    StepKeepsHistory(cfg, s, e, r.key.path, r.key.key, r.value, r.origin, t);
  }

  /** The value a reply delivers is Vault's at that very instant. */
  lemma ReplyIsCurrent(s: State, path: string, key: string)
    requires UpTo(s.store, s.now) && Current(s.store, path).Some?
    requires key in Current(s.store, path).value.data && Current(s.store, path).value.data[key].Text?
    ensures HeldAt(s.store, path, key, Current(s.store, path).value.data[key].text, CurrentVersion(s.store, path), s.now)
  {
  }

  /** What a step adds to the log is timely when what it served from was truthful. */
  lemma NewOutcomeTimely(cfg: Config, s: State, e: Event)
    requires Enabled(cfg, s, e) && StalenessInv(cfg, s) && UpTo(s.store, s.now)
    ensures var s' := Step(cfg, s, e);
            |s'.log| > |s.log| ==>
              && s'.log[..|s.log|] == s.log && |s'.log| == |s.log| + 1
              && (s'.log[|s.log|].Served? ==> Timely(cfg, s', s'.log[|s.log|]))
  {
    var s' := Step(cfg, s, e);
    if |s'.log| > |s.log| && s'.log[|s.log|].Served? {
      var r := s'.log[|s.log|];
      match e
      case GetStore(c) =>
        var t := CallOf(s, c).loaded.entry.lastSuccess;
        assert r.at - Bound(cfg[r.provider], Fresh) <= t <= r.at
               && HeldAt(s'.store, r.key.path, r.key.key, r.value, r.origin, t);
      case GetReply(c) =>
        var call := CallOf(s, c);
        ReplyIsCurrent(s, call.key.path, call.key.key);
      case GetFail(c, _) =>
        var t := CacheOf(s, c.provider)[CallOf(s, c).key].entry.lastSuccess;
        assert r.at - Bound(cfg[r.provider], Stale) <= t <= r.at
               && HeldAt(s'.store, r.key.path, r.key.key, r.value, r.origin, t);
    }
  }

  lemma LogGrows(cfg: Config, s: State, e: Event)
    requires Enabled(cfg, s, e)
    ensures |s.log| <= |Step(cfg, s, e).log| <= |s.log| + 1 && Step(cfg, s, e).log[..|s.log|] == s.log
    ensures s.now <= Step(cfg, s, e).now
  {
  }

  lemma StepKeepsUpTo(cfg: Config, s: State, e: Event)
    requires Enabled(cfg, s, e) && UpTo(s.store, s.now)
    ensures UpTo(Step(cfg, s, e).store, Step(cfg, s, e).now)
  {
    match e
    case OutsideWrite(path, data) => AppendKeepsUpTo(s.store, path, data, s.now);
    case OutsideDestroy(path, v) => DestroyKeepsUpTo(s.store, path, v, s.now);
    case PutWrite(c, _) =>
      var call := CallOf(s, c);
      AppendKeepsUpTo(s.store, call.path, call.data, s.now);
    case _ =>
  }

  /** Where a cached entry can come from: it was there, it was loaded earlier, or it was just read. */
  ghost predicate Provenance(cfg: Config, s: State, e: Event, p: nat, k: CacheKey, t: Tagged) {
    || (k in CacheOf(s, p) && CacheOf(s, p)[k] == t)
    || (e.GetStore? && e.caller.provider == p && CallOf(s, e.caller).GetHit? && CallOf(s, e.caller).key == k
        && t == CallOf(s, e.caller).loaded.(entry := Touched(CallOf(s, e.caller).loaded.entry, s.now)))
    || (e.GetReply? && p in cfg && Current(s.store, k.path).Some?
        && k.key in Current(s.store, k.path).value.data && Current(s.store, k.path).value.data[k.key].Text?
        && t == Tagged(NewEntry(Current(s.store, k.path).value.data[k.key].text, s.now, cfg[p].ttl),
                       CurrentVersion(s.store, k.path)))
  }

  lemma CacheProvenance(cfg: Config, s: State, e: Event, p: nat, k: CacheKey)
    requires Enabled(cfg, s, e) && k in CacheOf(Step(cfg, s, e), p)
    ensures Provenance(cfg, s, e, p, k, CacheOf(Step(cfg, s, e), p)[k])
  {
  }

  lemma HitIsTruthful(cfg: Config, s: State, c: Caller)
    requires StalenessInv(cfg, s) && CallOf(s, c).GetHit?
    ensures Truthful(cfg, s, c.provider, CallOf(s, c).key, CallOf(s, c).loaded)
  {
  }

  /** Re-storing an entry, wherever it lands, changes neither its value nor the instants that bound it. */
  lemma CachesStayTruthful(cfg: Config, s: State, e: Event, p: nat, k: CacheKey)
    requires Enabled(cfg, s, e) && StalenessInv(cfg, s) && UpTo(s.store, s.now)
    requires k in CacheOf(Step(cfg, s, e), p)
    ensures Truthful(cfg, Step(cfg, s, e), p, k, CacheOf(Step(cfg, s, e), p)[k])
  {
    var t := CacheOf(Step(cfg, s, e), p)[k];
    CacheProvenance(cfg, s, e, p, k);
    if k in CacheOf(s, p) && CacheOf(s, p)[k] == t {
      assert Truthful(cfg, s, p, k, t);
    } else if e.GetStore? {
      HitIsTruthful(cfg, s, e.caller);
      assert Truthful(cfg, s, p, k, t);
    } else {
      ReplyIsCurrent(s, k.path, k.key);
      assert Truthful(cfg, s, p, k, t);
    }
    StepKeepsTruth(cfg, s, e, p, k, t);
  }

  lemma CallsStayTruthful(cfg: Config, s: State, e: Event, c: Caller)
    requires Enabled(cfg, s, e) && StalenessInv(cfg, s)
    requires c in Step(cfg, s, e).calls && Step(cfg, s, e).calls[c].GetHit?
    ensures var s', hit := Step(cfg, s, e), Step(cfg, s, e).calls[c];
            && Truthful(cfg, s', c.provider, hit.key, hit.loaded)
            && hit.loaded.entry.lastSuccess <= hit.checkedAt <= s'.now
            && IsFresh(hit.loaded.entry, hit.checkedAt)
  {
    var hit := Step(cfg, s, e).calls[c];
    LogGrows(cfg, s, e);
    HitProvenance(cfg, s, e, c);
    assert Truthful(cfg, s, c.provider, hit.key, hit.loaded);
    StepKeepsTruth(cfg, s, e, c.provider, hit.key, hit.loaded);
  }

  /** A call that holds a loaded entry held it before, or has just loaded it, fresh, from its cache. */
  lemma HitProvenance(cfg: Config, s: State, e: Event, c: Caller)
    requires Enabled(cfg, s, e) && c in Step(cfg, s, e).calls && Step(cfg, s, e).calls[c].GetHit?
    ensures var hit := Step(cfg, s, e).calls[c];
            || (c in s.calls && s.calls[c] == hit)
            || (hit.key in CacheOf(s, c.provider) && CacheOf(s, c.provider)[hit.key] == hit.loaded
                && hit.checkedAt == s.now && IsFresh(hit.loaded.entry, s.now))
  {
    if Actor(e) != Some(c) {
      OthersUntouched(cfg, s, e, c);
    }
  }

  lemma StepKeepsStaleness(cfg: Config, s: State, e: Event)
    requires Enabled(cfg, s, e) && StalenessInv(cfg, s) && UpTo(s.store, s.now)
    ensures StalenessInv(cfg, Step(cfg, s, e))
  {
    var s' := Step(cfg, s, e);
    forall p, k | p in s'.caches && k in s'.caches[p]
      ensures Truthful(cfg, s', p, k, s'.caches[p][k])
    {
      CachesStayTruthful(cfg, s, e, p, k);
    }
    forall c | c in s'.calls && s'.calls[c].GetHit?
      ensures Truthful(cfg, s', c.provider, s'.calls[c].key, s'.calls[c].loaded)
      ensures s'.calls[c].loaded.entry.lastSuccess <= s'.calls[c].checkedAt <= s'.now
      ensures IsFresh(s'.calls[c].loaded.entry, s'.calls[c].checkedAt)
    {
      CallsStayTruthful(cfg, s, e, c);
    }
    LogGrows(cfg, s, e);
    NewOutcomeTimely(cfg, s, e);
    forall i | 0 <= i < |s'.log| && s'.log[i].Served?
      ensures Timely(cfg, s', s'.log[i])
    {
      if i < |s.log| {
        assert s'.log[i] == s'.log[..|s.log|][i];
        StepKeepsTimely(cfg, s, e, s.log[i]);
      }
    }
  }

  lemma {:induction false} StalenessAlongRun(cfg: Config, s: State, es: seq<Event>)
    requires Initial(s) && Legal(cfg, s, es)
    ensures StalenessInv(cfg, After(cfg, s, es)) && UpTo(After(cfg, s, es).store, After(cfg, s, es).now)
    decreases |es|
  {
    if es != [] {
      var before := es[..|es| - 1];
      StalenessAlongRun(cfg, s, before);
      StepKeepsStaleness(cfg, After(cfg, s, before), es[|es| - 1]);
      StepKeepsUpTo(cfg, After(cfg, s, before), es[|es| - 1]);
    }
  }

  /**
   In every interleaving, every value a get returned had been Vault's value for
   that path and key no more than ttl before the freshness check, no more than
   maxStaleness before a stale answer, and at the very instant of a direct
   answer; a critical get is never answered stale.
   */
  lemma BoundedStaleness(cfg: Config, s: State, es: seq<Event>, i: nat)
    requires Initial(s) && Legal(cfg, s, es)
    requires i < |After(cfg, s, es).log| && After(cfg, s, es).log[i].Served?
    ensures var r := After(cfg, s, es).log[i];
            && r.provider in cfg
            && HeldWithin(After(cfg, s, es).store, r, Bound(cfg[r.provider], r.source))
            && (r.critical ==> r.source != Stale)
  {
    StalenessAlongRun(cfg, s, es);
    assert Timely(cfg, After(cfg, s, es), After(cfg, s, es).log[i]);
  }
}
