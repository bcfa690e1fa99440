/**
 The provider's calls and the steps of the interleaved system agree: a call that
 no other step interrupts, but for the clock, returns and leaves in the cache
 exactly what the steps of its caller do.
 */
module ProviderRuns {
  import opened Options
  import opened SecretCache
  import opened VaultStore
  import opened SecretRuns
  import Calls = SecretProvider

  /** The program's cache: the entries without their version numbers. */
  function Plain(cache: TaggedCache): Entries {
    map k | k in cache :: cache[k].entry
  }

  /** What the caller of a get sees of a run: a new answer in the log, or none. */
  ghost predicate Observed(before: State, after: State, c: Caller, k: CacheKey, critical: bool, r: Calls.Result<string>) {
    if r.Ok? then
      && |after.log| == |before.log| + 1 && after.log[..|before.log|] == before.log
      && after.log[|before.log|].Served?
      && var b := after.log[|before.log|];
         b.provider == c.provider && b.key == k && b.value == r.value && b.critical == critical
    else after.log == before.log
  }

  /** The steps of a get whose clock readings and reply are those of the inputs. */
  function GetEvents(s: State, c: Caller, k: CacheKey, critical: bool, i: Calls.GetInputs): seq<Event>
    requires i.checkedAt <= i.touchedAt && i.checkedAt <= i.repliedAt
  {
    var cache := CacheOf(s, c.provider);
    if k in cache && IsFresh(cache[k].entry, i.checkedAt) then
      [GetLoad(c, k, critical), Tick(i.touchedAt - i.checkedAt), GetStore(c)]
    else
      var reply := if !i.authenticated then Calls.Failed
                   else if i.first.Forbidden? && i.reauthenticated then i.second
                   else i.first;
      [GetLoad(c, k, critical), Tick(i.repliedAt - i.checkedAt),
       if reply.Given? then GetReply(c) else GetFail(c, reply.Forbidden?)]
  }

  lemma ThreeSteps(cfg: Config, s: State, a: Event, b: Event, c: Event)
    requires Enabled(cfg, s, a) && Enabled(cfg, Step(cfg, s, a), b) && Enabled(cfg, Step(cfg, Step(cfg, s, a), b), c)
    ensures Legal(cfg, s, [a, b, c]) && After(cfg, s, [a, b, c]) == Step(cfg, Step(cfg, Step(cfg, s, a), b), c)
  {
    assert [a, b, c][..2] == [a, b] && [a, b][..1] == [a] && [a][..0] == [];
    assert Legal(cfg, s, []) && After(cfg, s, []) == s;
    assert Legal(cfg, s, [a]) && After(cfg, s, [a]) == Step(cfg, s, a);
    assert Legal(cfg, s, [a, b]) && After(cfg, s, [a, b]) == Step(cfg, Step(cfg, s, a), b);
  }

  ghost predicate Holds(store: Store, path: string, data: Data) {
    Current(store, path).Some? && Current(store, path).value.data == data
  }

  /** What a get is given, by its first read or by the one repeated after a refusal, is what Vault holds. */
  ghost predicate FromVault(store: Store, path: string, i: Calls.GetInputs) {
    && (i.authenticated && i.first.Given? ==> Holds(store, path, i.first.payload))
    && (i.authenticated && i.first.Forbidden? && i.reauthenticated && i.second.Given? ==> Holds(store, path, i.second.payload))
  }

  lemma PlainUpdate(cache: TaggedCache, k: CacheKey, t: Tagged)
    ensures Plain(cache[k := t]) == Plain(cache)[k := t.entry]
  {
  }

  lemma PlainFlush(cache: TaggedCache, path: string)
    ensures Plain(cache - (set k | k in cache && Selected(k, path))) == Plain(cache) - FlushedKeys(Plain(cache), path)
  {
  }

  /** The states of an uninterrupted fresh hit. */
  lemma HitRun(cfg: Config, s: State, c: Caller, k: CacheKey, critical: bool, wait: nat)
    requires c.provider in cfg && CallOf(s, c).Idle? && k.key != ""
    requires k in CacheOf(s, c.provider) && IsFresh(CacheOf(s, c.provider)[k].entry, s.now)
    ensures var es := [GetLoad(c, k, critical), Tick(wait), GetStore(c)];
            var hit := CacheOf(s, c.provider)[k];
            && Legal(cfg, s, es)
            && CacheOf(After(cfg, s, es), c.provider)
               == CacheOf(s, c.provider)[k := hit.(entry := Touched(hit.entry, s.now + wait))]
            && CallOf(After(cfg, s, es), c).Idle?
            && After(cfg, s, es).log == s.log + [Served(c.provider, k, hit.entry.value, hit.origin, critical, Fresh, s.now)]
  {
    var hit := CacheOf(s, c.provider)[k];
    var s1 := WithCall(s, c, GetHit(k, critical, hit, s.now));
    assert Defaulted(k) == k && Step(cfg, s, GetLoad(c, k, critical)) == s1;
    assert Step(cfg, s1, Tick(wait)) == s1.(now := s.now + wait);
    ThreeSteps(cfg, s, GetLoad(c, k, critical), Tick(wait), GetStore(c));
  }

  /** A miss leaves a call that waits for Vault. */
  lemma MissRun(cfg: Config, s: State, c: Caller, k: CacheKey, critical: bool, wait: nat, reply: Event)
    requires c.provider in cfg && CallOf(s, c).Idle? && k.key != ""
    requires !(k in CacheOf(s, c.provider) && IsFresh(CacheOf(s, c.provider)[k].entry, s.now))
    requires Enabled(cfg, WithCall(s, c, GetMiss(k, critical)).(now := s.now + wait), reply)
    ensures var es := [GetLoad(c, k, critical), Tick(wait), reply];
            && Legal(cfg, s, es)
            && After(cfg, s, es) == Step(cfg, WithCall(s, c, GetMiss(k, critical)).(now := s.now + wait), reply)
  {
    var s1 := WithCall(s, c, GetMiss(k, critical));
    assert Defaulted(k) == k && Step(cfg, s, GetLoad(c, k, critical)) == s1;
    assert Step(cfg, s1, Tick(wait)) == s1.(now := s.now + wait);
    ThreeSteps(cfg, s, GetLoad(c, k, critical), Tick(wait), reply);
  }

  lemma UninterruptedHit(cfg: Config, s: State, c: Caller, k: CacheKey, critical: bool, wait: nat)
    requires c.provider in cfg && CallOf(s, c).Idle? && k.key != ""
    requires k in CacheOf(s, c.provider) && IsFresh(CacheOf(s, c.provider)[k].entry, s.now)
    ensures var was, es := Plain(CacheOf(s, c.provider)), [GetLoad(c, k, critical), Tick(wait), GetStore(c)];
            ShownBy(cfg, s, es, c, k, critical, was[k := Touched(was[k], s.now + wait)], Calls.Ok(was[k].value))
  {
    var cache := CacheOf(s, c.provider);
    HitRun(cfg, s, c, k, critical, wait);
    PlainUpdate(cache, k, cache[k].(entry := Touched(cache[k].entry, s.now + wait)));
  }

  /** What a reply does to the cache and the log. */
  lemma ReplyEffect(cfg: Config, s: State, c: Caller, k: CacheKey, critical: bool)
    requires Enabled(cfg, s, GetReply(c)) && CallOf(s, c) == GetMiss(k, critical)
    ensures var s', data, n := Step(cfg, s, GetReply(c)), Current(s.store, k.path).value.data, CurrentVersion(s.store, k.path);
            && CallOf(s', c).Idle?
            && if k.key in data && data[k.key].Text? then
                 && CacheOf(s', c.provider)
                    == CacheOf(s, c.provider)[k := Tagged(NewEntry(data[k.key].text, s.now, cfg[c.provider].ttl), n)]
                 && s'.log == s.log + [Served(c.provider, k, data[k.key].text, n, critical, Direct, s.now)]
               else CacheOf(s', c.provider) == CacheOf(s, c.provider) && s'.log == s.log
  {
  }

  lemma UninterruptedReply(cfg: Config, s: State, c: Caller, k: CacheKey, critical: bool, wait: nat, data: Data,
                           now: Entries, r: Calls.Result<string>)
    requires c.provider in cfg && CallOf(s, c).Idle? && k.key != "" && Holds(s.store, k.path, data)
    requires !(k in CacheOf(s, c.provider) && IsFresh(CacheOf(s, c.provider)[k].entry, s.now))
    requires Calls.Replied(Plain(CacheOf(s, c.provider)), now, k, critical, Calls.Given(data), s.now + wait,
                           cfg[c.provider].ttl, cfg[c.provider].maxStaleness, r)
    ensures ShownBy(cfg, s, [GetLoad(c, k, critical), Tick(wait), GetReply(c)], c, k, critical, now, r)
  {
    var cache := CacheOf(s, c.provider);
    var s2 := WithCall(s, c, GetMiss(k, critical)).(now := s.now + wait);
    MissRun(cfg, s, c, k, critical, wait, GetReply(c));
    assert CacheOf(s2, c.provider) == cache;
    ReplyEffect(cfg, s2, c, k, critical);
    if k.key in data && data[k.key].Text? {
      PlainUpdate(cache, k, Tagged(NewEntry(data[k.key].text, s.now + wait, cfg[c.provider].ttl), CurrentVersion(s.store, k.path)));
    }
  }

  /** What a failure does. */
  lemma FailEffect(cfg: Config, s: State, c: Caller, k: CacheKey, critical: bool, forbidden: bool)
    requires c.provider in cfg && CallOf(s, c) == GetMiss(k, critical)
    ensures var s', cache := Step(cfg, s, GetFail(c, forbidden)), CacheOf(s, c.provider);
            && CallOf(s', c).Idle? && CacheOf(s', c.provider) == cache
            && s'.log == s.log + if !forbidden && !critical && k in cache
                                    && IsServable(cache[k].entry, s.now, cfg[c.provider].maxStaleness)
                                 then [Served(c.provider, k, cache[k].entry.value, cache[k].origin, false, Stale, s.now)] else []
  {
  }

  lemma UninterruptedFailure(cfg: Config, s: State, c: Caller, k: CacheKey, critical: bool, wait: nat, reply: Calls.Reply<Data>,
                             now: Entries, r: Calls.Result<string>)
    requires c.provider in cfg && CallOf(s, c).Idle? && k.key != "" && !reply.Given?
    requires !(k in CacheOf(s, c.provider) && IsFresh(CacheOf(s, c.provider)[k].entry, s.now))
    requires Calls.Replied(Plain(CacheOf(s, c.provider)), now, k, critical, reply, s.now + wait,
                           cfg[c.provider].ttl, cfg[c.provider].maxStaleness, r)
    ensures ShownBy(cfg, s, [GetLoad(c, k, critical), Tick(wait), GetFail(c, reply.Forbidden?)], c, k, critical, now, r)
  {
    var s2 := WithCall(s, c, GetMiss(k, critical)).(now := s.now + wait);
    MissRun(cfg, s, c, k, critical, wait, GetFail(c, reply.Forbidden?));
    assert CacheOf(s2, c.provider) == CacheOf(s, c.provider);
    FailEffect(cfg, s2, c, k, critical, reply.Forbidden?);
  }

  /** A call `now`, `r` of the provider's get, given the clock readings and the reply that state s provides. */
  ghost predicate Setting(cfg: Config, s: State, c: Caller, k: CacheKey, critical: bool, i: Calls.GetInputs,
                          now: Entries, r: Calls.Result<string>) {
    && c.provider in cfg && CallOf(s, c).Idle? && k.key != ""
    && i.checkedAt == s.now <= i.touchedAt && s.now <= i.repliedAt && FromVault(s.store, k.path, i)
    && Calls.Answers(Plain(CacheOf(s, c.provider)), now, k, critical, i, cfg[c.provider].ttl, cfg[c.provider].maxStaleness, r)
  }

  /** The steps are possible, and end in the same cache with the same answer. */
  ghost predicate ShownBy(cfg: Config, s: State, es: seq<Event>, c: Caller, k: CacheKey, critical: bool,
                          now: Entries, r: Calls.Result<string>) {
    && Legal(cfg, s, es)
    && Plain(CacheOf(After(cfg, s, es), c.provider)) == now
    && CallOf(After(cfg, s, es), c).Idle?
    && Observed(s, After(cfg, s, es), c, k, critical, r)
  }

  /**
   An uninterrupted get: whatever a call of the provider may return, given these readings and
   this reply, is what the run returns, and the cache it leaves is the run's.
   */
  lemma UninterruptedGet(cfg: Config, s: State, c: Caller, k: CacheKey, critical: bool, i: Calls.GetInputs,
                         now: Entries, r: Calls.Result<string>)
    requires Setting(cfg, s, c, k, critical, i, now, r)
    ensures ShownBy(cfg, s, GetEvents(s, c, k, critical, i), c, k, critical, now, r)
  {
    var reply := if !i.authenticated then Calls.Failed
                 else if i.first.Forbidden? && i.reauthenticated then i.second
                 else i.first;
    var was, st := Plain(CacheOf(s, c.provider)), cfg[c.provider];
    if k in CacheOf(s, c.provider) && IsFresh(CacheOf(s, c.provider)[k].entry, s.now) {
      UninterruptedHit(cfg, s, c, k, critical, i.touchedAt - i.checkedAt);
    } else {
      Calls.ReplyDecides(was, now, k, critical, i, st.ttl, st.maxStaleness, r, reply);
      if reply.Given? {
        UninterruptedReply(cfg, s, c, k, critical, i.repliedAt - i.checkedAt, reply.payload, now, r);
      } else {
        UninterruptedFailure(cfg, s, c, k, critical, i.repliedAt - i.checkedAt, reply, now, r);
      }
    }
  }

  // ---------- Puts ----------

  lemma FlushEffect(cfg: Config, s: State, c: Caller, path: string, n: nat)
    requires c.provider in cfg && CallOf(s, c) == PutFlushing(path, n)
    ensures var s', was := Step(cfg, s, PutFlush(c)), Plain(CacheOf(s, c.provider));
            && Plain(CacheOf(s', c.provider)) == was - FlushedKeys(was, path)
            && s'.log == s.log + [Wrote(c.provider, path, n)] && s'.store == s.store
  {
    PlainFlush(CacheOf(s, c.provider), path);
  }

  /** A step of the caller itself, or a rival's write to the path. */
  predicate OwnOrRival(e: Event, c: Caller, path: string) {
    Actor(e) == Some(c) || (e.OutsideWrite? && e.path == path)
  }

  /** The second state is reached from the first by steps of the caller and rival writes alone. */
  ghost predicate Along(cfg: Config, s: State, s': State, c: Caller, path: string) {
    exists es :: Legal(cfg, s, es) && After(cfg, s, es) == s' && OwnEvents(es, c, path)
  }

  ghost predicate OwnEvents(es: seq<Event>, c: Caller, path: string) {
    forall i :: 0 <= i < |es| ==> OwnOrRival(es[i], c, path)
  }

  lemma StaysAlong(cfg: Config, s: State, c: Caller, path: string)
    ensures Along(cfg, s, s, c, path)
  {
    assert Legal(cfg, s, []) && After(cfg, s, []) == s && OwnEvents([], c, path);
  }

  lemma StepAlong(cfg: Config, s: State, m: State, e: Event, c: Caller, path: string)
    requires Along(cfg, s, m, c, path) && Enabled(cfg, m, e) && OwnOrRival(e, c, path)
    ensures Along(cfg, s, Step(cfg, m, e), c, path)
  {
    var es :| Legal(cfg, s, es) && After(cfg, s, es) == m && OwnEvents(es, c, path);
    assert (es + [e])[..|es|] == es;
    assert Legal(cfg, s, es + [e]) && After(cfg, s, es + [e]) == Step(cfg, m, e);
    assert OwnEvents(es + [e], c, path);
  }

  /** The states agree on everything a put of this provider sees, except Vault. */
  ghost predicate SameSide(m: State, s: State, c: Caller) {
    CacheOf(m, c.provider) == CacheOf(s, c.provider) && m.log == s.log
  }

  lemma {:induction false} RivalsWrite(cfg: Config, s: State, m: State, c: Caller, path: string, k: nat) returns (m': State)
    requires Along(cfg, s, m, c, path)
    ensures Along(cfg, s, m', c, path) && SameSide(m', m, c) && CallOf(m', c) == CallOf(m, c)
    ensures CurrentVersion(m'.store, path) == CurrentVersion(m.store, path) + k
    decreases k
  {
    if k == 0 {
      m' := m;
    } else {
      var n := RivalsWrite(cfg, s, m, c, path, k - 1);
      m' := Step(cfg, n, OutsideWrite(path, map[]));
      StepAlong(cfg, s, n, OutsideWrite(path, map[]), c, path);
    }
  }

  /** The versions rivals have added in the first m attempts: rivals(k) between the read and the write of attempt k. */
  function Added(rivals: nat -> nat, m: nat): nat {
    if m == 0 then 0 else Added(rivals, m - 1) + rivals(m - 1)
  }

  /** The replies up to attempt n are Vault's, when the path began at this version: a conflict means a rival. */
  ghost predicate RepliesFromVault(i: Calls.PutInputs, begin: nat, rivals: nat -> nat, n: nat, limit: nat) {
    forall m :: 0 <= m <= n && m < limit && (i.versions(m).Given? || i.versions(m).NotFound?) ==>
      && i.versions(m) == (if begin + Added(rivals, m) == 0 then Calls.NotFound else Calls.Given(begin + Added(rivals, m)))
      && (i.writes(m).Conflict? ==> rivals(m) > 0)
      && (i.writes(m).Given? ==> rivals(m) == 0)
  }

  /** Before attempt m: nothing has changed but Vault, and the attempt is next, or the put is over. */
  ghost predicate BeforeAttempt(cfg: Config, s: State, x: State, c: Caller, path: string, data: Data, rivals: nat -> nat, m: nat) {
    var begin := CurrentVersion(s.store, path);
    && c.provider in cfg
    && Along(cfg, s, x, c, path) && SameSide(x, s, c)
    && CurrentVersion(x.store, path) == begin + Added(rivals, m)
    && CallOf(x, c) == if m < cfg[c.provider].retryAttempts then PutReading(path, data, m, begin) else Idle
  }

  lemma PutBegins(cfg: Config, s: State, c: Caller, path: string, data: Data, rivals: nat -> nat) returns (x: State)
    requires c.provider in cfg && cfg[c.provider].retryAttempts > 0 && CallOf(s, c).Idle?
    ensures BeforeAttempt(cfg, s, x, c, path, data, rivals, 0)
  {
    StaysAlong(cfg, s, c, path);
    StepAlong(cfg, s, s, PutStart(c, path, data), c, path);
    x := Step(cfg, s, PutStart(c, path, data));
  }

  /** Reading the version. */
  lemma VersionRead(cfg: Config, s: State, x: State, c: Caller, path: string, data: Data, rivals: nat -> nat, m: nat) returns (y: State)
    requires BeforeAttempt(cfg, s, x, c, path, data, rivals, m) && m < cfg[c.provider].retryAttempts
    ensures Along(cfg, s, y, c, path) && SameSide(y, s, c)
    ensures var begin := CurrentVersion(s.store, path);
            && CurrentVersion(y.store, path) == begin + Added(rivals, m)
            && CallOf(y, c) == PutWriting(path, data, m, begin, begin + Added(rivals, m))
  {
    StepAlong(cfg, s, x, PutVersion(c, true), c, path);
    y := Step(cfg, x, PutVersion(c, true));
  }

  /** A write that meets a conflict. */
  lemma ConflictEffect(cfg: Config, x: State, c: Caller)
    requires Enabled(cfg, x, PutWrite(c, true)) && CallOf(x, c).cas != CurrentVersion(x.store, CallOf(x, c).path)
    ensures var x', call := Step(cfg, x, PutWrite(c, true)), CallOf(x, c);
            && SameSide(x', x, c) && x'.store == x.store
            && CallOf(x', c) == if call.attempt + 1 < cfg[c.provider].retryAttempts
                                then PutReading(call.path, call.data, call.attempt + 1, call.begun) else Idle
  {
  }

  lemma NextAttempt(cfg: Config, s: State, x: State, c: Caller, path: string, data: Data, rivals: nat -> nat, m: nat) returns (y: State)
    requires BeforeAttempt(cfg, s, x, c, path, data, rivals, m) && m < cfg[c.provider].retryAttempts && rivals(m) > 0
    ensures BeforeAttempt(cfg, s, y, c, path, data, rivals, m + 1)
  {
    var read := VersionRead(cfg, s, x, c, path, data, rivals, m);
    var raced := RivalsWrite(cfg, s, read, c, path, rivals(m));
    StepAlong(cfg, s, raced, PutWrite(c, true), c, path);
    ConflictEffect(cfg, raced, c);
    y := Step(cfg, raced, PutWrite(c, true));
  }

  /** Every attempt before n meets a rival. */
  ghost predicate RivalsBefore(rivals: nat -> nat, n: nat) {
    forall m: nat :: m < n ==> rivals(m) > 0
  }

  lemma ConflictsMeanRivals(i: Calls.PutInputs, begin: nat, rivals: nat -> nat, n: nat, limit: nat)
    requires Calls.Decides(i, n, limit) && RepliesFromVault(i, begin, rivals, n, limit)
    ensures RivalsBefore(rivals, n)
  {
    forall m: nat | m < n
      ensures rivals(m) > 0
    {
      assert Calls.Retries(i, m);
    }
  }

  lemma {:induction false} AfterConflicts(cfg: Config, s: State, c: Caller, path: string, data: Data, rivals: nat -> nat, m: nat)
    returns (x: State)
    requires c.provider in cfg && 0 < cfg[c.provider].retryAttempts && m <= cfg[c.provider].retryAttempts
    requires CallOf(s, c).Idle? && RivalsBefore(rivals, m)
    ensures BeforeAttempt(cfg, s, x, c, path, data, rivals, m)
    decreases m
  {
    if m == 0 {
      x := PutBegins(cfg, s, c, path, data, rivals);
    } else {
      var y := AfterConflicts(cfg, s, c, path, data, rivals, m - 1);
      x := NextAttempt(cfg, s, y, c, path, data, rivals, m - 1);
    }
  }

  /** How a run shows a put: its answer, its cache, and on success its version directly above the last one sent. */
  ghost predicate PutShown(s: State, x: State, c: Caller, path: string, data: Data, now: Entries, r: Calls.Result<()>, sent: seq<nat>) {
    && CallOf(x, c).Idle?
    && Plain(CacheOf(x, c.provider)) == now
    && if r.Ok? then
         && sent != [] && CurrentVersion(x.store, path) == sent[|sent| - 1] + 1
         && Versions(x.store, path)[sent[|sent| - 1]].data == data
         && x.log == s.log + [Wrote(c.provider, path, sent[|sent| - 1] + 1)]
       else x.log == s.log
  }

  lemma WriteEffect(cfg: Config, x: State, c: Caller)
    requires Enabled(cfg, x, PutWrite(c, true)) && CallOf(x, c).cas == CurrentVersion(x.store, CallOf(x, c).path)
    ensures var x', call := Step(cfg, x, PutWrite(c, true)), CallOf(x, c);
            && SameSide(x', x, c) && CallOf(x', c) == PutFlushing(call.path, call.cas + 1)
            && x'.store == Append(x.store, call.path, call.data, x.now)
  {
  }

  lemma PutSucceeds(cfg: Config, s: State, x: State, c: Caller, path: string, data: Data, rivals: nat -> nat, n: nat) returns (y: State)
    requires BeforeAttempt(cfg, s, x, c, path, data, rivals, n) && n < cfg[c.provider].retryAttempts
    ensures Along(cfg, s, y, c, path) && CallOf(y, c).Idle?
    ensures var was, base := Plain(CacheOf(s, c.provider)), CurrentVersion(s.store, path) + Added(rivals, n);
            && Plain(CacheOf(y, c.provider)) == was - FlushedKeys(was, path)
            && CurrentVersion(y.store, path) == base + 1 && Versions(y.store, path)[base].data == data
            && y.log == s.log + [Wrote(c.provider, path, base + 1)]
  {
    var read := VersionRead(cfg, s, x, c, path, data, rivals, n);
    WriteEffect(cfg, read, c);
    StepAlong(cfg, s, read, PutWrite(c, true), c, path);
    var written := Step(cfg, read, PutWrite(c, true));
    FlushEffect(cfg, written, c, path, CurrentVersion(s.store, path) + Added(rivals, n) + 1);
    StepAlong(cfg, s, written, PutFlush(c), c, path);
    y := Step(cfg, written, PutFlush(c));
  }

  /** A reply that does not come, at the version read or at the write, ends the put. */
  lemma PutFails(cfg: Config, s: State, x: State, c: Caller, path: string, data: Data, rivals: nat -> nat, n: nat, atWrite: bool)
    returns (y: State)
    requires BeforeAttempt(cfg, s, x, c, path, data, rivals, n) && n < cfg[c.provider].retryAttempts
    ensures Along(cfg, s, y, c, path) && SameSide(y, s, c) && CallOf(y, c).Idle?
  {
    if atWrite {
      var read := VersionRead(cfg, s, x, c, path, data, rivals, n);
      StepAlong(cfg, s, read, PutWrite(c, false), c, path);
      y := Step(cfg, read, PutWrite(c, false));
    } else {
      StepAlong(cfg, s, x, PutVersion(c, false), c, path);
      y := Step(cfg, x, PutVersion(c, false));
    }
  }

  /**
   A put among rivals: whatever a call of the provider may return, given replies of a Vault to
   which rivals add versions between its reads and its writes, is what a run of its own steps
   and those rival writes shows, with the same cache.
   */
  lemma PutAmongRivals(cfg: Config, s: State, c: Caller, path: string, data: Data, i: Calls.PutInputs, rivals: nat -> nat,
                       n: nat, now: Entries, r: Calls.Result<()>, sent: seq<nat>) returns (x: State)
    requires c.provider in cfg && cfg[c.provider].retryAttempts > 0 && CallOf(s, c).Idle?
    requires RepliesFromVault(i, CurrentVersion(s.store, path), rivals, n, cfg[c.provider].retryAttempts)
    requires Calls.PutAnswers(Plain(CacheOf(s, c.provider)), now, path, i, cfg[c.provider].retryAttempts, n, r, sent)
    ensures Along(cfg, s, x, c, path) && PutShown(s, x, c, path, data, now, r, sent)
    ensures forall m :: 0 <= m < |sent| ==> sent[m] == CurrentVersion(s.store, path) + Added(rivals, m)
  {
    PutFacts(Plain(CacheOf(s, c.provider)), now, path, i, cfg[c.provider].retryAttempts, n, r, sent,
             CurrentVersion(s.store, path), rivals);
    x := PutRun(cfg, s, c, path, data, rivals, n, r.Ok?, Calls.ReachesWrite(i, n));
    ShownPut(cfg, s, x, c, path, data, rivals, n, now, r, sent);
  }

  /** What the contract of a put comes to. */
  lemma PutFacts(was: Entries, now: Entries, path: string, i: Calls.PutInputs, limit: nat, n: nat,
                 r: Calls.Result<()>, sent: seq<nat>, begin: nat, rivals: nat -> nat)
    requires Calls.PutAnswers(was, now, path, i, limit, n, r, sent) && RepliesFromVault(i, begin, rivals, n, limit)
    ensures n <= limit && RivalsBefore(rivals, n)
    ensures forall m :: 0 <= m < |sent| ==> sent[m] == begin + Added(rivals, m)
    ensures r.Ok? ==> n < limit && |sent| == n + 1
    ensures now == if r.Ok? then was - FlushedKeys(was, path) else was
  {
    ConflictsMeanRivals(i, begin, rivals, n, limit);
    AllVersionsSent(was, now, path, i, limit, n, r, sent, begin, rivals);
  }

  lemma PutRun(cfg: Config, s: State, c: Caller, path: string, data: Data, rivals: nat -> nat, n: nat, ok: bool, atWrite: bool)
    returns (x: State)
    requires c.provider in cfg && 0 < cfg[c.provider].retryAttempts && n <= cfg[c.provider].retryAttempts
    requires CallOf(s, c).Idle? && RivalsBefore(rivals, n) && (ok ==> n < cfg[c.provider].retryAttempts)
    ensures Along(cfg, s, x, c, path) && CallOf(x, c).Idle? && Ended(s, x, c, path, data, rivals, n, ok)
  {
    var y := AfterConflicts(cfg, s, c, path, data, rivals, n);
    if ok {
      x := PutSucceeds(cfg, s, y, c, path, data, rivals, n);
    } else {
      x := PutFailsOrGivesUp(cfg, s, y, c, path, data, rivals, n, atWrite);
    }
  }

  ghost predicate Ended(s: State, x: State, c: Caller, path: string, data: Data, rivals: nat -> nat, n: nat, ok: bool) {
    var was, base := Plain(CacheOf(s, c.provider)), CurrentVersion(s.store, path) + Added(rivals, n);
    if ok then
      && Plain(CacheOf(x, c.provider)) == was - FlushedKeys(was, path)
      && CurrentVersion(x.store, path) == base + 1 && Versions(x.store, path)[base].data == data
      && x.log == s.log + [Wrote(c.provider, path, base + 1)]
    else Plain(CacheOf(x, c.provider)) == was && x.log == s.log
  }

  lemma ShownPut(cfg: Config, s: State, x: State, c: Caller, path: string, data: Data, rivals: nat -> nat, n: nat,
                 now: Entries, r: Calls.Result<()>, sent: seq<nat>)
    requires CallOf(x, c).Idle? && Ended(s, x, c, path, data, rivals, n, r.Ok?)
    requires forall m :: 0 <= m < |sent| ==> sent[m] == CurrentVersion(s.store, path) + Added(rivals, m)
    requires r.Ok? ==> |sent| == n + 1
    requires var was := Plain(CacheOf(s, c.provider)); now == if r.Ok? then was - FlushedKeys(was, path) else was
    ensures PutShown(s, x, c, path, data, now, r, sent)
  {
  }

  /** What is sent is what the path began with and the rivals have added. */
  lemma VersionSent(was: Entries, now: Entries, path: string, i: Calls.PutInputs, limit: nat, n: nat,
                    r: Calls.Result<()>, sent: seq<nat>, begin: nat, rivals: nat -> nat, m: nat)
    requires Calls.PutAnswers(was, now, path, i, limit, n, r, sent) && RepliesFromVault(i, begin, rivals, n, limit) && m < |sent|
    ensures sent[m] == begin + Added(rivals, m)
  {
    Calls.SentIsRead(was, now, path, i, limit, n, r, sent, m);
  }

  lemma AllVersionsSent(was: Entries, now: Entries, path: string, i: Calls.PutInputs, limit: nat, n: nat,
                        r: Calls.Result<()>, sent: seq<nat>, begin: nat, rivals: nat -> nat)
    requires Calls.PutAnswers(was, now, path, i, limit, n, r, sent) && RepliesFromVault(i, begin, rivals, n, limit)
    ensures forall m :: 0 <= m < |sent| ==> sent[m] == begin + Added(rivals, m)
  {
    forall m: nat | m < |sent|
      ensures sent[m] == begin + Added(rivals, m)
    {
      VersionSent(was, now, path, i, limit, n, r, sent, begin, rivals, m);
    }
  }

  lemma PutFailsOrGivesUp(cfg: Config, s: State, y: State, c: Caller, path: string, data: Data, rivals: nat -> nat, n: nat,
                          atWrite: bool) returns (x: State)
    requires BeforeAttempt(cfg, s, y, c, path, data, rivals, n) && n <= cfg[c.provider].retryAttempts
    ensures Along(cfg, s, x, c, path) && SameSide(x, s, c) && CallOf(x, c).Idle?
  {
    if n == cfg[c.provider].retryAttempts {
      x := y;
    } else {
      x := PutFails(cfg, s, y, c, path, data, rivals, n, atWrite);
    }
  }

  /** Without rivals a put succeeds at once, and leaves in the cache what the provider's put leaves on success. */
  lemma UninterruptedPut(cfg: Config, s: State, c: Caller, path: string, data: Data) returns (x: State)
    requires c.provider in cfg && cfg[c.provider].retryAttempts > 0 && CallOf(s, c).Idle?
    ensures Along(cfg, s, x, c, path)
    ensures var was, base := Plain(CacheOf(s, c.provider)), CurrentVersion(s.store, path);
            && Plain(CacheOf(x, c.provider)) == was - FlushedKeys(was, path)
            && CurrentVersion(x.store, path) == base + 1 && Versions(x.store, path)[base].data == data
            && x.log == s.log + [Wrote(c.provider, path, base + 1)]
  {
    var begun := PutBegins(cfg, s, c, path, data, n => 0);
    x := PutSucceeds(cfg, s, begun, c, path, data, n => 0, 0);
  }
}
