/**
 The provider's calls, one at a time, with every reply of Vault and every clock
 reading as an input. Log lines, metrics and the memory of recent failures are
 dropped; authentication is reduced to whether it succeeded.
 */
module SecretProvider {
  import opened SecretCache
  import opened VaultStore

  datatype Error = InvalidPath | Unavailable | PolicyDenied

  datatype Result<T> = Ok(value: T) | Err(error: Error)

  /** A reply of Vault: 403, 404, a check-and-set conflict, and every other failure are told apart. */
  datatype Reply<T> = Given(payload: T) | Forbidden | NotFound | Conflict | Failed

  function Translate<T>(r: Reply<T>): Error
    requires !r.Given?
  {
    if r.Forbidden? then PolicyDenied else Unavailable
  }

  datatype GetInputs = GetInputs(
    pathOk: bool, checkedAt: int, touchedAt: int, authenticated: bool,
    first: Reply<Data>, reauthenticated: bool, second: Reply<Data>, repliedAt: int)

  /** What a get that found nothing fresh returns and leaves behind, given Vault's reply at `at`. */
  predicate Replied(was: Entries, now: Entries, k: CacheKey, critical: bool, reply: Reply<Data>, at: int,
                    ttl: int, maxStaleness: int, r: Result<string>) {
    if reply.Given? then
      var data := reply.payload;
      if k.key in data && data[k.key].Text? then
        r == Ok(data[k.key].text) && now == was[k := NewEntry(data[k.key].text, at, ttl)]
      else
        r == Err(Unavailable) && now == was
    else
      && now == was
      && (r.Ok? <==> !reply.Forbidden? && !critical && k in was && IsServable(was[k], at, maxStaleness))
      && (r.Ok? ==> r.value == was[k].value)
      && (r.Err? ==> r.error == if reply.Forbidden? then PolicyDenied else Unavailable)
  }

  /** What a get of `k` returns and leaves behind; a refused first read is repeated once after a re-authentication. */
  predicate Answers(was: Entries, now: Entries, k: CacheKey, critical: bool, i: GetInputs,
                    ttl: int, maxStaleness: int, r: Result<string>) {
    if k in was && IsFresh(was[k], i.checkedAt) then
      r == Ok(was[k].value) && now == was[k := Touched(was[k], i.touchedAt)]
    else if !i.authenticated then Replied(was, now, k, critical, Failed, i.repliedAt, ttl, maxStaleness, r)
    else if i.first.Forbidden? && i.reauthenticated then Replied(was, now, k, critical, i.second, i.repliedAt, ttl, maxStaleness, r)
    else Replied(was, now, k, critical, i.first, i.repliedAt, ttl, maxStaleness, r)
  }

  /**
   In plain terms: a fresh entry answers; else the second read decides if the first was refused and
   re-authentication worked, the first if not, and without authentication there is no reply. A reply
   with the key is cached and returned. A refusal is an error; any other failure is answered from an
   entry young enough, unless the get is critical.
   */
  lemma GetExactly(was: Entries, now: Entries, k: CacheKey, critical: bool, i: GetInputs,
                   ttl: int, maxStaleness: int, r: Result<string>)
    ensures Answers(was, now, k, critical, i, ttl, maxStaleness, r) <==>
      if k in was && i.checkedAt <= was[k].expiresAt then
        r == Ok(was[k].value) && now == was[k := was[k].(lastAccessed := i.touchedAt)]
      else
        var reply := if !i.authenticated then Failed
                     else if i.first.Forbidden? && i.reauthenticated then i.second
                     else i.first;
        match reply
        case Given(data) =>
          if k.key in data && data[k.key].Text? then
            && r == Ok(data[k.key].text)
            && now == was[k := CacheEntry(data[k.key].text, i.repliedAt + ttl, i.repliedAt, i.repliedAt)]
          else r == Err(Unavailable) && now == was
        case Forbidden => r == Err(PolicyDenied) && now == was
        case _ =>
          && now == was
          && r == if !critical && k in was && 0 <= i.repliedAt - was[k].lastSuccess <= maxStaleness
                  then Ok(was[k].value) else Err(Unavailable)
  {
  }

  /** The reply that decides, when nothing fresh is cached. */
  lemma ReplyDecides(was: Entries, now: Entries, k: CacheKey, critical: bool, i: GetInputs,
                     ttl: int, maxStaleness: int, r: Result<string>, reply: Reply<Data>)
    requires Answers(was, now, k, critical, i, ttl, maxStaleness, r) && !(k in was && i.checkedAt <= was[k].expiresAt)
    requires reply == if !i.authenticated then Failed else if i.first.Forbidden? && i.reauthenticated then i.second else i.first
    ensures Replied(was, now, k, critical, reply, i.repliedAt, ttl, maxStaleness, r)
  {
  }

  /** After a refused first read and a successful re-authentication, the second read answers. */
  lemma SecondReadAnswers(was: Entries, now: Entries, k: CacheKey, critical: bool, i: GetInputs,
                          ttl: int, maxStaleness: int, r: Result<string>, value: string)
    requires Answers(was, now, k, critical, i, ttl, maxStaleness, r) && k !in was
    requires i.authenticated && i.first == Forbidden && i.reauthenticated && i.second == Given(map[k.key := Text(value)])
    ensures r == Ok(value) && now == was[k := CacheEntry(value, i.repliedAt + ttl, i.repliedAt, i.repliedAt)]
  {
    GetExactly(was, now, k, critical, i, ttl, maxStaleness, r);
  }

  datatype PutInputs = PutInputs(
    pathOk: bool, authenticated: bool, versions: nat -> Reply<nat>, writes: nat -> Reply<()>)

  predicate ReachesWrite(i: PutInputs, n: nat) {
    i.versions(n).Given? || i.versions(n).NotFound?
  }

  /** Attempt n reached the write and met a conflict, so the loop goes on. */
  predicate Retries(i: PutInputs, n: nat) {
    ReachesWrite(i, n) && i.writes(n).Conflict?
  }

  /** `n` is the attempt that decides a put: the first that is not a conflict, or the limit itself. */
  ghost predicate Decides(i: PutInputs, n: nat, limit: nat) {
    && n <= limit
    && (forall m :: 0 <= m < n ==> Retries(i, m))
    && (n < limit ==> !Retries(i, n))
  }

  /** What a put that attempt n decides returns, leaves in the cache, and has sent. */
  ghost predicate PutAnswers(was: Entries, now: Entries, path: string, i: PutInputs, limit: nat, n: nat,
                             r: Result<()>, sent: seq<nat>) {
    && Decides(i, n, limit)
    && |sent| == (if n < limit && ReachesWrite(i, n) then n + 1 else n)
    && (forall m :: 0 <= m < |sent| ==> sent[m] == if i.versions(m).Given? then i.versions(m).payload else 0)
    && (r.Ok? <==> n < limit && ReachesWrite(i, n) && i.writes(n).Given?)
    && (r.Err? ==> r.error == if n == limit then Unavailable
                              else if !ReachesWrite(i, n) then Translate(i.versions(n))
                              else Translate(i.writes(n)))
    && now == if r.Ok? then was - FlushedKeys(was, path) else was
  }

  /** In plain terms: each write carries the version read just before it, or 0 when the path has no metadata. */
  lemma SentIsRead(was: Entries, now: Entries, path: string, i: PutInputs, limit: nat, n: nat, r: Result<()>, sent: seq<nat>, m: nat)
    requires PutAnswers(was, now, path, i, limit, n, r, sent) && m < |sent|
    ensures i.versions(m).NotFound? ==> sent[m] == 0
    ensures !i.versions(m).NotFound? ==> i.versions(m) == Given(sent[m])
  {
    if m < n {
      assert Retries(i, m);
    }
  }

  /**
   In plain terms: every attempt before the deciding one read a version and met a conflict. The
   deciding one fails to read, fails to write, or succeeds; or the attempts are used up. Success
   drops the path's entries from the cache, all entries for the empty path.
   */
  lemma PutExactly(was: Entries, now: Entries, path: string, i: PutInputs, limit: nat, n: nat, r: Result<()>, sent: seq<nat>)
    requires PutAnswers(was, now, path, i, limit, n, r, sent)
    ensures n <= limit && forall m :: 0 <= m < n ==> (i.versions(m).Given? || i.versions(m).NotFound?) && i.writes(m).Conflict?
    ensures n == limit ==> r == Err(Unavailable) && |sent| == n
    ensures n < limit ==>
      if i.versions(n).Given? || i.versions(n).NotFound? then
        && |sent| == n + 1 && !i.writes(n).Conflict? && (r.Ok? <==> i.writes(n).Given?)
        && (r.Err? ==> r.error == if i.writes(n).Forbidden? then PolicyDenied else Unavailable)
      else |sent| == n && r == if i.versions(n) == Forbidden then Err(PolicyDenied) else Err(Unavailable)
    ensures now == if r.Ok? then map k | k in was && !(path == "" || k.path == path) :: was[k] else was
  {
    forall m: nat | m < n
      ensures (i.versions(m).Given? || i.versions(m).NotFound?) && i.writes(m).Conflict?
    {
      assert Retries(i, m);
    }
  }

  class Provider {
    const cache: Cache
    const retryAttempts: nat

    ghost predicate Valid()
      reads this, cache
    {
      cache.Valid() && retryAttempts > 0
    }

    constructor (cacheTtl: int, maxStaleness: int, retryAttempts: int)
      ensures Valid() && fresh(cache) && cache.entries == map[]
      ensures cache.ttl == if cacheTtl <= 0 then 60_000_000_000 else cacheTtl
      ensures cache.maxStaleness == if maxStaleness <= 0 then 300_000_000_000 else maxStaleness
      ensures this.retryAttempts == if retryAttempts <= 0 then 3 else retryAttempts
    {
      this.cache := new Cache(cacheTtl, maxStaleness);
      this.retryAttempts := if retryAttempts <= 0 then 3 else retryAttempts;
    }

    method Get(path: string, key: string, critical: bool, i: GetInputs) returns (r: Result<string>)
      requires Valid()
      modifies cache`entries
      ensures Valid()
      ensures !i.pathOk ==> r == Err(InvalidPath) && cache.entries == old(cache.entries)
      ensures i.pathOk ==> Answers(old(cache.entries), cache.entries, CacheKey(path, if key == "" then "value" else key),
                                   critical, i, cache.ttl, cache.maxStaleness, r)
    {
      var k := CacheKey(path, if key == "" then "value" else key);
      if !i.pathOk {
        return Err(InvalidPath);
      }
      var hit := cache.GetFresh(k, i.checkedAt, i.touchedAt);
      if hit.Some? {
        return Ok(hit.value);
      }
      if !i.authenticated {
        r := StaleOrError(k, critical, Failed, i.repliedAt);
        return;
      }
      var reply := i.first;
      if reply.Forbidden? {
        if i.reauthenticated {
          reply := i.second;
        }
      }
      if !reply.Given? {
        r := StaleOrError(k, critical, reply, i.repliedAt);
        return;
      }
      if k.key !in reply.payload || !reply.payload[k.key].Text? {
        return Err(Unavailable);
      }
      var value := reply.payload[k.key].text;
      cache.Set(k, value, i.repliedAt);
      return Ok(value);
    }

    method StaleOrError(k: CacheKey, critical: bool, cause: Reply<Data>, now: int) returns (r: Result<string>)
      requires Valid() && !cause.Given?
      ensures r.Ok? <==> !cause.Forbidden? && !critical && k in cache.entries
                         && IsServable(cache.entries[k], now, cache.maxStaleness)
      ensures r.Ok? ==> r.value == cache.entries[k].value
      ensures r.Err? ==> r.error == if cause.Forbidden? then PolicyDenied else Unavailable
    {
      if cause.Forbidden? || critical {
        return Err(Translate(cause));
      }
      var hit := cache.GetStale(k, now);
      if hit.Some? {
        return Ok(hit.value.0);
      }
      return Err(Translate(cause));
    }

    method Put(path: string, i: PutInputs) returns (r: Result<()>, sent: seq<nat>)
      requires Valid()
      modifies cache`entries
      ensures Valid()
      ensures |sent| <= retryAttempts
      ensures i.pathOk && i.authenticated && ReachesWrite(i, 0) ==> sent != []
      ensures forall n :: 0 <= n < |sent| ==> sent[n] == if i.versions(n).Given? then i.versions(n).payload else 0
      ensures !i.pathOk ==> r == Err(InvalidPath) && sent == []
      ensures i.pathOk && !i.authenticated ==> r == Err(Unavailable) && sent == []
      ensures i.pathOk && i.authenticated ==>
                exists n: nat :: PutAnswers(old(cache.entries), cache.entries, path, i, retryAttempts, n, r, sent)
      ensures r.Ok? ==> cache.entries == old(cache.entries) - FlushedKeys(old(cache.entries), path)
      ensures r.Err? ==> cache.entries == old(cache.entries)
    {
      sent := [];
      if !i.pathOk {
        return Err(InvalidPath), sent;
      }
      if !i.authenticated {
        return Err(Unavailable), sent;
      }
      var attempt := 0;
      while attempt < retryAttempts
        invariant 0 <= attempt <= retryAttempts && |sent| == attempt
        invariant forall n :: 0 <= n < attempt ==>
          Retries(i, n) && sent[n] == if i.versions(n).Given? then i.versions(n).payload else 0
        invariant cache.entries == old(cache.entries)
      {
        var version := i.versions(attempt);
        if !version.Given? && !version.NotFound? {
          r := Err(Translate(version));
          assert PutAnswers(old(cache.entries), cache.entries, path, i, retryAttempts, attempt, r, sent);
          return;
        }
        var cas := if version.Given? then version.payload else 0;
        sent := sent + [cas];
        var write := i.writes(attempt);
        if write.Given? {
          var _ := cache.Flush(path);
          r := Ok(());
          assert PutAnswers(old(cache.entries), cache.entries, path, i, retryAttempts, attempt, r, sent);
          return;
        }
        if !write.Conflict? {
          r := Err(Translate(write));
          assert PutAnswers(old(cache.entries), cache.entries, path, i, retryAttempts, attempt, r, sent);
          return;
        }
        attempt := attempt + 1;
      }
      r := Err(Unavailable);
      assert PutAnswers(old(cache.entries), cache.entries, path, i, retryAttempts, attempt, r, sent);
    }
  }
}
