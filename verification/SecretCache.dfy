/**
 The in-memory secret cache of the Vault provider.

 Times and durations are integers (nanoseconds). The clock is an environment
 input: an operation that reads it takes each reading as a parameter.
 */
module SecretCache {
  import opened Options

  const MINUTE: int := 60_000_000_000

  datatype CacheKey = CacheKey(path: string, key: string)

  datatype CacheEntry = CacheEntry(value: string, expiresAt: int, lastSuccess: int, lastAccessed: int)

  type Entries = map<CacheKey, CacheEntry>

  /** A fresh hit is one whose expiry has not passed; the expiry instant itself is still fresh. */
  predicate IsFresh(e: CacheEntry, now: int) {
    now <= e.expiresAt
  }

  /** An entry may be served stale while its last successful read lies at most maxStaleness back. */
  predicate IsServable(e: CacheEntry, now: int, maxStaleness: int) {
    0 <= now - e.lastSuccess <= maxStaleness
  }

  /** The entry that a successful read at time `now` leaves behind. */
  function NewEntry(value: string, now: int, ttl: int): CacheEntry {
    CacheEntry(value, now + ttl, now, now)
  }

  /** What re-storing an entry after a fresh hit changes: the access time only. */
  function Touched(e: CacheEntry, now: int): CacheEntry {
    e.(lastAccessed := now)
  }

  predicate Selected(k: CacheKey, path: string) {
    path == "" || k.path == path
  }

  /** The keys that flushing `path` removes; the empty path selects every key. */
  function FlushedKeys(entries: Entries, path: string): set<CacheKey> {
    set k | k in entries && Selected(k, path)
  }

  class Cache {
    const ttl: int
    const maxStaleness: int
    var entries: Entries

    ghost predicate Valid()
      reads this
    {
      ttl > 0 && maxStaleness > 0
    }

    constructor (ttl: int, maxStaleness: int)
      ensures Valid() && entries == map[]
      ensures ttl > 0 ==> this.ttl == ttl
      ensures maxStaleness > 0 ==> this.maxStaleness == maxStaleness
      ensures ttl <= 0 ==> this.ttl == 60_000_000_000
      ensures maxStaleness <= 0 ==> this.maxStaleness == 300_000_000_000
    {
      this.ttl := if ttl <= 0 then MINUTE else ttl;
      this.maxStaleness := if maxStaleness <= 0 then 5 * MINUTE else maxStaleness;
      entries := map[];
    }

    method GetFresh(k: CacheKey, checkedAt: int, touchedAt: int) returns (hit: Option<string>)
      requires Valid()
      modifies this`entries
      ensures Valid()
      ensures hit.Some? <==> k in old(entries) && checkedAt <= old(entries)[k].expiresAt
      ensures hit.Some? ==> hit.value == old(entries)[k].value
      ensures hit.Some? ==> entries == old(entries)[k := old(entries)[k].(lastAccessed := touchedAt)]
      ensures hit.None? ==> entries == old(entries)
    {
      if k !in entries {
        return None;
      }
      var entry := entries[k];
      if checkedAt > entry.expiresAt {
        return None;
      }
      entry := entry.(lastAccessed := touchedAt);
      entries := entries[k := entry];
      return Some(entry.value);
    }

    method GetStale(k: CacheKey, now: int) returns (hit: Option<(string, int)>)
      requires Valid()
      ensures hit.Some? <==> k in entries && 0 <= now - entries[k].lastSuccess <= maxStaleness
      ensures hit.Some? ==> hit.value == (entries[k].value, now - entries[k].lastSuccess)
      ensures k in entries && entries[k].lastSuccess == now ==> hit.Some?
    {
      if k !in entries {
        return None;
      }
      var entry := entries[k];
      var age := now - entry.lastSuccess;
      if age < 0 || age > maxStaleness {
        return None;
      }
      return Some((entry.value, age));
    }

    method Set(k: CacheKey, value: string, now: int)
      requires Valid()
      modifies this`entries
      ensures Valid()
      ensures entries == old(entries)[k := CacheEntry(value, now + ttl, now, now)]
      ensures IsFresh(entries[k], now) && IsFresh(entries[k], now + ttl) && !IsFresh(entries[k], now + ttl + 1)
    {
      entries := entries[k := CacheEntry(value, now + ttl, now, now)];
    }

    method Flush(path: string) returns (flushed: nat)
      requires Valid()
      modifies this`entries
      ensures Valid()
      ensures entries == map k | k in old(entries) && !(path == "" || k.path == path) :: old(entries)[k]
      ensures flushed == |set k | k in old(entries) && (path == "" || k.path == path)|
      ensures entries == old(entries) - FlushedKeys(old(entries), path)
    {
      flushed := 0;
      var pending := entries.Keys;
      ghost var gone: set<CacheKey> := {};
      while pending != {}
        invariant pending <= old(entries).Keys
        invariant gone == set k | k in old(entries) && k !in pending && Selected(k, path)
        invariant entries == old(entries) - gone
        invariant flushed == |gone|
        decreases pending
      {
        var k :| k in pending;
        pending := pending - {k};
        if path == "" || k.path == path {
          assert k !in gone;
          entries := entries - {k};
          gone := gone + {k};
          flushed := flushed + 1;
        }
      }
      assert gone == FlushedKeys(old(entries), path);
      assert gone == set k | k in old(entries) && (path == "" || k.path == path);
    }
  }
}
