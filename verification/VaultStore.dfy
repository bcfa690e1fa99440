/**
 Vault's KV version 2 engine as the provider sees it: every path has a history
 of versions, numbered from 1, that is only ever extended. Destroying a version
 removes its data but not its number.
 */
module VaultStore {
  import opened Options

  datatype Raw = Text(text: string) | NotText

  type Data = map<string, Raw>

  datatype Version = Version(data: Data, createdAt: int, destroyedAt: Option<int>)

  type Store = map<string, seq<Version>>

  function Versions(st: Store, path: string): seq<Version> {
    if path in st then st[path] else []
  }

  /** The current version number; 0 when the path has never been written. */
  function CurrentVersion(st: Store, path: string): nat {
    |Versions(st, path)|
  }

  /** What reading the path returns: the newest version, unless it was destroyed. */
  function Current(st: Store, path: string): Option<Version> {
    var vs := Versions(st, path);
    if vs == [] || vs[|vs| - 1].destroyedAt.Some? then None else Some(vs[|vs| - 1])
  }

  function Append(st: Store, path: string, data: Data, now: int): Store {
    st[path := Versions(st, path) + [Version(data, now, None)]]
  }

  function Destroy(st: Store, path: string, version: nat, now: int): Store {
    var vs := Versions(st, path);
    if 1 <= version <= |vs| && vs[version - 1].destroyedAt.None?
    then st[path := vs[version - 1 := vs[version - 1].(destroyedAt := Some(now))]]
    else st
  }

  /** Version `n` of the path was Vault's current, readable version at time t and gave `key` this text. */
  ghost predicate HeldAt(st: Store, path: string, key: string, value: string, n: nat, t: int) {
    var vs := Versions(st, path);
    && 1 <= n <= |vs|
    && vs[n - 1].createdAt <= t
    && (n < |vs| ==> t <= vs[n].createdAt)
    && (vs[n - 1].destroyedAt.Some? ==> t <= vs[n - 1].destroyedAt.value)
    && key in vs[n - 1].data && vs[n - 1].data[key] == Text(value)
  }

  /** Every recorded instant lies at or before `now`. */
  ghost predicate UpTo(st: Store, now: int) {
    forall path :: path in st ==>
      forall i :: 0 <= i < |st[path]| ==>
        && st[path][i].createdAt <= now
        && (st[path][i].destroyedAt.Some? ==> st[path][i].destroyedAt.value <= now)
  }

  lemma AppendKeepsUpTo(st: Store, path: string, data: Data, now: int)
    requires UpTo(st, now)
    ensures UpTo(Append(st, path, data, now), now)
  {
  }

  lemma DestroyKeepsUpTo(st: Store, path: string, version: nat, now: int)
    requires UpTo(st, now)
    ensures UpTo(Destroy(st, path, version, now), now)
  {
  }

  /** Writing at time `now` rewrites nothing that was true up to `now`. */
  lemma AppendKeepsHistory(st: Store, path: string, data: Data, now: int,
                           p: string, key: string, value: string, n: nat, t: int)
    requires HeldAt(st, p, key, value, n, t) && t <= now
    ensures HeldAt(Append(st, path, data, now), p, key, value, n, t)
  {
    if p == path && n == |Versions(st, path)| {
      assert Versions(Append(st, path, data, now), path)[n].createdAt == now;
    }
  }

  lemma DestroyKeepsHistory(st: Store, path: string, version: nat, now: int,
                            p: string, key: string, value: string, n: nat, t: int)
    requires HeldAt(st, p, key, value, n, t) && t <= now
    ensures HeldAt(Destroy(st, path, version, now), p, key, value, n, t)
  {
  }
}
