/** The TTL / grace-period store of src/cache.ts. The SQLite table becomes a map
    from key to (value, validUntil); `validUntil` is in whole seconds and the
    clock is passed in as `nowMs`, the milliseconds Date.getTime would give. */
module DiskCache {
  import opened Base
  import opened Types

  const DEFAULT_TTL: int := 3600
  const DEFAULT_TBD: int := 3600

  datatype Entry<V> = Entry(value: V, validUntil: int)

  /** Math.floor(nowMs / 1000) (Dafny's division rounds down for a positive divisor). */
  function Seconds(nowMs: int): int { nowMs / 1000 }

  /** `if (x) use x`: a missing or zero option falls back to the default. */
  function OrDefault(o: Option<int>, default: int): (r: int)
    ensures o.Some? && o.value != 0 ==> r == o.value
    ensures o.None? || o.value == 0 ==> r == default
  {
    if o.Some? && o.value != 0 then o.value else default
  }

  // ---------------------------------------------------------------------------
  // The table operations, on values

  /** INSERT ... ON CONFLICT(key) DO UPDATE. */
  function Upsert<V>(t: map<string, Entry<V>>, key: string, value: V, validUntil: int): map<string, Entry<V>>
  {
    t[key := Entry(value, validUntil)]
  }

  /** SELECT value: the stored value, or the default when there is no row. */
  function Lookup<V>(t: map<string, Entry<V>>, key: string, default: Option<V>): Option<V>
  {
    if key in t then Some(t[key].value) else default
  }

  /** `validUntil > nowMs / 1000` compared exactly: validUntil is whole seconds. */
  predicate Fresh<V>(e: Entry<V>, nowMs: int)
  {
    e.validUntil * 1000 > nowMs
  }

  function StatusAt<V>(t: map<string, Entry<V>>, key: string, nowMs: int): CacheStatus
  {
    if key !in t then Miss else if Fresh(t[key], nowMs) then Hit else Stale
  }

  /** DELETE ... WHERE validUntil < nowMs / 1000 - tbd: what survives a purge. */
  predicate Survives<V>(e: Entry<V>, tbd: int, nowMs: int)
  {
    (e.validUntil + tbd) * 1000 >= nowMs
  }

  function Purged<V>(t: map<string, Entry<V>>, tbd: int, nowMs: int): map<string, Entry<V>>
  {
    map k | k in t && Survives(t[k], tbd, nowMs) :: t[k]
  }

  class Cache<V> {
    /** The `cache` table. */
    var table: map<string, Entry<V>>
    /** Default time to live, seconds. */
    var ttl: int
    /** Time before deletion: how long past validUntil an entry is kept, seconds. */
    var tbd: int

    /** new Cache({ ttl, tbd }) over a database that already holds `stored`;
        a missing or zero option keeps the default of 3600. */
    constructor (stored: map<string, Entry<V>>, ttlOption: Option<int>, tbdOption: Option<int>)
      ensures table == stored
      ensures ttl == (if ttlOption.Some? && ttlOption.value != 0 then ttlOption.value else DEFAULT_TTL)
      ensures tbd == (if tbdOption.Some? && tbdOption.value != 0 then tbdOption.value else DEFAULT_TBD)
    {
      table := stored;
      ttl := OrDefault(ttlOption, DEFAULT_TTL);
      tbd := OrDefault(tbdOption, DEFAULT_TBD);
    }

    /** set(key, value, ttlSeconds): a missing or zero TTL uses the instance's default. */
    method Set(key: string, value: V, ttlSeconds: Option<int>, nowMs: int)
      modifies this
      ensures ttl == old(ttl) && tbd == old(tbd)
      ensures key in table && table[key] == Entry(value, Seconds(nowMs) + OrDefault(ttlSeconds, old(ttl)))
      ensures forall k :: k != key ==> (k in table <==> k in old(table)) && (k in table ==> table[k] == old(table)[k])
      ensures table == Upsert(old(table), key, value, Seconds(nowMs) + OrDefault(ttlSeconds, ttl))
    {
      var seconds := OrDefault(ttlSeconds, ttl);
      table := Upsert(table, key, value, Seconds(nowMs) + seconds);
    }

    /** get(key, defaultValue). */
    function Get(key: string, default: Option<V>): (r: Option<V>)
      reads this
      ensures key in table ==> r == Some(table[key].value)
      ensures key !in table ==> r == default
    {
      Lookup(table, key, default)
    }

    /** status(key) at the given clock. */
    function Status(key: string, nowMs: int): (r: CacheStatus)
      reads this
      ensures r == Miss <==> key !in table
      ensures r == Hit <==> key in table && table[key].validUntil * 1000 > nowMs
      ensures r == Stale <==> key in table && table[key].validUntil * 1000 <= nowMs
    {
      StatusAt(table, key, nowMs)
    }

    /** del(key); returns the number of rows deleted. */
    method Del(key: string) returns (changes: nat)
      modifies this
      ensures table == old(table) - {key}
      ensures changes == (if key in old(table) then 1 else 0)
      ensures ttl == old(ttl) && tbd == old(tbd)
    {
      changes := if key in table then 1 else 0;
      table := table - {key};
    }

    /** purge(): deletes every row whose validUntil is earlier than now - tbd;
        returns how many rows went. */
    method Purge(nowMs: int) returns (removed: nat)
      modifies this
      ensures table == Purged(old(table), tbd, nowMs)
      ensures removed == |old(table).Keys - table.Keys|
      ensures ttl == old(ttl) && tbd == old(tbd)
    {
      var before := table.Keys;
      table := Purged(table, tbd, nowMs);
      removed := |before - table.Keys|;
    }
  }

  // ---------------------------------------------------------------------------
  // Properties of the store

  /** A key just set reads back its value; every other key reads as before. */
  lemma GetAfterSet<V>(t: map<string, Entry<V>>, key: string, value: V, validUntil: int, other: string, default: Option<V>)
    ensures Lookup(Upsert(t, key, value, validUntil), key, default) == Some(value)
    ensures other != key ==> Lookup(Upsert(t, key, value, validUntil), other, default) == Lookup(t, other, default)
  {
  }

  /** An entry set with a TTL of at least one second is a hit at the moment it is set,
      and turns stale exactly when its validUntil second begins. */
  lemma SetIsHitUntilExpiry<V>(t: map<string, Entry<V>>, key: string, value: V, ttl: int, nowMs: int, laterMs: int)
    requires ttl >= 1 && nowMs <= laterMs
    ensures StatusAt(Upsert(t, key, value, Seconds(nowMs) + ttl), key, nowMs) == Hit
    ensures StatusAt(Upsert(t, key, value, Seconds(nowMs) + ttl), key, laterMs) ==
      (if laterMs < (Seconds(nowMs) + ttl) * 1000 then Hit else Stale)
  {
    assert Seconds(nowMs) * 1000 > nowMs - 1000;
  }

  /** Once stale, an entry never reports hit again at a later time (until it is set again). */
  lemma StaleStaysStale<V>(t: map<string, Entry<V>>, key: string, nowMs: int, laterMs: int)
    requires nowMs <= laterMs && StatusAt(t, key, nowMs) == Stale
    ensures StatusAt(t, key, laterMs) == Stale
  {
  }

  /** A stale entry is still readable. */
  lemma StaleIsReadable<V>(t: map<string, Entry<V>>, key: string, nowMs: int, default: Option<V>)
    requires StatusAt(t, key, nowMs) == Stale
    ensures Lookup(t, key, default) == Some(t[key].value)
  {
  }

  /** After del(k), get(k) gives the default, and no other key changes. */
  lemma GetAfterDel<V>(t: map<string, Entry<V>>, key: string, other: string, default: Option<V>)
    ensures Lookup(t - {key}, key, default) == default
    ensures other != key ==> Lookup(t - {key}, other, default) == Lookup(t, other, default)
  {
  }

  /** purge removes exactly the entries whose validUntil + tbd lies before now
      (an entry at exactly now - tbd survives) and leaves the others as they were. */
  lemma PurgeExactly<V>(t: map<string, Entry<V>>, tbd: int, nowMs: int, key: string)
    ensures key in Purged(t, tbd, nowMs) <==> key in t && (t[key].validUntil + tbd) * 1000 >= nowMs
    ensures key in Purged(t, tbd, nowMs) ==> Purged(t, tbd, nowMs)[key] == t[key]
  {
  }

  /** With a non-negative grace period, purge never removes a hit entry, and an entry
      that is gone after a purge reads as a miss. */
  lemma PurgeKeepsHits<V>(t: map<string, Entry<V>>, tbd: int, nowMs: int, key: string)
    requires tbd >= 0
    ensures StatusAt(t, key, nowMs) == Hit ==> StatusAt(Purged(t, tbd, nowMs), key, nowMs) == Hit
    ensures key !in Purged(t, tbd, nowMs) ==> StatusAt(Purged(t, tbd, nowMs), key, nowMs) == Miss
  {
  }

  /** Purging twice at the same clock removes nothing more. */
  lemma PurgeIdempotent<V>(t: map<string, Entry<V>>, tbd: int, nowMs: int)
    ensures Purged(Purged(t, tbd, nowMs), tbd, nowMs) == Purged(t, tbd, nowMs)
  {
  }

  /** The life of one entry with ttl = 1s and tbd = 5s set at t = 0: hit at 0.5s,
      stale but readable at 1.5s, gone after a purge at 7s. */
  lemma EntryLifecycle(t: map<string, Entry<seq<Byte>>>, key: string, body: seq<Byte>)
    ensures var t1 := Upsert(t, key, body, Seconds(0) + 1);
      && StatusAt(t1, key, 500) == Hit
      && StatusAt(t1, key, 1500) == Stale
      && Lookup(t1, key, None) == Some(body)
      && StatusAt(Purged(t1, 5, 7000), key, 7000) == Miss
  {
  }
}
