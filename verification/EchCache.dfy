/** The expiring ECH config cache, against a log of everything ever put into it. */
module EchCache {
  import opened Bytes
  import opened Wrappers

  /** Clock readings and durations in nanoseconds. */
  const SECOND: nat := 1_000_000_000
  const MIN_ECH_CACHE_TTL: nat := 30 * SECOND
  const MAX_ECH_CACHE_TTL: nat := 3600 * SECOND

  type Key = seq<byte>
  type Config = seq<byte>

  datatype Entry = Entry(config: Config, expiresAt: nat)

  datatype Op = Put(key: Key, config: Config, ttl: nat, now: nat) | Get(key: Key, now: nat)

  function ClampTtl(ttl: nat): (lifetime: nat)
    ensures MIN_ECH_CACHE_TTL <= lifetime <= MAX_ECH_CACHE_TTL
    ensures MIN_ECH_CACHE_TTL <= ttl <= MAX_ECH_CACHE_TTL ==> lifetime == ttl
  {
    if ttl < MIN_ECH_CACHE_TTL then MIN_ECH_CACHE_TTL
    else if ttl > MAX_ECH_CACHE_TTL then MAX_ECH_CACHE_TTL
    else ttl
  }

  function Distance(a: nat, b: nat): nat {
    if a < b then b - a else a - b
  }

  /** The lifetime, in nanoseconds, is the one between 30 seconds and an hour that is nearest to what
      was asked for, and no other is as near. */
  lemma LifetimeIsNearest(ttl: nat, t: nat)
    requires 30_000_000_000 <= t <= 3_600_000_000_000
    ensures 30_000_000_000 <= ClampTtl(ttl) <= 3_600_000_000_000
    ensures t != ClampTtl(ttl) ==> Distance(ClampTtl(ttl), ttl) < Distance(t, ttl)
  {
    assert MIN_ECH_CACHE_TTL == 30_000_000_000 && MAX_ECH_CACHE_TTL == 3_600_000_000_000;
  }

  // ----- the reference: a log of operations

  /** What a reader at `now` should see: the latest put for the key, while it lasts. */
  function Latest(log: seq<Op>, key: Key, now: nat): Option<Config> {
    if log == [] then None
    else
      var last := log[|log| - 1];
      if last.Put? && last.key == key then
        if now < last.now + ClampTtl(last.ttl) then Some(last.config) else None
      else Latest(log[..|log| - 1], key, now)
  }

  /** The clock never goes back. */
  ghost predicate Monotone(log: seq<Op>) {
    forall i, j :: 0 <= i <= j < |log| ==> log[i].now <= log[j].now
  }

  // ----- the cache as a map

  function Lookup(entries: map<Key, Entry>, key: Key, now: nat): Option<Config> {
    if key in entries && entries[key].expiresAt > now then Some(entries[key].config) else None
  }

  function Step(entries: map<Key, Entry>, op: Op): map<Key, Entry> {
    match op
    case Put(key, config, ttl, now) => entries[key := Entry(config, now + ClampTtl(ttl))]
    case Get(key, now) => if Lookup(entries, key, now).Some? then entries else entries - {key}
  }

  function Replay(log: seq<Op>): map<Key, Entry> {
    if log == [] then map[] else Step(Replay(log[..|log| - 1]), log[|log| - 1])
  }

  /** Over every interleaving of puts and gets under a clock that never goes back, a lookup
      returns the latest put for its key exactly while that put's clamped lifetime lasts;
      evictions never change what any later reader sees, of this key or another. */
  lemma {:induction false} CacheRefinesLog(log: seq<Op>, key: Key, now: nat)
    requires Monotone(log)
    requires forall i :: 0 <= i < |log| ==> log[i].now <= now
    ensures Lookup(Replay(log), key, now) == Latest(log, key, now)
  {
    if log != [] {
      var front, last := log[..|log| - 1], log[|log| - 1];
      CacheRefinesLog(front, key, now);
    }
  }

  lemma LogGrows(log: seq<Op>, op: Op)
    requires Monotone(log)
    requires forall i :: 0 <= i < |log| ==> log[i].now <= op.now
    ensures Monotone(log + [op]) && Replay(log + [op]) == Step(Replay(log), op)
  {
    hide Replay;
    ReplaySnoc(log, op);
  }

  lemma ReplaySnoc(log: seq<Op>, op: Op)
    ensures Replay(log + [op]) == Step(Replay(log), op)
  {
    hide Step;
    assert (log + [op])[..|log|] == log;
  }

  lemma PutIsRead(entries: map<Key, Entry>, op: Op)
    requires op.Put?
    ensures forall k, t: nat :: k != op.key ==> Lookup(Step(entries, op), k, t) == Lookup(entries, k, t)
    ensures forall t: nat ::
      Lookup(Step(entries, op), op.key, t) == if t < op.now + ClampTtl(op.ttl) then Some(op.config) else None
  {
  }

  // ----- the cache behind its mutex

  class Cache {
    var entries: map<Key, Entry>
    ghost var log: seq<Op>

    ghost predicate Valid()
      reads this
    {
      Monotone(log) && entries == Replay(log)
    }

    constructor ()
      ensures Valid() && log == []
    {
      entries := map[];
      log := [];
    }

    /** The clock is read under the lock, so readings come in the order of the operations. */
    method Get(key: Key, now: nat) returns (r: Option<Config>)
      requires Valid()
      requires forall i :: 0 <= i < |log| ==> log[i].now <= now
      modifies this
      ensures Valid() && log == old(log) + [Op.Get(key, now)]
      ensures r == Latest(old(log), key, now)
      ensures forall k, t: nat :: t >= now ==> Lookup(entries, k, t) == Lookup(old(entries), k, t)
    {
      hide Replay, Latest, Monotone;
      CacheRefinesLog(log, key, now);
      LogGrows(log, Op.Get(key, now));
      log := log + [Op.Get(key, now)];
      if key in entries {
        var entry := entries[key];
        if entry.expiresAt > now {
          return Some(entry.config);
        }
      }
      entries := entries - {key};
      return None;
    }

    method Put(key: Key, config: Config, ttl: nat, now: nat)
      requires Valid()
      requires forall i :: 0 <= i < |log| ==> log[i].now <= now
      modifies this
      ensures Valid() && log == old(log) + [Op.Put(key, config, ttl, now)]
      ensures forall k, t: nat :: k != key ==> Lookup(entries, k, t) == Lookup(old(entries), k, t)
      ensures forall t: nat :: Lookup(entries, key, t) == if t < now + ClampTtl(ttl) then Some(config) else None
    {
      hide Replay, Lookup, Monotone;
      LogGrows(log, Op.Put(key, config, ttl, now));
      PutIsRead(entries, Op.Put(key, config, ttl, now));
      log := log + [Op.Put(key, config, ttl, now)];
      var lifetime := if ttl < MIN_ECH_CACHE_TTL then MIN_ECH_CACHE_TTL
                      else if ttl > MAX_ECH_CACHE_TTL then MAX_ECH_CACHE_TTL
                      else ttl;
      entries := entries[key := Entry(config, now + lifetime)];
    }
  }
}
