/** The purge timer of src/cache-manager.ts. The module-level `interval` variable is
    the guard: once set it is never cleared, so the timer is started at most once,
    and stopping it cancels the ticks without re-arming init. Timer ticks are
    delivered by calling Tick with the clock of that tick. */
module CacheManager {
  import opened Base
  import DiskCache

  /** The longest purge period, seconds. */
  const MAX_PERIOD: int := 3600

  /** Math.min(tbd, 3600): the purge period in seconds. */
  function PurgePeriod(tbd: int): (s: int)
    ensures s <= tbd && s <= MAX_PERIOD
    ensures s == tbd || s == MAX_PERIOD
  {
    if tbd <= MAX_PERIOD then tbd else MAX_PERIOD
  }

  class PurgeTimer<V> {
    /** `interval` has been assigned: initPurgeTimer returns at once from now on. */
    var armed: bool
    /** The interval has not been cleared. */
    var running: bool
    /** The setInterval delay, milliseconds. */
    var delayMs: int
    /** The store the timer purges. */
    var target: Option<DiskCache.Cache<V>>
    /** The counts the ticks logged, in order. */
    var purgeLog: seq<nat>

    /** A running interval was armed by an init and has a store to purge. */
    ghost predicate Valid()
      reads this
    {
      running ==> armed && target.Some?
    }

    /** The module as loaded: no interval yet. */
    constructor ()
      ensures Valid()
      ensures !armed && !running && target == None && purgeLog == []
    {
      armed, running, delayMs, target, purgeLog := false, false, 0, None, [];
    }

    /** initPurgeTimer(cache): a no-op once armed; otherwise starts the interval
        with a period of min(tbd, 3600) seconds. */
    method Init(cache: DiskCache.Cache<V>)
      requires Valid()
      modifies this
      ensures Valid()
      ensures old(armed) ==>
        armed == old(armed) && running == old(running) && delayMs == old(delayMs) && target == old(target)
      ensures !old(armed) ==>
        armed && running && target == Some(cache) && delayMs == PurgePeriod(cache.tbd) * 1000
      ensures purgeLog == old(purgeLog)
    {
      if armed {
        return;
      }
      armed := true;
      running := true;
      delayMs := PurgePeriod(cache.tbd) * 1000;
      target := Some(cache);
    }

    /** stopPurgeTimer(): clears the interval but leaves the guard set. */
    method Stop()
      requires Valid()
      modifies this
      ensures Valid()
      ensures !running
      ensures armed == old(armed) && delayMs == old(delayMs) && target == old(target) && purgeLog == old(purgeLog)
    {
      running := false;
    }

    /** One firing of the interval: purges the target once and logs the count.
        A cleared interval does not fire. */
    method Tick(nowMs: int)
      requires Valid()
      modifies this, if target.Some? then {target.value} else {}
      ensures Valid()
      ensures armed == old(armed) && running == old(running) && delayMs == old(delayMs) && target == old(target)
      ensures !running ==> purgeLog == old(purgeLog) && (target.Some? ==> unchanged(target.value))
      ensures running ==>
        var c := target.value;
        && c.table == DiskCache.Purged(old(c.table), c.tbd, nowMs)
        && c.ttl == old(c.ttl) && c.tbd == old(c.tbd)
        && purgeLog == old(purgeLog) + [|old(c.table).Keys - c.table.Keys|]
    {
      if running {
        var removed := target.value.Purge(nowMs);
        purgeLog := purgeLog + [removed];
      }
    }
  }

  /** Init twice, then Stop: the interval was started once and a later Init does not restart it. */
  method InitTwiceThenStop<V>(cache: DiskCache.Cache<V>) returns (timer: PurgeTimer<V>)
    ensures timer.armed && !timer.running && timer.target == Some(cache)
    ensures timer.delayMs == PurgePeriod(cache.tbd) * 1000
  {
    timer := new PurgeTimer();
    timer.Init(cache);
    timer.Init(cache);
    timer.Stop();
    timer.Init(cache);
  }
}
