/** src/stats.ts: the request counts kept by a store backend under `stats:<status>`,
    collected per status and exposed as counter lines. The backend's `count` is a
    parameter; a backend without one has `count` None. */
module Stats {
  import opened Base
  import opened Http
  import opened Metrics

  const STATUSES: seq<string> := ["hit", "stale", "miss", "timeout", "fulfill", "bypass", "force"]
  const STATS_PREFIX: string := "stats:"
  const STATS_PATH: string := "/__nextboost_exporter"
  /** The property name `p[STATUSES[i]]` uses past the end of the list. */
  const UNDEFINED: string := "undefined"

  /** A store backend, as far as stats reads it. */
  datatype Backend = Backend(count: Option<seq<string> -> seq<nat>>)

  /** `ss.map(s => prefix + s)`. */
  function Prefixed(prefix: string, ss: seq<string>): (r: seq<string>)
    ensures |r| == |ss| && forall i :: 0 <= i < |ss| ==> r[i] == prefix + ss[i]
  {
    if ss == [] then [] else Prefixed(prefix, ss[..|ss| - 1]) + [prefix + ss[|ss| - 1]]
  }

  /** The keys whose counts are requested. */
  function StatKeys(): seq<string>
  {
    Prefixed(STATS_PREFIX, STATUSES)
  }

  lemma StatKeysInOrder()
    ensures StatKeys() == ["stats:hit", "stats:stale", "stats:miss", "stats:timeout",
                           "stats:fulfill", "stats:bypass", "stats:force"]
  {
    var r := StatKeys();
    assert |r| == 7;
    assert r[0] == "stats:hit" && r[1] == "stats:stale" && r[2] == "stats:miss";
    assert r[3] == "stats:timeout" && r[4] == "stats:fulfill";
    assert r[5] == "stats:bypass" && r[6] == "stats:force";
  }

  /** `names[i]` used as a property name: past the end it reads "undefined". */
  function NameAt(names: seq<string>, i: nat): string
  {
    if i < |names| then names[i] else UNDEFINED
  }

  /** The reduce: the i-th count is stored under names[i]. */
  function Collect(names: seq<string>, values: seq<nat>): (r: Counters)
    ensures |r.keys| <= |values|
    ensures values == [] <==> r.keys == []
  {
    if values == [] then EMPTY
    else Put(Collect(names, values[..|values| - 1]), NameAt(names, |values| - 1), values[|values| - 1])
  }

  /** stats(cache): no `count` (or nothing returned) gives an empty record. */
  function CollectStats(b: Backend): (r: Counters)
    ensures b.count.None? ==> r.keys == [] && r.values == map[]
    ensures b.count.Some? ==> |r.keys| <= |b.count.value(StatKeys())|
  {
    Collect(STATUSES, if b.count.Some? then b.count.value(StatKeys()) else [])
  }

  predicate Distinct(names: seq<string>)
  {
    forall i, j :: 0 <= i < j < |names| ==> names[i] != names[j]
  }

  /** No status is listed twice. */
  lemma StatusesDistinct()
    ensures Distinct(STATUSES)
  {
    forall i, j | 0 <= i < j < |STATUSES| ensures STATUSES[i] != STATUSES[j] {
      assert STATUSES[i][0] != STATUSES[j][0] || STATUSES[i][1] != STATUSES[j][1];
    }
  }

  /** The record holds exactly the keys it lists. */
  lemma {:induction false} CollectDomain(names: seq<string>, values: seq<nat>)
    ensures forall k :: k in Collect(names, values).values <==> k in Collect(names, values).keys
  {
    if values != [] {
      CollectDomain(names, values[..|values| - 1]);
    }
  }

  /** For at most as many counts as distinct names, the record lists the names in order. */
  lemma {:induction false} CollectKeys(names: seq<string>, values: seq<nat>)
    requires Distinct(names) && |values| <= |names|
    ensures Collect(names, values).keys == names[..|values|]
  {
    if values != [] {
      var n := |values| - 1;
      var before := Collect(names, values[..n]);
      CollectKeys(names, values[..n]);
      CollectDomain(names, values[..n]);
      assert names[n] !in before.values by {
        forall i | 0 <= i < n ensures before.keys[i] != names[n] {
          assert before.keys[i] == names[i];
        }
      }
      calc {
        Collect(names, values).keys;
        Put(before, names[n], values[n]).keys;
        before.keys + [names[n]];
        names[..n] + [names[n]];
        { assert names[..n] + [names[n]] == names[..n + 1]; }
        names[..n + 1];
      }
    }
  }

  /** For at most as many counts as distinct names, names[i] holds the i-th count. */
  lemma {:induction false} CollectValues(names: seq<string>, values: seq<nat>)
    requires Distinct(names) && |values| <= |names|
    ensures forall i :: 0 <= i < |values| ==>
      names[i] in Collect(names, values).values && Collect(names, values).values[names[i]] == values[i]
  {
    if values != [] {
      var n := |values| - 1;
      CollectValues(names, values[..n]);
      forall i | 0 <= i < n ensures names[i] != names[n] && values[..n][i] == values[i] {
      }
    }
  }

  /** Counts past the last name are all stored under "undefined", the last one winning. */
  lemma CollectOverflow(names: seq<string>, values: seq<nat>)
    requires |values| > |names|
    ensures UNDEFINED in Collect(names, values).values
    ensures Collect(names, values).values[UNDEFINED] == values[|values| - 1]
  {
  }

  /** A backend without `count` yields no counter lines. */
  lemma NoCountNoLines(b: Backend)
    requires b.count.None?
    ensures Lines(CollectStats(b)) == []
  {
  }

  /** serveStats: the content type, one counter line per collected status, then end. */
  method ServeStats(b: Backend, res: ServerResponse)
    modifies res
    ensures res.headers == old(res.headers)["content-type" := Text(EXPOSITION_TYPE)]
    ensures res.calls == old(res.calls) + Lines(CollectStats(b)) + [End(Absent)]
    ensures res.statusCode == old(res.statusCode)
  {
    var all := CollectStats(b);
    WriteCounters(all, res);
  }

  /** A backend that counts every status writes exactly seven lines, one per status
      in STATUSES order, each with its count. */
  lemma SevenLines(b: Backend)
    requires b.count.Some? && |b.count.value(StatKeys())| == |STATUSES|
    ensures var vs, lines := b.count.value(StatKeys()), Lines(CollectStats(b));
      && |lines| == 7
      && forall i :: 0 <= i < 7 ==> lines[i] == Write(Str(CounterLine(STATUSES[i], vs[i])))
  {
    StatusesDistinct();
    CollectKeys(STATUSES, b.count.value(StatKeys()));
    CollectValues(STATUSES, b.count.value(StatKeys()));
    assert STATUSES[..7] == STATUSES;
  }

  /** isReqForStats(req): a GET of exactly `/__nextboost_exporter`. */
  predicate IsReqForStats(req: Request)
    ensures IsReqForStats(req) <==> req.verb == "GET" && req.url == "/__nextboost_exporter"
    ensures IsReqForStats(req) ==> !ForMetrics(req)
  {
    req.verb == "GET" && req.url == STATS_PATH
  }

  lemma StatsRequestNeedsGet(req: Request)
    requires req.url == "/__nextboost_exporter"
    ensures IsReqForStats(req) <==> req.verb == "GET"
    ensures !IsReqForStats(req.(verb := "HEAD"))
  {
  }
}
