/** src/metrics.ts: per-status request counters and their exposition as counter
    lines of the Prometheus text format, version 0.0.4. */
module Metrics {
  import opened Base
  import opened Http
  import Js

  const EXPOSITION_TYPE: string := "text/plain; version=0.0.4"
  const METRICS_PATH: string := "/__nextboost_metrics"
  const COUNTER_OPEN: string := "next_boost_requests_total{status='"
  const COUNTER_CLOSE: string := "'} "

  // ---------------------------------------------------------------------------
  // A record of counts

  /** A JavaScript object whose values are counts: its keys in the order
      Object.keys lists them (first insertion) and the value of each. */
  datatype Counters = Counters(keys: seq<string>, values: map<string, nat>)

  const EMPTY: Counters := Counters([], map[])

  ghost predicate WellFormed(c: Counters)
  {
    && (forall k :: k in c.values <==> k in c.keys)
    && (forall i, j :: 0 <= i < j < |c.keys| ==> c.keys[i] != c.keys[j])
  }

  /** `c[k] || 0`. */
  function Count(c: Counters, k: string): nat
  {
    if k in c.values then c.values[k] else 0
  }

  /** `c[k] = v`: the value is replaced in place, or the key is appended. */
  function Put(c: Counters, k: string, v: nat): (r: Counters)
    ensures forall j :: Count(r, j) == if j == k then v else Count(c, j)
    ensures r.values == c.values[k := v]
    ensures r.keys == if k in c.values then c.keys else c.keys + [k]
  {
    Counters(if k in c.values then c.keys else c.keys + [k], c.values[k := v])
  }

  /** Storing under a key keeps each key listed once, exactly the keys held. */
  lemma PutKeepsWellFormed(c: Counters, k: string, v: nat)
    requires WellFormed(c)
    ensures WellFormed(Put(c, k, v))
  {
  }

  // ---------------------------------------------------------------------------
  // The counter line

  /** One counter line: `next_boost_requests_total{status='<k>'} <n>` and a newline. */
  function CounterLine(status: string, n: nat): (r: string)
    ensures |r| > |COUNTER_OPEN| + |status| + |COUNTER_CLOSE|
  {
    COUNTER_OPEN + status + COUNTER_CLOSE + Js.NatToString(n) + "\n"
  }

  /** A counter line names its status between the quotes and reads back, with
      parseInt, the count it was written with. */
  lemma CounterLineReadsBack(status: string, n: nat)
    ensures var line, head := CounterLine(status, n), COUNTER_OPEN + status + COUNTER_CLOSE;
      && |head| < |line| && line[..|head|] == head && line[|line| - 1] == '\n'
      && Js.ParseInt(line[|head|..]) == Some(n)
  {
    var head := COUNTER_OPEN + status + COUNTER_CLOSE;
    var line := CounterLine(status, n);
    assert line == head + (Js.NatToString(n) + "\n");
    assert line[|head|..] == Js.NatToString(n) + "\n";
    Js.ParseIntOfNat(n, "\n");
  }

  /** The write calls for the keys of a record, one counter line each, in key order. */
  function Lines(c: Counters): (calls: seq<Call>)
    ensures |calls| == |c.keys|
    ensures forall i :: 0 <= i < |c.keys| ==> calls[i] == Write(Str(CounterLine(c.keys[i], Count(c, c.keys[i]))))
    decreases |c.keys|
  {
    if c.keys == [] then []
    else
      var k := c.keys[|c.keys| - 1];
      Lines(c.(keys := c.keys[..|c.keys| - 1])) + [Write(Str(CounterLine(k, Count(c, k))))]
  }

  /** The lines of the first i + 1 keys: those of the first i, then key i's. */
  lemma LinesSnoc(c: Counters, i: nat)
    requires i < |c.keys|
    ensures Lines(c.(keys := c.keys[..i + 1]))
         == Lines(c.(keys := c.keys[..i])) + [Write(Str(CounterLine(c.keys[i], Count(c, c.keys[i]))))]
  {
    assert c.keys[..i + 1][..i] == c.keys[..i];
  }

  /** Writes the counter lines of `c` after the content type, then ends the response. */
  method WriteCounters(c: Counters, res: ServerResponse)
    modifies res
    ensures res.headers == old(res.headers)["content-type" := Text(EXPOSITION_TYPE)]
    ensures res.calls == old(res.calls) + Lines(c) + [End(Absent)]
    ensures res.statusCode == old(res.statusCode)
  {
    res.SetHeader("content-type", Text(EXPOSITION_TYPE));
    var i := 0;
    while i < |c.keys|
      invariant 0 <= i <= |c.keys|
      invariant res.calls == old(res.calls) + Lines(c.(keys := c.keys[..i]))
      invariant res.headers == old(res.headers)["content-type" := Text(EXPOSITION_TYPE)]
      invariant res.statusCode == old(res.statusCode)
    {
      var k := c.keys[i];
      var line := Write(Str(CounterLine(k, Count(c, k))));
      LinesSnoc(c, i);
      res.Receive(line);
      i := i + 1;
    }
    assert c.(keys := c.keys[..i]) == c;
    res.Receive(End(Absent));
  }

  // ---------------------------------------------------------------------------
  // Counting

  /** The record after inc(k): k's count goes up by one. */
  function Bump(c: Counters, k: string): Counters
  {
    Put(c, k, Count(c, k) + 1)
  }

  /** The record after inc(k) for each key in turn, from an empty one. */
  function Tally(history: seq<string>): Counters
  {
    if history == [] then EMPTY else Bump(Tally(history[..|history| - 1]), history[|history| - 1])
  }

  /** After any sequence of inc calls, each key's count is the number of times it
      was incremented, and exactly the incremented keys are present. */
  lemma {:induction false} TallyCounts(history: seq<string>, k: string)
    ensures k in Tally(history).values <==> k in history
    ensures Count(Tally(history), k) == multiset(history)[k]
  {
    if history != [] {
      var init, last := history[..|history| - 1], history[|history| - 1];
      TallyCounts(init, k);
      assert history == init + [last];
    }
  }

  /** Any record built by inc calls lists each key once, exactly the keys it holds. */
  lemma {:induction false} TallyWellFormed(history: seq<string>)
    ensures WellFormed(Tally(history))
  {
    if history != [] {
      var before := Tally(history[..|history| - 1]);
      var k := history[|history| - 1];
      TallyWellFormed(history[..|history| - 1]);
      PutKeepsWellFormed(before, k, Count(before, k) + 1);
    }
  }

  /** One more inc on top of a history. */
  lemma TallyStep(history: seq<string>, key: string)
    ensures Tally(history + [key]) == Bump(Tally(history), key)
    ensures Count(Tally(history), key) + 1 == multiset(history + [key])[key]
  {
    var h := history + [key];
    assert h[..|h| - 1] == history;
    TallyCounts(h, key);
  }

  class Metrics {
    /** The `data` record. */
    var data: Counters
    /** The keys passed to inc so far. */
    ghost var history: seq<string>

    ghost predicate Valid()
      reads this
    {
      data == Tally(history)
    }

    constructor ()
      ensures Valid() && data == EMPTY && history == []
    {
      data := EMPTY;
      history := [];
    }

    /** inc(key): the key's count goes up by one (from 0 when unseen), nothing
        else changes, and the new count is returned. */
    method Inc(key: string) returns (n: nat)
      requires Valid()
      modifies this
      ensures Valid() && history == old(history) + [key]
      ensures n == Count(old(data), key) + 1 && n == multiset(history)[key]
      ensures data.values == old(data.values)[key := n]
      ensures data.keys == if key in old(data.values) then old(data.keys) else old(data.keys) + [key]
    {
      TallyStep(history, key);
      n := Count(data, key) + 1;
      data := Put(data, key, n);
      history := history + [key];
    }
  }

  /** serveMetrics: one counter line per key of `data`, after the content type. */
  method ServeMetrics(m: Metrics, res: ServerResponse)
    requires m.Valid()
    modifies res
    ensures res.headers == old(res.headers)["content-type" := Text(EXPOSITION_TYPE)]
    ensures res.calls == old(res.calls) + Lines(m.data) + [End(Absent)]
    ensures res.statusCode == old(res.statusCode)
  {
    WriteCounters(m.data, res);
  }

  /** forMetrics(req): the URL alone decides, whatever the method. */
  predicate ForMetrics(req: Request)
    ensures ForMetrics(req) <==> req.url == "/__nextboost_metrics"
  {
    req.url == METRICS_PATH
  }

  lemma ForMetricsByUrl(req: Request, verb: string)
    ensures ForMetrics(req) <==> req.url == "/__nextboost_metrics"
    ensures ForMetrics(req.(verb := verb)) == ForMetrics(req)
  {
  }
}
