/** The request closure of src/handler.ts: serve from the cache when the lookup
    allows it, otherwise pick the first matching rule, render (through the
    capturing wrapper when a rule matched) and write the result back when the
    response closes. The render callback runs between `Handle` and `Close`; the
    regular-expression test is the parameter `matches(pattern, url)`, and the
    messages for the cache manager are appended to `outbox`. */
module Handler {
  import opened Base
  import opened Types
  import opened Http
  import opened Utils
  import DiskCache

  /** A message to the cache manager child. */
  datatype Message = Init(conf: Config) | Revalidate(url: string)

  /** What the closure leaves for the `close` listener. `wrapped` is present exactly
      when a rule matched (`wrap`); `ttl` is that rule's TTL. */
  datatype Pending = Pending(url: string, status: string, ttl: Option<int>, wrapped: Option<WrappedResponse>)

  /** Served from the cache, with the body's stream; or handed to the renderer. */
  datatype Route = Served(body: BodyStream) | Render(pending: Pending)

  // ---------------------------------------------------------------------------
  // Decisions

  /** Only GET and HEAD are looked up, and not the revalidation requests (marked
      with `x-cache-status: stale`). */
  predicate ShouldLookup(req: Request)
    ensures ShouldLookup(req) <==> (req.verb == "GET" || req.verb == "HEAD") && Label(true, req) == "mis"
  {
    (req.verb == "GET" || req.verb == "HEAD")
    && !("x-cache-status" in req.headers && req.headers["x-cache-status"] == "stale")
  }

  /** The status logged after rendering. */
  function Label(wrap: bool, req: Request): (r: string)
    ensures r == "byp" || r == "rvl" || r == "mis"
    ensures r == "byp" <==> !wrap
    ensures r == "rvl" <==> wrap && "x-cache-status" in req.headers && req.headers["x-cache-status"] == "stale"
  {
    if !wrap then "byp"
    else if "x-cache-status" in req.headers && req.headers["x-cache-status"] == "stale" then "rvl"
    else "mis"
  }

  /** The index of the first rule, in order, whose pattern matches the URL. */
  function FirstMatch(rules: seq<URLCacheRule>, url: string, matches: (string, string) -> bool): (r: Option<nat>)
    ensures r.Some? ==> r.value < |rules| && matches(rules[r.value].regex, url)
    ensures r.Some? ==> forall j :: 0 <= j < r.value ==> !matches(rules[j].regex, url)
    ensures r.None? <==> forall j :: 0 <= j < |rules| ==> !matches(rules[j].regex, url)
  {
    if rules == [] then None
    else
      var head := FirstMatch(rules[..|rules| - 1], url, matches);
      if head.Some? then head
      else if matches(rules[|rules| - 1].regex, url) then Some(|rules| - 1)
      else None
  }

  /** The rule loop: `wrap` and `ttl` come from the first matching rule, and stay
      false and null when no rule matches. */
  method SelectRule(rules: seq<URLCacheRule>, url: string, matches: (string, string) -> bool)
    returns (wrap: bool, ttl: Option<int>)
    ensures wrap <==> FirstMatch(rules, url, matches).Some?
    ensures wrap ==> ttl == Some(rules[FirstMatch(rules, url, matches).value].ttl)
    ensures !wrap ==> ttl.None?
  {
    wrap, ttl := false, None;
    var i := 0;
    while i < |rules|
      invariant 0 <= i <= |rules|
      invariant !wrap && ttl.None?
      invariant forall j :: 0 <= j < i ==> !matches(rules[j].regex, url)
    {
      if matches(rules[i].regex, url) {
        wrap, ttl := true, Some(rules[i].ttl);
        break;
      }
      i := i + 1;
    }
  }

  /** Only the first matching rule counts: appending rules never changes the choice
      once one rule matches. */
  lemma {:induction false} FirstMatchIgnoresLaterRules(rules: seq<URLCacheRule>, more: seq<URLCacheRule>, url: string, matches: (string, string) -> bool)
    requires FirstMatch(rules, url, matches).Some?
    ensures FirstMatch(rules + more, url, matches) == FirstMatch(rules, url, matches)
    decreases |more|
  {
    if more == [] {
      assert rules + more == rules;
    } else {
      var init := more[..|more| - 1];
      FirstMatchIgnoresLaterRules(rules, init, url, matches);
      assert (rules + more)[..|rules + more| - 1] == rules + init;
    }
  }

  /** The merge of src/handler.ts: an empty hostname or a zero port falls back to
      localhost:3000, the file `.next-boost.js` (when present) merges its `cache`
      fields and replaces the rules, and a file that fails to load ends the process
      (here: an error). */
  function HandlerConfig(hostname: string, port: int, file: ConfigFile): (r: Result<Config, string>)
    ensures r.Err? <==> file == Unloadable
    ensures r.Ok? ==>
      var f := if file.Loaded? then file.contents else FileConfig(None, None);
      && r.value.hostname == (if hostname == "" then DEFAULT_HOSTNAME else hostname)
      && r.value.port == (if port == 0 then DEFAULT_PORT else port)
      && r.value.filename.None?
      && r.value.rules == (if f.rules.Some? then f.rules.value else DEFAULT_RULES)
      && r.value.cache.ttl == (if f.cache.Some? && f.cache.value.ttl.Some? then f.cache.value.ttl else DEFAULT_CACHE.ttl)
      && r.value.cache.tbd == (if f.cache.Some? && f.cache.value.tbd.Some? then f.cache.value.tbd else DEFAULT_CACHE.tbd)
      && r.value.cache.dbPath == (if f.cache.Some? && f.cache.value.dbPath.Some? then f.cache.value.dbPath else DEFAULT_CACHE.dbPath)
  {
    var conf := Config(if hostname != "" then hostname else DEFAULT_HOSTNAME,
                       if port != 0 then port else DEFAULT_PORT,
                       None, DEFAULT_CACHE, DEFAULT_RULES);
    match file
    case Missing => Ok(conf)
    case Unloadable => Err("Failed to read next-boost config " + DEFAULT_FILENAME)
    case Loaded(f) =>
      var withCache := if f.cache.Some? then conf.(cache := AssignCache(conf.cache, f.cache.value)) else conf;
      Ok(if f.rules.Some? then withCache.(rules := f.rules.value) else withCache)
  }

  // ---------------------------------------------------------------------------
  // The serveCache of src/handler.ts

  /** Headers after the handler's serveCache: stored over current, content-length
      kept, and content-encoding set to gzip when the client accepts gzip. */
  function ServedHeaders(current: map<string, HeaderValue>, stored: Option<Stored>, req: Request): (h: map<string, HeaderValue>)
    ensures ShouldZip(req) ==> "content-encoding" in h && h["content-encoding"] == Text(GZIP)
    ensures forall k :: (k != "content-encoding" || !ShouldZip(req)) ==>
      && (k in h <==> k in current || k in StoredHeaders(stored))
      && (k in h ==> h[k] == if k in StoredHeaders(stored) then StoredHeaders(stored)[k] else current[k])
  {
    var merged := current + StoredHeaders(stored);
    if ShouldZip(req) then merged["content-encoding" := Text(GZIP)] else merged
  }

  /** The body as this serveCache sends it: gzipped on the fly for a client that
      accepts gzip, as stored otherwise. */
  function ServedBody(body: seq<Byte>, req: Request): BodyStream
  {
    if ShouldZip(req) then Gzipped(body) else Raw(body)
  }

  method ServeFromCache(cache: DiskCache.Cache<Stored>, req: Request, res: ServerResponse) returns (piped: BodyStream)
    modifies res
    ensures res.statusCode == 200 && res.calls == old(res.calls)
    ensures res.headers == ServedHeaders(old(res.headers), cache.Get(HEADER_PREFIX + req.url, None), req)
    ensures piped == ServedBody(StoredBody(cache.Get(BODY_PREFIX + req.url, None)), req)
  {
    var body := StoredBody(cache.Get(BODY_PREFIX + req.url, None));
    CopyHeaders(res, StoredHeaders(cache.Get(HEADER_PREFIX + req.url, None)));
    res.statusCode := 200;
    if ShouldZip(req) {
      res.SetHeader("content-encoding", Text(GZIP));
      piped := Gzipped(body);
    } else {
      piped := Raw(body);
    }
  }

  // ---------------------------------------------------------------------------
  // The handler

  class CachedHandler {
    const conf: Config
    const cache: DiskCache.Cache<Stored>
    const matches: (string, string) -> bool
    /** The messages sent to the cache manager, in order. */
    var outbox: seq<Message>

    /** The part of createCachedHandler after the merge: open the store (holding
        `stored` from earlier runs) and send `init` to the manager. */
    constructor (conf: Config, stored: map<string, DiskCache.Entry<Stored>>, matches: (string, string) -> bool)
      ensures this.conf == conf && this.matches == matches
      ensures fresh(cache) && cache.table == stored
      ensures cache.ttl == DiskCache.OrDefault(conf.cache.ttl, DiskCache.DEFAULT_TTL)
      ensures cache.tbd == DiskCache.OrDefault(conf.cache.tbd, DiskCache.DEFAULT_TBD)
      ensures outbox == [Init(conf)]
    {
      this.conf := conf;
      this.matches := matches;
      cache := new DiskCache.Cache(stored, conf.cache.ttl, conf.cache.tbd);
      outbox := [Init(conf)];
    }

    /** The closure up to the render callback. */
    method Handle(req: Request, res: ServerResponse, nowMs: int) returns (route: Route)
      modifies this`outbox, res
      ensures var status := cache.Status(BODY_PREFIX + req.url, nowMs);
        var lookup := ShouldLookup(req) && status != Miss;
        && (route.Served? <==> lookup)
        && (lookup ==>
              && outbox == old(outbox) + (if status == Stale then [Revalidate(req.url)] else [])
              && route.body == ServedBody(StoredBody(cache.Get(BODY_PREFIX + req.url, None)), req)
              && res.statusCode == 200 && res.calls == old(res.calls)
              && res.headers == ServedHeaders(old(res.headers), cache.Get(HEADER_PREFIX + req.url, None), req))
        && (!lookup ==>
              var first := FirstMatch(conf.rules, req.url, matches);
              && outbox == old(outbox)
              && res.statusCode == old(res.statusCode) && res.headers == old(res.headers) && res.calls == old(res.calls)
              && route.pending.url == req.url
              && route.pending.status == Label(first.Some?, req)
              && (route.pending.wrapped.Some? <==> first.Some?)
              && route.pending.ttl == (if first.Some? then Some(conf.rules[first.value].ttl) else None))
      ensures route.Render? && route.pending.wrapped.Some? ==>
        var w := route.pending.wrapped.value;
        fresh(w) && w.res == res && w.Valid() && w.history == [] && w.body.None?
    {
      if ShouldLookup(req) {
        var status := cache.Status(BODY_PREFIX + req.url, nowMs);
        if status != Miss {
          if status == Stale {
            outbox := outbox + [Revalidate(req.url)];
          }
          var piped := ServeFromCache(cache, req, res);
          return Served(piped);
        }
      }
      var wrap, ttl := SelectRule(conf.rules, req.url, matches);
      var wrapped: Option<WrappedResponse> := None;
      if wrap {
        var w := new WrappedResponse(res);
        wrapped := Some(w);
      }
      route := Render(Pending(req.url, Label(wrap, req), ttl, wrapped));
    }

    /** The `close` listener: a wrapped 200 response is written back under both
        keys with the rule's TTL; a wrapped 304 asks the manager to revalidate. */
    method Close(p: Pending, res: ServerResponse, nowMs: int)
      modifies cache, this`outbox
      ensures cache.ttl == old(cache.ttl) && cache.tbd == old(cache.tbd)
      ensures var until := DiskCache.Seconds(nowMs) + DiskCache.OrDefault(p.ttl, cache.ttl);
        cache.table ==
          if p.wrapped.Some? && res.statusCode == 200 then
            old(cache.table)[BODY_PREFIX + p.url := DiskCache.Entry(Body(p.wrapped.value.body), until)]
                            [HEADER_PREFIX + p.url := DiskCache.Entry(HeaderSet(res.headers), until)]
          else old(cache.table)
      ensures outbox == old(outbox) + (if p.wrapped.Some? && res.statusCode == 304 then [Revalidate(p.url)] else [])
    {
      if p.wrapped.Some? && res.statusCode == 200 {
        cache.Set(BODY_PREFIX + p.url, Body(p.wrapped.value.body), p.ttl, nowMs);
        cache.Set(HEADER_PREFIX + p.url, HeaderSet(res.headers), p.ttl, nowMs);
      }
      if p.wrapped.Some? && res.statusCode == 304 {
        outbox := outbox + [Revalidate(p.url)];
      }
    }
  }

  /** createCachedHandler: None where the process would exit on a broken
      configuration file. */
  method CreateCachedHandler(hostname: string, port: int, file: ConfigFile,
                             stored: map<string, DiskCache.Entry<Stored>>, matches: (string, string) -> bool)
    returns (h: Option<CachedHandler>)
    ensures h.None? <==> file == Unloadable
    ensures h.Some? ==>
      && fresh(h.value) && h.value.conf == HandlerConfig(hostname, port, file).value
      && h.value.outbox == [Init(h.value.conf)] && h.value.cache.table == stored
  {
    var conf := HandlerConfig(hostname, port, file);
    if conf.Err? {
      return None;
    }
    var handler := new CachedHandler(conf.value, stored, matches);
    h := Some(handler);
  }

  // ---------------------------------------------------------------------------
  // Properties across requests

  /** The body and header keys of one URL never collide. */
  lemma KeysDiffer(url: string)
    ensures BODY_PREFIX + url != HEADER_PREFIX + url
  {
    assert (BODY_PREFIX + url)[0] == 'b';
    assert (HEADER_PREFIX + url)[0] == 'h';
  }

  /** After a write-back whose validity has not run out, the URL's body key is a hit
      holding the captured body, and its header key holds the response headers:
      the next GET of the URL is served from the cache. */
  lemma WriteBackIsHit(t: map<string, DiskCache.Entry<Stored>>, url: string, body: Option<seq<Byte>>,
                       headers: map<string, HeaderValue>, until: int, laterMs: int)
    requires laterMs < until * 1000
    ensures var t' := t[BODY_PREFIX + url := DiskCache.Entry(Body(body), until)]
                       [HEADER_PREFIX + url := DiskCache.Entry(HeaderSet(headers), until)];
      && DiskCache.StatusAt(t', BODY_PREFIX + url, laterMs) == Hit
      && DiskCache.Lookup(t', BODY_PREFIX + url, None) == Some(Body(body))
      && DiskCache.Lookup(t', HEADER_PREFIX + url, None) == Some(HeaderSet(headers))
  {
    KeysDiffer(url);
  }

  /** A GET of a URL that is stored and fresh is served from the cache and sends no
      message; once stale it is still served, and sends exactly one revalidate. */
  lemma LookupOutcome(t: map<string, DiskCache.Entry<Stored>>, req: Request, nowMs: int)
    requires req.verb == "GET" && "x-cache-status" !in req.headers
    requires BODY_PREFIX + req.url in t
    ensures ShouldLookup(req)
    ensures DiskCache.StatusAt(t, BODY_PREFIX + req.url, nowMs) != Miss
    ensures DiskCache.StatusAt(t, BODY_PREFIX + req.url, nowMs) == Stale <==>
      t[BODY_PREFIX + req.url].validUntil * 1000 <= nowMs
  {
  }

  /** A revalidation request (marked stale) is never answered from the cache, and its
      label is `rvl` when a rule matches. */
  lemma RevalidationBypassesLookup(req: Request)
    requires "x-cache-status" in req.headers && req.headers["x-cache-status"] == "stale"
    ensures !ShouldLookup(req)
    ensures Label(true, req) == "rvl" && Label(false, req) == "byp"
  {
  }
}
