/** src/utils.ts: the gzip tests on request and response headers, the capturing
    response wrapper, the header decisions of serveCache and mergeConfig. */
module Utils {
  import opened Base
  import opened Types
  import opened Http
  import Js
  import DiskCache

  const GZIP: string := "gzip"
  /** Key prefixes under which a page's body and headers are stored. */
  const BODY_PREFIX: string := "body:"
  const HEADER_PREFIX: string := "header:"

  /** What the handler keeps in the store: a captured body (None when the body
      was never ended) or the header set of the response. */
  datatype Stored = Body(bytes: Option<seq<Byte>>) | HeaderSet(headers: map<string, HeaderValue>)

  // ---------------------------------------------------------------------------
  // shouldZip / isZipped (Accept-Encoding and Content-Encoding, sections 12.5.3
  // and 8.4 of RFC 9110, tested by substring only: no q-values are read)

  /** shouldZip(req): the client's accept-encoding mentions gzip. */
  function ShouldZip(req: Request): (r: bool)
    ensures r <==> "accept-encoding" in req.headers
                   && exists i :: Js.OccursAt(req.headers["accept-encoding"], GZIP, i)
  {
    "accept-encoding" in req.headers && Js.Contains(req.headers["accept-encoding"], GZIP)
  }

  /** isZipped(res): a numeric content-encoding is never gzip; a string must contain
      "gzip"; a list must hold the element "gzip" (Array.prototype.indexOf). */
  function IsZipped(res: ServerResponse): (r: bool)
    reads res
    ensures r <==> ("content-encoding" in res.headers &&
      match res.headers["content-encoding"]
      case Num(_) => false
      case Text(s) => exists i :: Js.OccursAt(s, GZIP, i)
      case List(items) => GZIP in items)
  {
    match res.GetHeader("content-encoding")
    case None => false
    case Some(Num(_)) => false
    case Some(Text(s)) => Js.Contains(s, GZIP)
    case Some(List(items)) => GZIP in items
  }

  // ---------------------------------------------------------------------------
  // wrappedResponse: what the wrapper captures from a sequence of calls

  /** `!chunk`: missing, or the empty string (an empty Buffer is truthy). */
  predicate Falsy(c: Chunk)
  {
    c.Absent? || c == Str("")
  }

  /** The bytes of a chunk: Buffer.from(string) encodes UTF-8. */
  function ChunkBytes(c: Chunk): seq<Byte>
  {
    match c
    case Absent => []
    case Str(s) => Js.Utf8(s)
    case Buf(b) => b
  }

  /** What push(...) adds to `chunks` for one call. */
  function Pushed(c: Chunk): seq<seq<Byte>>
  {
    if Falsy(c) then [] else [ChunkBytes(c)]
  }

  /** The `chunks` array after a sequence of calls. */
  function CapturedChunks(calls: seq<Call>): seq<seq<Byte>>
  {
    if calls == [] then [] else CapturedChunks(calls[..|calls| - 1]) + Pushed(calls[|calls| - 1].chunk)
  }

  /** `cache.body` after a sequence of calls: set by every end, to all chunks so far. */
  function CapturedBody(calls: seq<Call>): Option<seq<Byte>>
  {
    if calls == [] then None
    else if calls[|calls| - 1].End? then Some(Flatten(CapturedChunks(calls)))
    else CapturedBody(calls[..|calls| - 1])
  }

  /** The bytes of every chunk of every call, in order. */
  function CallBytes(calls: seq<Call>): seq<Byte>
  {
    if calls == [] then [] else CallBytes(calls[..|calls| - 1]) + ChunkBytes(calls[|calls| - 1].chunk)
  }

  lemma FlattenAppend(parts: seq<seq<Byte>>, extra: seq<seq<Byte>>)
    requires |extra| <= 1
    ensures Flatten(parts + extra) == Flatten(parts) + Flatten(extra)
  {
    if |extra| == 1 {
      assert (parts + extra)[..|parts|] == parts;
      assert Flatten(extra) == Flatten([]) + extra[0];
    } else {
      assert parts + extra == parts;
    }
  }

  /** Skipping falsy chunks loses nothing: the captured chunks concatenate to the
      bytes of all chunks written. */
  lemma {:induction false} CapturedIsAllChunks(calls: seq<Call>)
    ensures Flatten(CapturedChunks(calls)) == CallBytes(calls)
    decreases |calls|
  {
    if calls != [] {
      var init, last := calls[..|calls| - 1], calls[|calls| - 1];
      CapturedIsAllChunks(init);
      FlattenAppend(CapturedChunks(init), Pushed(last.chunk));
      if Falsy(last.chunk) {
        assert ChunkBytes(last.chunk) == [];
      }
    }
  }

  /** After any writes followed by end, the captured body is the in-order
      concatenation of every chunk written. */
  lemma EndCapturesAll(calls: seq<Call>)
    requires calls != [] && calls[|calls| - 1].End?
    ensures CapturedBody(calls) == Some(CallBytes(calls))
  {
    CapturedIsAllChunks(calls);
  }

  lemma AsciiTest()
    ensures Js.Utf8("Test") == [84, 101, 115, 116]
  {
    var test := "Test";
    assert forall i :: 0 <= i < |test| ==> test[i] as int < 128;
    var u := Js.Utf8(test);
    assert |u| == 4 && u[0] == 84 && u[1] == 101 && u[2] == 115 && u[3] == 116;
  }

  lemma CallBytesOfThree(c1: Call, c2: Call, c3: Call)
    ensures CallBytes([c1, c2, c3]) == ChunkBytes(c1.chunk) + ChunkBytes(c2.chunk) + ChunkBytes(c3.chunk)
  {
    var calls := [c1, c2, c3];
    assert calls[..2] == [c1, c2] && [c1, c2][..1] == [c1] && [c1][..0] == [];
    assert CallBytes([c1]) == ChunkBytes(c1.chunk);
    assert CallBytes([c1, c2]) == ChunkBytes(c1.chunk) + ChunkBytes(c2.chunk);
  }

  /** write('Test'), write(Buffer.from('/X/')), end() captures `Test/X/`. */
  lemma CaptureExample()
    ensures CapturedBody([Write(Str("Test")), Write(Buf([47, 88, 47])), End(Absent)])
            == Some([84, 101, 115, 116, 47, 88, 47])
  {
    var test: seq<Byte>, x: seq<Byte> := [84, 101, 115, 116], [47, 88, 47];
    AsciiTest();
    CallBytesOfThree(Write(Str("Test")), Write(Buf(x)), End(Absent));
    assert test + x + [] == [84, 101, 115, 116, 47, 88, 47];
    EndCapturesAll([Write(Str("Test")), Write(Buf(x)), End(Absent)]);
  }

  /** The response handed to the renderer: every write and end is forwarded unchanged
      to the original response, and the chunks are collected into `body`. */
  class WrappedResponse {
    const res: ServerResponse
    var chunks: seq<seq<Byte>>
    /** The `body` slot of the capture object given to wrappedResponse. */
    var body: Option<seq<Byte>>
    /** The calls made so far. */
    ghost var history: seq<Call>

    ghost predicate Valid()
      reads this
    {
      chunks == CapturedChunks(history) && body == CapturedBody(history)
    }

    constructor (res: ServerResponse)
      ensures this.res == res && Valid() && history == [] && chunks == [] && body == None
    {
      this.res := res;
      chunks := [];
      body := None;
      history := [];
    }

    method Write(c: Chunk)
      requires Valid()
      modifies this, res
      ensures Valid() && history == old(history) + [Call.Write(c)]
      ensures chunks == old(chunks) + Pushed(c) && body == old(body)
      ensures res.calls == old(res.calls) + [Call.Write(c)]
      ensures res.statusCode == old(res.statusCode) && res.headers == old(res.headers)
    {
      chunks := chunks + Pushed(c);
      history := history + [Call.Write(c)];
      assert history[..|history| - 1] == old(history);
      res.Receive(Call.Write(c));
    }

    method End(c: Chunk)
      requires Valid()
      modifies this, res
      ensures Valid() && history == old(history) + [Call.End(c)]
      ensures chunks == old(chunks) + Pushed(c) && body == Some(Flatten(chunks))
      ensures res.calls == old(res.calls) + [Call.End(c)]
      ensures res.statusCode == old(res.statusCode) && res.headers == old(res.headers)
    {
      chunks := chunks + Pushed(c);
      body := Some(Flatten(chunks));
      history := history + [Call.End(c)];
      assert history[..|history| - 1] == old(history);
      res.Receive(Call.End(c));
    }
  }

  // ---------------------------------------------------------------------------
  // serveCache

  /** How the cached body reaches the client: as stored, or through gunzip. */
  datatype BodyStream = Raw(bytes: seq<Byte>) | Gzipped(bytes: seq<Byte>) | Gunzipped(bytes: seq<Byte>)

  function StoredHeaders(s: Option<Stored>): map<string, HeaderValue>
  {
    match s
    case Some(HeaderSet(h)) => h
    case _ => map[]
  }

  function StoredBody(s: Option<Stored>): seq<Byte>
  {
    match s
    case Some(Body(Some(b))) => b
    case _ => []
  }

  /** The response headers serveCache leaves: the stored headers over the current ones,
      no content-length, and content-encoding gzip exactly when the client accepts gzip. */
  function CachedHeaders(current: map<string, HeaderValue>, stored: Option<Stored>, req: Request): (h: map<string, HeaderValue>)
    ensures "content-length" !in h
    ensures ShouldZip(req) ==> "content-encoding" in h && h["content-encoding"] == Text(GZIP)
    ensures !ShouldZip(req) ==> "content-encoding" !in h
    ensures forall k :: k != "content-length" && k != "content-encoding" ==>
      && (k in h <==> k in current || k in StoredHeaders(stored))
      && (k in h ==> h[k] == if k in StoredHeaders(stored) then StoredHeaders(stored)[k] else current[k])
  {
    var merged := (current + StoredHeaders(stored)) - {"content-length"};
    if ShouldZip(req) then merged["content-encoding" := Text(GZIP)] else merged - {"content-encoding"}
  }

  /** `for (const k in headers) res.setHeader(k, headers[k])`: the stored headers
      win over the response's current ones, and nothing else changes. */
  method CopyHeaders(res: ServerResponse, headers: map<string, HeaderValue>)
    modifies res
    ensures res.headers == old(res.headers) + headers
    ensures res.statusCode == old(res.statusCode) && res.calls == old(res.calls)
  {
    var pending := headers.Keys;
    ghost var done: set<string> := {};
    while pending != {}
      invariant pending + done == headers.Keys && pending !! done
      invariant res.headers == old(res.headers) + map k | k in done :: headers[k]
      invariant res.statusCode == old(res.statusCode) && res.calls == old(res.calls)
      decreases pending
    {
      var k :| k in pending;
      res.SetHeader(k, headers[k]);
      pending := pending - {k};
      done := done + {k};
    }
    assert (map k | k in done :: headers[k]) == headers;
  }

  /** serveCache(cache, req, res): copies the stored headers onto the response, sets
      status 200, and pipes the stored (gzipped) body as it is to a client that
      accepts gzip, through gunzip otherwise. */
  method ServeCache(cache: DiskCache.Cache<Stored>, req: Request, res: ServerResponse) returns (piped: BodyStream)
    modifies res
    ensures res.statusCode == 200
    ensures res.headers == CachedHeaders(old(res.headers), cache.Get(HEADER_PREFIX + req.url, None), req)
    ensures res.calls == old(res.calls)
    ensures var body := StoredBody(cache.Get(BODY_PREFIX + req.url, None));
      piped == if ShouldZip(req) then Raw(body) else Gunzipped(body)
  {
    var body := StoredBody(cache.Get(BODY_PREFIX + req.url, None));
    CopyHeaders(res, StoredHeaders(cache.Get(HEADER_PREFIX + req.url, None)));
    res.statusCode := 200;
    res.RemoveHeader("content-length");
    if ShouldZip(req) {
      res.SetHeader("content-encoding", Text(GZIP));
      piped := Raw(body);
    } else {
      res.RemoveHeader("content-encoding");
      piped := Gunzipped(body);
    }
  }

  // ---------------------------------------------------------------------------
  // mergeConfig

  datatype CacheOptions = CacheOptions(ttl: Option<int>, tbd: Option<int>, dbPath: Option<string>)

  /** The merged configuration (CacheConfig). */
  datatype Config = Config(
    hostname: string,
    port: int,
    filename: Option<string>,
    cache: CacheOptions,
    rules: seq<URLCacheRule>)

  /** The caller's configuration: every property optional. */
  datatype BasicConfig = BasicConfig(
    hostname: Option<string>,
    port: Option<int>,
    filename: Option<string>,
    cache: Option<CacheOptions>,
    rules: Option<seq<URLCacheRule>>)

  /** What a configuration file exports, as far as mergeConfig reads it. */
  datatype FileConfig = FileConfig(cache: Option<CacheOptions>, rules: Option<seq<URLCacheRule>>)

  /** The outcome of looking a configuration file up: absent, present but failing
      to load, or loaded. */
  datatype ConfigFile = Missing | Unloadable | Loaded(contents: FileConfig)

  const DEFAULT_HOSTNAME: string := "localhost"
  const DEFAULT_PORT: int := 3000
  const DEFAULT_CACHE: CacheOptions := CacheOptions(Some(3600), Some(3600), Some("./.cache.db"))
  const DEFAULT_RULES: seq<URLCacheRule> := [URLCacheRule(".*", 3600)]
  const DEFAULT_FILENAME: string := ".next-boost.js"
  const NO_BASIC: BasicConfig := BasicConfig(None, None, None, None, None)

  /** Object.assign(base, over) on cache options: the properties `over` has win. */
  function AssignCache(base: CacheOptions, over: CacheOptions): CacheOptions
  {
    CacheOptions(
      if over.ttl.Some? then over.ttl else base.ttl,
      if over.tbd.Some? then over.tbd else base.tbd,
      if over.dbPath.Some? then over.dbPath else base.dbPath)
  }

  /** Object.assign(conf, basic): shallow, so a given cache object replaces the default one. */
  function Assign(conf: Config, basic: BasicConfig): Config
  {
    Config(
      basic.hostname.GetOr(conf.hostname),
      basic.port.GetOr(conf.port),
      if basic.filename.Some? then basic.filename else conf.filename,
      basic.cache.GetOr(conf.cache),
      basic.rules.GetOr(conf.rules))
  }

  /** The file mergeConfig looks for: the given name unless it is missing or empty. */
  function ConfigFileName(basic: Option<BasicConfig>): string
  {
    var b := basic.GetOr(NO_BASIC);
    if b.filename.Some? && b.filename.value != "" then b.filename.value else DEFAULT_FILENAME
  }

  /** mergeConfig(basic), with the file system given as `readFile`: the defaults,
      overridden shallowly by `basic`, then the file's `cache` fields merged into the
      cache options and the file's `rules` replacing the rules. A file that fails to
      load is an error. */
  function MergeConfig(basic: Option<BasicConfig>, readFile: string -> ConfigFile): (r: Result<Config, string>)
    ensures var name := ConfigFileName(basic);
      && (r.Err? <==> readFile(name) == Unloadable)
      && (r.Err? ==> r.error == "Failed to load " + name)
    ensures r.Ok? ==>
      var b, name := basic.GetOr(NO_BASIC), ConfigFileName(basic);
      var file := if readFile(name).Loaded? then readFile(name).contents else FileConfig(None, None);
      && r.value.hostname == (if b.hostname.Some? then b.hostname.value else DEFAULT_HOSTNAME)
      && r.value.port == (if b.port.Some? then b.port.value else DEFAULT_PORT)
      && r.value.filename == Some(name)
      && r.value.rules == (if file.rules.Some? then file.rules.value
                           else if b.rules.Some? then b.rules.value else DEFAULT_RULES)
      && r.value.cache.ttl == (if file.cache.Some? && file.cache.value.ttl.Some? then file.cache.value.ttl
                               else if b.cache.Some? then b.cache.value.ttl else DEFAULT_CACHE.ttl)
      && r.value.cache.tbd == (if file.cache.Some? && file.cache.value.tbd.Some? then file.cache.value.tbd
                               else if b.cache.Some? then b.cache.value.tbd else DEFAULT_CACHE.tbd)
      && r.value.cache.dbPath == (if file.cache.Some? && file.cache.value.dbPath.Some? then file.cache.value.dbPath
                                  else if b.cache.Some? then b.cache.value.dbPath else DEFAULT_CACHE.dbPath)
  {
    var defaults := Config(DEFAULT_HOSTNAME, DEFAULT_PORT, None, DEFAULT_CACHE, DEFAULT_RULES);
    var conf := if basic.Some? then Assign(defaults, basic.value) else defaults;
    var name := if conf.filename.Some? && conf.filename.value != "" then conf.filename.value else DEFAULT_FILENAME;
    var named := conf.(filename := Some(name));
    match readFile(name)
    case Missing => Ok(named)
    case Unloadable => Err("Failed to load " + name)
    case Loaded(f) =>
      var withCache := if f.cache.Some? then named.(cache := AssignCache(named.cache, f.cache.value)) else named;
      Ok(if f.rules.Some? then withCache.(rules := f.rules.value) else withCache)
  }

  /** With no input and no file: localhost:3000, one rule `.*` for 3600s, the
      default cache options and the file name `.next-boost.js`. */
  lemma DefaultConfig(readFile: string -> ConfigFile)
    requires readFile(DEFAULT_FILENAME) == Missing
    ensures MergeConfig(None, readFile) == Ok(Config("localhost", 3000, Some(".next-boost.js"), DEFAULT_CACHE, [URLCacheRule(".*", 3600)]))
    ensures MergeConfig(Some(NO_BASIC), readFile) == MergeConfig(None, readFile)
  {
  }

  /** A cache object given by the caller replaces the default one as a whole:
      mergeConfig({ cache: { ttl: 1 } }) has ttl 1 and no tbd and no dbPath. */
  lemma GivenCacheReplacesDefault(readFile: string -> ConfigFile)
    requires readFile(DEFAULT_FILENAME) == Missing
    ensures var r := MergeConfig(Some(NO_BASIC.(cache := Some(CacheOptions(Some(1), None, None)))), readFile);
      r.Ok? && r.value.cache == CacheOptions(Some(1), None, None) && r.value.rules == DEFAULT_RULES
  {
  }
}
