# next-boost core, modelled in Dafny

next-boost puts a stale-while-revalidate cache in front of a slow HTTP renderer
(a Next.js server). This project models the deterministic core of that layer and
proves properties of the model. The model has one module per source file:

- `Payload` (src/payload.ts): the binary framing of a cached page. It is `%NB%`,
  then the header JSON length as a big-endian uint32, then the header JSON, then
  the body. The header JSON is a concrete subset: `null`, or an object with
  string members. It is written the way JSON.stringify writes it (RFC 8259,
  section 7) and has a parser, and the parser undoes the writer.
- `DiskCache` (src/cache.ts): the SQLite-backed TTL store. It is a class over a
  `map` from key to value and validUntil, with upsert, get, a hit/stale/miss
  status, delete and purge past the grace period `tbd`.
- `CacheManager` (src/cache-manager.ts): the purge timer as a guarded state
  machine.
- `Utils` (src/utils.ts):
  - the gzip tests `shouldZip` and `isZipped`;
  - the capturing response wrapper;
  - the header handling of `serveCache`;
  - `mergeConfig`.
- `Handler` (src/handler.ts): the request closure of `createCachedHandler`:
  - the cache lookup guard and the `revalidate` messages;
  - first-match rule selection;
  - the outcome label;
  - the write-back when the response closes.

  It also covers that file's own `mergeConfig` and `serveCache`.
- `Metrics` and `Stats` (src/metrics.ts, src/stats.ts): per-status counters and
  their counter lines in the Prometheus text exposition format 0.0.4.
- `Cli` (src/cli.ts): the argument scanner of `main`.
- Support modules:
  - `Base`: bytes, Option and Result.
  - `Types`: the records of src/types.ts.
  - `Js`: the JavaScript string and number primitives the core uses.
  - `Http`: the request and response surface of Node's http module.

Time is a parameter, `nowMs`, holding the milliseconds `Date.getTime()` would
return. Timer firings are calls of `PurgeTimer.Tick`. The regular-expression test
is the parameter `matches(pattern, url)`. The render callback runs between
`CachedHandler.Handle` and `CachedHandler.Close`. Messages to the cache manager
process are appended to `CachedHandler.outbox`. The configuration file is a
`ConfigFile` parameter: missing, failing to load, or loaded with its contents.

## Model

| member | source | states |
|---|---|---|
| Payload.ReadUInt32BE | src/payload.ts:33 | four bytes read big-endian give a value below 2^32 |
| Payload.WriteUInt32BE | src/payload.ts:17-19 | a value below 2^32 is written as four bytes that read back as the same value |
| Payload.Serialize | src/payload.ts:17 | the JSON text is at least two bytes long; it opens with `{` exactly for an object, which it also closes with `}` |
| Payload.Parse | src/payload.ts:38 | whatever parses is `null` or an object holding no name twice |
| Payload.AssignReads | src/payload.ts:38 | after storing a member, its name reads the new value and every other name reads as before |
| Payload.AssignKeepsDistinct | src/payload.ts:38 | storing a member into an object with no repeated name leaves none repeated |
| Payload.MembersDistinct | src/payload.ts:38 | the object built from the members read holds no name twice |
| Payload.MembersKeepLast | src/payload.ts:38 | in the object built from the members read, each name holds the value of the last member with that name |
| Payload.MembersOfDistinct | src/payload.ts:38 | members with distinct names build the object with exactly those members in order |
| Payload.RepeatedNameKeepsLast | src/payload.ts:38 | `{"a":"1","a":"2"}` reads as `{"a":"2"}` |
| Payload.StringRoundTrip | src/payload.ts:17 | the JSON string parser reads back exactly the bytes the escaper wrote, and leaves what follows the closing quote untouched |
| Payload.MembersRoundTrip | src/payload.ts:17 | the members of a non-empty header object, as written, parse back to the same members in order |
| Payload.HeadersRoundTrip | src/payload.ts:17-38 | parsing the JSON text of the headers of any JavaScript object (no name twice), and of `null`, gives the same value back |
| Payload.Encode | src/payload.ts:16-21 | the output starts with `%NB%`; bytes 4..7 hold the header length big-endian; then come the header JSON and the body; its length is 8 + header length + body length, and a null body adds nothing; a header text of 2^32 bytes or more is an out-of-range error |
| Payload.Decode | src/payload.ts:29-41 | an absent buffer gives `{}` and an empty body; a buffer not starting with `%NB%` (shorter ones included) is `Invalid payload`; a magic without a full length field is out of range; otherwise it succeeds exactly when the header slice parses, and fails only with an invalid-JSON error; on success the headers are the parse of bytes 8..8+length (clamped to the buffer) and the body is the exact suffix from there; decoded headers never hold a name twice; a header slice that JSON.parse would accept only with white space between tokens is an invalid-JSON error here (see `Payload.Parse` under Left out) |
| Payload.RoundTrip | src/payload.ts:16-41 | decoding an encoded page whose headers hold no name twice gives back equal headers, null included, and the same body bytes; a null body comes back empty, not null |
| Js.IndexOf | src/utils.ts:12 | -1 exactly when the substring occurs nowhere; otherwise the first position where it occurs |
| Js.NatToString | src/metrics.ts:6 | the decimal text of a count is non-empty and all digits |
| Js.ParseInt | src/cli.ts:59 | NaN (None) exactly when no digit follows the leading white space and sign |
| Js.ParseIntOfNat | src/metrics.ts:6 | parseInt reads back the count written into a line, whatever non-digit follows it |
| Js.Utf8 | src/utils.ts:30 | a string encodes to between one and four bytes per character, and an ASCII string to its character codes |
| Http.ServerResponse.GetHeader | src/utils.ts:16 | getHeader gives the stored value of a set header and undefined for an unset one |
| Http.ServerResponse.SetHeader | src/utils.ts:58 | setHeader replaces one header, and status and calls are unchanged |
| Http.ServerResponse.RemoveHeader | src/utils.ts:64 | removeHeader drops one header, and status and calls are unchanged |
| Http.ServerResponse.Receive | src/utils.ts:38 | a write or end reaching the original response is recorded after the earlier ones, and nothing else changes |
| DiskCache.Cache.constructor | src/cache.ts:18-30 | ttl and tbd are 3600 unless a non-zero value is given; the table is the database's existing contents |
| DiskCache.Cache.Set | src/cache.ts:32-46 | the key afterwards holds exactly the new value with validUntil = floor(now in seconds) + ttl; a missing or zero ttl uses the instance default; every other key is unchanged |
| DiskCache.Cache.Get | src/cache.ts:48-52 | a stored key gives its value; an absent key gives the supplied default |
| DiskCache.Cache.Status | src/cache.ts:54-58 | miss iff there is no row; hit iff validUntil is later than now; stale otherwise |
| DiskCache.Cache.Del | src/cache.ts:60-62 | exactly the key is removed, and the count of deleted rows is 1 or 0 |
| DiskCache.Cache.Purge | src/cache.ts:64-70 | the table afterwards is the purge of the old one, and the count is the number of rows that went |
| DiskCache.GetAfterSet | src/cache.ts:32-52 | after set(k, v), get(k) is v and every other key reads as before |
| DiskCache.SetIsHitUntilExpiry | src/cache.ts:44 | an entry set with a TTL of at least one second is a hit when set, and turns stale exactly when its validUntil second begins |
| DiskCache.StaleStaysStale | src/cache.ts:57 | once stale, an entry never reports hit again until it is set again |
| DiskCache.StaleIsReadable | src/cache.ts:48-57 | a stale entry is still returned by get |
| DiskCache.GetAfterDel | src/cache.ts:60-62 | after del(k), get(k) gives the default and no other key changes |
| DiskCache.PurgeExactly | src/cache.ts:64-67 | purge keeps a key iff validUntil is not earlier than now - tbd (an entry at exactly now - tbd survives), and kept entries are unchanged |
| DiskCache.PurgeKeepsHits | src/cache.ts:57-67 | with a non-negative tbd, purge never removes a hit, and a purged key reads as a miss |
| DiskCache.PurgeIdempotent | src/cache.ts:64-67 | purging twice at the same time removes nothing more |
| DiskCache.EntryLifecycle | src/cache.ts:32-67 | an entry with ttl 1 s and tbd 5 s, set at time 0, is a hit at 0.5 s, stale and readable at 1.5 s, and gone after a purge at 7 s |
| CacheManager.PurgePeriod | src/cache-manager.ts:8 | the period is tbd capped at 3600 seconds |
| CacheManager.PurgeTimer.constructor | src/cache-manager.ts:4 | the module starts with no interval and no guard |
| CacheManager.PurgeTimer.Init | src/cache-manager.ts:6-15 | once the guard is set, a call changes nothing; otherwise it arms the guard and starts an interval on this store with a delay of min(tbd, 3600) * 1000 ms |
| CacheManager.PurgeTimer.Stop | src/cache-manager.ts:17-19 | the ticks stop, but the guard stays set |
| CacheManager.PurgeTimer.Tick | src/cache-manager.ts:10-13 | a running interval purges its store exactly once and logs the count; a cleared one does nothing |
| CacheManager.InitTwiceThenStop | src/cache-manager.ts:6-19 | init, init, stop, init leaves one armed, stopped timer on the first store and period: a later init does not restart it |
| Utils.ShouldZip | src/utils.ts:10-13 | true iff accept-encoding is present and contains the substring gzip |
| Utils.IsZipped | src/utils.ts:15-19 | false for a numeric content-encoding; a string must contain gzip; a list must hold the element gzip |
| Utils.CapturedIsAllChunks | src/utils.ts:27-31 | skipping falsy chunks loses no bytes: the captured chunks concatenate to all bytes written |
| Utils.EndCapturesAll | src/utils.ts:41-45 | after any writes followed by end, the captured body is the in-order concatenation of every chunk |
| Utils.CaptureExample | test/utils.test.ts:42-51 | write('Test'), write(Buffer '/X/'), end() captures `Test/X/` |
| Utils.WrappedResponse.constructor | src/utils.ts:21-25 | the wrapper starts with no chunks and no body, around the given response |
| Utils.WrappedResponse.Write | src/utils.ts:36-39 | the chunk is pushed unless falsy, the body is unchanged, and the call is forwarded unchanged to the original response |
| Utils.WrappedResponse.End | src/utils.ts:41-45 | the chunk is pushed unless falsy, the body becomes the concatenation of all chunks, and the call is forwarded unchanged |
| Utils.CachedHeaders | src/utils.ts:57-71 | stored headers win over current ones; content-length is absent; content-encoding is gzip iff the client accepts gzip and absent otherwise |
| Utils.CopyHeaders | src/utils.ts:57-59 | the loop leaves the old headers overridden by the stored ones, and status and calls are unchanged |
| Utils.ServeCache | src/utils.ts:50-72 | status 200 and the headers of CachedHeaders; the stored body goes out as it is to a gzip client and through gunzip otherwise; nothing is written to the response directly |
| Utils.MergeConfig | src/utils.ts:104-131 | error iff the named file fails to load (`Failed to load <name>`); otherwise hostname and port are the given ones or localhost and 3000; the file name is the given one unless missing or empty; the file's rules replace the rules; each cache field comes from the file, else from the given cache object, else from the defaults |
| Utils.DefaultConfig | test/utils.test.ts:53-60 | with no input and no file: localhost, 3000, one rule `.*` for 3600 s, the file name `.next-boost.js` |
| Utils.GivenCacheReplacesDefault | test/utils.test.ts:62-71 | a given cache object replaces the default one as a whole: ttl 1 and no other cache field |
| Handler.FirstMatch | src/handler.ts:102-108 | the index of the first rule in order whose pattern matches, none earlier matching; none iff no rule matches |
| Handler.SelectRule | src/handler.ts:101-108 | the loop sets wrap iff some rule matches, and ttl to the first matching rule's ttl; otherwise ttl stays null |
| Handler.FirstMatchIgnoresLaterRules | src/handler.ts:106 | appending rules never changes the choice once a rule matches |
| Handler.ShouldLookup | src/handler.ts:86-89 | a request is looked up iff it is a GET or a HEAD whose render would be labelled a miss, that is, one not marked for revalidation |
| Handler.Label | src/handler.ts:111-115 | the label is one of `byp`, `rvl` and `mis`; `byp` exactly when the response was not wrapped, `rvl` exactly when it was wrapped and the request is marked `x-cache-status: stale` |
| Handler.HandlerConfig | src/handler.ts:34-61 | empty hostname and zero port fall back to localhost:3000; a present file merges its cache fields and replaces the rules; a failing file is an error, where the process exits |
| Handler.ServedHeaders | src/handler.ts:16-27 | stored headers win over current ones, and content-encoding is gzip when the client accepts gzip; content-length is not touched |
| Handler.ServeFromCache | src/handler.ts:11-32 | status 200, the headers of ServedHeaders; the body is gzipped on the fly for a gzip client and sent as stored otherwise |
| Handler.CachedHandler.constructor | src/handler.ts:71-79 | the store opens with the configured ttl and tbd (0 or missing means 3600), and exactly one init message is sent |
| Handler.CachedHandler.Handle | src/handler.ts:81-116 | served from the cache iff the method is GET or HEAD, the request is not marked stale, and the body key is not a miss; a stale lookup sends exactly one revalidate, a hit none; otherwise the response is untouched, the ttl is the first matching rule's, the response is wrapped iff a rule matched, and the label is byp, rvl or mis |
| Handler.CachedHandler.Close | src/handler.ts:118-129 | a wrapped 200 writes body and headers under both keys with the same validUntil, using the rule's ttl or the store default; a wrapped 304 sends one revalidate and writes nothing; otherwise nothing changes |
| Handler.CreateCachedHandler | src/handler.ts:63-80 | no handler iff the configuration file fails to load; otherwise the merged configuration, the existing store and one init message |
| Handler.KeysDiffer | src/handler.ts:120-121 | the body and header keys of a URL never collide |
| Handler.WriteBackIsHit | src/handler.ts:118-122 | after a write-back whose validity has not run out, the body key is a hit holding the captured body, and the header key holds the response headers |
| Handler.LookupOutcome | src/handler.ts:86-94 | a GET of a stored URL is looked up and never a miss; it is stale, and so sends a revalidate, iff its validUntil has passed |
| Handler.RevalidationBypassesLookup | src/handler.ts:86-89 | a request marked stale is never answered from the cache; its label is rvl when a rule matched and byp otherwise |
| Metrics.Put | src/metrics.ts:19 | after `data[k] = v`, k counts v and every other key counts what it did; the map takes exactly that update, and the key is appended to the listed keys only when new |
| Metrics.PutKeepsWellFormed | src/metrics.ts:19 | storing under a key keeps every key listed once, and the listed keys exactly the keys held |
| Metrics.CounterLineReadsBack | src/metrics.ts:6 | a counter line names its status between the quotes, ends in a newline, and parseInt reads back its count |
| Metrics.CounterLine | src/metrics.ts:6 | a counter line runs past the prefix, the status and the closing `'} `: the count always takes at least one character |
| Metrics.Lines | src/metrics.ts:5-7 | one write per key of the record, in key order, of `next_boost_requests_total{status='k'} n` |
| Metrics.WriteCounters | src/metrics.ts:3-9 | the content type is set, then the loop writes exactly the counter lines, then the response ends; the status is unchanged |
| Metrics.TallyCounts | src/metrics.ts:18-20 | after any sequence of inc calls, a key is present iff it was incremented, and its count is how many times it was |
| Metrics.TallyWellFormed | src/metrics.ts:16-20 | a record built by inc calls lists each key once, exactly the keys it holds |
| Metrics.TallyStep | src/metrics.ts:19 | one more inc bumps the key's count to one more than it was |
| Metrics.Metrics.constructor | src/metrics.ts:16 | the record starts empty |
| Metrics.Metrics.Inc | src/metrics.ts:18-20 | returns the new count (1 for an unseen key); only that key's value changes; an unseen key is appended; the count equals the number of inc calls for the key |
| Metrics.ServeMetrics | src/metrics.ts:3-9 | the content type, then one counter line per key of data, then end |
| Metrics.ForMetrics | src/metrics.ts:11-13 | the metrics endpoint is the URL `/__nextboost_metrics` and nothing else; the method plays no part |
| Metrics.ForMetricsByUrl | src/metrics.ts:11-13 | true iff the URL is exactly `/__nextboost_metrics`, whatever the method |
| Stats.Prefixed | src/stats.ts:8 | each name, in order, with the prefix in front |
| Stats.StatKeysInOrder | src/stats.ts:5-8 | the counts are requested for `stats:` plus each of the seven statuses, in STATUSES order |
| Stats.StatusesDistinct | src/stats.ts:5 | no status is listed twice |
| Stats.Collect | src/stats.ts:10-13 | the record lists at most one key per count returned, and none exactly when no count is returned |
| Stats.CollectStats | src/stats.ts:7-14 | a backend without count gives an empty record; otherwise at most one key per count it returns |
| Stats.CollectDomain | src/stats.ts:10-13 | the collected record holds exactly the keys it lists |
| Stats.CollectKeys | src/stats.ts:10-13 | for at most as many counts as statuses, the record lists the first statuses in order, one per count returned |
| Stats.CollectValues | src/stats.ts:10-13 | for at most as many counts as statuses, STATUSES[i] holds the i-th count |
| Stats.CollectOverflow | src/stats.ts:11 | counts past the last status are all stored under `undefined`, the last one winning |
| Stats.NoCountNoLines | src/stats.ts:9-21 | a backend without count yields an empty record and no counter lines |
| Stats.ServeStats | src/stats.ts:16-23 | the content type, one counter line per collected key, then end |
| Stats.SevenLines | src/stats.ts:16-23 | a backend counting all seven statuses gives exactly seven lines, in STATUSES order, each with its count |
| Stats.IsReqForStats | src/stats.ts:25-27 | a request is for stats exactly when it is a GET of `/__nextboost_exporter`, so never the metrics endpoint's request |
| Stats.StatsRequestNeedsGet | src/stats.ts:25-27 | a request for `/__nextboost_exporter` is for stats iff its method is GET |
| Cli.TypeOfArg | src/cli.ts:44 | only the three option names have a type |
| Cli.StepOn | src/cli.ts:42-60 | one pass of the loop body consumes the token, or the token and the value after it |
| Cli.Run | src/cli.ts:39-65 | the index loop, which advances inside its body, computes exactly the scan of the tokens after the first two |
| Cli.Scan | src/cli.ts:41-65 | a serve outcome never has a truthy `--help`, and its argv keeps every key set before |
| Cli.NoArguments | src/cli.ts:39-41 | with no tokens after the first two, serve gets an empty argv |
| Cli.PositionalDir | src/cli.ts:45-52 | a token naming no option becomes dir while dir is unset or falsy, and yields help once dir is set |
| Cli.HelpSticks | src/cli.ts:53-63 | once --help is set, the outcome is help whatever follows |
| Cli.HelpFlag | src/cli.ts:53-56 | --help or -h consumes no value and yields help |
| Cli.MissingValue | src/cli.ts:57 | a value option with no token after it yields help |
| Cli.ValueStep | src/cli.ts:57-60 | a value option stores its value under the option's name and consumes the next token |
| Cli.PortValue | src/cli.ts:59 | --port or -p stores parseInt of the next token and consumes it |
| Cli.HostnameValue | src/cli.ts:60 | --hostname or -H stores the next token verbatim and consumes it |
| Cli.ResolveOption | src/cli.ts:43 | an option name and its short alias both resolve to the option name |
| Cli.SameResolution | src/cli.ts:43 | the scan sees a token only through what the alias step resolves it to |
| Cli.AliasAgrees | src/cli.ts:33-43 | -p and -H behave exactly like --port and --hostname |
| Cli.RepeatedOptionOverwrites | src/cli.ts:60 | a repeated option keeps the last value |
| Cli.PrototypeNameBecomesDir | src/cli.ts:43-48 | as written, a token spelled like an Object.prototype member makes dir the inherited member; the own-property lookup keeps the text |
| Cli.StepSetsDir | src/cli.ts:46-48 | with own-property lookup, one pass leaves dir as it was or sets it to the token's text |
| Cli.DirIsToken | src/cli.ts:41-65 | with own-property lookup, dir reaching serve is always text: the starting dir or one of the tokens |

## Left out

- SQLite specifics (DDL, WAL mode, VACUUM) are not modelled. Neither is the JSON encoding of non-Buffer values in the store. The table is a map.
- The header JSON of a page is limited to `null` or an object of string members. Numbers, nesting and `\u` escapes at or above 0x80 are not parsed. Buffers are byte sequences.
- `Payload.Parse`: accepts only the compact text JSON.stringify writes. White space between tokens, which JSON.parse accepts, makes it fail, so `Payload.Decode` reports invalid JSON for such a slice. Invalid UTF-8 in the header slice is kept as raw bytes, where `headerBuffer.toString()` would replace it with U+FFFD. The round trips are unaffected, because `Payload.Encode` writes neither.
- Fractional seconds are not modelled: ttl, tbd and validUntil are integers, and the test's 0.8 s TTL is out of scope.
- The regular-expression engine is the parameter `matches`.
- Streaming and compression are recorded as a `BodyStream` tag only. zlib is a foreign library.
- Logging (`log`, `logger`, `process.hrtime`, console output) is left out.
- `Date` and `setInterval` are replaced by `nowMs` and calls of `Tick`. Node's clamping of the delay for a tbd below 1 ms is left out.
- The two `Date` reads in the close listener are one clock value.
- Header names are taken as given. Node's case-insensitive header lookup is left out.
- Object.keys lists integer-like keys first. The model keeps pure insertion order.
- `Metrics.Metrics.Inc`: a key spelled like an Object.prototype member is treated as a fresh key.
- `Metrics.Lines`: uses `c[k] || 0` for each listed key, which is the stored count for every key the record lists.
- Object.assign aliasing is left out: the merged `cache` object is `basic.cache` itself, and loading the file mutates it. The model copies values.
- An explicitly `undefined` property in the caller's configuration overrides the default in the source. The model has no such value.
- A NaN port falls back to 3000 in src/handler.ts. The model's port is an integer.
- `path.resolve`, `fs.existsSync` and `require` of the configuration file are the `ConfigFile` parameter. `process.exit(1)` is an error result, or no handler.
- The log message of that exit names the resolved absolute path. The model's error names the plain file name.
- src/handler.ts imports `shouldGzip`, which src/utils.ts does not export. The model uses `Utils.ShouldZip`, the evident intent.
- The render callback and what it writes lie outside the model. Its effect reaches `Close` through the response and the wrapper.
- Chunk encodings other than UTF-8 are not modelled.
- The worker and child-process RPC, the renderer, the logger and the entry points are not part of this model.
- The stats backend's `count` is a parameter (`Stats.Backend`).
- `Cli.RepeatedOptionOverwrites`: stated for `--hostname` only. The same step lemma, `Cli.ValueStep`, gives the `--port` case.
- The `help()` text and the `serve(argv)` startup are the `Help` and `Serve` outcomes. Their side effects are left out.
- `del` and `purge` return better-sqlite3's RunResult object (src/cache.ts:61, src/cache.ts:67-69). `DiskCache.Cache.Del` and `DiskCache.Cache.Purge` return only its `changes` field, the number of rows deleted.
- src/cache-manager.ts purges a store from the `hybrid-disk-cache` package, which is not part of this model, and logs the result as the text `${rv}`. `CacheManager.PurgeTimer.Tick` purges a `DiskCache.Cache` and records the count of rows removed.
- The close listener is registered only after `await callback` settles (src/handler.ts:110-118), so a response that closes before then is never written back. `Handler.CachedHandler.Close` may follow any `Handle`, which covers only the order where the render settles first.
- A function passed as the chunk of `res.write(cb)` or `res.end(cb)` is truthy and reaches `Buffer.from`, which throws (src/utils.ts:29-30). `Http.Chunk` has no function case, so that exception is not modelled.
- Counts and `parseInt` results are JavaScript doubles, exact only below 2^53, and a template literal writes 1e21 and above in exponent form. `Js.NatToString` and `Js.ParseInt` work on unbounded integers.

## Findings

| source | as written | input that shows it | evidently intended | confidence | as-written member | corrected member |
|---|---|---|---|---|---|---|
| src/cli.ts:43-48 | `arg in alias` also sees Object.prototype's names, so such a token is replaced by the inherited member and `dir` becomes a function, not a string | the arguments `node next-boost toString` | `dir` is the text `toString`, so an own-property lookup is needed | not executed | Cli.PrototypeNameBecomesDir | Cli.DirIsToken |
