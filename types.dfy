/** The records of src/types.ts: cache status, URL rules and the SWR states. */
module Types {
  import Payload

  /** The three answers of a cache lookup. */
  datatype CacheStatus = Hit | Stale | Miss

  /** A cache rule: a regular expression (kept as its source text) and a TTL in seconds. */
  datatype URLCacheRule = URLCacheRule(regex: string, ttl: int)

  /** The revalidation state of a request; hit, fulfill and stale carry the cached page. */
  datatype State =
    | HitState(payload: Payload.PagePayload)
    | FulfillState(payload: Payload.PagePayload)
    | StaleState(payload: Payload.PagePayload)
    | MissState
    | TimeoutState
    | ForceState
    | BypassState
}
