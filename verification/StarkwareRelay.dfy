/** The StarkWare relay: a synchronous prover behind a short result cache. */
module StarkwareRelay {
  import opened Wrappers
  import opened Integers
  import opened ProverJob
  import opened ProverStore

  const RESULT_CACHE_TTL_SECONDS := 2 * 60

  datatype Reply =
    | TimedOut
    | Thrown
    | HttpError(status: int)
    | RpcResult(result: ProofResult)
    | RpcError(code: int)
    | InvalidRpc

  datatype Answer =
    | Served(id: int, result: ProofResult)
    | ServedError(id: int, code: int)
    | DeliveryLost
    | TooCloseToExpiry
    | Upstream(status: int)

  datatype RelayError = CorruptCache | FetchFailed | BadRpc

  function CacheKey(digest: string): string {
    "starkware:" + digest + ":result"
  }

  function ResultTtlSeconds(result: ProofResult, nowMs: int): (ttl: int)
    ensures 0 <= ttl <= RESULT_CACHE_TTL_SECONDS
  {
    if result.issuedAt.None? then RESULT_CACHE_TTL_SECONDS
    else Max(0, Min(RESULT_CACHE_TTL_SECONDS, result.issuedAt.value + OLDEST_SUBMITTABLE_AGE - nowMs / 1000))
  }

  /**
   * The record's lifetime alone is the explicit freshness check: written and timed at the
   * same reading, a live record is at most 255 s old, and a record expires only once its
   * two minutes are over or the screening is at least 255 s old.
   */
  lemma LifetimeIsFreshness(result: ProofResult, writtenAt: int, readAt: int)
    requires result.issuedAt.Some? && ResultTtlSeconds(result, writtenAt) > 0
    ensures var expiresAt := writtenAt + ResultTtlSeconds(result, writtenAt) * 1000;
            && (readAt < expiresAt ==> Age(result.issuedAt.value, readAt) <= OLDEST_SUBMITTABLE_AGE)
            && (readAt >= expiresAt ==>
                  || readAt >= writtenAt + RESULT_CACHE_TTL_SECONDS * 1000
                  || Age(result.issuedAt.value, readAt) >= OLDEST_SUBMITTABLE_AGE)
  {
    var whole, part := writtenAt / 1000, writtenAt % 1000;
    assert writtenAt == whole * 1000 + part;
    assert readAt == (readAt / 1000) * 1000 + readAt % 1000;
  }

  /** Every cached proof expires before it is older than 255 s, up to the given write lag. */
  ghost predicate CacheFresh(values: map<string, Entry>, lagMs: nat) {
    forall key :: key in values && values[key].value.ResultValue? && values[key].value.result.issuedAt.Some? ==>
      values[key].expiresAt <= (values[key].value.result.issuedAt.value + OLDEST_SUBMITTABLE_AGE) * 1000 + 999 + lagMs
  }

  /**
   * Serves a live cached result, or submits once and caches what it serves; a proof that is
   * to be cached is refused when its screening is 255 s old. `lagMs` bounds
   * the time between computing a lifetime and stamping it: with no lag every cache hit is
   * at most 255 s old at the reading that found it.
   */
  method RelayStarkwareProverRequest(
    store: MemoryStore?, clock: Clock, digest: string, id: int, upstream: Reply, ghost lagMs: nat)
    returns (
      r: Result<Answer, RelayError>,
      posted: bool,
      ghost readAt: int,
      ghost decidedAt: int,
      ghost writeLagMs: nat)
    requires store != null ==> store.clock == clock && CacheFresh(store.values, lagMs)
    modifies clock, if store != null then {store} else {}
    ensures old(clock.now) <= readAt <= decidedAt <= clock.now
    ensures store != null ==> CacheFresh(store.values, if lagMs < writeLagMs then writeLagMs else lagMs)
    ensures writeLagMs <= clock.now - old(clock.now)
    ensures !posted <==> store != null && Lookup(old(store.values), CacheKey(digest), readAt).Some?
    ensures !posted && r.Success? ==>
              && r.value.Served?
              && Lookup(old(store.values), CacheKey(digest), readAt) == Some(ResultValue(r.value.result))
              && (r.value.result.issuedAt.Some? ==>
                    (Age(r.value.result.issuedAt.value, readAt) - OLDEST_SUBMITTABLE_AGE) * 1000 <= lagMs + 998)
    ensures posted && r.Success? && r.value.Served? ==>
              && upstream == RpcResult(r.value.result)
              && (store != null ==>
                    && CacheKey(digest) in store.values
                    && store.values[CacheKey(digest)].value == ResultValue(r.value.result))
    ensures !posted && r.Failure? ==>
              && r.error.CorruptCache?
              && !Lookup(old(store.values), CacheKey(digest), readAt).value.ResultValue?
    ensures posted ==>
              match upstream
              case TimedOut => r == Success(DeliveryLost)
              case Thrown => r == Failure(FetchFailed)
              case HttpError(status) => r == Success(Upstream(status))
              case InvalidRpc => r == Failure(BadRpc)
              case RpcError(code) => r == Success(ServedError(id, code))
              case RpcResult(result) =>
                if store != null && result.issuedAt.Some? && decidedAt / 1000 - result.issuedAt.value >= 255
                then r == Success(TooCloseToExpiry)
                else r == Success(Served(id, result))
    ensures posted && r.Success? && r.value.Served? && store != null ==>
              && decidedAt + 1000 <= store.values[CacheKey(digest)].expiresAt
              && (|| decidedAt + 120_000 <= store.values[CacheKey(digest)].expiresAt
                  || (&& r.value.result.issuedAt.Some?
                      && (r.value.result.issuedAt.value + 255) * 1000 <= store.values[CacheKey(digest)].expiresAt))
    ensures posted && !(r.Success? && r.value.Served?) && store != null ==>
              forall key, later :: later >= clock.now ==>
                Lookup(store.values, key, later) == Lookup(old(store.values), key, later)
    ensures r.Success? && (r.value.Served? || r.value.ServedError?) ==> r.value.id == id
  {
    readAt, decidedAt, writeLagMs := clock.now, clock.now, 0;
    if store != null {
      var cached := store.Get(CacheKey(digest));
      readAt, decidedAt := clock.now, clock.now;
      if cached.Some? {
        if !cached.value.ResultValue? {
          return Failure(CorruptCache), false, readAt, decidedAt, writeLagMs;
        }
        return Success(Served(id, cached.value.result)), false, readAt, decidedAt, writeLagMs;
      }
    }
    posted := true;
    match upstream
    case TimedOut => return Success(DeliveryLost), posted, readAt, decidedAt, writeLagMs;
    case Thrown => return Failure(FetchFailed), posted, readAt, decidedAt, writeLagMs;
    case HttpError(status) => return Success(Upstream(status)), posted, readAt, decidedAt, writeLagMs;
    case InvalidRpc => return Failure(BadRpc), posted, readAt, decidedAt, writeLagMs;
    case RpcError(code) => return Success(ServedError(id, code)), posted, readAt, decidedAt, writeLagMs;
    case RpcResult(result) =>
      if store != null {
        var nowMs := clock.Read();
        decidedAt := nowMs;
        var ttlSeconds := ResultTtlSeconds(result, nowMs);
        if ttlSeconds <= 0 {
          return Success(TooCloseToExpiry), posted, readAt, decidedAt, writeLagMs;
        }
        ghost var before := store.values;
        var _ := store.Set(CacheKey(digest), ResultValue(result), ttlSeconds);
        writeLagMs := clock.now - nowMs;
        ghost var lag := if lagMs < writeLagMs then writeLagMs else lagMs;
        assert CacheFresh(before, lagMs);
        assert CacheFresh(store.values, lag) by {
          assert nowMs == (nowMs / 1000) * 1000 + nowMs % 1000;
        }
      }
      return Success(Served(id, result)), posted, readAt, decidedAt, writeLagMs;
  }
}
