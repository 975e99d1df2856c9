/** The expiring proof-state store shared by the two prover relays, and the clock they read. */
module ProverStore {
  import opened Wrappers
  import opened ProverJob

  /** A monotone millisecond clock: any amount of time may pass between two readings. */
  class Clock {
    var now: int

    constructor (start: int)
      ensures now == start
    {
      now := start;
    }

    method Read() returns (t: int)
      modifies this
      ensures old(now) <= t == now
    {
      var passed: int := *;
      now := now + if passed < 0 then 0 else passed;
      t := now;
    }

    method Sleep(milliseconds: nat)
      modifies this
      ensures old(now) + milliseconds <= now
    {
      var passed: int := *;
      now := now + milliseconds + if passed < 0 then 0 else passed;
    }
  }

  datatype Stored =
    | CursorValue(cursor: Cursor)
    | JobValue(job: Job)
    | ResultValue(result: ProofResult)

  datatype Entry = Entry(value: Stored, expiresAt: int)

  /** What a reader at time t sees under a key. */
  function Lookup(values: map<string, Entry>, key: string, t: int): Option<Stored> {
    if key in values && values[key].expiresAt > t then Some(values[key].value) else None
  }

  /** The process-local store: `set` stamps an expiry, `get` drops what has expired. */
  class MemoryStore {
    const clock: Clock
    var values: map<string, Entry>

    constructor (clock: Clock)
      ensures this.clock == clock && values == map[]
    {
      this.clock := clock;
      values := map[];
    }

    method Get(key: string) returns (value: Option<Stored>)
      modifies this, clock
      ensures old(clock.now) <= clock.now
      ensures value == Lookup(old(values), key, clock.now)
      ensures values == if key in old(values) && value.None? then old(values) - {key} else old(values)
    {
      var t := clock.Read();
      if key !in values {
        return None;
      }
      if values[key].expiresAt <= t {
        values := values - {key};
        return None;
      }
      return Some(values[key].value);
    }

    /** Refuses a lifetime that is not positive; otherwise stamps the current time. */
    method Set(key: string, value: Stored, ttlSeconds: int) returns (stored: bool)
      modifies this, clock
      ensures old(clock.now) <= clock.now
      ensures stored <==> ttlSeconds > 0
      ensures values == if stored
                        then old(values)[key := Entry(value, clock.now + ttlSeconds * 1000)]
                        else old(values)
    {
      if ttlSeconds <= 0 {
        return false;
      }
      var t := clock.Read();
      values := values[key := Entry(value, t + ttlSeconds * 1000)];
      return true;
    }
  }

  /** Dropping an expired entry is invisible to every later reader of any key. */
  lemma ExpiryIsInvisible(values: map<string, Entry>, dropped: string, t: int, key: string, later: int)
    requires dropped in values && values[dropped].expiresAt <= t <= later
    ensures Lookup(values - {dropped}, key, later) == Lookup(values, key, later)
  {
  }
}
