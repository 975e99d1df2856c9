/** The Starkscan relay: one request, from the stored records to its answer. */
module ProverRelay {
  import opened Wrappers
  import opened Integers
  import opened ProverJob
  import opened ProverKeys
  import opened ProverStore

  datatype RelayError =
    | CorruptCursor
    | CorruptTerminal
    | BadJob(error: JobError)
    | Unreadable
    | BadWait

  /** One upstream answer: a job object, an HTTP failure, or a body that is not an object. */
  datatype Reply = Answered(raw: RawJob) | HttpError(status: int) | Garbled

  function StoredCursor(value: Option<Stored>, nowMs: int): Result<Cursor, RelayError> {
    match value
    case None => Success(NewCursor(0, nowMs, None))
    case Some(CursorValue(cursor)) => Success(cursor)
    case Some(_) => Failure(CorruptCursor)
  }

  function StoredTerminal(value: Option<Stored>): Result<Option<Job>, RelayError> {
    match value
    case None => Success(None)
    case Some(JobValue(job)) => Success(Some(job))
    case Some(_) => Failure(CorruptTerminal)
  }

  /** The decision on the records a process reads, the cursor first and then its terminal. */
  function LoadOutcome(
    values: map<string, Entry>, digest: string, id: int, nowMs: int, cursorAt: int, terminalAt: int)
    : Result<LoadDecision, RelayError>
  {
    var cursor :- StoredCursor(Lookup(values, CursorKey(digest), cursorAt), nowMs);
    var terminal :- StoredTerminal(Lookup(values, TerminalKey(digest, cursor.attempt), terminalAt));
    Success(LoadPlan(cursor, terminal, id, nowMs))
  }

  /** The decision is exactly the plan over what the two reads saw; a rotation is stored first. */
  method LoadStoredAttempt(store: MemoryStore, digest: string, id: int, nowMs: int)
    returns (r: Result<LoadDecision, RelayError>, ghost cursorAt: int, ghost terminalAt: int)
    requires IsDigest(digest)
    modifies store, store.clock
    ensures old(store.clock.now) <= cursorAt <= terminalAt <= store.clock.now
    ensures r == LoadOutcome(old(store.values), digest, id, nowMs, cursorAt, terminalAt)
    ensures r.Success? && r.value.Rotate? ==>
              && CursorKey(digest) in store.values
              && store.values[CursorKey(digest)].value == CursorValue(NewCursor(r.value.attempt, nowMs, None))
              && store.values[CursorKey(digest)].expiresAt <= store.clock.now + CURSOR_TTL_SECONDS * 1000
    ensures forall key, later ::
              later >= store.clock.now && (key == CursorKey(digest) ==> r.Failure? || !r.value.Rotate?)
              ==> Lookup(store.values, key, later) == Lookup(old(store.values), key, later)
  {
    var stored := store.Get(CursorKey(digest));
    cursorAt := store.clock.now;
    terminalAt := cursorAt;
    var parsedCursor := StoredCursor(stored, nowMs);
    if parsedCursor.Failure? {
      return Failure(parsedCursor.error), cursorAt, terminalAt;
    }
    var cursor := parsedCursor.value;
    StoreKeysDiffer(digest, cursor.attempt, digest, cursor.attempt);
    stored := store.Get(TerminalKey(digest, cursor.attempt));
    terminalAt := store.clock.now;
    var parsedTerminal := StoredTerminal(stored);
    if parsedTerminal.Failure? {
      return Failure(parsedTerminal.error), cursorAt, terminalAt;
    }
    if parsedTerminal.value.Some? {
      var terminal := parsedTerminal.value.value;
      if terminal.status.Succeeded? && terminal.result.Some? && !HasSubmissionMargin(terminal.result.value, nowMs) {
        var attempt := cursor.attempt + 1;
        var _ := store.Set(CursorKey(digest), CursorValue(NewCursor(attempt, nowMs, None)), CURSOR_TTL_SECONDS);
        return Success(Rotate(attempt)), cursorAt, terminalAt;
      }
      return Success(Replay(cursor.attempt, TerminalResponse(id, terminal))), cursorAt, terminalAt;
    }
    if cursor.status == Some(Succeeded) {
      var attempt := cursor.attempt + 1;
      var _ := store.Set(CursorKey(digest), CursorValue(NewCursor(attempt, nowMs, None)), CURSOR_TTL_SECONDS);
      return Success(Rotate(attempt)), cursorAt, terminalAt;
    }
    if cursor.status == Some(UnknownDelivery) {
      return Success(Replay(cursor.attempt, RpcFailure(id, DeliveryUnknown(cursor.jobId)))), cursorAt, terminalAt;
    }
    if cursor.status == Some(Failed) {
      return Success(Replay(cursor.attempt, RpcFailure(id, JobFailed(cursor.jobId)))), cursorAt, terminalAt;
    }
    return Success(Submit(cursor.attempt)), cursorAt, terminalAt;
  }

  /** The store after a list of writes, each stamped with an expiry no later than the last reading. */
  ghost predicate Written(
    before: map<string, Entry>, after: map<string, Entry>, digest: string, writes: seq<Write>, from: int, to: int)
  {
    WrittenUnder(before, after, WriteKeys(digest, writes), writes, from, to)
  }

  ghost predicate WrittenUnder(
    before: map<string, Entry>, after: map<string, Entry>, keys: seq<string>, writes: seq<Write>, from: int, to: int)
    requires |keys| == |writes|
  {
    && (forall key :: key !in keys ==>
          (key in after <==> key in before) && (key in before ==> after[key] == before[key]))
    && forall i :: 0 <= i < |writes| ==>
         && keys[i] in after
         && after[keys[i]].value == WriteValue(writes[i])
         && from <= after[keys[i]].expiresAt - WriteTtl(writes[i]) * 1000 <= to
  }

  function WriteKey(digest: string, write: Write): string {
    match write
    case PutCursor(_) => CursorKey(digest)
    case PutTerminal(attempt, _, _) => TerminalKey(digest, attempt)
  }

  function WriteValue(write: Write): Stored {
    match write
    case PutCursor(cursor) => CursorValue(cursor)
    case PutTerminal(_, job, _) => JobValue(job)
  }

  function WriteTtl(write: Write): int {
    match write
    case PutCursor(_) => CURSOR_TTL_SECONDS
    case PutTerminal(_, _, ttlSeconds) => ttlSeconds
  }

  function WriteKeys(digest: string, writes: seq<Write>): (keys: seq<string>)
    ensures |keys| == |writes|
    ensures forall i :: 0 <= i < |keys| ==> keys[i] == WriteKey(digest, writes[i])
  {
    seq(|writes|, i requires 0 <= i < |writes| => WriteKey(digest, writes[i]))
  }

  lemma OneWritten(before: map<string, Entry>, key: string, w: Write, expiresAt: int, from: int, to: int)
    requires from <= expiresAt - WriteTtl(w) * 1000 <= to
    ensures WrittenUnder(before, before[key := Entry(WriteValue(w), expiresAt)], [key], [w], from, to)
  {
  }

  lemma TwoWritten(
    before: map<string, Entry>, keys: seq<string>, writes: seq<Write>, first: int, second: int, from: int, to: int)
    requires |keys| == |writes| == 2 && keys[0] != keys[1]
    requires from <= first - WriteTtl(writes[0]) * 1000 <= to && from <= second - WriteTtl(writes[1]) * 1000 <= to
    ensures var once := before[keys[0] := Entry(WriteValue(writes[0]), first)];
            WrittenUnder(before, once[keys[1] := Entry(WriteValue(writes[1]), second)], keys, writes, from, to)
  {
  }

  /** Performs exactly the writes of the plan, and answers as the plan says. */
  method PersistJob(store: MemoryStore, digest: string, attempt: nat, job: Job, id: int, nowMs: int)
    returns (response: Option<Response>)
    requires IsDigest(digest)
    modifies store, store.clock
    ensures old(store.clock.now) <= store.clock.now
    ensures response == PersistPlan(attempt, job, id, nowMs).response
    ensures Written(old(store.values), store.values, digest, PersistPlan(attempt, job, id, nowMs).writes,
                    old(store.clock.now), store.clock.now)
  {
    ghost var values, from := store.values, store.clock.now;
    ghost var writes := PersistPlan(attempt, job, id, nowMs).writes;
    StoreKeysDiffer(digest, attempt, digest, attempt);
    if job.status.Succeeded? && (job.result.None? || !HasSubmissionMargin(job.result.value, nowMs)) {
      var cursor := NewCursor(attempt + 1, nowMs, None);
      var _ := store.Set(CursorKey(digest), CursorValue(cursor), CURSOR_TTL_SECONDS);
      assert WriteKeys(digest, writes) == [CursorKey(digest)] && writes == [PutCursor(cursor)];
      OneWritten(values, CursorKey(digest), PutCursor(cursor), store.values[CursorKey(digest)].expiresAt,
                 from, store.clock.now);
      return Some(RetryLater(if job.result.None? then ResultAlreadyDelivered else AttestationTooOld, Some(1)));
    }
    var cursor, ttlSeconds := NewCursor(attempt, nowMs, Some(job)), TerminalTtlSeconds(job, nowMs);
    if job.status.Terminal() && !job.status.Unavailable? {
      var _ := store.Set(TerminalKey(digest, attempt), JobValue(job), ttlSeconds);
      ghost var first := store.values[TerminalKey(digest, attempt)].expiresAt;
      var _ := store.Set(CursorKey(digest), CursorValue(cursor), CURSOR_TTL_SECONDS);
      assert writes == [PutTerminal(attempt, job, ttlSeconds), PutCursor(cursor)];
      assert WriteKeys(digest, writes) == [TerminalKey(digest, attempt), CursorKey(digest)];
      TwoWritten(values, WriteKeys(digest, writes), writes, first, store.values[CursorKey(digest)].expiresAt,
                 from, store.clock.now);
    } else {
      var _ := store.Set(CursorKey(digest), CursorValue(cursor), CURSOR_TTL_SECONDS);
      assert WriteKeys(digest, writes) == [CursorKey(digest)] && writes == [PutCursor(cursor)];
      OneWritten(values, CursorKey(digest), PutCursor(cursor), store.values[CursorKey(digest)].expiresAt,
                 from, store.clock.now);
    }
    return if job.status.Terminal() then Some(TerminalResponse(id, job)) else None;
  }

  function PollDelay(job: Job): (delay: nat)
    ensures 250 <= delay <= 30_000
  {
    Max(250, Min(job.pollAfterSeconds.GetOr(10) * 1000, 30_000))
  }

  function CeilSeconds(milliseconds: nat): nat {
    (milliseconds + 999) / 1000
  }

  function ReadReply(reply: Reply): Result<Job, Result<Response, RelayError>> {
    match reply
    case HttpError(status) => Failure(Success(UpstreamFailure(status)))
    case Garbled => Failure(Failure(Unreadable))
    case Answered(raw) =>
      var job := ParseJob(raw);
      if job.Failure? then Failure(Failure(BadJob(job.error))) else Success(job.value)
  }

  // ----- What a report is owed -----

  /** No screening time, or one between 30 s ahead of the clock and 255 s behind it. */
  predicate Submittable(p: ProofResult, nowMs: int) {
    p.issuedAt.Some? ==> -30 <= nowMs / 1000 - p.issuedAt.value <= 255
  }

  /** The answer to a last report; a report that has not ended has been waited for too long. */
  ghost predicate Owed(stored: bool, job: Job, id: int, nowMs: int, response: Response) {
    match job.status
    case Queued | Dispatched =>
      && response.RetryLater? && response.why == StillInProgress(job.jobId) && response.retryAfterSeconds.Some?
      && 1 <= response.retryAfterSeconds.value <= 30
      && (1 <= job.pollAfterSeconds.GetOr(10) <= 30 ==>
            response.retryAfterSeconds.value == job.pollAfterSeconds.GetOr(10))
    case Failed => response == RpcFailure(id, JobFailed(Some(job.jobId)))
    case UnknownDelivery => response == RpcFailure(id, DeliveryUnknown(Some(job.jobId)))
    case Unavailable => response == RetryLater(ProverUnavailable(job.jobId), None)
    case Succeeded =>
      if job.result.None? then
        response == if stored then RetryLater(ResultAlreadyDelivered, Some(1)) else RpcFailure(id, ResultUnavailable)
      else if stored && !Submittable(job.result.value, nowMs) then
        response == RetryLater(AttestationTooOld, Some(1))
      else
        response == Proof(id, job.result.value)
  }

  /** The report is a success whose proof cannot be served any more. */
  predicate Spent(job: Job, nowMs: int) {
    job.status.Succeeded? && (job.result.None? || !Submittable(job.result.value, nowMs))
  }

  /** A value is stored until some time at least. */
  ghost predicate Keeps(values: map<string, Entry>, key: string, value: Stored, until: int) {
    key in values && values[key].value == value && values[key].expiresAt >= until
  }

  const DAY_MS := 86_400_000
  const FIVE_MINUTES_MS := 300_000

  /** How long an outcome lives: at least a second, and five minutes or the rest of its screening. */
  predicate LivesUntil(job: Job, until: int, nowMs: int) {
    && until >= nowMs + 1000
    && (|| until >= nowMs + FIVE_MINUTES_MS
        || (&& job.result.Some? && job.result.value.issuedAt.Some?
            && until >= (job.result.value.issuedAt.value + 300) * 1000))
  }

  /**
   * What a store remembers of a report: a spent success starts the next attempt; otherwise
   * the cursor names the report for a day, and an outcome is kept under its attempt.
   */
  ghost predicate Remembers(values: map<string, Entry>, digest: string, attempt: nat, job: Job, nowMs: int) {
    if Spent(job, nowMs) then
      Keeps(values, CursorKey(digest), CursorValue(Cursor(attempt + 1, nowMs, None, None)), nowMs + DAY_MS)
    else
      && Keeps(values, CursorKey(digest), CursorValue(Cursor(attempt, nowMs, Some(job.jobId), Some(job.status))),
               nowMs + DAY_MS)
      && (job.status.Succeeded? || job.status.Failed? || job.status.UnknownDelivery? ==>
            && TerminalKey(digest, attempt) in values
            && values[TerminalKey(digest, attempt)].value == JobValue(job)
            && LivesUntil(job, values[TerminalKey(digest, attempt)].expiresAt, nowMs))
  }

  lemma PlanRemembers(
    before: map<string, Entry>, after: map<string, Entry>, digest: string, attempt: nat, job: Job, id: int, nowMs: int,
    from: int, to: int)
    requires IsDigest(digest) && nowMs <= from
    requires Written(before, after, digest, PersistPlan(attempt, job, id, nowMs).writes, from, to)
    ensures Remembers(after, digest, attempt, job, nowMs)
  {
    var writes := PersistPlan(attempt, job, id, nowMs).writes;
    var keys := WriteKeys(digest, writes);
    var last := |writes| - 1;
    assert keys[last] == CursorKey(digest) && keys[last] in after;
    assert after[keys[last]].value == WriteValue(writes[last]);
    if |writes| == 2 {
      assert keys[0] == TerminalKey(digest, attempt) && keys[0] in after;
      assert after[keys[0]].value == WriteValue(writes[0]);
      TtlIsEnough(job, nowMs, after[keys[0]].expiresAt);
    }
  }

  lemma TtlIsEnough(job: Job, nowMs: int, until: int)
    requires until >= nowMs + TerminalTtlSeconds(job, nowMs) * 1000
    ensures LivesUntil(job, until, nowMs)
  {
    assert nowMs == (nowMs / 1000) * 1000 + nowMs % 1000;
  }

  lemma PlanAnswers(attempt: nat, job: Job, id: int, nowMs: int)
    ensures var response := PersistPlan(attempt, job, id, nowMs).response;
            && (response.None? <==> !job.status.Terminal())
            && (response.Some? ==> Owed(true, job, id, nowMs, response.value))
  {
  }

  /** Reads the clock and stores a report; an ended one is answered. */
  method Admit(store: MemoryStore, digest: string, attempt: nat, job: Job, id: int)
    returns (answer: Option<Response>, ghost admittedAt: int)
    requires IsDigest(digest)
    modifies store, store.clock
    ensures old(store.clock.now) <= admittedAt <= store.clock.now
    ensures answer.None? <==> !job.status.Terminal()
    ensures answer.Some? ==> Owed(true, job, id, admittedAt, answer.value)
    ensures Remembers(store.values, digest, attempt, job, admittedAt)
  {
    var nowMs := store.clock.Read();
    admittedAt := nowMs;
    ghost var values, from := store.values, store.clock.now;
    answer := PersistJob(store, digest, attempt, job, id, nowMs);
    PlanAnswers(attempt, job, id, nowMs);
    PlanRemembers(values, store.values, digest, attempt, job, id, nowMs, from, store.clock.now);
  }

  /** The same where there is a store; without one nothing is answered yet. */
  method AdmitIfStored(store: MemoryStore?, clock: Clock, digest: string, attempt: nat, job: Job, id: int)
    returns (answer: Option<Response>, ghost admittedAt: int)
    requires IsDigest(digest) && (store != null ==> store.clock == clock)
    modifies clock, if store != null then {store} else {}
    ensures old(clock.now) <= admittedAt <= clock.now
    ensures store == null ==> answer.None?
    ensures store != null ==>
              && (answer.None? <==> !job.status.Terminal())
              && Remembers(store.values, digest, attempt, job, admittedAt)
    ensures answer.Some? ==> Owed(true, job, id, admittedAt, answer.value)
  {
    answer, admittedAt := None, clock.now;
    if store != null {
      answer, admittedAt := Admit(store, digest, attempt, job, id);
    }
  }

  /** A reply that is a job, with a `terminal` flag that agrees with its status. */
  predicate IsJob(reply: Reply) {
    && reply.Answered? && IsJobId(reply.raw.jobId) && reply.raw.status.Some?
    && reply.raw.terminal == reply.raw.status.value.Terminal()
  }

  function JobOf(raw: RawJob): Job
    requires raw.status.Some?
  {
    Job(raw.jobId, raw.status.value, raw.pollAfterSeconds, raw.result)
  }

  /** What a last reply comes to: a job is answered as it is owed, anything else is passed on or refused. */
  ghost predicate Concludes(
    stored: bool, reply: Reply, id: int, nowMs: int, r: Result<Response, RelayError>)
  {
    match reply
    case HttpError(status) => r == Success(UpstreamFailure(status))
    case Garbled => r == Failure(Unreadable)
    case Answered(raw) =>
      if IsJob(reply) then r.Success? && Owed(stored, JobOf(raw), id, nowMs, r.value)
      else r.Failure? && r.error.BadJob?
  }

  lemma ReadsJob(reply: Reply)
    ensures IsJob(reply) ==> ReadReply(reply) == Success(JobOf(reply.raw))
    ensures !IsJob(reply) ==> ReadReply(reply).Failure? && Concludes(false, reply, 0, 0, ReadReply(reply).error)
  {
  }

  /** What an ended job's conclusion is, status by status. */
  lemma EndConcludes(stored: bool, reply: Reply, id: int, nowMs: int, r: Result<Response, RelayError>)
    requires IsJob(reply) && Concludes(stored, reply, id, nowMs, r)
    ensures var job := JobOf(reply.raw);
            && (job.status.Succeeded? && job.result.Some? && (stored ==> Submittable(job.result.value, nowMs)) ==>
                  r == Success(Proof(id, job.result.value)))
            && (job.status.Failed? ==> r == Success(RpcFailure(id, JobFailed(Some(job.jobId)))))
            && (job.status.UnknownDelivery? ==> r == Success(RpcFailure(id, DeliveryUnknown(Some(job.jobId)))))
            && (job.status.Unavailable? ==> r == Success(RetryLater(ProverUnavailable(job.jobId), None)))
  {
  }

  lemma WaitIsOwed(stored: bool, job: Job, id: int, nowMs: int)
    requires !job.status.Terminal()
    ensures Owed(stored, job, id, nowMs, RetryLater(StillInProgress(job.jobId), Some(CeilSeconds(PollDelay(job)))))
    ensures PollDelay(job) <= 1000 * CeilSeconds(PollDelay(job))
  {
  }

  lemma EndIsOwed(job: Job, id: int, nowMs: int)
    requires job.status.Terminal()
    ensures Owed(false, job, id, nowMs, TerminalResponse(id, job))
  {
  }

  /**
   * Reads the answer to a submission and polls on while the job has not ended, until the
   * next poll would be past the deadline. The last reply decides the answer.
   */
  method AwaitJob(
    store: MemoryStore?, clock: Clock, digest: string, attempt: nat, id: int, start: int, maxWaitMs: int,
    upstream: nat -> Reply)
    returns (r: Result<Response, RelayError>, polls: nat, ghost admittedAt: int)
    requires IsDigest(digest) && start <= clock.now
    requires store != null ==> store.clock == clock
    modifies clock, if store != null then {store} else {}
    ensures old(clock.now) <= admittedAt <= clock.now
    ensures Concludes(store != null, upstream(polls), id, admittedAt, r)
    ensures store != null && IsJob(upstream(polls)) ==>
              Remembers(store.values, digest, attempt, JobOf(upstream(polls).raw), admittedAt)
    ensures forall i: nat :: i < polls ==> IsJob(upstream(i)) && !upstream(i).raw.terminal
    ensures IsJob(upstream(polls)) && !upstream(polls).raw.terminal ==>
              && r.Success? && r.value.RetryLater? && r.value.retryAfterSeconds.Some?
              && start + maxWaitMs <= clock.now + 1000 * r.value.retryAfterSeconds.value
    ensures polls > 0 ==> 250 * polls < maxWaitMs
  {
    polls, admittedAt := 0, clock.now;
    var deadline := start + maxWaitMs;
    ReadsJob(upstream(0));
    var read := ReadReply(upstream(0));
    if read.Failure? {
      return read.error, polls, admittedAt;
    }
    var job := read.value;
    var answer, at := AdmitIfStored(store, clock, digest, attempt, job, id);
    admittedAt := at;
    if answer.Some? {
      return Success(answer.value), polls, admittedAt;
    }
    while !job.status.Terminal()
      invariant old(clock.now) <= admittedAt <= clock.now && start + 250 * polls <= clock.now
      invariant polls > 0 ==> 250 * polls < maxWaitMs
      invariant IsJob(upstream(polls)) && job == JobOf(upstream(polls).raw)
      invariant forall i: nat :: i < polls ==> IsJob(upstream(i)) && !upstream(i).raw.terminal
      invariant store != null ==>
                  !job.status.Terminal() && Remembers(store.values, digest, attempt, job, admittedAt)
      decreases deadline - clock.now
    {
      var delay := PollDelay(job);
      var t := clock.Read();
      if t + delay >= deadline {
        WaitIsOwed(store != null, job, id, admittedAt);
        return Success(RetryLater(StillInProgress(job.jobId), Some(CeilSeconds(delay)))), polls, admittedAt;
      }
      clock.Sleep(delay);
      polls := polls + 1;
      ReadsJob(upstream(polls));
      read := ReadReply(upstream(polls));
      if read.Failure? {
        return read.error, polls, admittedAt;
      }
      job := read.value;
      answer, admittedAt := AdmitIfStored(store, clock, digest, attempt, job, id);
      if answer.Some? {
        return Success(answer.value), polls, admittedAt;
      }
    }
    EndIsOwed(job, id, admittedAt);
    return Success(TerminalResponse(id, job)), polls, admittedAt;
  }

  // ----- What stored records call for -----

  /** The decision on a cursor and the outcome stored under its attempt. */
  ghost predicate Called(d: LoadDecision, cursor: Cursor, terminal: Option<Job>, id: int, nowMs: int) {
    match terminal
    case Some(job) =>
      if job.status.Succeeded? && job.result.Some? && !Submittable(job.result.value, nowMs)
      then d == Rotate(cursor.attempt + 1)
      else && d.Replay? && d.attempt == cursor.attempt
           && (job.status.Terminal() ==> Owed(false, job, id, nowMs, d.response))
           && (!job.status.Terminal() ==> d.response == RpcFailure(id, JobFailed(Some(job.jobId))))
    case None =>
      if cursor.status == Some(Succeeded) then
        d == Rotate(cursor.attempt + 1)
      else if cursor.status == Some(Failed) then
        d == Replay(cursor.attempt, RpcFailure(id, JobFailed(cursor.jobId)))
      else if cursor.status == Some(UnknownDelivery) then
        d == Replay(cursor.attempt, RpcFailure(id, DeliveryUnknown(cursor.jobId)))
      else
        d == Submit(cursor.attempt)
  }

  /** The records a request finds: readable ones decide as called for, others fail it. */
  ghost predicate Finds(
    load: Result<LoadDecision, RelayError>, values: map<string, Entry>, digest: string, id: int, nowMs: int,
    cursorAt: int, terminalAt: int)
  {
    var stored := Lookup(values, CursorKey(digest), cursorAt);
    if stored.Some? && !stored.value.CursorValue? then load == Failure(CorruptCursor)
    else
      var cursor := if stored.Some? then stored.value.cursor else Cursor(0, nowMs, None, None);
      var outcome := Lookup(values, TerminalKey(digest, cursor.attempt), terminalAt);
      if outcome.Some? && !outcome.value.JobValue? then load == Failure(CorruptTerminal)
      else
        load.Success?
        && Called(load.value, cursor, if outcome.Some? then Some(outcome.value.job) else None, id, nowMs)
  }

  lemma PlanIsCalledFor(cursor: Cursor, terminal: Option<Job>, id: int, nowMs: int)
    ensures Called(LoadPlan(cursor, terminal, id, nowMs), cursor, terminal, id, nowMs)
  {
  }

  lemma OutcomeIsFound(
    values: map<string, Entry>, digest: string, id: int, nowMs: int, cursorAt: int, terminalAt: int)
    ensures Finds(LoadOutcome(values, digest, id, nowMs, cursorAt, terminalAt), values, digest, id, nowMs, cursorAt,
                  terminalAt)
  {
    var cursor := StoredCursor(Lookup(values, CursorKey(digest), cursorAt), nowMs);
    if cursor.Success? {
      var terminal := StoredTerminal(Lookup(values, TerminalKey(digest, cursor.value.attempt), terminalAt));
      if terminal.Success? { PlanIsCalledFor(cursor.value, terminal.value, id, nowMs); }
    }
  }

  /**
   * One relay request. It answers from the stored records, or submits once, under exactly
   * the attempt they call for, polls fewer than maxWait/250 times, and gives the last reply
   * the answer it is owed; with a store, a proof it serves, fresh or replayed, was inside
   * the submission window at the clock reading that admitted it, and what was last reported
   * is remembered.
   */
  method RelayStarkscanProverRequest(
    store: MemoryStore?, clock: Clock, digest: string, id: int, maxWaitMs: int, upstream: nat -> Reply)
    returns (
      r: Result<Response, RelayError>,
      posted: Option<nat>,
      polls: nat,
      ghost load: Result<LoadDecision, RelayError>,
      ghost admittedAt: int)
    requires IsDigest(digest)
    requires store != null ==> store.clock == clock
    modifies clock, if store != null then {store} else {}
    ensures old(clock.now) <= admittedAt <= clock.now
    ensures maxWaitMs <= 0 <==> r == Failure(BadWait)
    ensures store != null && maxWaitMs > 0 ==>
              exists nowMs, cursorAt, terminalAt ::
                && old(clock.now) <= nowMs <= cursorAt <= terminalAt <= clock.now
                && (posted.None? ==> nowMs == admittedAt)
                && Finds(load, old(store.values), digest, id, nowMs, cursorAt, terminalAt)
    ensures posted == if maxWaitMs <= 0 then None
                      else if store == null then Some(0)
                      else if load.Failure? || load.value.Replay? then None
                      else Some(load.value.attempt)
    ensures store != null && maxWaitMs > 0 && load.Failure? ==> r == Failure(load.error)
    ensures store != null && maxWaitMs > 0 && load.Success? && load.value.Replay? ==> r == Success(load.value.response)
    ensures posted.Some? ==> Concludes(store != null, upstream(polls), id, admittedAt, r)
    ensures posted.Some? && IsJob(upstream(polls)) ==>
              var job := JobOf(upstream(polls).raw);
              && (job.status.Succeeded? && job.result.Some?
                  && (store != null ==> Submittable(job.result.value, admittedAt)) ==>
                    r == Success(Proof(id, job.result.value)))
              && (job.status.Failed? ==> r == Success(RpcFailure(id, JobFailed(Some(job.jobId)))))
              && (job.status.UnknownDelivery? ==> r == Success(RpcFailure(id, DeliveryUnknown(Some(job.jobId)))))
              && (job.status.Unavailable? ==> r == Success(RetryLater(ProverUnavailable(job.jobId), None)))
    ensures posted.Some? && store != null && IsJob(upstream(polls)) ==>
              Remembers(store.values, digest, posted.value, JobOf(upstream(polls).raw), admittedAt)
    ensures store != null && r.Success? && r.value.Proof? ==> Submittable(r.value.result, admittedAt)
    ensures forall i: nat :: i < polls ==> posted.Some? && IsJob(upstream(i)) && !upstream(i).raw.terminal
    ensures r.Success? && r.value.RetryLater? && r.value.why.StillInProgress? ==>
              && r.value.retryAfterSeconds.Some?
              && old(clock.now) + maxWaitMs <= clock.now + 1000 * r.value.retryAfterSeconds.value
    ensures polls > 0 ==> posted.Some? && 250 * polls < maxWaitMs
    ensures r.Success? && r.value.Proof? ==> r.value.id == id
  {
    posted, polls, admittedAt, load := None, 0, clock.now, Success(Submit(0));
    if maxWaitMs <= 0 {
      return Failure(BadWait), posted, polls, load, admittedAt;
    }
    var start := clock.Read();
    var attempt := 0;
    if store != null {
      var nowMs := clock.Read();
      var decision, cursorAt, terminalAt := LoadStoredAttempt(store, digest, id, nowMs);
      load, admittedAt := decision, nowMs;
      OutcomeIsFound(old(store.values), digest, id, nowMs, cursorAt, terminalAt);
      if decision.Failure? {
        return Failure(decision.error), posted, polls, load, admittedAt;
      }
      if decision.value.Replay? {
        return Success(decision.value.response), posted, polls, load, admittedAt;
      }
      attempt := decision.value.attempt;
    }
    posted := Some(attempt);
    r, polls, admittedAt := AwaitJob(store, clock, digest, attempt, id, start, maxWaitMs, upstream);
    if IsJob(upstream(polls)) { EndConcludes(store != null, upstream(polls), id, admittedAt, r); }
  }

  // ----- Asking again -----

  /** Within a day a remembered job is what the next request finds under its digest. */
  lemma RememberedIsFound(
    values: map<string, Entry>, digest: string, attempt: nat, job: Job, at: int, load: Result<LoadDecision, RelayError>,
    id: int, nowMs: int, cursorAt: int, terminalAt: int)
    requires Remembers(values, digest, attempt, job, at) && job.status.Terminal()
    requires Finds(load, values, digest, id, nowMs, cursorAt, terminalAt)
    requires at <= nowMs <= cursorAt <= terminalAt < at + DAY_MS
    ensures Spent(job, at) && Lookup(values, TerminalKey(digest, attempt + 1), terminalAt).None? ==>
              load == Success(Submit(attempt + 1))
    ensures job.status.Unavailable? && Lookup(values, TerminalKey(digest, attempt), terminalAt).None? ==>
              load == Success(Submit(attempt))
    ensures job.status.Failed? ==> load == Success(Replay(attempt, RpcFailure(id, JobFailed(Some(job.jobId)))))
    ensures job.status.UnknownDelivery? ==>
              load == Success(Replay(attempt, RpcFailure(id, DeliveryUnknown(Some(job.jobId)))))
  {
    if Spent(job, at) {
      FoundCursor(values, digest, Cursor(attempt + 1, at, None, None), at + DAY_MS, cursorAt);
    } else {
      FoundCursor(values, digest, Cursor(attempt, at, Some(job.jobId), Some(job.status)), at + DAY_MS, cursorAt);
    }
  }

  lemma FoundCursor(values: map<string, Entry>, digest: string, cursor: Cursor, until: int, t: int)
    requires Keeps(values, CursorKey(digest), CursorValue(cursor), until) && t < until
    ensures Lookup(values, CursorKey(digest), t) == Some(CursorValue(cursor))
  {
  }

  /** While its proof can be submitted, a remembered success is replayed. */
  lemma RememberedProofIsFound(
    values: map<string, Entry>, digest: string, attempt: nat, job: Job, at: int, load: Result<LoadDecision, RelayError>,
    id: int, nowMs: int, cursorAt: int, terminalAt: int)
    requires Remembers(values, digest, attempt, job, at) && !Spent(job, at) && job.status.Succeeded?
    requires Finds(load, values, digest, id, nowMs, cursorAt, terminalAt)
    requires at <= nowMs <= cursorAt <= terminalAt < at + FIVE_MINUTES_MS && Submittable(job.result.value, terminalAt)
    ensures load == Success(Replay(attempt, Proof(id, job.result.value)))
  {
    FoundCursor(values, digest, Cursor(attempt, at, Some(job.jobId), Some(Succeeded)), at + DAY_MS, cursorAt);
    assert Lookup(values, TerminalKey(digest, attempt), terminalAt) == Some(JobValue(job)) by {
      assert terminalAt == (terminalAt / 1000) * 1000 + terminalAt % 1000;
    }
    assert Submittable(job.result.value, nowMs);
  }

  lemma FoundAgain(
    values: map<string, Entry>, digest: string, attempt: nat, job: Job, at: int, load: Result<LoadDecision, RelayError>,
    id: int, from: int, to: int)
    requires Remembers(values, digest, attempt, job, at) && job.status.Terminal() && at <= from && to < at + DAY_MS
    requires exists nowMs, cursorAt, terminalAt ::
               from <= nowMs <= cursorAt <= terminalAt <= to
               && Finds(load, values, digest, id, nowMs, cursorAt, terminalAt)
    ensures job.status.Succeeded? && !Spent(job, at) && to < at + FIVE_MINUTES_MS
            && Submittable(job.result.value, to) ==>
              load == Success(Replay(attempt, Proof(id, job.result.value)))
    ensures job.status.Failed? ==> load == Success(Replay(attempt, RpcFailure(id, JobFailed(Some(job.jobId)))))
    ensures job.status.UnknownDelivery? ==>
              load == Success(Replay(attempt, RpcFailure(id, DeliveryUnknown(Some(job.jobId)))))
    ensures job.status.Unavailable? && TerminalKey(digest, attempt) !in values ==> load == Success(Submit(attempt))
    ensures Spent(job, at) && TerminalKey(digest, attempt + 1) !in values ==> load == Success(Submit(attempt + 1))
  {
    var nowMs, cursorAt, terminalAt :|
      from <= nowMs <= cursorAt <= terminalAt <= to
      && Finds(load, values, digest, id, nowMs, cursorAt, terminalAt);
    RememberedIsFound(values, digest, attempt, job, at, load, id, nowMs, cursorAt, terminalAt);
    if && job.status.Succeeded? && !Spent(job, at) && to < at + FIVE_MINUTES_MS
       && Submittable(job.result.value, to)
    {
      assert Submittable(job.result.value, terminalAt);
      RememberedProofIsFound(values, digest, attempt, job, at, load, id, nowMs, cursorAt, terminalAt);
    }
  }

  /**
   * Two requests for one digest, when the first one's answer was lost on the way back. A
   * proof that can still be submitted is served again, without a second submission; a
   * failed or unknown delivery stays one for a day; an unavailable prover is asked again under
   * the same attempt; and a spent success goes on to the next. (`between` is what the first request left in the store.)
   */
  method AskAgain(
    store: MemoryStore, digest: string, id: int, retryId: int, maxWaitMs: int,
    upstream: nat -> Reply, retryUpstream: nat -> Reply)
    returns (
      r: Result<Response, RelayError>,
      again: Result<Response, RelayError>,
      posted: Option<nat>,
      repeated: Option<nat>,
      ghost last: Reply,
      ghost between: map<string, Entry>,
      ghost admittedAt: int)
    requires IsDigest(digest) && maxWaitMs > 0
    modifies store, store.clock
    ensures old(store.clock.now) <= admittedAt <= store.clock.now
    ensures posted.Some? && IsJob(last) && last.raw.terminal && store.clock.now < admittedAt + DAY_MS ==>
              var job := JobOf(last.raw);
              && r.Success? && Owed(true, job, id, admittedAt, r.value)
              && (job.status.Succeeded? && !Spent(job, admittedAt) && store.clock.now < admittedAt + FIVE_MINUTES_MS
                  && Submittable(job.result.value, store.clock.now) ==>
                    repeated.None? && again == Success(Proof(retryId, job.result.value)))
              && (job.status.Failed? ==>
                    repeated.None? && again == Success(RpcFailure(retryId, JobFailed(Some(job.jobId)))))
              && (job.status.UnknownDelivery? ==>
                    repeated.None? && again == Success(RpcFailure(retryId, DeliveryUnknown(Some(job.jobId)))))
              && (job.status.Unavailable? && TerminalKey(digest, posted.value) !in between ==> repeated == posted)
              && (Spent(job, admittedAt) && TerminalKey(digest, posted.value + 1) !in between ==>
                    repeated == Some(posted.value + 1))
  {
    var polls;
    ghost var load;
    r, posted, polls, load, admittedAt :=
      RelayStarkscanProverRequest(store, store.clock, digest, id, maxWaitMs, upstream);
    last, between := upstream(polls), store.values;
    ghost var startedAt := store.clock.now;
    var retryPolls;
    ghost var load2, at2;
    again, repeated, retryPolls, load2, at2 :=
      RelayStarkscanProverRequest(store, store.clock, digest, retryId, maxWaitMs, retryUpstream);
    if posted.Some? && IsJob(last) && last.raw.terminal && store.clock.now < admittedAt + DAY_MS {
      FoundAgain(between, digest, posted.value, JobOf(last.raw), admittedAt, load2, retryId, startedAt,
                 store.clock.now);
    }
  }
}
