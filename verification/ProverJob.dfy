/**
 * Starkscan proving jobs, the durable cursor, and the two decisions the relay takes
 * over them: what to do with the stored records before submitting, and what to write
 * after a job report.
 */
module ProverJob {
  import opened Wrappers
  import opened Integers

  const CURSOR_TTL_SECONDS := 24 * 60 * 60
  const TERMINAL_TTL_SECONDS := 5 * 60
  const SCREENING_MAX_AGE_SECONDS := 5 * 60
  const SCREENING_SUBMISSION_MARGIN_SECONDS := 45
  const OLDEST_SUBMITTABLE_AGE := SCREENING_MAX_AGE_SECONDS - SCREENING_SUBMISSION_MARGIN_SECONDS

  datatype Status = Queued | Dispatched | Succeeded | Failed | Unavailable | UnknownDelivery {
    predicate Terminal() {
      Succeeded? || Failed? || Unavailable? || UnknownDelivery?
    }
  }

  /** A proof, reduced to an opaque payload and the screening time the relay reads from it. */
  datatype ProofResult = ProofResult(payload: nat, issuedAt: Option<int>)

  datatype Job = Job(jobId: string, status: Status, pollAfterSeconds: Option<int>, result: Option<ProofResult>)

  /** What upstream or the store hands back before it is checked. */
  datatype RawJob = RawJob(
    jobId: string,
    status: Option<Status>,
    terminal: bool,
    pollAfterSeconds: Option<int>,
    result: Option<ProofResult>)

  datatype JobError = InvalidJob | InconsistentStatus

  datatype Cursor = Cursor(attempt: nat, updatedAt: int, jobId: Option<string>, status: Option<Status>)

  datatype FailureReason =
    | JobFailed(jobId: Option<string>)
    | DeliveryUnknown(jobId: Option<string>)
    | ResultUnavailable

  datatype RetryReason =
    | StillInProgress(jobId: string)
    | ProverUnavailable(jobId: string)
    | ResultAlreadyDelivered
    | AttestationTooOld

  datatype Response =
    | Proof(id: int, result: ProofResult)
    | RpcFailure(id: int, reason: FailureReason)
    | RetryLater(why: RetryReason, retryAfterSeconds: Option<nat>)
    | UpstreamFailure(httpStatus: int)

  datatype Write =
    | PutTerminal(attempt: nat, job: Job, ttlSeconds: int)
    | PutCursor(cursor: Cursor)

  /** What to do with the stored records: answer at once, rotate to a new attempt, or submit. */
  datatype LoadDecision =
    | Replay(attempt: nat, response: Response)
    | Rotate(attempt: nat)
    | Submit(attempt: nat)

  /** What to write after a report, in order, and the answer once everything is written. */
  datatype PersistDecision = PersistDecision(writes: seq<Write>, response: Option<Response>)

  predicate IsJobIdChar(c: char) {
    'a' <= c <= 'z' || '0' <= c <= '9'
  }

  predicate IsJobId(s: string) {
    && 28 <= |s| <= 44
    && s[..4] == "prv_"
    && forall i :: 4 <= i < |s| ==> IsJobIdChar(s[i])
  }

  /** A report is a job only if its `terminal` flag agrees with its status. */
  function ParseJob(raw: RawJob): (r: Result<Job, JobError>)
    ensures r.Success? <==> IsJobId(raw.jobId) && raw.status.Some? && raw.terminal == raw.status.value.Terminal()
    ensures r.Success? ==> r.value.status.Terminal() == raw.terminal && r.value.result == raw.result
    ensures r.Success? ==> r.value.jobId == raw.jobId && Some(r.value.status) == raw.status
    ensures r.Success? ==> r.value.pollAfterSeconds == raw.pollAfterSeconds
  {
    if !IsJobId(raw.jobId) || raw.status.None? then Failure(InvalidJob)
    else if raw.terminal != raw.status.value.Terminal() then Failure(InconsistentStatus)
    else Success(Job(raw.jobId, raw.status.value, raw.pollAfterSeconds, raw.result))
  }

  function NewCursor(attempt: nat, nowMs: int, job: Option<Job>): Cursor {
    if job.Some?
    then Cursor(attempt, nowMs, Some(job.value.jobId), Some(job.value.status))
    else Cursor(attempt, nowMs, None, None)
  }

  /** Whole seconds between the screening and a clock reading in milliseconds. */
  function Age(issuedAt: int, nowMs: int): int {
    nowMs / 1000 - issuedAt
  }

  predicate HasSubmissionMargin(result: ProofResult, nowMs: int) {
    result.issuedAt.None? || -30 <= Age(result.issuedAt.value, nowMs) <= OLDEST_SUBMITTABLE_AGE
  }

  /** Five minutes, or what is left of the screening, but at least a second. */
  function TerminalTtlSeconds(job: Job, nowMs: int): (ttl: int)
    ensures 1 <= ttl <= TERMINAL_TTL_SECONDS
    ensures ttl < TERMINAL_TTL_SECONDS ==>
              && job.result.Some? && job.result.value.issuedAt.Some?
              && nowMs / 1000 + ttl >= job.result.value.issuedAt.value + SCREENING_MAX_AGE_SECONDS
    ensures ttl > 1 && job.result.Some? && job.result.value.issuedAt.Some? ==>
              nowMs / 1000 + ttl <= job.result.value.issuedAt.value + SCREENING_MAX_AGE_SECONDS
  {
    if job.result.None? || job.result.value.issuedAt.None? then TERMINAL_TTL_SECONDS
    else Max(1, Min(TERMINAL_TTL_SECONDS, job.result.value.issuedAt.value + SCREENING_MAX_AGE_SECONDS - nowMs / 1000))
  }

  function TerminalResponse(id: int, job: Job): Response {
    match job.status
    case Succeeded => if job.result.None? then RpcFailure(id, ResultUnavailable) else Proof(id, job.result.value)
    case Unavailable => RetryLater(ProverUnavailable(job.jobId), None)
    case UnknownDelivery => RpcFailure(id, DeliveryUnknown(Some(job.jobId)))
    case _ => RpcFailure(id, JobFailed(Some(job.jobId)))
  }

  /** What the stored records call for; a replayed answer never carries a proof outside the submission window. */
  function LoadPlan(cursor: Cursor, terminal: Option<Job>, id: int, nowMs: int): (d: LoadDecision)
    ensures d.Replay? && d.response.Proof? ==> HasSubmissionMargin(d.response.result, nowMs)
  {
    if terminal.Some? then
      if && terminal.value.status.Succeeded?
         && terminal.value.result.Some?
         && !HasSubmissionMargin(terminal.value.result.value, nowMs)
      then Rotate(cursor.attempt + 1)
      else Replay(cursor.attempt, TerminalResponse(id, terminal.value))
    else
      match cursor.status
      case Some(Succeeded) => Rotate(cursor.attempt + 1)
      case Some(UnknownDelivery) => Replay(cursor.attempt, RpcFailure(id, DeliveryUnknown(cursor.jobId)))
      case Some(Failed) => Replay(cursor.attempt, RpcFailure(id, JobFailed(cursor.jobId)))
      case _ => Submit(cursor.attempt)
  }

  function PersistPlan(attempt: nat, job: Job, id: int, nowMs: int): PersistDecision {
    if job.status.Succeeded? && job.result.None? then
      PersistDecision([PutCursor(NewCursor(attempt + 1, nowMs, None))],
                      Some(RetryLater(ResultAlreadyDelivered, Some(1))))
    else if job.status.Succeeded? && !HasSubmissionMargin(job.result.value, nowMs) then
      PersistDecision([PutCursor(NewCursor(attempt + 1, nowMs, None))], Some(RetryLater(AttestationTooOld, Some(1))))
    else
      var terminal := if job.status.Terminal() && !job.status.Unavailable?
                      then [PutTerminal(attempt, job, TerminalTtlSeconds(job, nowMs))]
                      else [];
      PersistDecision(
        terminal + [PutCursor(NewCursor(attempt, nowMs, Some(job)))],
        if job.status.Terminal() then Some(TerminalResponse(id, job)) else None)
  }
}
