/**
 * The Starkscan attempt protocol for one request digest: any number of relay processes
 * share a cursor record and one terminal record per attempt, interleave at every await,
 * crash at any point, and lose records to expiry at any time.
 */
module ProverProtocol {
  import opened Wrappers
  import opened ProverJob

  /** Where a relay process is suspended. */
  datatype Proc =
    | Loading(nowMs: int)
    | CursorRead(nowMs: int, cursor: Cursor)
    | Rotating(attempt: nat, nowMs: int)
    | Submitting(attempt: nat)
    | Awaiting(attempt: nat)
    | Reported(attempt: nat, job: Job)
    | Writing(attempt: nat, job: Job, writes: seq<Write>, response: Option<Response>)
    | Polling(attempt: nat, job: Job)
    | Finished(response: Option<Response>)

  /** History: submissions, upstream reports and terminal records, in order. */
  datatype Event =
    | Posted(attempt: nat)
    | Report(attempt: nat, status: Status)
    | Recorded(attempt: nat, status: Status)

  datatype World = World(
    cursor: Option<Cursor>,
    terminals: map<nat, Job>,
    procs: map<nat, Proc>,
    log: seq<Event>)

  datatype Action =
    | Spawn(p: nat, nowMs: int)
    | GetCursor(p: nat)
    | GetTerminal(p: nat)
    | PutRotation(p: nat)
    | Post(p: nat)
    | Reply(p: nat, reply: Option<Job>)
    | Persist(p: nat, nowMs: int)
    | Put(p: nat)
    | Poll(p: nat, reply: Option<Job>)
    | Crash(p: nat)
    | ExpireCursor
    | ExpireTerminal(n: nat)

  const INITIAL := World(None, map[], map[], [])

  // ----- Steps -----

  function StoredTerminal(w: World, attempt: nat): Option<Job> {
    if attempt in w.terminals then Some(w.terminals[attempt]) else None
  }

  function Move(w: World, p: nat, proc: Proc): World {
    w.(procs := w.procs[p := proc])
  }

  function AfterLoad(decision: LoadDecision, nowMs: int): Proc {
    match decision
    case Replay(_, response) => Finished(Some(response))
    case Rotate(attempt) => Rotating(attempt, nowMs)
    case Submit(attempt) => Submitting(attempt)
  }

  function Hear(w: World, p: nat, attempt: nat, reply: Option<Job>): World {
    match reply
    case None => Move(w, p, Finished(None))
    case Some(job) => Move(w, p, Reported(attempt, job)).(log := w.log + [Report(attempt, job.status)])
  }

  function ApplyWrite(w: World, write: Write): World {
    match write
    case PutCursor(cursor) => w.(cursor := Some(cursor))
    case PutTerminal(attempt, job, _) =>
      w.(terminals := w.terminals[attempt := job], log := w.log + [Recorded(attempt, job.status)])
  }

  function AfterWrites(proc: Proc, rest: seq<Write>): Proc
    requires proc.Writing?
  {
    if rest != [] then proc.(writes := rest)
    else if proc.response.Some? then Finished(proc.response)
    else Polling(proc.attempt, proc.job)
  }

  /** One step; an action that does not fit the process's position changes nothing. */
  function Step(w: World, a: Action, id: int): World {
    match a
    case ExpireCursor => w.(cursor := None)
    case ExpireTerminal(n) => w.(terminals := w.terminals - {n})
    case Spawn(p, nowMs) => if p in w.procs then w else Move(w, p, Loading(nowMs))
    case Crash(p) => if p in w.procs && !w.procs[p].Finished? then Move(w, p, Finished(None)) else w
    case _ => if a.p in w.procs then Resume(w, a, w.procs[a.p], id) else w
  }

  /** A process carries on from where it was suspended. */
  function Resume(w: World, a: Action, proc: Proc, id: int): World
    requires !a.ExpireCursor? && !a.ExpireTerminal?
  {
    match proc
    case Loading(nowMs) =>
      if !a.GetCursor? then w
      else Move(w, a.p, CursorRead(nowMs, w.cursor.GetOr(NewCursor(0, nowMs, None))))
    case CursorRead(nowMs, cursor) =>
      if !a.GetTerminal? then w
      else Move(w, a.p, AfterLoad(LoadPlan(cursor, StoredTerminal(w, cursor.attempt), id, nowMs), nowMs))
    case Rotating(attempt, nowMs) =>
      if !a.PutRotation? then w
      else Move(w, a.p, Submitting(attempt)).(cursor := Some(NewCursor(attempt, nowMs, None)))
    case Submitting(attempt) =>
      if !a.Post? then w
      else Move(w, a.p, Awaiting(attempt)).(log := w.log + [Posted(attempt)])
    case Awaiting(attempt) => if a.Reply? then Hear(w, a.p, attempt, a.reply) else w
    case Reported(attempt, job) =>
      if !a.Persist? then w
      else var plan := PersistPlan(attempt, job, id, a.nowMs);
           Move(w, a.p, Writing(attempt, job, plan.writes, plan.response))
    case Writing(_, _, writes, _) =>
      if !a.Put? || writes == [] then w
      else Move(ApplyWrite(w, writes[0]), a.p, AfterWrites(proc, writes[1..]))
    case Polling(attempt, _) => if a.Poll? then Hear(w, a.p, attempt, a.reply) else w
    case Finished(_) => w
  }

  function Run(w: World, schedule: seq<Action>, id: int): World
    decreases |schedule|
  {
    if schedule == [] then w
    else Step(Run(w, schedule[..|schedule| - 1], id), schedule[|schedule| - 1], id)
  }

  // ----- Safety over every schedule -----

  /** Upstream has reported success under every attempt before n. */
  ghost predicate Backed(log: seq<Event>, n: nat) {
    forall k: nat :: k < n ==> Report(k, Succeeded) in log
  }

  ghost predicate CursorOk(log: seq<Event>, cursor: Cursor) {
    && Backed(log, cursor.attempt)
    && (cursor.status.Some? && cursor.status.value.Terminal() && !cursor.status.value.Unavailable? ==>
          Recorded(cursor.attempt, cursor.status.value) in log)
  }

  ghost predicate WritesOk(log: seq<Event>, writes: seq<Write>) {
    || writes == []
    || (|writes| == 1 && writes[0].PutCursor? && CursorOk(log, writes[0].cursor))
    || (&& |writes| == 2
        && writes[0].PutTerminal? && writes[1].PutCursor?
        && Report(writes[0].attempt, writes[0].job.status) in log
        && CursorOk(log + [Recorded(writes[0].attempt, writes[0].job.status)], writes[1].cursor))
  }

  ghost predicate ProcOk(log: seq<Event>, proc: Proc) {
    match proc
    case Loading(_) => true
    case CursorRead(_, cursor) => CursorOk(log, cursor)
    case Rotating(attempt, _) => Backed(log, attempt)
    case Submitting(attempt) => Backed(log, attempt)
    case Awaiting(attempt) => Backed(log, attempt)
    case Reported(attempt, job) => Backed(log, attempt) && Report(attempt, job.status) in log
    case Writing(attempt, _, writes, _) => Backed(log, attempt) && WritesOk(log, writes)
    case Polling(attempt, _) => Backed(log, attempt)
    case Finished(_) => true
  }

  /** Every submission in the history was backed when it was made. */
  ghost predicate PostsBacked(log: seq<Event>) {
    forall i :: 0 <= i < |log| && log[i].Posted? ==> Backed(log[..i], log[i].attempt)
  }

  /** Every recorded outcome was reported by upstream first. */
  ghost predicate RecordsReported(log: seq<Event>) {
    forall i :: 0 <= i < |log| && log[i].Recorded? ==> Report(log[i].attempt, log[i].status) in log[..i]
  }

  ghost predicate Inv(w: World) {
    && PostsBacked(w.log)
    && RecordsReported(w.log)
    && (w.cursor.Some? ==> CursorOk(w.log, w.cursor.value))
    && (forall n :: n in w.terminals ==> Recorded(n, w.terminals[n].status) in w.log)
    && (forall p :: p in w.procs ==> ProcOk(w.log, w.procs[p]))
  }

  lemma LogGrows(log: seq<Event>, e: Event)
    ensures forall n: nat :: Backed(log, n) ==> Backed(log + [e], n)
    ensures forall c :: CursorOk(log, c) ==> CursorOk(log + [e], c)
  {
  }

  lemma ProcsKeep(log: seq<Event>, e: Event, proc: Proc)
    requires ProcOk(log, proc)
    ensures ProcOk(log + [e], proc)
  {
  }

  lemma LogExtendOk(log: seq<Event>, e: Event)
    requires PostsBacked(log) && RecordsReported(log)
    requires e.Posted? ==> Backed(log, e.attempt)
    requires e.Recorded? ==> Report(e.attempt, e.status) in log
    ensures PostsBacked(log + [e]) && RecordsReported(log + [e])
  {
    var longer := log + [e];
    assert longer[..|log|] == log;
    forall i | 0 <= i < |longer| && longer[i].Posted?
      ensures Backed(longer[..i], longer[i].attempt)
    {
      if i < |log| { assert longer[..i] == log[..i]; }
    }
    forall i | 0 <= i < |longer| && longer[i].Recorded?
      ensures Report(longer[i].attempt, longer[i].status) in longer[..i]
    {
      if i < |log| { assert longer[..i] == log[..i]; }
    }
  }

  /** Appending one admissible event keeps the invariant. */
  lemma InvExtends(w: World, e: Event)
    requires Inv(w)
    requires e.Posted? ==> Backed(w.log, e.attempt)
    requires e.Recorded? ==> Report(e.attempt, e.status) in w.log
    ensures Inv(w.(log := w.log + [e]))
  {
    LogGrows(w.log, e);
    LogExtendOk(w.log, e);
    forall p | p in w.procs
      ensures ProcOk(w.log + [e], w.procs[p])
    {
      ProcsKeep(w.log, e, w.procs[p]);
    }
  }

  lemma PlanIsOk(log: seq<Event>, attempt: nat, job: Job, id: int, nowMs: int)
    requires Backed(log, attempt) && Report(attempt, job.status) in log
    ensures WritesOk(log, PersistPlan(attempt, job, id, nowMs).writes)
  {
  }

  lemma LoadIsOk(w: World, cursor: Cursor, id: int, nowMs: int)
    requires Inv(w) && CursorOk(w.log, cursor)
    ensures ProcOk(w.log, AfterLoad(LoadPlan(cursor, StoredTerminal(w, cursor.attempt), id, nowMs), nowMs))
  {
  }

  lemma HearKeepsInv(w: World, p: nat, attempt: nat, reply: Option<Job>)
    requires Inv(w) && p in w.procs && Backed(w.log, attempt)
    ensures Inv(Hear(w, p, attempt, reply))
  {
    if reply.Some? {
      InvExtends(w, Report(attempt, reply.value.status));
      LogGrows(w.log, Report(attempt, reply.value.status));
    }
  }

  lemma PutKeepsInv(w: World, p: nat)
    requires Inv(w) && p in w.procs && w.procs[p].Writing? && w.procs[p].writes != []
    ensures Inv(Move(ApplyWrite(w, w.procs[p].writes[0]), p, AfterWrites(w.procs[p], w.procs[p].writes[1..])))
  {
    var writes := w.procs[p].writes;
    if writes[0].PutTerminal? {
      InvExtends(w, Recorded(writes[0].attempt, writes[0].job.status));
      LogGrows(w.log, Recorded(writes[0].attempt, writes[0].job.status));
      assert writes[1..] == [writes[1]];
    } else {
      assert writes[1..] == [];
    }
  }

  lemma ResumeKeepsInv(w: World, a: Action, proc: Proc, id: int)
    requires Inv(w) && !a.ExpireCursor? && !a.ExpireTerminal?
    requires a.p in w.procs && proc == w.procs[a.p]
    ensures Inv(Resume(w, a, proc, id))
  {
    assert ProcOk(w.log, proc);
    match proc
    case CursorRead(nowMs, cursor) => LoadIsOk(w, cursor, id, nowMs);
    case Submitting(attempt) =>
      InvExtends(w, Posted(attempt));
      LogGrows(w.log, Posted(attempt));
    case Awaiting(attempt) => if a.Reply? { HearKeepsInv(w, a.p, attempt, a.reply); }
    case Polling(attempt, _) => if a.Poll? { HearKeepsInv(w, a.p, attempt, a.reply); }
    case Reported(attempt, job) => if a.Persist? { PlanIsOk(w.log, attempt, job, id, a.nowMs); }
    case Writing(_, _, writes, _) => if a.Put? && writes != [] { PutKeepsInv(w, a.p); }
    case _ =>
  }

  lemma StepKeepsInv(w: World, a: Action, id: int)
    requires Inv(w)
    ensures Inv(Step(w, a, id))
  {
    if !a.ExpireCursor? && !a.ExpireTerminal? && !a.Spawn? && !a.Crash? && a.p in w.procs {
      ResumeKeepsInv(w, a, w.procs[a.p], id);
    }
  }

  lemma {:induction false} RunKeepsInv(w: World, schedule: seq<Action>, id: int)
    requires Inv(w)
    ensures Inv(Run(w, schedule, id))
    decreases |schedule|
  {
    if schedule != [] {
      RunKeepsInv(w, schedule[..|schedule| - 1], id);
      StepKeepsInv(Run(w, schedule[..|schedule| - 1], id), schedule[|schedule| - 1], id);
    }
  }

  /**
   * For every schedule: a submission under attempt n happens only after upstream has
   * reported success under every earlier attempt, and every terminal outcome a cursor
   * names was recorded before the cursor was written.
   */
  lemma EveryPostIsBacked(schedule: seq<Action>, id: int, i: nat, k: nat)
    requires var log := Run(INITIAL, schedule, id).log;
             i < |log| && log[i].Posted? && k < log[i].attempt
    ensures var log := Run(INITIAL, schedule, id).log;
            exists j :: 0 <= j < i && log[j] == Report(k, Succeeded)
  {
    RunKeepsInv(INITIAL, schedule, id);
    var log := Run(INITIAL, schedule, id).log;
    assert Report(k, Succeeded) in log[..i];
  }

  /** Failed, unknown and unavailable reports never rotate the key. */
  lemma OnlySuccessRotates(schedule: seq<Action>, id: int, k: nat, m: nat)
    requires Report(k, Succeeded) !in Run(INITIAL, schedule, id).log
    requires k < m
    ensures Posted(m) !in Run(INITIAL, schedule, id).log
  {
    var log := Run(INITIAL, schedule, id).log;
    if Posted(m) in log {
      var i :| 0 <= i < |log| && log[i] == Posted(m);
      EveryPostIsBacked(schedule, id, i, k);
    }
  }

  /** A cursor never names an outcome whose one-time payload was not stored first. */
  lemma CursorFollowsTerminal(schedule: seq<Action>, id: int)
    ensures var w := Run(INITIAL, schedule, id);
            && w.cursor.Some? && w.cursor.value.status.Some?
            && w.cursor.value.status.value.Terminal() && !w.cursor.value.status.value.Unavailable?
            ==> Recorded(w.cursor.value.attempt, w.cursor.value.status.value) in w.log
  {
    RunKeepsInv(INITIAL, schedule, id);
  }
}
