/**
 * What a stored outcome protects. A request that runs alone and records the outcome of
 * attempt n stops every later process, however they interleave and crash, from submitting
 * under attempt n again while that record and the cursor live; and an outcome that must
 * not be retried, once in the cursor, stops every later submission.
 */
module ProverRecovery {
  import opened Wrappers
  import opened ProverJob
  import opened ProverProtocol

  function EffectiveAttempt(cursor: Option<Cursor>): nat {
    if cursor.Some? then cursor.value.attempt else 0
  }

  ghost predicate AllFinished(w: World) {
    forall p :: p in w.procs ==> w.procs[p].Finished?
  }

  /** Only process p acts, and the cursor does not expire. */
  ghost predicate Alone(schedule: seq<Action>, p: nat) {
    forall i :: 0 <= i < |schedule| ==>
      !schedule[i].ExpireCursor? && (schedule[i].ExpireTerminal? || schedule[i].p == p)
  }

  ghost predicate KeepsCursor(schedule: seq<Action>) {
    forall i :: 0 <= i < |schedule| ==> !schedule[i].ExpireCursor?
  }

  ghost predicate KeepsTerminal(schedule: seq<Action>, n: nat) {
    forall i :: 0 <= i < |schedule| ==> schedule[i] != ExpireTerminal(n)
  }

  ghost predicate NoReturnStatus(status: Status) {
    status.Failed? || status.UnknownDelivery?
  }

  // ----- A request that runs alone -----

  ghost predicate SoloWrites(w: World, attempt: nat, job: Job, writes: seq<Write>) {
    forall i :: 0 <= i < |writes| ==>
      match writes[i]
      case PutTerminal(k, j, _) => k == attempt && j == job
      case PutCursor(c) =>
        && c.attempt >= attempt
        && (c.status.Some? && NoReturnStatus(c.status.value) ==>
              && c.attempt == attempt && c.status.value == job.status
              && (&& i == 0 && attempt in w.terminals ==> w.terminals[attempt].status == job.status))
  }

  /** The cursor of a job that upstream has not finished. */
  ghost predicate StillOpen(cursor: Cursor, attempt: nat) {
    cursor.attempt == attempt && !(cursor.status.Some? && NoReturnStatus(cursor.status.value))
  }

  ghost predicate SoloProc(w: World, proc: Proc) {
    match proc
    case Loading(_) => true
    case CursorRead(_, cursor) => cursor.attempt == EffectiveAttempt(w.cursor)
    case Rotating(attempt, _) => attempt == EffectiveAttempt(w.cursor) + 1
    case Submitting(attempt) => attempt == EffectiveAttempt(w.cursor)
    case Awaiting(attempt) => attempt == EffectiveAttempt(w.cursor)
    case Reported(attempt, _) => attempt == EffectiveAttempt(w.cursor)
    case Writing(attempt, job, writes, response) =>
      && attempt == EffectiveAttempt(w.cursor)
      && SoloWrites(w, attempt, job, writes)
      && 1 <= |writes| <= 2
      && (|writes| == 2 ==> writes[0].PutTerminal? && writes[1].PutCursor? && response.Some?)
      && (|writes| == 1 ==> writes[0].PutCursor? && (response.None? ==> StillOpen(writes[0].cursor, attempt)))
    case Polling(attempt, _) => attempt == EffectiveAttempt(w.cursor)
    case Finished(_) => true
  }

  ghost predicate Solo(w: World, p: nat) {
    && (forall q :: q in w.procs && q != p ==> w.procs[q].Finished?)
    && (p in w.procs ==> SoloProc(w, w.procs[p]))
  }

  lemma PutKeepsSolo(w: World, a: Action, p: nat, id: int)
    requires Solo(w, p) && p in w.procs && w.procs[p].Writing?
    requires !a.ExpireCursor? && !a.ExpireTerminal? && a.p == p
    ensures Solo(Resume(w, a, w.procs[p], id), p)
  {
  }

  lemma ResumeKeepsSolo(w: World, a: Action, p: nat, id: int)
    requires Solo(w, p) && p in w.procs && !w.procs[p].Writing?
    requires !a.ExpireCursor? && !a.ExpireTerminal? && a.p == p
    ensures Solo(Resume(w, a, w.procs[p], id), p)
  {
  }

  lemma StepKeepsSolo(w: World, a: Action, p: nat, id: int)
    requires Solo(w, p)
    requires !a.ExpireCursor? && (a.ExpireTerminal? || a.p == p)
    ensures Solo(Step(w, a, id), p)
  {
    if !a.ExpireTerminal? && p in w.procs {
      if w.procs[p].Writing? { PutKeepsSolo(w, a, p, id); } else { ResumeKeepsSolo(w, a, p, id); }
    }
  }

  lemma {:induction false} RunKeepsSolo(w: World, schedule: seq<Action>, p: nat, id: int)
    requires Solo(w, p) && Alone(schedule, p)
    ensures Solo(Run(w, schedule, id), p)
    decreases |schedule|
  {
    if schedule != [] {
      RunKeepsSolo(w, schedule[..|schedule| - 1], p, id);
      StepKeepsSolo(Run(w, schedule[..|schedule| - 1], id), schedule[|schedule| - 1], p, id);
    }
  }

  // ----- The terminal record guards its attempt -----

  ghost predicate AboveWrites(writes: seq<Write>, n: nat) {
    forall i :: 0 <= i < |writes| ==>
      match writes[i]
      case PutTerminal(_, _, _) => true
      case PutCursor(c) => c.attempt >= n
  }

  ghost predicate Above(proc: Proc, n: nat) {
    match proc
    case Loading(_) => true
    case CursorRead(_, cursor) => cursor.attempt >= n
    case Rotating(attempt, _) => attempt > n
    case Submitting(attempt) => attempt > n
    case Awaiting(attempt) => attempt > n
    case Reported(attempt, _) => attempt > n
    case Writing(attempt, _, writes, response) => AboveWrites(writes, n) && (attempt > n || response.Some?)
    case Polling(attempt, _) => attempt > n
    case Finished(_) => true
  }

  /** Attempt n has a terminal record, and nobody can reach a submission under n or below. */
  ghost predicate Guarded(w: World, n: nat) {
    && n in w.terminals
    && EffectiveAttempt(w.cursor) >= n
    && forall p :: p in w.procs ==> Above(w.procs[p], n)
  }

  lemma PutKeepsGuard(w: World, a: Action, n: nat, id: int)
    requires Guarded(w, n) && !a.ExpireCursor? && !a.ExpireTerminal?
    requires a.p in w.procs && w.procs[a.p].Writing?
    ensures var w' := Resume(w, a, w.procs[a.p], id);
            && Guarded(w', n)
            && w.log <= w'.log
            && forall i :: |w.log| <= i < |w'.log| ==> !w'.log[i].Posted?
  {
  }

  lemma ResumeKeepsGuard(w: World, a: Action, n: nat, id: int)
    requires Guarded(w, n) && !a.ExpireCursor? && !a.ExpireTerminal?
    requires a.p in w.procs && !w.procs[a.p].Writing?
    ensures var w' := Resume(w, a, w.procs[a.p], id);
            && Guarded(w', n)
            && w.log <= w'.log
            && forall i :: |w.log| <= i < |w'.log| && w'.log[i].Posted? ==> w'.log[i].attempt > n
  {
  }

  lemma StepKeepsGuard(w: World, a: Action, n: nat, id: int)
    requires Guarded(w, n)
    requires !a.ExpireCursor? && a != ExpireTerminal(n)
    ensures var w' := Step(w, a, id);
            && Guarded(w', n)
            && w.log <= w'.log
            && forall i :: |w.log| <= i < |w'.log| && w'.log[i].Posted? ==> w'.log[i].attempt > n
  {
    if !a.ExpireCursor? && !a.ExpireTerminal? && a.p in w.procs {
      if w.procs[a.p].Writing? { PutKeepsGuard(w, a, n, id); } else { ResumeKeepsGuard(w, a, n, id); }
    }
  }

  lemma {:induction false} RunKeepsGuard(w: World, schedule: seq<Action>, n: nat, id: int)
    requires Guarded(w, n) && KeepsCursor(schedule) && KeepsTerminal(schedule, n)
    ensures var w' := Run(w, schedule, id);
            && Guarded(w', n)
            && w.log <= w'.log
            && forall i :: |w.log| <= i < |w'.log| && w'.log[i].Posted? ==> w'.log[i].attempt > n
    decreases |schedule|
  {
    if schedule != [] {
      RunKeepsGuard(w, schedule[..|schedule| - 1], n, id);
      StepKeepsGuard(Run(w, schedule[..|schedule| - 1], id), schedule[|schedule| - 1], n, id);
    }
  }

  /** The write of attempt n's terminal record is the pending write of process p. */
  ghost predicate AboutToRecord(w: World, p: nat, n: nat) {
    && p in w.procs && w.procs[p].Writing? && w.procs[p].writes != []
    && w.procs[p].writes[0].PutTerminal? && w.procs[p].writes[0].attempt == n
  }

  /**
   * From any store with no process running: request p runs alone (crash points included),
   * writes attempt n's terminal record, and from then on, for every schedule of any number
   * of processes with crashes (p's cursor write may be lost), every submission while the
   * record and the cursor live is under an attempt above n.
   */
  lemma TerminalRecordGuards(w: World, request: seq<Action>, p: nat, n: nat, later: seq<Action>, id: int)
    requires AllFinished(w) && Alone(request, p)
    requires AboutToRecord(Run(w, request, id), p, n)
    requires KeepsCursor(later) && KeepsTerminal(later, n)
    ensures var recorded := Step(Run(w, request, id), Put(p), id);
            var final := Run(recorded, later, id);
            && recorded.log <= final.log
            && (forall i :: |recorded.log| <= i < |final.log| && final.log[i].Posted? ==> final.log[i].attempt > n)
            && n in final.terminals
  {
    RunKeepsSolo(w, request, p, id);
    var before := Run(w, request, id);
    var recorded := Step(before, Put(p), id);
    assert Solo(before, p);
    assert recorded.procs[p].Writing? && recorded.procs[p].writes == before.procs[p].writes[1..];
    assert Guarded(recorded, n);
    RunKeepsGuard(recorded, later, n, id);
  }

  // ----- An outcome that must not be retried -----

  /** The cursor names a failed or unknown delivery, and nobody holds anything older. */
  ghost predicate Absorbed(w: World) {
    && w.cursor.Some? && w.cursor.value.status.Some? && NoReturnStatus(w.cursor.value.status.value)
    && (w.cursor.value.attempt in w.terminals ==> NoReturnStatus(w.terminals[w.cursor.value.attempt].status))
    && forall p :: p in w.procs ==>
         || w.procs[p].Loading?
         || w.procs[p].Finished?
         || (w.procs[p].CursorRead? && w.procs[p].cursor == w.cursor.value)
  }

  lemma {:induction false} RunKeepsAbsorbed(w: World, schedule: seq<Action>, id: int)
    requires Absorbed(w) && KeepsCursor(schedule)
    ensures var w' := Run(w, schedule, id);
            Absorbed(w') && w'.cursor == w.cursor && w'.log == w.log
    decreases |schedule|
  {
    if schedule != [] {
      RunKeepsAbsorbed(w, schedule[..|schedule| - 1], id);
      var before := Run(w, schedule[..|schedule| - 1], id);
      var a := schedule[|schedule| - 1];
      assert Absorbed(Step(before, a, id));
    }
  }

  ghost predicate AboutToName(w: World, p: nat, status: Status) {
    && p in w.procs && w.procs[p].Writing? && w.procs[p].writes != []
    && w.procs[p].writes[0].PutCursor? && w.procs[p].writes[0].cursor.status == Some(status)
  }

  /**
   * Once a request that ran alone has written a failed or unknown delivery into the
   * cursor, nothing is submitted, reported or recorded again, for every later schedule of
   * any number of processes with crashes, until the cursor expires.
   */
  lemma NoReturnIsAbsorbing(w: World, request: seq<Action>, p: nat, status: Status, later: seq<Action>, id: int)
    requires AllFinished(w) && Alone(request, p) && NoReturnStatus(status)
    requires AboutToName(Run(w, request, id), p, status)
    requires KeepsCursor(later)
    ensures var named := Step(Run(w, request, id), Put(p), id);
            var final := Run(named, later, id);
            final.log == named.log && final.cursor == named.cursor
  {
    RunKeepsSolo(w, request, p, id);
    var before := Run(w, request, id);
    assert Solo(before, p);
    assert Absorbed(Step(before, Put(p), id));
    RunKeepsAbsorbed(Step(before, Put(p), id), later, id);
  }
}
