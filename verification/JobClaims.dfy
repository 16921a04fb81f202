/** When a job is claimed, and what stops it, said on the row's own columns
    (claim_ingestion_job and the writers of ingestion_jobs, backend/app/repositories/job_repository.py). */
module JobClaims {
  import opened Wrappers
  import opened Text
  import opened JobQueue
  import opened JobRuns

  /** Waiting with its next attempt reached, or running under a lock at least the lease old. */
  predicate Due(j: Job, now: int, leaseSeconds: int) {
    || (j.state == Pending && (j.nextAttempt == None || j.nextAttempt.value <= now))
    || (j.state == Running && j.lockedAt.Some? && now - j.lockedAt.value >= leaseSeconds * 1_000_000)
  }

  predicate AcceptedClaim(op: Op) {
    op.Claim? && 1 <= |op.owner| <= 160 && 1 <= op.leaseSeconds <= 3600
  }

  predicate Older(a: Job, b: Job) {
    a.createdAt < b.createdAt || (a.createdAt == b.createdAt && LexLe(a.id, b.id))
  }

  /** The first due row by creation time, then id. */
  ghost predicate OldestDue(jobs: Table, id: string, now: int, leaseSeconds: int) {
    && id in jobs && Due(jobs[id], now, leaseSeconds)
    && forall o :: o in jobs && Due(jobs[o], now, leaseSeconds) ==> Older(jobs[id], jobs[o])
  }

  lemma OlderIsOrder(a: Job, b: Job, c: Job)
    ensures Older(a, b) || Older(b, a)
    ensures Older(a, b) && Older(b, c) ==> Older(a, c)
  {
    LexIsOrder();
  }

  lemma {:induction false} OldestExists(jobs: Table, ids: set<string>) returns (oldest: string)
    requires ids != {} && ids <= jobs.Keys
    ensures oldest in ids && forall o :: o in ids ==> Older(jobs[oldest], jobs[o])
  {
    LexIsOrder();
    var id :| id in ids;
    var rest := ids - {id};
    oldest := id;
    if rest != {} {
      var other := OldestExists(jobs, rest);
      oldest := if Older(jobs[id], jobs[other]) then id else other;
    }
    forall o | o in ids ensures Older(jobs[oldest], jobs[o]) {
      assert o == id || o in rest;
      OlderIsOrder(jobs[id], jobs[oldest], jobs[o]);
    }
  }

  lemma OldestDueExists(jobs: Table, now: int, leaseSeconds: int)
    ensures (exists id :: id in jobs && Due(jobs[id], now, leaseSeconds)) <==>
      exists id :: OldestDue(jobs, id, now, leaseSeconds)
  {
    hide Due, Older;
    if id :| id in jobs && Due(jobs[id], now, leaseSeconds) {
      var due := set o | o in jobs && Due(jobs[o], now, leaseSeconds);
      assert id in due;
      var oldest := OldestExists(jobs, due);
      assert OldestDue(jobs, oldest, now, leaseSeconds);
    }
  }

  lemma NextIsOldestDue(jobs: Table, id: string, now: int, leaseSeconds: int)
    ensures IsNext(jobs, id, now, leaseSeconds) <==> OldestDue(jobs, id, now, leaseSeconds)
  {
    hide LexLe;
    forall j ensures Available(j, now, leaseSeconds) <==> Due(j, now, leaseSeconds) {
    }
  }

  /** A claimed row runs for its claimer from now on, with one attempt more and nothing else changed. */
  predicate TakenBy(j: Job, t: Job, owner: string, now: int) {
    && t.state == Running && t.owner == Some(owner) && t.lockedAt == Some(now) && t.attempts == j.attempts + 1
    && t == j.(state := t.state, owner := t.owner, lockedAt := t.lockedAt, attempts := t.attempts, updatedAt := now)
  }

  /** An accepted claim takes the oldest due row and no other; it finds nothing exactly when no row is due. */
  lemma ClaimExact(jobs: Table, op: Op, now: int)
    requires Keyed(jobs) && AcceptedClaim(op)
    ensures var (t, answer) := Apply(jobs, op, now);
      && (answer.Done? <==> exists id :: id in jobs && Due(jobs[id], now, op.leaseSeconds))
      && (forall id :: answer == Done(id) <==> OldestDue(jobs, id, now, op.leaseSeconds))
      && (answer.Done? ==> answer.id in jobs && answer.id in t && TakenBy(jobs[answer.id], t[answer.id], op.owner, now)
                           && t == jobs[answer.id := t[answer.id]])
      && (!answer.Done? ==> answer == NoJob && t == jobs)
  {
    hide Due, Available, NotAfter, IsNext, OldestDue;
    forall id ensures IsNext(jobs, id, now, op.leaseSeconds) <==> OldestDue(jobs, id, now, op.leaseSeconds) {
      NextIsOldestDue(jobs, id, now, op.leaseSeconds);
    }
    OldestDueExists(jobs, now, op.leaseSeconds);
    var next := NextJob(jobs, now, op.leaseSeconds);
    if next.Some? {
      NextIsMember(jobs, next.value, now, op.leaseSeconds);
      forall id | OldestDue(jobs, id, now, op.leaseSeconds) ensures id == next.value {
        NextUnique(jobs, id, next.value, now, op.leaseSeconds);
      }
    } else {
      NoNext(jobs, now, op.leaseSeconds);
    }
  }

  lemma NextIsMember(jobs: Table, id: string, now: int, leaseSeconds: int)
    requires IsNext(jobs, id, now, leaseSeconds)
    ensures id in jobs
  {
  }

  lemma NoNext(jobs: Table, now: int, leaseSeconds: int)
    requires NextJob(jobs, now, leaseSeconds).None?
    ensures !exists id :: IsNext(jobs, id, now, leaseSeconds)
  {
  }

  lemma OnlyRowClaimed(jobs: Table, id: string, op: Op, now: int)
    requires Keyed(jobs) && jobs.Keys == {id} && AcceptedClaim(op)
    ensures Apply(jobs, op, now).1 == if Due(jobs[id], now, op.leaseSeconds) then Done(id) else NoJob
  {
    hide Due, Apply, Older;
    ClaimExact(jobs, op, now);
    if Due(jobs[id], now, op.leaseSeconds) {
      var answer := Apply(jobs, op, now).1;
      assert OldestDue(jobs, answer.id, now, op.leaseSeconds);
    }
  }

  // The backoff, both ways

  /** When a job put back at this time after so many attempts is due again. */
  function DueAgain(at: int, attempts: nat): int {
    at + Pow2(if attempts <= 16 then attempts else 16) * 1_000_000
  }

  /** What an accepted retry writes. */
  lemma PutBack(log: Log, retry: Entry, id: string)
    requires retry.op.Retry? && retry.op.id == id && Apply(Tables(log), retry.op, retry.now).1 == Done(id)
    ensures id in Tables(log) && id in Tables(log + [retry])
    ensures var j, t := Tables(log)[id], Tables(log + [retry])[id];
      && j.state == Running && j.owner == Some(retry.op.owner)
      && t.state == Pending && t.owner == None && t.lockedAt == None && t.attempts == j.attempts
      && t.nextAttempt == Some(DueAgain(retry.now, j.attempts))
      && t.errorCode == Some(retry.op.code) && t.errorMessage == Some(retry.op.message)
    ensures forall o :: o != id ==> (o in Tables(log + [retry]) <==> o in Tables(log))
  {
    TablesAppend(log, retry);
    hide Tables, RetryDelay, Pow2;
    if id in Tables(log) {
      DelaysGrowUncapped(Tables(log)[id].attempts, Tables(log)[id].attempts);
    }
  }

  /** A lone job put back by its owner is claimed by any accepted claim from the end of its backoff on, and by none before. */
  lemma RetriedJobIsClaimedExactly(log: Log, retry: Entry, id: string, claim: Op, now: int)
    requires retry.op.Retry? && retry.op.id == id && Apply(Tables(log), retry.op, retry.now).1 == Done(id)
    requires Tables(log).Keys == {id} && AcceptedClaim(claim)
    ensures Apply(Tables(log + [retry]), claim, now).1 ==
      if now >= DueAgain(retry.now, Tables(log)[id].attempts) then Done(id) else NoJob
  {
    PutBack(log, retry, id);
    hide Tables, Apply, DueAgain;
    ReachableAlways(log + [retry]);
    OnlyRowClaimed(Tables(log + [retry]), id, claim, now);
  }

  /** Waiting for this time, or at work no longer. */
  predicate WaitsUntil(j: Job, due: int) {
    (j.state == Pending && j.nextAttempt == Some(due)) || j.state in {Succeeded, Review, Failed, Dead, Cancelled}
  }

  /** A call by which an administrator or a user puts a job back to work. */
  predicate PutsToWork(op: Op, id: string) {
    (op.AdminRetry? || op.ServiceRetry?) && op.id == id
  }

  ghost predicate LeftAlone(log: Log, more: Log, id: string, n: nat)
    requires n <= |more|
  {
    forall i :: 0 <= i < n ==> !PutsToWork(more[i].op, id) && !PurgedAt(log, more, i, id)
  }

  lemma RowWaits(j: Job, op: Op, now: int, due: int)
    requires OnRow(op) && WaitsUntil(j, due) && !PutsToWork(op, op.id)
    ensures var e := RowCall(Some(j), op, now); e.Changed? ==> WaitsUntil(e.row, due)
  {
  }

  lemma TableWaits(jobs: Table, op: Op, now: int, id: string, due: int)
    requires Keyed(jobs) && id in jobs && WaitsUntil(jobs[id], due)
    requires !PutsToWork(op, id) && !PurgedBy(jobs, op, id) && (AcceptedClaim(op) ==> now < due)
    ensures var t := Apply(jobs, op, now).0; id in t && WaitsUntil(t[id], due)
    ensures op.Claim? ==> Apply(jobs, op, now).1 != Done(id)
  {
    if op.Claim? {
      ClaimLeaves(jobs, op, now, id, due);
    } else if OnRow(op) {
      hide RowCall, WaitsUntil;
      if op.id == id {
        RowWaits(jobs[id], op, now, due);
      }
    }
  }

  lemma ClaimLeaves(jobs: Table, op: Op, now: int, id: string, due: int)
    requires Keyed(jobs) && op.Claim? && id in jobs && WaitsUntil(jobs[id], due) && (AcceptedClaim(op) ==> now < due)
    ensures var (t, answer) := Apply(jobs, op, now); answer != Done(id) && id in t && t[id] == jobs[id]
  {
    if AcceptedClaim(op) {
      hide Apply, Older, TakenBy;
      ClaimExact(jobs, op, now);
    }
  }

  lemma {:induction false} WaitsUpTo(log: Log, more: Log, id: string, due: int, n: nat)
    requires id in Tables(log) && WaitsUntil(Tables(log)[id], due) && n <= |more| && LeftAlone(log, more, id, n)
    requires forall i :: 0 <= i < n && AcceptedClaim(more[i].op) ==> more[i].now < due
    ensures id in Later(log, more, n) && WaitsUntil(Later(log, more, n)[id], due)
  {
    hide Apply, Later, WaitsUntil, AcceptedClaim, PutsToWork;
    if n == 0 {
      LaterStart(log, more);
    } else {
      WaitsUpTo(log, more, id, due, n - 1);
      LaterStep(log, more, n - 1);
      assert !PutsToWork(more[n - 1].op, id) && !PurgedAt(log, more, n - 1, id);
      TableWaits(Later(log, more, n - 1), more[n - 1].op, more[n - 1].now, id, due);
    }
  }

  /** The i-th of the later calls claims the job. */
  ghost predicate ClaimedLater(log: Log, more: Log, i: nat, id: string)
    requires i < |more|
  {
    ClaimedAt(log + more, |log| + i, id)
  }

  lemma LaterClaimed(log: Log, more: Log, i: nat, id: string)
    requires i < |more|
    ensures ClaimedLater(log, more, i, id) <==>
      more[i].op.Claim? && Apply(Later(log, more, i), more[i].op, more[i].now).1 == Done(id)
  {
    hide Apply, Tables;
    assert (log + more)[..|log| + i] == log + more[..i];
    assert (log + more)[|log| + i] == more[i];
  }

  lemma PutBackWaits(j: Job, due: int)
    requires j.state == Pending && j.nextAttempt == Some(due)
    ensures WaitsUntil(j, due)
  {
  }

  lemma LeftAloneUpTo(log: Log, more: Log, id: string, n: nat)
    requires n < |more| && LeftAlone(log, more, id, |more|)
    ensures LeftAlone(log, more, id, n) && !PutsToWork(more[n].op, id)
    ensures !PurgedBy(Later(log, more, n), more[n].op, id)
  {
    hide PutsToWork, PurgedBy, Later;
    assert !PutsToWork(more[n].op, id) && !PurgedAt(log, more, n, id);
  }

  /** No claim takes a job that its owner put back before its backoff has passed, whatever else happens, unless it
      is put back to work or purged meanwhile. */
  lemma BackoffIsRespected(log: Log, retry: Entry, id: string, more: Log)
    requires retry.op.Retry? && retry.op.id == id && Apply(Tables(log), retry.op, retry.now).1 == Done(id)
    requires LeftAlone(log + [retry], more, id, |more|)
    requires forall i :: 0 <= i < |more| && AcceptedClaim(more[i].op) ==>
      more[i].now < DueAgain(retry.now, Tables(log)[id].attempts)
    ensures forall i :: 0 <= i < |more| ==> !ClaimedLater(log + [retry], more, i, id)
  {
    hide Apply, Later, AcceptedClaim, Tables, Answer, PutsToWork, ClaimedLater, WaitsUntil, LeftAlone;
    PutBack(log, retry, id);
    var start, due := log + [retry], DueAgain(retry.now, Tables(log)[id].attempts);
    assert WaitsUntil(Tables(start)[id], due) by {
      PutBackWaits(Tables(start)[id], due);
    }
    forall i | 0 <= i < |more| ensures !ClaimedLater(start, more, i, id) {
      LeftAloneUpTo(start, more, id, i);
      WaitsUpTo(start, more, id, due, i);
      LaterStep(start, more, i);
      LaterClaimed(start, more, i, id);
      TableWaits(Later(start, more, i), more[i].op, more[i].now, id, due);
    }
  }

  // Put back to work, new, and running jobs

  /** A failed, buried, reviewed or cancelled job that is retried is due from that moment on, clean and with its
      attempts; no other job can be. */
  lemma PutToWorkIsDueNow(jobs: Table, op: Op, at: int, id: string)
    requires Keyed(jobs) && PutsToWork(op, id) && 1 <= |id| <= 36
    ensures var (t, answer) := Apply(jobs, op, at);
      && (answer == Done(id) <==> id in jobs && jobs[id].state in {Failed, Dead, Review, Cancelled})
      && (answer != Done(id) ==> t == jobs)
      && (answer == Done(id) ==>
            && id in t && t == jobs[id := t[id]]
            && (forall now, leaseSeconds :: Due(t[id], now, leaseSeconds) <==> now >= at)
            && t[id].owner == None && t[id].lockedAt == None && t[id].errorCode == None && t[id].errorMessage == None
            && t[id].completedAt == None && t[id].attempts == jobs[id].attempts
            && t[id].stage == if op.ServiceRetry? then op.stage else jobs[id].stage)
  {
  }

  /** A stored new job is due at once, or from the time it was scheduled for. */
  lemma NewJobIsDue(jobs: Table, op: Op, at: int)
    requires op.Create? && Apply(jobs, op, at).1 == Done(op.id) && op.id !in jobs
    ensures var t := Apply(jobs, op, at).0;
      && op.id in t && t[op.id].attempts == 0 && t[op.id].stage == ExtractStage && t[op.id].createdAt == at
      && forall now, leaseSeconds :: Due(t[op.id], now, leaseSeconds) <==> op.nextAttempt == None || now >= op.nextAttempt.value
  {
  }

  /** A running job is due exactly when its last claim or heartbeat is at least the lease old. */
  lemma RunningIsDueExactly(log: Log, id: string, now: int, leaseSeconds: int)
    requires id in Tables(log) && Tables(log)[id].state == Running
    ensures LastTouch(log, id).Some?
    ensures Due(Tables(log)[id], now, leaseSeconds) <==> now >= LastTouch(log, id).value + leaseSeconds * 1_000_000
  {
    hide Tables, LastTouch;
    ReachableAlways(log);
  }

  // What stops a job

  /** The calls that end the work on a job that is waiting or running. */
  ghost predicate Stops(j: Job, op: Op, id: string) {
    match op
    case DeadLetter(_, owner, code, message) =>
      op.id == id && j.state == Running && j.owner == Some(owner) && 1 <= |id| <= 36 && 1 <= |owner| <= 160
      && 1 <= |code| <= 80 && 1 <= |message| <= 500
    case AdminCancel(_) => op.id == id && 1 <= |id| <= 36
    case Complete(_, expected) => op.id == id && expected == IndexStage && j.stage == IndexStage
    case WorkerFinish(_, target) => op.id == id && target in {Succeeded, Review, Failed}
    case DeleteDocument(document) => j.documentId == Some(document)
    case _ => (op.WorkerFail? || op.WorkerCancel? || op.ServiceCancel?) && op.id == id
  }

  /** The state each of them leaves the job in. */
  function StoppedState(op: Op): JobState {
    match op
    case DeadLetter(_, _, _, _) => Dead
    case Complete(_, _) => Succeeded
    case WorkerFinish(_, target) => target
    case WorkerFail(_, _) => Failed
    case _ => Cancelled
  }

  predicate AtWork(j: Job) {
    j.state == Pending || j.state == Running
  }

  /** What a stopped row says: released by everything but a completion or a deletion, with the time it ended unless it
      failed or was abandoned, and with the reason. */
  ghost predicate StoppedRow(j: Job, t: Job, op: Op, now: int) {
    && t.attempts == j.attempts && t.key == j.key && t.createdAt == j.createdAt && t.stage == j.stage && t.updatedAt == now
    && (if op.Complete? || op.DeleteDocument? then t.owner == j.owner && t.lockedAt == j.lockedAt
        else t.owner == None && t.lockedAt == None)
    && t.completedAt == (if op.WorkerFail? || op.WorkerCancel? || op.DeleteDocument? then j.completedAt else Some(now))
    && match op
       case DeadLetter(_, _, code, message) => t.errorCode == Some(code) && t.errorMessage == Some(message)
       case AdminCancel(_) => t.errorCode == Some("INGESTION_CANCELLED") && t.nextAttempt == None
       case ServiceCancel(_) => t.errorCode == Some("INGESTION_CANCELLED") && t.nextAttempt == None
       case WorkerFail(_, code) => t.errorCode == Some(if |code| > 80 then code[..80] else code)
       case WorkerFinish(_, target) =>
         if target == Succeeded then t.errorCode == None && t.errorMessage == None
         else if target == Failed then t.errorCode == Some("MANDATORY_STAGE_INCOMPLETE")
         else t.errorCode == Some(if j.errorCode == None || j.errorCode.value == "" then "INGESTION_DEGRADED" else j.errorCode.value)
       case _ => t.errorCode == j.errorCode && t.errorMessage == j.errorMessage
  }

  lemma StoppedRowSays(jobs: Table, op: Op, now: int, id: string)
    requires Keyed(jobs) && id in jobs && AtWork(jobs[id]) && Stops(jobs[id], op, id)
    ensures var t := Apply(jobs, op, now).0; id in t && StoppedRow(jobs[id], t[id], op, now)
  {
    hide AtWork;
    StopsExactly(jobs, op, now, id);
    if OnRow(op) {
      hide Apply;
      StoppedBy(jobs[id], op, now);
      OnlyItsRow(jobs, op, now);
    }
  }

  lemma OnlyItsRow(jobs: Table, op: Op, now: int)
    requires OnRow(op) && op.id in jobs
    ensures var e := RowCall(Some(jobs[op.id]), op, now);
      Apply(jobs, op, now).0 == if e.Changed? then jobs[op.id := e.row] else jobs
  {
    hide RowCall;
  }

  lemma StoppedBy(j: Job, op: Op, now: int)
    requires OnRow(op) && AtWork(j) && Stops(j, op, op.id)
    ensures var e := RowCall(Some(j), op, now); e.Changed? && StoppedRow(j, e.row, op, now)
  {
  }

  lemma RowStops(j: Job, op: Op, now: int)
    requires OnRow(op) && AtWork(j)
    ensures var e := RowCall(Some(j), op, now);
      && (Stops(j, op, op.id) ==> e.Changed? && e.row.state == StoppedState(op))
      && (!Stops(j, op, op.id) && e.Changed? ==> AtWork(e.row))
  {
  }

  /** A waiting or running job stops working exactly by these calls, in the state each stands for, or by a purge. */
  lemma StopsExactly(jobs: Table, op: Op, now: int, id: string)
    requires Keyed(jobs) && id in jobs && AtWork(jobs[id])
    ensures var t := Apply(jobs, op, now).0;
      && (Stops(jobs[id], op, id) ==> InState(t, id, StoppedState(op)) && !AtWork(t[id]))
      && (!Stops(jobs[id], op, id) && !PurgedBy(jobs, op, id) ==> id in t && AtWork(t[id]))
  {
    if OnRow(op) {
      hide RowCall, Stops, AtWork;
      StoppedIsNotAtWork(jobs[id], op, id);
      if op.id == id {
        RowStops(jobs[id], op, now);
      } else {
        NotThisRow(jobs[id], op, id);
      }
    } else if AcceptedClaim(op) {
      hide Apply, Older, Due;
      ClaimExact(jobs, op, now);
    }
  }

  lemma StoppedIsNotAtWork(j: Job, op: Op, id: string)
    ensures Stops(j, op, id) ==> StoppedState(op) != Pending && StoppedState(op) != Running
  {
  }

  lemma NotThisRow(j: Job, op: Op, id: string)
    requires OnRow(op) && op.id != id
    ensures !Stops(j, op, id)
  {
  }

  /** A stopped job rests until it is put back to work: no claim takes it and no call moves it back by itself. */
  lemma StoppedStaysStopped(log: Log, more: Log, id: string)
    requires id in Tables(log) && !AtWork(Tables(log)[id]) && LeftAlone(log, more, id, |more|)
    ensures forall i :: 0 <= i <= |more| ==> id in Later(log, more, i) && !AtWork(Later(log, more, i)[id])
    ensures forall i :: 0 <= i < |more| ==> !ClaimedLater(log, more, i, id)
  {
    hide Apply, Later, Tables, Answer, PutsToWork, ClaimedLater, AtWork;
    forall i | 0 <= i <= |more| ensures id in Later(log, more, i) && !AtWork(Later(log, more, i)[id]) {
      RestsUpTo(log, more, id, i);
    }
    forall i | 0 <= i < |more| ensures !ClaimedLater(log, more, i, id) {
      LaterStep(log, more, i);
      LaterClaimed(log, more, i, id);
      LeftAloneUpTo(log, more, id, i);
      TableRests(Later(log, more, i), more[i].op, more[i].now, id);
    }
  }

  lemma TableRests(jobs: Table, op: Op, now: int, id: string)
    requires Keyed(jobs) && id in jobs && !AtWork(jobs[id]) && !PutsToWork(op, id) && !PurgedBy(jobs, op, id)
    ensures var t := Apply(jobs, op, now).0; id in t && !AtWork(t[id])
    ensures op.Claim? ==> Apply(jobs, op, now).1 != Done(id)
  {
    hide Apply;
    if !AcceptedClaim(op) {
      hide PutsToWork, PurgedBy;
      TableWaits(jobs, op, now, id, 0);
      NotClaimedRests(jobs, op, now, id);
    } else {
      hide Older;
      ClaimExact(jobs, op, now);
    }
  }

  lemma NotClaimedRests(jobs: Table, op: Op, now: int, id: string)
    requires Keyed(jobs) && id in jobs && !AtWork(jobs[id]) && !AcceptedClaim(op) && !PutsToWork(op, id)
    ensures var t := Apply(jobs, op, now).0; id in t ==> !AtWork(t[id])
  {
    if OnRow(op) {
      hide RowCall, AtWork, PutsToWork;
      if op.id == id {
        RowRests(jobs[id], op, now);
      }
    }
  }

  lemma RowRests(j: Job, op: Op, now: int)
    requires OnRow(op) && !AtWork(j) && !PutsToWork(op, op.id)
    ensures var e := RowCall(Some(j), op, now); e.Changed? ==> !AtWork(e.row)
  {
  }

  lemma {:induction false} RestsUpTo(log: Log, more: Log, id: string, n: nat)
    requires id in Tables(log) && !AtWork(Tables(log)[id]) && n <= |more| && LeftAlone(log, more, id, n)
    ensures id in Later(log, more, n) && !AtWork(Later(log, more, n)[id])
  {
    hide Apply, Later, AtWork, PutsToWork;
    if n == 0 {
      LaterStart(log, more);
    } else {
      RestsUpTo(log, more, id, n - 1);
      LaterStep(log, more, n - 1);
      assert !PutsToWork(more[n - 1].op, id) && !PurgedAt(log, more, n - 1, id);
      TableRests(Later(log, more, n - 1), more[n - 1].op, more[n - 1].now, id);
    }
  }

  // Stages

  /** The calls that move a job to the stage it is not in. */
  predicate MovesStage(j: Job, op: Op, id: string) {
    match j.stage
    case ExtractStage =>
      || (op.Advance? && op.id == id && op.expected == ExtractStage && op.next == IndexStage && AtWork(j))
      || (op.WorkerExtracted? && op.id == id)
      || (op.ServiceRetry? && op.id == id && op.stage == IndexStage && j.state in {Failed, Dead, Review, Cancelled})
    case IndexStage =>
      || (op.Link? && op.id == id)
      || (op.ServiceRetry? && op.id == id && op.stage == ExtractStage && j.state in {Failed, Dead, Review, Cancelled})
  }

  lemma RowStage(j: Job, op: Op, now: int)
    requires OnRow(op)
    ensures var e := RowCall(Some(j), op, now);
      MovesStage(j, op, op.id) <==> e.Changed? && e.row.stage != j.stage
  {
  }

  lemma NotThisStage(j: Job, op: Op, id: string)
    requires OnRow(op) ==> op.id != id
    ensures !MovesStage(j, op, id)
  {
  }

  lemma StageMovesExactly(jobs: Table, op: Op, now: int, id: string)
    requires Keyed(jobs) && id in jobs && id in Apply(jobs, op, now).0
    ensures Apply(jobs, op, now).0[id].stage != jobs[id].stage <==> MovesStage(jobs[id], op, id)
  {
    if OnRow(op) {
      hide RowCall, MovesStage;
      if op.id == id {
        RowStage(jobs[id], op, now);
      } else {
        NotThisStage(jobs[id], op, id);
      }
    }
  }
}
