/** Whole runs of the job queue: any interleaving of calls by workers, administrators and the environment. */
module JobRuns {
  import opened Wrappers
  import opened Text
  import opened JobQueue

  datatype Entry = Entry(op: Op, now: int)

  type Log = seq<Entry>

  ghost function Tables(log: Log): Table {
    if |log| == 0 then map[] else Apply(Tables(log[..|log| - 1]), log[|log| - 1].op, log[|log| - 1].now).0
  }

  /** What the i-th call answered. */
  ghost function Answer(log: Log, i: nat): Outcome
    requires i < |log|
  {
    Apply(Tables(log[..i]), log[i].op, log[i].now).1
  }

  ghost predicate ClaimedAt(log: Log, i: nat, id: string)
    requires i < |log|
  {
    log[i].op.Claim? && Answer(log, i) == Done(id)
  }

  ghost predicate TouchedAt(log: Log, i: nat, id: string)
    requires i < |log|
  {
    ClaimedAt(log, i, id) || (log[i].op.Heartbeat? && Answer(log, i) == Done(id))
  }

  // The history of one job, read off the log. A purge removes the row, and a later job under the same id starts afresh.

  ghost function ClaimCount(log: Log, id: string): nat {
    if |log| == 0 || id !in Tables(log) then 0
    else ClaimCount(log[..|log| - 1], id) + if ClaimedAt(log, |log| - 1, id) then 1 else 0
  }

  ghost function LastClaimer(log: Log, id: string): Option<string> {
    if |log| == 0 then None
    else if ClaimedAt(log, |log| - 1, id) then Some(log[|log| - 1].op.owner)
    else LastClaimer(log[..|log| - 1], id)
  }

  /** When the job was last claimed or kept alive. */
  ghost function LastTouch(log: Log, id: string): Option<int> {
    if |log| == 0 then None
    else if TouchedAt(log, |log| - 1, id) then Some(log[|log| - 1].now)
    else LastTouch(log[..|log| - 1], id)
  }

  // What every reachable row satisfies

  ghost predicate JobMatches(log: Log, j: Job, id: string) {
    && j.id == id
    && BoundedText(j.key, 200)
    && j.attempts == ClaimCount(log, id)
    && (j.owner.Some? ==> j.owner == LastClaimer(log, id))
    && (j.lockedAt.Some? ==> j.lockedAt == LastTouch(log, id))
    && (j.state.Running? ==> j.owner.Some? && j.lockedAt.Some?)
  }

  ghost predicate Reachable(log: Log) {
    && (forall id :: id in Tables(log) ==> JobMatches(log, Tables(log)[id], id))
    && UniqueKeys(Tables(log))
  }

  /** A row carries on as the same job, and keeps its lock or loses it. */
  predicate Continues(j: Job, t: Job) {
    && t.id == j.id && t.key == j.key && t.createdAt == j.createdAt && t.attempts == j.attempts
    && (t.owner.Some? ==> t.owner == j.owner)
    && (t.lockedAt.Some? ==> t.lockedAt == j.lockedAt)
    && (t.state.Running? ==> j.state.Running? && t.owner == j.owner && t.lockedAt == j.lockedAt)
  }

  ghost predicate PurgedBy(jobs: Table, op: Op, id: string) {
    op.Purge? && id in jobs && jobs[id].documentId == Some(op.document)
  }

  lemma OpenCallContinues(j: Job, op: Op, now: int)
    requires OnRow(op) && !(op.Heartbeat? || op.Retry? || op.DeadLetter?)
    ensures var e := OpenCall(Some(j), op, now); e.Changed? ==> Continues(j, e.row)
    ensures OpenCall(None, op, now).Same?
  {
  }

  lemma OwnerCallContinues(j: Job, op: Op, now: int)
    requires op.Heartbeat? || op.Retry? || op.DeadLetter?
    ensures var e := OwnerCall(Some(j), op, now);
      e.Changed? ==>
        && HeldBy(j, op.owner)
        && if op.Heartbeat? then e.row == j.(lockedAt := Some(now), updatedAt := now) else Continues(j, e.row)
    ensures op.Heartbeat? ==> !OwnerCall(Some(j), op, now).Same? || OwnerCall(Some(j), op, now).answer.Error?
    ensures OwnerCall(None, op, now).Same? && OwnerCall(None, op, now).answer.Error?
  {
  }

  /** How one call can change one row, together with what it says about that row's history. */
  lemma RowStep(jobs: Table, op: Op, now: int, id: string)
    requires Keyed(jobs)
    ensures var (t, answer) := Apply(jobs, op, now);
      && (id in jobs ==> (id !in t <==> PurgedBy(jobs, op, id)))
      && (id in t && id !in jobs ==>
            op.Create? && answer == Done(id) && op.id == id && BoundedText(op.key, 200) && t[id] == NewJob(op, now))
      && (op.Claim? && answer == Done(id) ==>
            id in jobs && id in t && Available(jobs[id], now, op.leaseSeconds) && t[id] == Claimed(jobs[id], op.owner, now))
      && (op.Heartbeat? && answer == Done(id) ==>
            && id in jobs && id in t && OwnedBy(jobs, id, op.owner)
            && t[id] == jobs[id].(lockedAt := Some(now), updatedAt := now))
      && (id in jobs && id in t && !((op.Claim? || op.Heartbeat?) && answer == Done(id)) ==> Continues(jobs[id], t[id]))
  {
    hide OpenCall, OwnerCall, Claimed, Available, NewJob;
    if OnRow(op) && op.id in jobs {
      if op.Heartbeat? || op.Retry? || op.DeadLetter? {
        OwnerCallContinues(jobs[op.id], op, now);
      } else {
        OpenCallContinues(jobs[op.id], op, now);
      }
    } else if OnRow(op) {
      MissingRow(op, now);
    }
  }

  lemma MissingRow(op: Op, now: int)
    requires OnRow(op)
    ensures RowCall(None, op, now).Same?
    ensures op.Heartbeat? ==> RowCall(None, op, now).answer.Error?
  {
  }

  lemma KeysStayUnique(jobs: Table, op: Op, now: int)
    requires Keyed(jobs) && UniqueKeys(jobs)
    ensures UniqueKeys(Apply(jobs, op, now).0)
  {
    hide Apply;
    var t := Apply(jobs, op, now).0;
    forall a, b | a in t && b in t && t[a].key == t[b].key ensures a == b {
      RowStep(jobs, op, now, a);
      RowStep(jobs, op, now, b);
      if a !in jobs || b !in jobs {
        CreatedKeyIsNew(jobs, op, now, if a !in jobs then a else b);
      }
    }
  }

  lemma CreatedKeyIsNew(jobs: Table, op: Op, now: int, id: string)
    requires id in Apply(jobs, op, now).0 && id !in jobs
    ensures op.Create? && !HasKey(jobs, op.key)
    ensures forall o :: o in Apply(jobs, op, now).0 ==> o == id || o in jobs
  {
    hide OpenCall, OwnerCall;
    if OnRow(op) {
      MissingRow(op, now);
    }
  }

  ghost function Before(log: Log): Log
    requires |log| > 0
  {
    log[..|log| - 1]
  }

  /** Over every run: attempts count the claims since the row was created, a lock names its last claimer and its last claim or heartbeat,
      RUNNING jobs are locked, and idempotency keys are unique. */
  lemma {:induction false} ReachableAlways(log: Log)
    ensures Reachable(log)
  {
    hide Apply;
    if |log| > 0 {
      var before, e := log[..|log| - 1], log[|log| - 1];
      ReachableAlways(before);
      var jobs := Tables(before);
      KeysStayUnique(jobs, e.op, e.now);
      forall id | id in Tables(log) ensures JobMatches(log, Tables(log)[id], id) {
        MatchesStep(log, id);
      }
    }
  }

  lemma MatchesStep(log: Log, id: string)
    requires |log| > 0 && Reachable(Before(log)) && id in Tables(log)
    ensures JobMatches(log, Tables(log)[id], id)
  {
    hide Apply;
    var before, e := Before(log), log[|log| - 1];
    RowStep(Tables(before), e.op, e.now, id);
    if id !in Tables(before) {
      assert ClaimCount(before, id) == 0;
    }
  }

  // Lease fencing

  /** A RUNNING job passes to a new claim only when its last claim or heartbeat is at least the lease old. */
  lemma TakeoverNeedsLapsedLease(log: Log, id: string)
    requires |log| > 0 && id in Tables(Before(log)) && Tables(Before(log))[id].state.Running?
    requires id in Tables(log) && Tables(log)[id].state.Running?
    requires Tables(log)[id].owner != Tables(Before(log))[id].owner
    ensures var e := log[|log| - 1];
      && ClaimedAt(log, |log| - 1, id)
      && Tables(log)[id].owner == Some(e.op.owner)
      && LastTouch(Before(log), id).Some?
      && LastTouch(Before(log), id).value + e.op.leaseSeconds * SECOND <= e.now
  {
    hide Apply, LastTouch;
    var e := log[|log| - 1];
    ReachableAlways(Before(log));
    RowStep(Tables(Before(log)), e.op, e.now, id);
  }

  lemma AnswerOfPrefix(log: Log, n: nat, i: nat)
    requires i < n <= |log|
    ensures Answer(log[..n], i) == Answer(log, i)
  {
    assert log[..n][..i] == log[..i];
  }

  /** No claim of the job by this worker after call i. */
  ghost predicate NoClaimSince(log: Log, i: nat, id: string, worker: string) {
    forall m :: i < m < |log| && ClaimedAt(log, m, id) ==> log[m].op.owner != worker
  }

  lemma {:induction false} LastClaimerSince(log: Log, i: nat, id: string, worker: string)
    requires i < |log| && ClaimedAt(log, i, id) && log[i].op.owner != worker
    requires NoClaimSince(log, i, id, worker)
    ensures LastClaimer(log, id) != Some(worker)
  {
    hide Answer;
    var last := |log| - 1;
    if i < last && !ClaimedAt(log, last, id) {
      AnswerOfPrefix(log, last, i);
      forall m | i < m < last && ClaimedAt(log[..last], m, id) ensures log[m].op.owner != worker {
        AnswerOfPrefix(log, last, m);
        assert ClaimedAt(log, m, id);
      }
      LastClaimerSince(log[..last], i, id, worker);
    }
  }

  ghost predicate IsOwnerCall(op: Op, id: string, worker: string) {
    (op.Heartbeat? || op.Retry? || op.DeadLetter?) && op.id == id && op.owner == worker
  }

  /** Once another worker has claimed the job, every heartbeat, retry and dead-letter by its former owner fails and
      changes nothing, until that former owner claims the job again. */
  lemma FormerOwnerIsFenced(log: Log, i: nat, id: string, worker: string, op: Op, now: int)
    requires i < |log| && ClaimedAt(log, i, id) && log[i].op.owner != worker
    requires NoClaimSince(log, i, id, worker)
    requires IsOwnerCall(op, id, worker)
    ensures Apply(Tables(log), op, now).0 == Tables(log)
    ensures Apply(Tables(log), op, now).1.Error?
  {
    hide *;
    LastClaimerSince(log, i, id, worker);
    NotItsOwner(log, id, worker);
    OwnerCallRefused(Tables(log), op, now, id, worker);
  }

  lemma NotItsOwner(log: Log, id: string, worker: string)
    requires LastClaimer(log, id) != Some(worker)
    ensures !OwnedBy(Tables(log), id, worker)
  {
    hide Tables, LastClaimer;
    ReachableAlways(log);
  }

  lemma OwnerCallRefused(jobs: Table, op: Op, now: int, id: string, worker: string)
    requires !OwnedBy(jobs, id, worker) && IsOwnerCall(op, id, worker)
    ensures Apply(jobs, op, now).0 == jobs && Apply(jobs, op, now).1.Error?
  {
  }

  /** The calls that end the owner's hold on a RUNNING job. Those after the first three do not ask who holds it. */
  ghost predicate TakesAway(jobs: Table, op: Op, now: int, id: string, owner: string)
    requires id in jobs
  {
    match op
    case Claim(other, leaseSeconds) =>
      && other != owner && BoundedText(other, 160) && 1 <= leaseSeconds <= MAX_LEASE_SECONDS
      && IsNext(jobs, id, now, leaseSeconds)
    case Retry(_, _, code, message) =>
      OwnedText(op, id, owner) && BoundedText(code, 80) && BoundedText(message, 500)
    case DeadLetter(_, _, code, message) =>
      OwnedText(op, id, owner) && BoundedText(code, 80) && BoundedText(message, 500)
    case AdminCancel(_) => op.id == id && BoundedText(id, 36)
    case Complete(_, expected) => op.id == id && expected.IndexStage? && jobs[id].stage.IndexStage?
    case WorkerFinish(_, target) => op.id == id && target in {Succeeded, Review, Failed}
    case DeleteDocument(document) => jobs[id].documentId == Some(document)
    case Purge(document) => jobs[id].documentId == Some(document)
    case _ => (op.WorkerFail? || op.WorkerCancel? || op.ServiceCancel?) && op.id == id
  }

  predicate OwnedText(op: Op, id: string, owner: string)
    requires op.Retry? || op.DeadLetter?
  {
    op.id == id && op.owner == owner && BoundedText(id, 36) && BoundedText(owner, 160)
  }

  lemma RowTakenExactly(jobs: Table, op: Op, now: int, id: string, owner: string)
    requires OwnedBy(jobs, id, owner) && OnRow(op) && op.id == id
    ensures var e := RowCall(Some(jobs[id]), op, now);
      TakesAway(jobs, op, now, id, owner) <==> e.Changed? && !HeldBy(e.row, owner)
  {
  }

  /** A RUNNING job leaves its owner's hands exactly by these calls: fencing covers only the owner-checked ones. */
  lemma RunningIsTakenExactly(jobs: Table, op: Op, now: int, id: string, owner: string)
    requires Keyed(jobs) && OwnedBy(jobs, id, owner)
    ensures !OwnedBy(Apply(jobs, op, now).0, id, owner) <==> TakesAway(jobs, op, now, id, owner)
  {
    if OnRow(op) {
      if op.id == id {
        hide RowCall, TakesAway;
        RowTakenExactly(jobs, op, now, id, owner);
      } else {
        hide RowCall;
      }
    } else if op.Claim? && IsNext(jobs, id, now, op.leaseSeconds) {
      NextUnique(jobs, id, NextJob(jobs, now, op.leaseSeconds).value, now, op.leaseSeconds);
    }
  }

  // Two logs of one job that two workers claimed

  function Handover(): Log {
    [Entry(Create("job", "key", "v1", Some(1), Some(1), None), 0), Entry(Claim("a", 60), 0), Entry(Claim("b", 60), 60 * SECOND)]
  }

  lemma TablesAppend(log: Log, e: Entry)
    ensures Tables(log + [e]) == Apply(Tables(log), e.op, e.now).0
  {
    assert (log + [e])[..|log + [e]| - 1] == log;
  }

  lemma OnlyJobClaimed(jobs: Table, id: string, owner: string, leaseSeconds: int, now: int)
    requires jobs.Keys == {id} && jobs[id].id == id && Available(jobs[id], now, leaseSeconds)
    requires BoundedText(owner, 160) && 1 <= leaseSeconds <= MAX_LEASE_SECONDS
    ensures Apply(jobs, Claim(owner, leaseSeconds), now).0 == map[id := Claimed(jobs[id], owner, now)]
  {
    LexIsOrder();
    assert IsNext(jobs, id, now, leaseSeconds);
    assert jobs[id := Claimed(jobs[id], owner, now)] == map[id := Claimed(jobs[id], owner, now)];
  }

  lemma HandedOver()
    ensures Tables(Handover()).Keys == {"job"} && OwnedBy(Tables(Handover()), "job", "b")
    ensures Tables(Handover())["job"].id == "job"
  {
    hide Available, Apply;
    var l, e := Handover()[..1], Handover()[0].op;
    var created, taken := NewJob(e, 0), Claimed(NewJob(e, 0), "a", 0);
    TablesStart(Handover());
    assert Apply(map[], e, 0).0 == map["job" := created] by {
      CreateFirst(e, 0);
    }
    assert Available(created, 0, 60) && Available(taken, 60 * SECOND, 60) by {
      AvailableNow(created, taken);
    }
    OnlyJobClaimed(Tables(l), "job", "a", 60, 0);
    TablesAppend(l, Handover()[1]);
    assert l + [Handover()[1]] == Handover()[..2];
    OnlyJobClaimed(Tables(Handover()[..2]), "job", "b", 60, 60 * SECOND);
    TablesAppend(Handover()[..2], Handover()[2]);
    assert Handover()[..2] + [Handover()[2]] == Handover();
  }

  lemma CreateFirst(op: Op, now: int)
    requires op.Create? && BoundedText(op.id, 36) && BoundedText(op.key, 200) && BoundedText(op.stageVersion, 40)
    ensures Apply(map[], op, now).0 == map[op.id := NewJob(op, now)]
  {
  }

  lemma AvailableNow(created: Job, taken: Job)
    requires created.state.Pending? && created.nextAttempt.None?
    requires taken.state.Running? && taken.lockedAt == Some(0)
    ensures Available(created, 0, 60) && Available(taken, 60 * SECOND, 60)
  {
  }

  /** The worker's completion names no owner: what the first worker then writes ends the second one's job. */
  lemma FormerOwnerCanFinish()
    ensures var finished := Handover() + [Entry(WorkerFinish("job", Succeeded), 61 * SECOND)];
      && OwnedBy(Tables(Handover()), "job", "b")
      && InState(Tables(finished), "job", Succeeded)
      && Apply(Tables(finished), Heartbeat("job", "b"), 61 * SECOND).1.Error?
  {
    HandedOver();
    TablesAppend(Handover(), Entry(WorkerFinish("job", Succeeded), 61 * SECOND));
    hide Tables;
  }

  // Lifecycle

  predicate InState(jobs: Table, id: string, state: JobState) {
    id in jobs && jobs[id].state == state
  }

  predicate Requeues(op: Op, id: string) {
    (op.AdminRetry? || op.ServiceRetry?) && op.id == id && (op.AdminRetry? ==> BoundedText(id, 36))
  }

  /** The calls that take a row out of each state no worker is at work in. */
  ghost predicate Leaves(jobs: Table, op: Op, id: string)
    requires id in jobs
  {
    var failed, abandoned := op.WorkerFail? && op.id == id, op.WorkerCancel? && op.id == id;
    var ended := Requeues(op, id) || PurgedBy(jobs, op, id);
    match jobs[id].state
    case Succeeded => failed || PurgedBy(jobs, op, id)
    case Dead => failed || abandoned || ended
    case Review => failed || abandoned || (op.ServiceCancel? && op.id == id) || ended
    case Failed => ended
    case Cancelled => ended
    case _ => false
  }

  predicate AtRest(j: Job) {
    !j.state.Pending? && !j.state.Running?
  }

  lemma RowLeavesExactly(jobs: Table, op: Op, now: int, id: string)
    requires id in jobs && AtRest(jobs[id]) && OnRow(op) && op.id == id
    ensures var e := RowCall(Some(jobs[id]), op, now);
      e.Changed? && e.row.state != jobs[id].state <==> Leaves(jobs, op, id)
  {
  }

  /** SUCCEEDED is left exactly by the worker's failure handler; DEAD by that, by the worker's cancellation handler or
      by a retry; CANCELLED and FAILED by a retry; REVIEW also by a cancellation; and each by a purge of the document. */
  lemma TerminalStatesAreLeftOnly(jobs: Table, op: Op, now: int, id: string)
    requires Keyed(jobs) && id in jobs && AtRest(jobs[id])
    ensures !InState(Apply(jobs, op, now).0, id, jobs[id].state) <==> Leaves(jobs, op, id)
  {
    if !OnRow(op) {
      TableCallLeavesExactly(jobs, op, now, id);
    } else if op.id == id {
      hide RowCall, Leaves, AtRest, OnRow;
      RowLeavesExactly(jobs, op, now, id);
    } else {
      hide RowCall;
    }
  }

  lemma TableCallLeavesExactly(jobs: Table, op: Op, now: int, id: string)
    requires Keyed(jobs) && id in jobs && AtRest(jobs[id]) && !OnRow(op)
    ensures !InState(Apply(jobs, op, now).0, id, jobs[id].state) <==> Leaves(jobs, op, id)
  {
  }

  /** A buried job is not final: the first worker's cancellation handler turns it into CANCELLED. */
  lemma DeadLetterUndone()
    ensures var buried := Handover() + [Entry(DeadLetter("job", "b", "CODE", "message"), 61 * SECOND)];
      && InState(Tables(buried), "job", Dead)
      && InState(Tables(buried + [Entry(WorkerCancel("job"), 62 * SECOND)]), "job", Cancelled)
  {
    var bury, cancel := Entry(DeadLetter("job", "b", "CODE", "message"), 61 * SECOND), Entry(WorkerCancel("job"), 62 * SECOND);
    HandedOver();
    TablesAppend(Handover(), bury);
    TablesAppend(Handover() + [bury], cancel);
    hide Tables;
  }

  // A job followed through a longer log

  ghost function Later(log: Log, more: Log, i: nat): Table
    requires i <= |more|
  {
    Tables(log + more[..i])
  }

  lemma LaterStep(log: Log, more: Log, i: nat)
    requires i < |more|
    ensures Later(log, more, i + 1) == Apply(Later(log, more, i), more[i].op, more[i].now).0
    ensures Keyed(Later(log, more, i))
  {
    TablesAppend(log + more[..i], more[i]);
    assert log + more[..i + 1] == log + more[..i] + [more[i]];
    ReachableAlways(log + more[..i]);
  }

  lemma LaterStart(log: Log, more: Log)
    ensures Later(log, more, 0) == Tables(log)
  {
    assert log + more[..0] == log;
  }

  ghost predicate PurgedAt(log: Log, more: Log, i: nat, id: string)
    requires i < |more|
  {
    PurgedBy(Later(log, more, i), more[i].op, id)
  }

  ghost predicate UndoneAt(log: Log, more: Log, i: nat, id: string)
    requires i < |more|
  {
    PurgedAt(log, more, i, id) || (more[i].op.WorkerFail? && more[i].op.id == id)
  }

  lemma {:induction false} SucceededUpTo(log: Log, more: Log, id: string, n: nat)
    requires InState(Tables(log), id, Succeeded) && n <= |more|
    requires forall i :: 0 <= i < n ==> !UndoneAt(log, more, i, id)
    ensures InState(Later(log, more, n), id, Succeeded)
  {
    hide Apply, Later;
    if n == 0 {
      LaterStart(log, more);
    } else {
      SucceededUpTo(log, more, id, n - 1);
      LaterStep(log, more, n - 1);
      TerminalStatesAreLeftOnly(Later(log, more, n - 1), more[n - 1].op, more[n - 1].now, id);
      assert !UndoneAt(log, more, n - 1, id);
    }
  }

  /** A success lasts through a log exactly when the log holds no failure handling of the job and no purge of its document. */
  lemma SucceededIsAbsorbing(log: Log, more: Log, id: string)
    requires InState(Tables(log), id, Succeeded)
    ensures (forall i :: 0 <= i <= |more| ==> InState(Later(log, more, i), id, Succeeded))
       <==> forall i :: 0 <= i < |more| ==> !UndoneAt(log, more, i, id)
  {
    hide Apply, Later, UndoneAt;
    if forall i :: 0 <= i < |more| ==> !UndoneAt(log, more, i, id) {
      forall n | 0 <= n <= |more| ensures InState(Later(log, more, n), id, Succeeded) {
        SucceededUpTo(log, more, id, n);
      }
    }
    if i :| 0 <= i < |more| && UndoneAt(log, more, i, id) {
      SuccessUndone(log, more, id, i);
    }
  }

  lemma SuccessUndone(log: Log, more: Log, id: string, i: nat)
    requires i < |more| && UndoneAt(log, more, i, id)
    ensures !InState(Later(log, more, i), id, Succeeded) || !InState(Later(log, more, i + 1), id, Succeeded)
  {
    hide Apply, Later;
    if InState(Later(log, more, i), id, Succeeded) {
      LaterStep(log, more, i);
      TerminalStatesAreLeftOnly(Later(log, more, i), more[i].op, more[i].now, id);
    }
  }

  /** One call of the worker's failure handler undoes a success. */
  lemma FailureHandlerUndoesSuccess(jobs: Table, id: string, now: int)
    requires InState(jobs, id, Succeeded)
    ensures InState(Apply(jobs, WorkerFail(id, "INGESTION_STAGE_FAILED"), now).0, id, Failed)
  {
  }

  // Idempotency keys

  ghost predicate Names(jobs: Table, key: string, id: string) {
    id in jobs && jobs[id].key == key
  }

  lemma {:induction false} NamedUpTo(log: Log, more: Log, key: string, id: string, n: nat)
    requires Names(Tables(log), key, id) && n <= |more|
    requires forall i :: 0 <= i < n ==> !PurgedAt(log, more, i, id)
    ensures Names(Later(log, more, n), key, id)
  {
    hide Apply, Later;
    if n == 0 {
      LaterStart(log, more);
    } else {
      NamedUpTo(log, more, key, id, n - 1);
      LaterStep(log, more, n - 1);
      RowStep(Later(log, more, n - 1), more[n - 1].op, more[n - 1].now, id);
      assert !PurgedAt(log, more, n - 1, id);
    }
  }

  /** An idempotency key keeps naming its job through a log exactly when the log never purges the document that the
      job belongs to at that point. */
  lemma KeyNamesOneJobExactly(log: Log, more: Log, key: string, id: string)
    requires Names(Tables(log), key, id)
    ensures (forall i :: 0 <= i <= |more| ==> Names(Later(log, more, i), key, id))
       <==> forall i :: 0 <= i < |more| ==> !PurgedAt(log, more, i, id)
  {
    hide Apply, Later, PurgedAt;
    if forall i :: 0 <= i < |more| ==> !PurgedAt(log, more, i, id) {
      forall n | 0 <= n <= |more| ensures Names(Later(log, more, n), key, id) {
        NamedUpTo(log, more, key, id, n);
      }
    }
    if i :| 0 <= i < |more| && PurgedAt(log, more, i, id) {
      PurgedIsGone(log, more, id, i);
    }
  }

  lemma PurgedIsGone(log: Log, more: Log, id: string, i: nat)
    requires i < |more| && PurgedAt(log, more, i, id)
    ensures id !in Later(log, more, i + 1)
  {
    hide Apply, Later;
    LaterStep(log, more, i);
    RowStep(Later(log, more, i), more[i].op, more[i].now, id);
  }

  /** While a key names a job, creating under it returns that job and stores nothing. */
  lemma CreatingAgainReturnsTheJob(log: Log, key: string, id: string, op: Op, now: int)
    requires Names(Tables(log), key, id)
    requires op.Create? && op.key == key && BoundedText(op.id, 36) && BoundedText(op.stageVersion, 40)
    ensures Apply(Tables(log), op, now) == (Tables(log), Done(id))
  {
    hide Tables;
    ReachableAlways(log);
    assert HasKey(Tables(log), key);
    assert JobWithKey(Tables(log), key) == id;
  }

  /** After a purge the key is free: creating under it stores another job. */
  lemma KeyIsFreeAfterPurge(log: Log, key: string, id: string, document: int, op: Op, purgedAt: int, now: int)
    requires Names(Tables(log), key, id) && Tables(log)[id].documentId == Some(document)
    requires op.Create? && op.key == key && BoundedText(op.id, 36) && BoundedText(op.stageVersion, 40)
    requires op.id !in Tables(log)
    ensures var purged := Tables(log + [Entry(Purge(document), purgedAt)]);
      && id !in purged
      && Apply(purged, op, now) == (purged[op.id := NewJob(op, now)], Done(op.id))
  {
    TablesAppend(log, Entry(Purge(document), purgedAt));
    hide Tables;
    ReachableAlways(log);
  }

  function Upload(id: string): Op {
    Create(id, "key", "upload-v1", None, None, None)
  }

  function UploadedAndDeleted(): Log {
    [Entry(Upload("first"), 0), Entry(Link("first", 7, 1), 1), Entry(DeleteDocument(7), 2)]
  }

  lemma FirstUpload()
    ensures var jobs := Tables(UploadedAndDeleted());
      jobs.Keys == {"first"} && Names(jobs, "key", "first") && jobs["first"].documentId == Some(7)
  {
    hide Tables;
    var log := UploadedAndDeleted();
    CreateFirst(Upload("first"), 0);
    TablesStart(log);
    TablesAppend(log[..1], log[1]);
    assert log[..1] + [log[1]] == log[..2];
    TablesAppend(log[..2], log[2]);
    assert log[..2] + [log[2]] == log;
  }

  lemma TablesStart(log: Log)
    requires |log| > 0
    ensures Tables(log[..1]) == Apply(map[], log[0].op, log[0].now).0
  {
    assert [] + [log[0]] == log[..1];
    TablesAppend([], log[0]);
  }

  /** Upload, delete, purge and upload again under one key: the key names a second job. */
  lemma KeyReused()
    ensures var again := UploadedAndDeleted() + [Entry(Purge(7), 3), Entry(Upload("second"), 4)];
      && Names(Tables(UploadedAndDeleted()), "key", "first")
      && Names(Tables(again), "key", "second") && "first" !in Tables(again)
  {
    hide Tables, Apply, UploadedAndDeleted;
    var log := UploadedAndDeleted();
    FirstUpload();
    KeyIsFreeAfterPurge(log, "key", "first", 7, Upload("second"), 3, 4);
    TablesAppend(log + [Entry(Purge(7), 3)], Entry(Upload("second"), 4));
    assert log + [Entry(Purge(7), 3)] + [Entry(Upload("second"), 4)] == log + [Entry(Purge(7), 3), Entry(Upload("second"), 4)];
  }

  // Exponential backoff

  lemma {:induction false} Pow2Monotone(a: nat, b: nat)
    requires a <= b
    ensures Pow2(a) <= Pow2(b)
  {
    if a < b {
      Pow2Monotone(a, b - 1);
    }
  }

  lemma Pow2Of16()
    ensures Pow2(16) == 65536
  {
    assert Pow2(4) == 16;
    assert Pow2(8) == 256;
    assert Pow2(12) == 4096;
  }

  lemma Pow2Step(n: nat)
    requires n > 0
    ensures Pow2(n) == 2 * Pow2(n - 1)
  {
  }

  /** Delays never shrink, and the 86400-second cap never binds. */
  lemma DelaysGrowUncapped(a: nat, b: nat)
    requires a <= b
    ensures RetryDelay(a) <= RetryDelay(b)
    ensures RetryDelay(a) == Pow2(if a <= 16 then a else 16) < MAX_RETRY_SECONDS
  {
    Pow2Of16();
    Pow2Monotone(if a <= 16 then a else 16, if b <= 16 then b else 16);
    Pow2Monotone(if a <= 16 then a else 16, 16);
    Pow2Monotone(if b <= 16 then b else 16, 16);
  }

  /** Seconds that must pass between the first and the k-th claim. */
  function Backoff(k: nat): nat {
    if k <= 1 then 0 else Backoff(k - 1) + RetryDelay(k - 1)
  }

  lemma {:induction false} BackoffClosedForm(k: nat)
    requires 1 <= k
    ensures k <= 17 ==> Backoff(k) == Pow2(k) - 2
    ensures k > 17 ==> Backoff(k) == 131_070 + (k - 17) * 65_536
  {
    hide Pow2, RetryDelay;
    Pow2Step(k);
    Pow2Of16();
    if k == 1 {
      PowersAtEnds();
    } else {
      BackoffClosedForm(k - 1);
      DelaysGrowUncapped(k - 1, k - 1);
      PowersAtEnds();
    }
  }

  lemma PowersAtEnds()
    ensures Pow2(0) == 1 && Pow2(1) == 2 && Pow2(17) == 131_072
  {
    Pow2Of16();
    Pow2Step(17);
  }

  ghost predicate ClockAdvances(log: Log) {
    forall i, j :: 0 <= i <= j < |log| ==> log[i].now <= log[j].now
  }

  ghost predicate PendingAt(log: Log, i: nat, id: string)
    requires i < |log|
  {
    id in Tables(log[..i]) && Tables(log[..i])[id].state.Pending?
  }

  /** No claim takes the job over while it runs, and no administrator's retry requeues it. */
  ghost predicate EndedByRetry(log: Log, id: string) {
    forall i :: 0 <= i < |log| ==>
      && (ClaimedAt(log, i, id) ==> PendingAt(log, i, id))
      && !RequeuedAt(log, i, id)
  }

  ghost predicate RequeuedAt(log: Log, i: nat, id: string)
    requires i < |log|
  {
    (log[i].op.AdminRetry? || log[i].op.ServiceRetry?) && Answer(log, i) == Done(id)
  }

  ghost function FirstClaim(log: Log, id: string): Option<int> {
    if |log| == 0 || id !in Tables(log) then None
    else if FirstClaim(Before(log), id).Some? then FirstClaim(Before(log), id)
    else if ClaimedAt(log, |log| - 1, id) then Some(log[|log| - 1].now) else None
  }

  ghost function LastClaim(log: Log, id: string): Option<int> {
    if |log| == 0 || id !in Tables(log) then None
    else if ClaimedAt(log, |log| - 1, id) then Some(log[|log| - 1].now)
    else LastClaim(Before(log), id)
  }

  /** The k-th claim respects the backoff, and a job waiting for its next claim already carries the next bound. */
  ghost predicate Paced(log: Log, id: string) {
    var k := ClaimCount(log, id);
    && (k >= 1 <==> FirstClaim(log, id).Some?) && (k >= 1 <==> LastClaim(log, id).Some?)
    && (k >= 1 ==>
          && |log| > 0 && LastClaim(log, id).value <= log[|log| - 1].now
          && LastClaim(log, id).value >= FirstClaim(log, id).value + Backoff(k) * SECOND
          && id in Tables(log)
          && (Tables(log)[id].state.Pending? ==>
                && Tables(log)[id].nextAttempt.Some?
                && Tables(log)[id].nextAttempt.value >= FirstClaim(log, id).value + Backoff(k + 1) * SECOND))
  }

  lemma PrefixConditions(log: Log, id: string)
    requires |log| > 0 && ClockAdvances(log) && EndedByRetry(log, id)
    ensures ClockAdvances(Before(log)) && EndedByRetry(Before(log), id)
  {
    hide Answer, Tables;
    var n := |log| - 1;
    forall i | 0 <= i < n
      ensures ClaimedAt(Before(log), i, id) ==> PendingAt(Before(log), i, id)
      ensures !RequeuedAt(Before(log), i, id)
    {
      AnswerOfPrefix(log, n, i);
      assert log[..n][..i] == log[..i];
      assert ClaimedAt(Before(log), i, id) ==> ClaimedAt(log, i, id);
      assert !RequeuedAt(log, i, id);
    }
  }

  /** How a row comes to be PENDING after a call that is not an admin retry of it. */
  lemma PendingStep(jobs: Table, op: Op, now: int, id: string)
    requires Keyed(jobs) && id in jobs && id in Apply(jobs, op, now).0
    requires Apply(jobs, op, now).0[id].state.Pending?
    requires !((op.AdminRetry? || op.ServiceRetry?) && Apply(jobs, op, now).1 == Done(id))
    ensures Pends(jobs[id], Apply(jobs, op, now).0[id], now)
    ensures !(op.Claim? && Apply(jobs, op, now).1 == Done(id))
  {
    if OnRow(op) {
      hide RowCall, Pends;
      RowSame(jobs[id], now);
      if op.id == id {
        RowPends(jobs[id], op, now);
      }
    }
  }

  /** The row was waiting already, or its running attempt was put back with the backoff. */
  predicate Pends(j: Job, t: Job, now: int) {
    || (j.state.Pending? && t.nextAttempt == j.nextAttempt)
    || (j.state.Running? && t.nextAttempt == Some(now + RetryDelay(j.attempts) * SECOND))
  }

  lemma RowSame(j: Job, now: int)
    ensures j.state.Pending? ==> Pends(j, j, now)
  {
  }

  lemma RowPends(j: Job, op: Op, now: int)
    requires OnRow(op)
    ensures var e := RowCall(Some(j), op, now);
      e.Changed? && e.row.state.Pending? ==> op.AdminRetry? || op.ServiceRetry? || Pends(j, e.row, now)
  {
    hide RetryDelay;
  }

  lemma {:induction false} AlwaysPaced(log: Log, id: string)
    requires ClockAdvances(log) && EndedByRetry(log, id)
    ensures Paced(log, id)
  {
    hide Apply, RetryDelay, ClockAdvances, EndedByRetry;
    if |log| > 0 {
      PrefixConditions(log, id);
      AlwaysPaced(Before(log), id);
      PacedStep(log, id);
    }
  }

  lemma PacedStep(log: Log, id: string)
    requires |log| > 0 && ClockAdvances(log) && EndedByRetry(log, id)
    requires Paced(Before(log), id)
    ensures Paced(log, id)
  {
    hide Apply, RetryDelay;
    var n := |log| - 1;
    var jobs, e := Tables(Before(log)), log[n];
    ReachableAlways(Before(log));
    RowStep(jobs, e.op, e.now, id);
    assert n > 0 ==> log[n - 1].now <= e.now && Before(log)[n - 1] == log[n - 1];
    if ClaimedAt(log, n, id) {
      assert PendingAt(log, n, id);
    } else if id in jobs && id in Tables(log) && Tables(log)[id].state.Pending? {
      assert !RequeuedAt(log, n, id);
      PendingStep(jobs, e.op, e.now, id);
    }
  }

  /** When every attempt ends in a retry, the k-th claim comes at least 2^k - 2 seconds after the first (k <= 17),
      and 65536 seconds later per claim after that. */
  lemma ClaimsBackOff(log: Log, id: string)
    requires ClockAdvances(log) && EndedByRetry(log, id)
    requires ClaimCount(log, id) >= 1
    ensures var k := ClaimCount(log, id);
      && FirstClaim(log, id).Some? && LastClaim(log, id).Some?
      && LastClaim(log, id).value - FirstClaim(log, id).value >=
           (if k <= 17 then Pow2(k) - 2 else 131_070 + (k - 17) * 65_536) * SECOND
  {
    hide Pow2, Backoff, Tables;
    AlwaysPaced(log, id);
    BackoffClosedForm(ClaimCount(log, id));
  }
}
