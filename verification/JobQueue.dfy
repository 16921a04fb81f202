/** The leased ingestion-job queue: backend/app/repositories/job_repository.py, the stage transitions of
    ingestion_pipeline.py, and every row update that ingestion_worker.py and document_service.py make directly. Each
    call is one atomic step on the job table at a given clock reading; an error leaves the table as it was. */
module JobQueue {
  import opened Wrappers
  import opened Text

  datatype JobState = Pending | Running | Succeeded | Review | Failed | Dead | Cancelled

  datatype Stage = ExtractStage | IndexStage

  /** Times are microseconds, as datetimes store them. */
  const SECOND := 1_000_000

  const MAX_LEASE_SECONDS := 3_600
  const MAX_RETRY_SECONDS := 86_400

  datatype Job = Job(
    id: string,
    key: string,
    stageVersion: string,
    documentId: Option<int>,
    versionId: Option<int>,
    state: JobState,
    stage: Stage,
    attempts: nat,
    nextAttempt: Option<int>,
    owner: Option<string>,
    lockedAt: Option<int>,
    errorCode: Option<string>,
    errorMessage: Option<string>,
    createdAt: int,
    updatedAt: int,
    completedAt: Option<int>)

  type Table = map<string, Job>

  datatype Op =
    | Create(id: string, key: string, stageVersion: string, documentId: Option<int>, versionId: Option<int>,
             nextAttempt: Option<int>)
    | Claim(owner: string, leaseSeconds: int)
    | Heartbeat(id: string, owner: string)
    | Retry(id: string, owner: string, code: string, message: string)
    | DeadLetter(id: string, owner: string, code: string, message: string)
    | AdminRetry(id: string)
    | AdminCancel(id: string)
    | Advance(id: string, expected: Stage, next: Stage)
    | Complete(id: string, expected: Stage)
    // Row updates made outside the repository: by the worker while it runs a job,
    | WorkerExtracted(id: string, review: Option<string>)
    | WorkerFinish(id: string, target: JobState)
    | WorkerFail(id: string, code: string)
    | WorkerCancel(id: string)
    // by the ingestion service,
    | ServiceRetry(id: string, stage: Stage)
    | ServiceCancel(id: string)
    // and by the document service
    | Link(id: string, document: int, version: int)
    | DeleteDocument(document: int)
    | Purge(document: int)

  datatype Outcome = Done(id: string) | NoJob | Error(code: string)

  predicate BoundedText(s: string, maximum: nat) {
    1 <= |s| <= maximum
  }

  // claim: the least available job by creation time, then id

  predicate Available(j: Job, now: int, leaseSeconds: int) {
    || (j.state.Pending? && (j.nextAttempt.None? || j.nextAttempt.value <= now))
    || (j.state.Running? && j.lockedAt.Some? && j.lockedAt.value <= now - leaseSeconds * SECOND)
  }

  predicate NotAfter(a: Job, b: Job) {
    a.createdAt < b.createdAt || (a.createdAt == b.createdAt && LexLe(a.id, b.id))
  }

  ghost predicate IsNext(jobs: Table, id: string, now: int, leaseSeconds: int) {
    && id in jobs && Available(jobs[id], now, leaseSeconds)
    && forall o :: o in jobs && Available(jobs[o], now, leaseSeconds) ==> NotAfter(jobs[id], jobs[o])
  }

  ghost function NextJob(jobs: Table, now: int, leaseSeconds: int): (next: Option<string>)
    ensures next.Some? ==> IsNext(jobs, next.value, now, leaseSeconds)
  {
    if id :| IsNext(jobs, id, now, leaseSeconds) then Some(id) else None
  }

  function Claimed(j: Job, owner: string, now: int): Job {
    j.(state := Running, owner := Some(owner), lockedAt := Some(now), attempts := j.attempts + 1, updatedAt := now)
  }

  // retry: exponential backoff

  function Pow2(n: nat): nat {
    if n == 0 then 1 else 2 * Pow2(n - 1)
  }

  function RetryDelay(attempts: nat): nat {
    var doubled := Pow2(if attempts <= 16 then attempts else 16);
    if doubled <= MAX_RETRY_SECONDS then doubled else MAX_RETRY_SECONDS
  }

  function Retried(j: Job, code: string, message: string, now: int): Job {
    j.(state := Pending, nextAttempt := Some(now + RetryDelay(j.attempts) * SECOND), owner := None, lockedAt := None,
       errorCode := Some(code), errorMessage := Some(message), updatedAt := now)
  }

  function DeadLettered(j: Job, code: string, message: string, now: int): Job {
    j.(state := Dead, owner := None, lockedAt := None, errorCode := Some(code), errorMessage := Some(message),
       completedAt := Some(now), updatedAt := now)
  }

  function Requeued(j: Job, now: int): Job {
    j.(state := Pending, owner := None, lockedAt := None, nextAttempt := Some(now), errorCode := None,
       errorMessage := None, completedAt := None, updatedAt := now)
  }

  function CancelledJob(j: Job, now: int): Job {
    j.(state := Cancelled, owner := None, lockedAt := None, nextAttempt := None,
       errorCode := Some("INGESTION_CANCELLED"), errorMessage := Some("Cancelled by administrator"),
       completedAt := Some(now), updatedAt := now)
  }

  // Rows written by the worker and the services

  function Extracted(j: Job, review: Option<string>, now: int): Job {
    var reviewed := if review.None? then j else j.(errorCode := review, errorMessage := Some("manual review required"));
    reviewed.(stage := IndexStage, updatedAt := now)
  }

  function Finished(j: Job, target: JobState, now: int): Job {
    var reviewCode := if j.errorCode.Some? && j.errorCode.value != "" then j.errorCode.value else "INGESTION_DEGRADED";
    j.(state := target, owner := None, lockedAt := None, completedAt := Some(now), updatedAt := now,
       errorCode :=
         if target.Succeeded? then None else if target.Review? then Some(reviewCode) else Some("MANDATORY_STAGE_INCOMPLETE"),
       errorMessage :=
         if target.Succeeded? then None
         else if target.Review? then Some("manual review required") else Some("ingestion stage failed"))
  }

  function FailedJob(j: Job, code: string, now: int): Job {
    j.(state := Failed, owner := None, lockedAt := None, errorCode := Some(if |code| <= 80 then code else code[..80]),
       errorMessage := Some("ingestion stage failed"), updatedAt := now)
  }

  function AbandonedJob(j: Job, now: int): Job {
    j.(state := Cancelled, owner := None, lockedAt := None, updatedAt := now)
  }

  predicate Retryable(j: Job) {
    j.state in {Failed, Dead, Review, Cancelled}
  }

  predicate Executable(j: Job) {
    j.state in {Pending, Running}
  }

  predicate HeldBy(j: Job, owner: string) {
    j.state.Running? && j.owner == Some(owner)
  }

  predicate OwnedBy(jobs: Table, id: string, owner: string) {
    id in jobs && HeldBy(jobs[id], owner)
  }

  ghost predicate HasKey(jobs: Table, key: string) {
    exists id :: id in jobs && jobs[id].key == key
  }

  ghost function JobWithKey(jobs: Table, key: string): (id: string)
    requires HasKey(jobs, key)
    ensures id in jobs && jobs[id].key == key
  {
    var id :| id in jobs && jobs[id].key == key; id
  }

  function NewJob(op: Op, now: int): Job
    requires op.Create?
  {
    Job(op.id, op.key, op.stageVersion, op.documentId, op.versionId, Pending, ExtractStage, 0, op.nextAttempt,
        None, None, None, None, now, now, None)
  }

  /** What a call on one row answers: the row stays, or it becomes another. */
  datatype Effect = Same(answer: Outcome) | Changed(row: Job)

  predicate OnRow(op: Op) {
    !op.Create? && !op.Claim? && !op.DeleteDocument? && !op.Purge?
  }

  function OwnerCall(row: Option<Job>, op: Op, now: int): Effect
    requires op.Heartbeat? || op.Retry? || op.DeadLetter?
  {
    match op
    case Heartbeat(id, owner) =>
      if !BoundedText(id, 36) || !BoundedText(owner, 160) then Same(Error("ValueError"))
      else if row.None? || !HeldBy(row.value, owner) then Same(Error("JOB_LEASE_NOT_OWNED"))
      else Changed(row.value.(lockedAt := Some(now), updatedAt := now))
    case Retry(id, owner, code, message) =>
      if !BoundedText(id, 36) then Same(Error("ValueError"))
      else if row.None? || !row.value.state.Running? then Same(Error("JOB_LEASE_NOT_OWNED"))
      else if !BoundedText(owner, 160) then Same(Error("ValueError"))
      else if !HeldBy(row.value, owner) then Same(Error("JOB_LEASE_NOT_OWNED"))
      else if !BoundedText(code, 80) || !BoundedText(message, 500) then Same(Error("ValueError"))
      else Changed(Retried(row.value, code, message, now))
    case DeadLetter(id, owner, code, message) =>
      if !BoundedText(id, 36) || !BoundedText(owner, 160) || !BoundedText(code, 80) || !BoundedText(message, 500)
      then Same(Error("ValueError"))
      else if row.None? || !HeldBy(row.value, owner) then Same(Error("JOB_LEASE_NOT_OWNED"))
      else Changed(DeadLettered(row.value, code, message, now))
  }

  /** The calls on one row that do not ask who holds it. */
  function OpenCall(row: Option<Job>, op: Op, now: int): Effect
    requires OnRow(op) && !(op.Heartbeat? || op.Retry? || op.DeadLetter?)
  {
    match op
    case AdminRetry(id) =>
      if !BoundedText(id, 36) then Same(Error("ValueError"))
      else if row.None? || !Retryable(row.value) then Same(Error("JOB_NOT_RETRYABLE"))
      else Changed(Requeued(row.value, now))
    case AdminCancel(id) =>
      if !BoundedText(id, 36) then Same(Error("ValueError"))
      else if row.None? || !Executable(row.value) then Same(Error("JOB_NOT_CANCELLABLE"))
      else Changed(CancelledJob(row.value, now))
    case Advance(_, expected, next) =>
      if row.None? || !Executable(row.value) then Same(Error("job is not executable"))
      else if row.value.stage == next then Same(Done(op.id))
      else if row.value.stage != expected || expected != ExtractStage || next != IndexStage
      then Same(Error("invalid ingestion stage transition"))
      else Changed(row.value.(stage := next, updatedAt := now))
    case Complete(_, expected) =>
      if row.None? then Same(NoJob)
      else if row.value.state.Succeeded? then Same(Done(op.id))
      else if !Executable(row.value) || row.value.stage != expected || expected != IndexStage
      then Same(Error("job is not ready for completion"))
      else Changed(row.value.(state := Succeeded, completedAt := Some(now), updatedAt := now))
    case WorkerExtracted(_, review) =>
      if row.None? then Same(NoJob) else Changed(Extracted(row.value, review, now))
    case WorkerFinish(_, target) =>
      if row.None? || !Executable(row.value) || target !in {Succeeded, Review, Failed} then Same(NoJob)
      else Changed(Finished(row.value, target, now))
    case WorkerFail(_, code) =>
      if row.None? || row.value.state.Cancelled? then Same(NoJob) else Changed(FailedJob(row.value, code, now))
    case WorkerCancel(_) =>
      if row.None? || row.value.state in {Cancelled, Succeeded, Failed} then Same(NoJob)
      else Changed(AbandonedJob(row.value, now))
    case ServiceRetry(_, stage) =>
      if row.None? || !Retryable(row.value) then Same(Error("ValueError"))
      else Changed(Requeued(row.value, now).(stage := stage))
    case ServiceCancel(_) =>
      if row.None? then Same(Error("ValueError"))
      else if row.value.state.Cancelled? then Same(Done(op.id))
      else if !Executable(row.value) && !row.value.state.Review? then Same(Error("ValueError"))
      else Changed(CancelledJob(row.value, now).(errorMessage := Some("cancelled by administrator")))
    case Link(_, document, version) =>
      if row.None? then Same(NoJob)
      else Changed(row.value.(documentId := Some(document), versionId := Some(version), stageVersion := "pipeline-v2",
                              stage := ExtractStage, updatedAt := now))
  }

  function RowCall(row: Option<Job>, op: Op, now: int): Effect
    requires OnRow(op)
  {
    if op.Heartbeat? || op.Retry? || op.DeadLetter? then OwnerCall(row, op, now) else OpenCall(row, op, now)
  }

  function Find(jobs: Table, id: string): Option<Job> {
    if id in jobs then Some(jobs[id]) else None
  }

  function Unlinked(j: Job, document: int, now: int): Job {
    if j.documentId == Some(document) && Executable(j) then j.(state := Cancelled, updatedAt := now) else j
  }

  /** What one call does to the table, and what it answers. */
  ghost function Apply(jobs: Table, op: Op, now: int): (Table, Outcome) {
    match op
    case Create(id, key, stageVersion, _, _, _) =>
      if !BoundedText(id, 36) || !BoundedText(key, 200) || !BoundedText(stageVersion, 40) then (jobs, Error("ValueError"))
      else if HasKey(jobs, key) then (jobs, Done(JobWithKey(jobs, key)))
      else if id in jobs then (jobs, Error("IntegrityError"))
      else (jobs[id := NewJob(op, now)], Done(id))
    case Claim(owner, leaseSeconds) =>
      if !BoundedText(owner, 160) || !(1 <= leaseSeconds <= MAX_LEASE_SECONDS) then (jobs, Error("ValueError"))
      else (match NextJob(jobs, now, leaseSeconds)
            case None => (jobs, NoJob)
            case Some(id) => (jobs[id := Claimed(jobs[id], owner, now)], Done(id)))
    case DeleteDocument(document) =>
      (map id | id in jobs :: Unlinked(jobs[id], document, now), NoJob)
    case Purge(document) =>
      (map id | id in jobs && jobs[id].documentId != Some(document) :: jobs[id], NoJob)
    case _ =>
      match RowCall(Find(jobs, op.id), op, now)
      case Same(answer) => (jobs, answer)
      case Changed(row) => (jobs[op.id := row], Done(op.id))
  }

  // The least available job exists and is unique

  ghost predicate Keyed(jobs: Table) {
    forall id :: id in jobs ==> jobs[id].id == id
  }

  lemma NextUnique(jobs: Table, a: string, b: string, now: int, leaseSeconds: int)
    requires Keyed(jobs) && IsNext(jobs, a, now, leaseSeconds) && IsNext(jobs, b, now, leaseSeconds)
    ensures a == b
  {
    LexAntisymmetric(a, b);
  }

  /** The job rows and the calls that change them. */
  class JobRepository {
    var jobs: Table

    constructor ()
      ensures jobs == map[]
    {
      jobs := map[];
    }

    method CreateIngestionJob(id: string, key: string, stageVersion: string, documentId: Option<int>,
                              versionId: Option<int>, nextAttempt: Option<int>, now: int)
      returns (outcome: Outcome)
      requires UniqueKeys(jobs)
      modifies this
      ensures (jobs, outcome) ==
        Apply(old(jobs), Create(id, key, stageVersion, documentId, versionId, nextAttempt), now)
    {
      if !BoundedText(id, 36) || !BoundedText(key, 200) || !BoundedText(stageVersion, 40) {
        return Error("ValueError");
      }
      if existing :| existing in jobs && jobs[existing].key == key {
        assert existing == JobWithKey(jobs, key);
        return Done(existing);
      }
      if id in jobs {
        return Error("IntegrityError");
      }
      jobs := jobs[id := NewJob(Create(id, key, stageVersion, documentId, versionId, nextAttempt), now)];
      outcome := Done(id);
    }

    /** The claim query: scan for the least available row, then lock it. */
    method ClaimIngestionJob(owner: string, leaseSeconds: int, now: int) returns (outcome: Outcome)
      requires Keyed(jobs)
      modifies this
      ensures (jobs, outcome) == Apply(old(jobs), Claim(owner, leaseSeconds), now)
      ensures outcome.NoJob? ==> forall o :: o in jobs ==> !Available(jobs[o], now, leaseSeconds)
      ensures outcome.Done? ==> IsNext(old(jobs), outcome.id, now, leaseSeconds)
    {
      if !BoundedText(owner, 160) || !(1 <= leaseSeconds <= MAX_LEASE_SECONDS) {
        return Error("ValueError");
      }
      var unread := jobs.Keys;
      var best: Option<string> := None;
      while unread != {}
        invariant unread <= jobs.Keys && jobs == old(jobs)
        invariant best.Some? ==> best.value in jobs && Available(jobs[best.value], now, leaseSeconds)
        invariant forall o :: o in jobs && o !in unread && Available(jobs[o], now, leaseSeconds) ==>
          best.Some? && NotAfter(jobs[best.value], jobs[o])
        decreases unread
      {
        var id :| id in unread;
        LexIsOrder();
        if Available(jobs[id], now, leaseSeconds) && (best.None? || NotAfter(jobs[id], jobs[best.value])) {
          best := Some(id);
        }
        unread := unread - {id};
      }
      match best
      case None =>
        outcome := NoJob;
      case Some(id) =>
        assert IsNext(jobs, id, now, leaseSeconds);
        NextUnique(jobs, id, NextJob(jobs, now, leaseSeconds).value, now, leaseSeconds);
        jobs := jobs[id := Claimed(jobs[id], owner, now)];
        outcome := Done(id);
    }

    method HeartbeatIngestionJob(id: string, owner: string, now: int) returns (outcome: Outcome)
      modifies this
      ensures (jobs, outcome) == Apply(old(jobs), Heartbeat(id, owner), now)
    {
      if !BoundedText(id, 36) || !BoundedText(owner, 160) {
        return Error("ValueError");
      }
      if id !in jobs || !jobs[id].state.Running? || jobs[id].owner != Some(owner) {
        return Error("JOB_LEASE_NOT_OWNED");
      }
      jobs := jobs[id := jobs[id].(lockedAt := Some(now), updatedAt := now)];
      outcome := Done(id);
    }

    method RetryIngestionJob(id: string, owner: string, code: string, message: string, now: int)
      returns (outcome: Outcome)
      modifies this
      ensures (jobs, outcome) == Apply(old(jobs), Retry(id, owner, code, message), now)
    {
      if !BoundedText(id, 36) {
        return Error("ValueError");
      }
      if id !in jobs || !jobs[id].state.Running? {
        return Error("JOB_LEASE_NOT_OWNED");
      }
      if !BoundedText(owner, 160) {
        return Error("ValueError");
      }
      if jobs[id].owner != Some(owner) {
        return Error("JOB_LEASE_NOT_OWNED");
      }
      if !BoundedText(code, 80) || !BoundedText(message, 500) {
        return Error("ValueError");
      }
      var delay := RetryDelay(jobs[id].attempts);
      jobs := jobs[id := jobs[id].(
        state := Pending, nextAttempt := Some(now + delay * SECOND), owner := None, lockedAt := None,
        errorCode := Some(code), errorMessage := Some(message), updatedAt := now)];
      outcome := Done(id);
    }

    method DeadLetterIngestionJob(id: string, owner: string, code: string, message: string, now: int)
      returns (outcome: Outcome)
      modifies this
      ensures (jobs, outcome) == Apply(old(jobs), DeadLetter(id, owner, code, message), now)
    {
      if !BoundedText(id, 36) || !BoundedText(owner, 160) || !BoundedText(code, 80) || !BoundedText(message, 500) {
        return Error("ValueError");
      }
      if !OwnedBy(jobs, id, owner) {
        return Error("JOB_LEASE_NOT_OWNED");
      }
      jobs := jobs[id := DeadLettered(jobs[id], code, message, now)];
      outcome := Done(id);
    }

    method AdminRetryIngestionJob(id: string, now: int) returns (outcome: Outcome)
      modifies this
      ensures (jobs, outcome) == Apply(old(jobs), AdminRetry(id), now)
    {
      if !BoundedText(id, 36) {
        return Error("ValueError");
      }
      if id !in jobs || jobs[id].state !in {Failed, Dead, Review, Cancelled} {
        return Error("JOB_NOT_RETRYABLE");
      }
      jobs := jobs[id := Requeued(jobs[id], now)];
      outcome := Done(id);
    }

    method AdminCancelIngestionJob(id: string, now: int) returns (outcome: Outcome)
      modifies this
      ensures (jobs, outcome) == Apply(old(jobs), AdminCancel(id), now)
    {
      if !BoundedText(id, 36) {
        return Error("ValueError");
      }
      if id !in jobs || jobs[id].state !in {Pending, Running} {
        return Error("JOB_NOT_CANCELLABLE");
      }
      jobs := jobs[id := CancelledJob(jobs[id], now)];
      outcome := Done(id);
    }

    method AdvanceStage(id: string, expected: Stage, next: Stage, now: int) returns (outcome: Outcome)
      modifies this
      ensures (jobs, outcome) == Apply(old(jobs), Advance(id, expected, next), now)
    {
      if id !in jobs || jobs[id].state !in {Pending, Running} {
        return Error("job is not executable");
      }
      if jobs[id].stage == next {
        return Done(id);
      }
      if jobs[id].stage != expected || (expected, next) != (ExtractStage, IndexStage) {
        return Error("invalid ingestion stage transition");
      }
      jobs := jobs[id := jobs[id].(stage := next, updatedAt := now)];
      outcome := Done(id);
    }

    method CompleteStage(id: string, expected: Stage, now: int) returns (outcome: Outcome)
      modifies this
      ensures (jobs, outcome) == Apply(old(jobs), Complete(id, expected), now)
    {
      if id !in jobs {
        return NoJob;
      }
      if jobs[id].state.Succeeded? {
        return Done(id);
      }
      if jobs[id].state !in {Pending, Running} || jobs[id].stage != expected || expected != IndexStage {
        return Error("job is not ready for completion");
      }
      jobs := jobs[id := jobs[id].(state := Succeeded, completedAt := Some(now), updatedAt := now)];
      outcome := Done(id);
    }
  }

  ghost predicate UniqueKeys(jobs: Table) {
    forall a, b :: a in jobs && b in jobs && jobs[a].key == jobs[b].key ==> a == b
  }
}
