/** Stage results and readiness of one ingestion job (backend/app/services/ingestion_pipeline.py).
    The two JSON columns are kept as the values they encode. */
module IngestionPipeline {
  import opened Wrappers
  import opened Sorting
  import opened Text

  datatype Status = PendingResult | Completed | InReview | FailedResult | Degraded | Disabled | CancelledResult

  const MANDATORY: seq<string> := ["EXTRACTING", "CLASSIFYING", "DEDUPLICATING", "CHUNKING", "INDEXING"]

  datatype Columns = Columns(results: map<string, Status>, degraded: seq<string>)

  datatype Readiness = Readiness(ready: bool, reviewRequired: bool, missing: seq<string>, degraded: seq<string>)

  predicate PlausibleName(name: string) {
    1 <= |name| <= 40
  }

  function Dedupe(names: seq<string>): seq<string> {
    if |names| == 0 then []
    else if names[0] in names[1..] then Dedupe(names[1..])
    else [names[0]] + Dedupe(names[1..])
  }

  /** sorted({...}) over the stored list. */
  function DegradedStages(stored: seq<string>): seq<string> {
    Sort(Dedupe(Filter(stored, PlausibleName)), LexLe)
  }

  function WithStatus(names: seq<string>, name: string, status: Status): seq<string> {
    if status.Degraded? then (if name in names then names else Sort(names + [name], LexLe))
    else Filter(names, n => n != name)
  }

  function Recorded(c: Columns, name: string, status: Status): Columns {
    Columns(c.results[name := status], WithStatus(DegradedStages(c.degraded), name, status))
  }

  /** re.fullmatch("[A-Z][A-Z0-9_]{0,39}", name) */
  predicate OptionalName(name: string) {
    && 1 <= |name| <= 40
    && 'A' <= name[0] <= 'Z'
    && forall i :: 0 <= i < |name| ==> 'A' <= name[i] <= 'Z' || '0' <= name[i] <= '9' || name[i] == '_'
  }

  function ResetNames(atExtract: bool): seq<string> {
    if atExtract then MANDATORY + ["VECTOR_INDEXING"] else ["INDEXING", "VECTOR_INDEXING"]
  }

  function Cleared(c: Columns, atExtract: bool): Columns {
    var reset := ResetNames(atExtract);
    Columns(map n | n in c.results && n !in reset :: c.results[n], Filter(DegradedStages(c.degraded), n => n !in reset))
  }

  predicate HasStatus(c: Columns, name: string, status: Status) {
    name in c.results && c.results[name] == status
  }

  predicate NeedsReview(c: Columns, name: string) {
    HasStatus(c, name, InReview) || HasStatus(c, name, Degraded)
  }

  function Evaluate(c: Columns): Readiness {
    var missing := Filter(MANDATORY, n => !HasStatus(c, n, Completed));
    var review := exists n :: n in MANDATORY && NeedsReview(c, n);
    var names := DegradedStages(c.degraded);
    var mandatoryDegraded := Filter(names, n => n in MANDATORY);
    Readiness(|missing| == 0 && !review && |mandatoryDegraded| == 0, review || |mandatoryDegraded| > 0, missing, names)
  }

  // The degraded list is the sorted list of names whose latest status is DEGRADED

  ghost predicate Strict(names: seq<string>) {
    Sorted(names, LexLe) && Distinct(names)
  }

  ghost predicate Faithful(c: Columns) {
    && Strict(c.degraded)
    && (forall n :: n in c.degraded <==> HasStatus(c, n, Degraded))
    && forall n :: n in c.results ==> PlausibleName(n)
  }

  lemma LexPreorder()
    ensures TotalPreorder(LexLe)
    ensures forall a, b :: LexLe(a, b) && LexLe(b, a) ==> a == b
  {
    LexIsOrder();
  }

  lemma {:induction false} DedupeDistinct(names: seq<string>)
    requires Distinct(names)
    ensures Dedupe(names) == names
  {
    if |names| > 0 {
      DedupeDistinct(names[1..]);
    }
  }

  lemma StrictIsStored(names: seq<string>)
    requires Strict(names) && forall n :: n in names ==> PlausibleName(n)
    ensures DegradedStages(names) == names
  {
    FilterKeepsAll(names, PlausibleName);
    DedupeDistinct(names);
    SortOfSorted(names, LexLe);
  }

  lemma {:induction false} FilterStrict(names: seq<string>, p: string -> bool)
    requires Strict(names)
    ensures Strict(Filter(names, p))
  {
    if |names| > 0 {
      FilterStrict(names[1..], p);
      var rest := Filter(names[1..], p);
      forall i | 0 <= i < |rest| ensures LexLe(names[0], rest[i]) && names[0] != rest[i] {
        FilterMembers(names[1..], p, rest[i]);
      }
    }
  }

  lemma InsertStrict(names: seq<string>, name: string)
    requires Strict(names) && name !in names
    ensures Strict(Sort(names + [name], LexLe))
  {
    LexPreorder();
    var all := names + [name];
    SortSorts(all, LexLe);
    SortDistinct(all, LexLe);
  }

  lemma RecordFaithful(c: Columns, name: string, status: Status)
    requires Faithful(c) && PlausibleName(name)
    ensures Faithful(Recorded(c, name, status))
  {
    StrictIsStored(c.degraded);
    var after := Recorded(c, name, status);
    if status.Degraded? {
      if name !in c.degraded {
        InsertStrict(c.degraded, name);
        forall n ensures n in after.degraded <==> n in c.degraded || n == name {
          SortMembers(c.degraded + [name], LexLe, n);
        }
      }
    } else {
      var p := n => n != name;
      FilterStrict(c.degraded, p);
      forall n ensures n in after.degraded <==> n in c.degraded && n != name {
        FilterMembers(c.degraded, p, n);
      }
    }
  }

  lemma ClearFaithful(c: Columns, atExtract: bool)
    requires Faithful(c)
    ensures Faithful(Cleared(c, atExtract))
  {
    StrictIsStored(c.degraded);
    var reset := ResetNames(atExtract);
    var p := n => n !in reset;
    FilterStrict(c.degraded, p);
    forall n ensures n in Filter(c.degraded, p) <==> n in c.degraded && n !in reset {
      FilterMembers(c.degraded, p, n);
    }
  }

  datatype Op = Record(name: string, status: Status) | Optional(name: string, status: Status) | Clear(atExtract: bool)

  function Apply(c: Columns, op: Op): Columns {
    match op
    case Record(name, status) => if name in MANDATORY then Recorded(c, name, status) else c
    case Optional(name, status) => if OptionalName(name) then Recorded(c, name, status) else c
    case Clear(atExtract) => Cleared(c, atExtract)
  }

  function Run(ops: seq<Op>): Columns {
    if |ops| == 0 then Columns(map[], []) else Apply(Run(ops[..|ops| - 1]), ops[|ops| - 1])
  }

  lemma {:induction false} AlwaysFaithful(ops: seq<Op>)
    ensures Faithful(Run(ops))
  {
    hide Recorded, Cleared;
    if |ops| > 0 {
      var before, op := Run(ops[..|ops| - 1]), ops[|ops| - 1];
      AlwaysFaithful(ops[..|ops| - 1]);
      match op
      case Record(name, status) =>
        if name in MANDATORY {
          RecordFaithful(before, name, status);
        }
      case Optional(name, status) =>
        if OptionalName(name) {
          RecordFaithful(before, name, status);
        }
      case Clear(atExtract) => ClearFaithful(before, atExtract);
    }
  }

  /** On faithful columns, readiness is all five mandatory stages completed. */
  lemma ReadinessExact(c: Columns)
    requires Faithful(c)
    ensures Evaluate(c).ready <==> forall n :: n in MANDATORY ==> HasStatus(c, n, Completed)
    ensures Evaluate(c).reviewRequired <==> exists n :: n in MANDATORY && NeedsReview(c, n)
    ensures Evaluate(c).degraded == c.degraded
  {
    StrictIsStored(c.degraded);
    var isMissing := n => !HasStatus(c, n, Completed);
    var isMandatory := n => n in MANDATORY;
    var missing, bad := Filter(MANDATORY, isMissing), Filter(c.degraded, isMandatory);
    forall n ensures n in missing <==> n in MANDATORY && isMissing(n) {
      FilterMembers(MANDATORY, isMissing, n);
    }
    forall n ensures n in bad <==> n in c.degraded && n in MANDATORY {
      FilterMembers(c.degraded, isMandatory, n);
    }
    assert |missing| > 0 ==> missing[0] in missing;
    assert |bad| > 0 ==> bad[0] in bad;
  }

  /** After any sequence of records and clears: readiness is completion of the five stages, degraded names are exactly
      those whose latest status is degraded, in order, and each name once. */
  lemma ReadinessOverRuns(ops: seq<Op>)
    ensures Evaluate(Run(ops)).ready <==> forall n :: n in MANDATORY ==> HasStatus(Run(ops), n, Completed)
    ensures Strict(Evaluate(Run(ops)).degraded)
    ensures forall n :: n in Evaluate(Run(ops)).degraded <==> HasStatus(Run(ops), n, Degraded)
  {
    hide Evaluate;
    AlwaysFaithful(ops);
    ReadinessExact(Run(ops));
  }

  /** A stage named unlike the mandatory ones changes neither readiness nor review. */
  lemma OptionalStagesAreOptional(ops: seq<Op>, name: string, status: Status)
    requires name !in MANDATORY
    ensures Evaluate(Run(ops + [Optional(name, status)])).ready == Evaluate(Run(ops)).ready
    ensures Evaluate(Run(ops + [Optional(name, status)])).reviewRequired == Evaluate(Run(ops)).reviewRequired
  {
    hide Evaluate;
    var more := ops + [Optional(name, status)];
    assert more[..|more| - 1] == ops;
    AlwaysFaithful(ops);
    AlwaysFaithful(more);
    ReadinessExact(Run(ops));
    ReadinessExact(Run(more));
    assert forall n, s :: n in MANDATORY ==> (HasStatus(Run(more), n, s) <==> HasStatus(Run(ops), n, s));
  }

  /** The name check does not keep a mandatory name out: recording one as optional can complete a job. */
  lemma OptionalNameCanComplete(ops: seq<Op>)
    requires forall n :: n in MANDATORY && n != "INDEXING" ==> HasStatus(Run(ops), n, Completed)
    ensures Evaluate(Run(ops + [Optional("INDEXING", Completed)])).ready
  {
    hide Evaluate;
    var more := ops + [Optional("INDEXING", Completed)];
    assert more[..|more| - 1] == ops;
    assert OptionalName("INDEXING");
    AlwaysFaithful(more);
    ReadinessExact(Run(more));
  }

  function Completing(k: nat): seq<Op>
    requires k <= |MANDATORY|
  {
    if k == 0 then [] else Completing(k - 1) + [Record(MANDATORY[k - 1], Completed)]
  }

  lemma {:induction false} CompletingCompletes(k: nat)
    requires k <= |MANDATORY|
    ensures forall i :: 0 <= i < k ==> HasStatus(Run(Completing(k)), MANDATORY[i], Completed)
  {
    if k > 0 {
      CompletingCompletes(k - 1);
      assert Completing(k)[..|Completing(k)| - 1] == Completing(k - 1);
    }
  }

  /** A name the check accepts never changes readiness, in any run, exactly when it is not a mandatory stage's. */
  lemma OptionalNamesExact(name: string)
    requires OptionalName(name)
    ensures (forall ops, status :: Evaluate(Run(ops + [Optional(name, status)])).ready == Evaluate(Run(ops)).ready)
       <==> name !in MANDATORY
  {
    hide Evaluate;
    if name in MANDATORY {
      var ops := Completing(|MANDATORY|);
      var more := ops + [Optional(name, FailedResult)];
      assert more[..|more| - 1] == ops;
      CompletingCompletes(|MANDATORY|);
      ReadinessOverRuns(ops);
      ReadinessOverRuns(more);
      assert !HasStatus(Run(more), name, Completed);
      assert Evaluate(Run(ops)).ready && !Evaluate(Run(ops + [Optional(name, FailedResult)])).ready;
    } else {
      forall ops, status ensures Evaluate(Run(ops + [Optional(name, status)])).ready == Evaluate(Run(ops)).ready {
        OptionalStagesAreOptional(ops, name, status);
      }
    }
  }

  /** Clearing for a retry always leaves the job not ready. */
  lemma RetryIsNeverReady(ops: seq<Op>, atExtract: bool)
    ensures !Evaluate(Run(ops + [Clear(atExtract)])).ready
  {
    hide Evaluate;
    var more := ops + [Clear(atExtract)];
    assert more[..|more| - 1] == ops;
    AlwaysFaithful(more);
    ReadinessExact(Run(more));
    assert "INDEXING" in MANDATORY && "INDEXING" in ResetNames(atExtract) by {
      assert MANDATORY[4] == "INDEXING" && ResetNames(false)[0] == "INDEXING";
      assert ResetNames(true)[4] == "INDEXING";
    }
  }

  // The history of one stage, and readiness read off it

  const PLAN := ["EXTRACTING", "CLASSIFYING", "DEDUPLICATING", "CHUNKING", "INDEXING"]

  /** The call reports on the stage, and is accepted. */
  predicate Reports(op: Op, stage: string) {
    match op
    case Record(name, _) => name == stage && stage in PLAN
    case Optional(name, _) =>
      && name == stage && 1 <= |stage| <= 40 && 'A' <= stage[0] <= 'Z'
      && forall i :: 0 <= i < |stage| ==> 'A' <= stage[i] <= 'Z' || '0' <= stage[i] <= '9' || stage[i] == '_'
    case Clear(_) => false
  }

  /** A retry forgets indexing, and when it starts over all five mandatory stages. */
  predicate Forgets(op: Op, stage: string) {
    op.Clear? && (stage == "INDEXING" || stage == "VECTOR_INDEXING" || (op.atExtract && stage in PLAN))
  }

  /** What was last reported on the stage and not forgotten since. */
  function Latest(ops: seq<Op>, stage: string): Option<Status> {
    if |ops| == 0 then None
    else
      var op := ops[|ops| - 1];
      if Reports(op, stage) then Some(op.status)
      else if Forgets(op, stage) then None
      else Latest(ops[..|ops| - 1], stage)
  }

  lemma ResetExact(op: Op, stage: string)
    requires op.Clear?
    ensures stage in ResetNames(op.atExtract) <==> Forgets(op, stage)
  {
    if op.atExtract {
      assert ResetNames(true) == PLAN + ["VECTOR_INDEXING"] && PLAN[4] == "INDEXING";
      assert ResetNames(true)[5] == "VECTOR_INDEXING" && ResetNames(true)[4] == "INDEXING";
    } else {
      assert ResetNames(false)[0] == "INDEXING" && ResetNames(false)[1] == "VECTOR_INDEXING";
    }
  }

  /** The results column holds for every name exactly what was last reported on it. */
  lemma {:induction false} ResultsAreLatest(ops: seq<Op>, stage: string)
    ensures Latest(ops, stage) == if stage in Run(ops).results then Some(Run(ops).results[stage]) else None
  {
    hide WithStatus, DegradedStages;
    if |ops| > 0 {
      var op := ops[|ops| - 1];
      ResultsAreLatest(ops[..|ops| - 1], stage);
      assert MANDATORY == PLAN;
      if op.Clear? {
        ResetExact(op, stage);
      }
    }
  }

  /** Readiness, after any calls: ready exactly when each of the five stages was last reported completed, review exactly
      when one of them was last reported in review or degraded; the missing stages are the others, in plan order, and
      the degraded names those last reported degraded. */
  lemma ReadinessOfLatest(ops: seq<Op>)
    ensures var d := Evaluate(Run(ops));
      && (d.ready <==> forall n :: n in PLAN ==> Latest(ops, n) == Some(Completed))
      && (d.reviewRequired <==> exists n :: n in PLAN && Latest(ops, n) in {Some(InReview), Some(Degraded)})
      && d.missing == Filter(PLAN, n => Latest(ops, n) != Some(Completed))
      && (forall n :: n in d.degraded <==> Latest(ops, n) == Some(Degraded)) && Strict(d.degraded)
  {
    hide DegradedStages, Run, Latest;
    var c := Run(ops);
    AlwaysFaithful(ops);
    ReadinessExact(c);
    forall n ensures Latest(ops, n) == if n in c.results then Some(c.results[n]) else None {
      ResultsAreLatest(ops, n);
    }
    assert MANDATORY == PLAN;
    FilterSame(PLAN, n => !HasStatus(c, n, Completed), n => Latest(ops, n) != Some(Completed));
    assert forall n :: n in c.degraded <==> Latest(ops, n) == Some(Degraded);
  }

  /** The job row the worker mutates. */
  class IngestionJob {
    var results: map<string, Status>
    var degraded: seq<string>
    var atExtract: bool

    function Value(): Columns
      reads this
    {
      Columns(results, degraded)
    }

    constructor ()
      ensures Value() == Run([]) && atExtract
    {
      results, degraded, atExtract := map[], [], true;
    }

    method RecordStageResult(name: string, status: Status)
      requires name in MANDATORY
      modifies this`results, this`degraded
      ensures Value() == Apply(old(Value()), Record(name, status))
    {
      results := results[name := status];
      var names := DegradedStages(degraded);
      if status.Degraded? {
        if name !in names {
          names := Sort(names + [name], LexLe);
        }
      } else {
        names := Filter(names, n => n != name);
      }
      degraded := names;
    }

    method RecordOptionalStage(name: string, status: Status) returns (ok: bool)
      modifies this`results, this`degraded
      ensures ok == OptionalName(name)
      ensures Value() == Apply(old(Value()), Optional(name, status))
    {
      ok := OptionalName(name);
      if ok {
        results := results[name := status];
        degraded := WithStatus(DegradedStages(degraded), name, status);
      }
    }

    method ClearRetryResults()
      modifies this`results, this`degraded
      ensures Value() == Apply(old(Value()), Clear(atExtract))
    {
      var reset := ResetNames(atExtract);
      results := map n | n in results && n !in reset :: results[n];
      degraded := Filter(DegradedStages(degraded), n => n !in reset);
    }

    method EvaluateReadiness() returns (decision: Readiness)
      ensures decision == Evaluate(Value())
    {
      var missing: seq<string> := [];
      var review := false;
      ghost var c := Value();
      for i := 0 to |MANDATORY|
        invariant missing == Filter(MANDATORY[..i], n => !HasStatus(c, n, Completed))
        invariant review <==> exists k :: 0 <= k < i && NeedsReview(c, MANDATORY[k])
      {
        var name := MANDATORY[i];
        FilterAppend(MANDATORY[..i], name, n => !HasStatus(c, n, Completed));
        assert MANDATORY[..i + 1] == MANDATORY[..i] + [name];
        if name !in results || results[name] != Completed {
          missing := missing + [name];
        }
        if name in results && results[name] in {InReview, Degraded} {
          review := true;
        }
      }
      assert MANDATORY[..|MANDATORY|] == MANDATORY;
      var names := DegradedStages(degraded);
      var mandatoryDegraded := Filter(names, n => n in MANDATORY);
      decision := Readiness(|missing| == 0 && !review && |mandatoryDegraded| == 0,
                            review || |mandatoryDegraded| > 0, missing, names);
    }
  }
}
