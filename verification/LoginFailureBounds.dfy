/** What the limiter guarantees over whole runs of interleaved logins: a bound on failures, faithful failure
    counts, and blocks that hold. */
module LoginFailureBounds {
  import opened LoginRateLimiter
  import opened LoginSessions
  import opened Sorting

  // What one operation does to one key, whatever else it prunes or evicts

  function Failures(s: State, k: Key): nat {
    if k in s.buckets then s.buckets[k].failures else 0
  }

  /** The end of the key's block; 0.0 when its current window has not blocked it. */
  function BlockEnd(s: State, k: Key): real {
    if k in s.buckets then s.buckets[k].blockedUntil else 0.0
  }

  predicate Fresh(s: State, k: Key) {
    Failures(s, k) == 0 && BlockEnd(s, k) == 0.0
  }

  predicate Same(s: State, t: State, k: Key) {
    Failures(s, k) == Failures(t, k) && BlockEnd(s, k) == BlockEnd(t, k)
  }

  lemma OpenView(c: Config, s: State, key: Key, now: real, k: Key)
    requires s.Valid()
    ensures Same(s, Open(c, s, key, now), k) || Fresh(Open(c, s, key, now), k)
    ensures Same(s, Reopen(c, s, key, now), k) || Fresh(Reopen(c, s, key, now), k)
  {
    hide Filter, Oldest;
  }

  /** The key's block is absent or still running: its first block has not elapsed. */
  predicate Calm(s: State, k: Key, now: real) {
    BlockEnd(s, k) == 0.0 || BlockEnd(s, k) > now
  }

  predicate BelowLimit(c: Config, s: State, k: Key) {
    BlockEnd(s, k) == 0.0 ==> Failures(s, k) < c.LimitOf(k)
  }

  lemma AcquireView(c: Config, s: State, account: Key, source: Key, now: real, k: Key)
    requires s.Valid() && c.Valid() && c.enabled && account.Account? && source.Source?
    ensures var t := Acquire(c, s, account, source, now).0; Same(s, t, k) || Fresh(t, k)
    ensures var (t, d) := Acquire(c, s, account, source, now);
      d.allowed && (k == account || k == source) && Calm(s, k, now) && BelowLimit(c, s, k) ==>
        Failures(t, k) < c.LimitOf(k)
  {
    hide Open, Reopen;
    var a := Open(c, s, account, now);
    OpenView(c, s, account, now, k);
    OpenView(c, a, source, now, k);
  }

  lemma CheckView(c: Config, s: State, account: Key, source: Key, now: real, k: Key)
    requires s.Valid()
    ensures var t := Check(c, s, account, source, now).0; Same(s, t, k) || Fresh(t, k)
  {
    hide Open, Reopen;
    if c.enabled {
      OpenView(c, s, account, now, k);
      OpenView(c, Open(c, s, account, now), source, now, k);
    }
  }

  lemma CountView(c: Config, s: State, key: Key, now: real, k: Key)
    requires s.Valid() && key in s.buckets && c.Valid() && now >= 0.0
    requires k == key ==> Calm(s, k, now) && BelowLimit(c, s, k)
    ensures k != key ==> Same(s, Count(c, s, key, now), k)
    ensures k == key ==> Failures(Count(c, s, key, now), k) == Failures(s, k) + 1
    ensures k == key ==> BelowLimit(c, Count(c, s, key, now), k)
  {
  }

  lemma FailureView(c: Config, s: State, account: Key, source: Key, now: real, k: Key)
    requires s.Valid() && c.Valid() && c.enabled && now >= 0.0 && account.Account? && source.Source?
    requires Calm(s, k, now) && BelowLimit(c, s, k)
    ensures var t := RecordFailure(c, s, account, source, now).0;
      && BelowLimit(c, t, k)
      && (k != account && k != source ==> Same(s, t, k) || Fresh(t, k))
      && (k == account || k == source ==> Failures(t, k) <= Failures(s, k) + 1)
  {
    hide Open, Reopen, Count;
    var a := Open(c, s, account, now);
    var a' := Count(c, a, account, now);
    var b := Reopen(c, a', source, now);
    OpenView(c, s, account, now, k);
    CountView(c, a, account, now, k);
    OpenView(c, a', source, now, k);
    CountView(c, b, source, now, k);
  }

  lemma ResetView(c: Config, s: State, account: Key, k: Key)
    requires s.Valid()
    ensures Same(s, ResetAccount(c, s, account), k) || Fresh(ResetAccount(c, s, account), k)
  {
  }

  lemma ReleaseView(c: Config, s: State, account: Key, source: Key, k: Key)
    requires s.Valid()
    ensures Same(s, Release(c, s, account, source), k)
  {
  }

  // The concurrent failure bound

  ghost predicate Guarded(c: Config, w: World, k: Key) {
    && BelowLimit(c, w.limiter, k)
    && Failures(w.limiter, k) + |UnrecordedOn(w, k)| <= 2 * c.LimitOf(k) - 1
  }

  ghost predicate CalmAt(w: World, e: Event, k: Key) {
    e.Begin? || e.Fail? || e.Probe? ==> Calm(w.limiter, k, e.now)
  }

  lemma UnrecordedAtMostLive(w: World, k: Key)
    ensures |UnrecordedOn(w, k)| <= |LiveOn(w, k)|
  {
    SubsetSize(UnrecordedOn(w, k), LiveOn(w, k));
  }

  lemma UnrecordedAfterBegin(w: World, limiter: State, sid: nat, me: Session, k: Key)
    requires sid !in w.sessions && me.phase.Unrecorded?
    ensures |UnrecordedOn(World(limiter, w.sessions[sid := me]), k)| == |UnrecordedOn(w, k)| + if Holds(me, k) then 1 else 0
  {
    var after := World(limiter, w.sessions[sid := me]);
    assert UnrecordedOn(after, k) == UnrecordedOn(w, k) + if Holds(me, k) then {sid} else {};
  }

  lemma UnrecordedAfterPhase(w: World, limiter: State, sid: nat, phase: Phase, k: Key)
    requires sid in w.sessions && w.sessions[sid].phase.Unrecorded? && !phase.Unrecorded?
    ensures var after := World(limiter, w.sessions[sid := w.sessions[sid].(phase := phase)]);
      |UnrecordedOn(after, k)| == |UnrecordedOn(w, k)| - if Holds(w.sessions[sid], k) then 1 else 0
  {
    var after := World(limiter, w.sessions[sid := w.sessions[sid].(phase := phase)]);
    assert UnrecordedOn(after, k) == UnrecordedOn(w, k) - {sid};
    assert sid in UnrecordedOn(w, k) <==> Holds(w.sessions[sid], k);
  }

  lemma UnrecordedAfterEnd(w: World, limiter: State, sid: nat, k: Key)
    requires sid in w.sessions
    ensures var after := World(limiter, map i | i in w.sessions && i != sid :: w.sessions[i]);
      |UnrecordedOn(after, k)| <= |UnrecordedOn(w, k)|
  {
    var after := World(limiter, map i | i in w.sessions && i != sid :: w.sessions[i]);
    SubsetSize(UnrecordedOn(after, k), UnrecordedOn(w, k));
  }

  lemma SameUnrecorded(w: World, v: World, k: Key)
    requires w.sessions == v.sessions
    ensures UnrecordedOn(w, k) == UnrecordedOn(v, k)
  {
  }

  /** Fewer outstanding sessions and no new failures keep the guard. */
  lemma GuardKept(c: Config, w: World, v: World, k: Key)
    requires c.Valid() && Guarded(c, w, k) && Conserved(c, w)
    requires Same(w.limiter, v.limiter, k) || Fresh(v.limiter, k)
    requires |UnrecordedOn(v, k)| <= |UnrecordedOn(w, k)|
    ensures Guarded(c, v, k)
  {
    hide LiveOn, UnrecordedOn, State.Inflight;
    UnrecordedAtMostLive(w, k);
    assert w.limiter.Inflight(k) == |LiveOn(w, k)| && w.limiter.Inflight(k) <= c.LimitOf(k);
  }

  lemma StepGuards(c: Config, w: World, e: Event, k: Key)
    requires c.Valid() && c.enabled && Consistent(w) && WellFormed(e) && Conserved(c, w)
    requires Guarded(c, w, k) && CalmAt(w, e, k)
    ensures Guarded(c, Step(c, w, e), k)
  {
    hide Acquire, RecordFailure, ResetAccount, Release, Check, LiveOn, UnrecordedOn, State.Inflight, Conserved;
    if !Enabled(w, e) {
      return;
    }
    var after := Step(c, w, e);
    match e
    case Begin(sid, account, source, now) =>
      AcquireView(c, w.limiter, account, source, now, k);
      if Acquire(c, w.limiter, account, source, now).1.allowed {
        UnrecordedAfterBegin(w, after.limiter, sid, Session(account, source, Unrecorded), k);
        if k == account || k == source {
          RoomForOne(c, w, account, source, now, k);
        } else {
          GuardKept(c, w, after, k);
        }
      } else {
        SameUnrecorded(w, after, k);
        GuardKept(c, w, after, k);
      }
    case Fail(sid, now) =>
      var me := w.sessions[sid];
      FailureView(c, w.limiter, me.account, me.source, now, k);
      UnrecordedAfterPhase(w, after.limiter, sid, Recorded, k);
      if k != me.account && k != me.source {
        GuardKept(c, w, after, k);
      }
    case Succeed(sid) =>
      ResetView(c, w.limiter, w.sessions[sid].account, k);
      UnrecordedAfterPhase(w, after.limiter, sid, Verified, k);
      GuardKept(c, w, after, k);
    case End(sid) =>
      ReleaseView(c, w.limiter, w.sessions[sid].account, w.sessions[sid].source, k);
      UnrecordedAfterEnd(w, after.limiter, sid, k);
      GuardKept(c, w, after, k);
    case Probe(account, source, now) =>
      CheckView(c, w.limiter, account, source, now, k);
      SameUnrecorded(w, after, k);
      GuardKept(c, w, after, k);
  }

  /** An admission leaves the outstanding sessions within the limit. */
  lemma RoomForOne(c: Config, w: World, account: Key, source: Key, now: real, k: Key)
    requires c.enabled && Consistent(w) && Conserved(c, w) && account.Account? && source.Source?
    requires Acquire(c, w.limiter, account, source, now).1.allowed && (k == account || k == source)
    ensures |UnrecordedOn(w, k)| + 1 <= c.LimitOf(k)
  {
    hide Acquire, LiveOn, UnrecordedOn, State.Inflight;
    AcquireInflight(c, w.limiter, account, source, now);
    UnrecordedAtMostLive(w, k);
    assert w.limiter.Inflight(k) == |LiveOn(w, k)|;
  }

  ghost predicate CalmRun(c: Config, w: World, events: seq<Event>, k: Key)
    requires Consistent(w) && forall e :: e in events ==> WellFormed(e)
  {
    |events| == 0 ||
    (var last := |events| - 1;
     assert events[last] in events && forall e :: e in events[..last] ==> e in events;
     CalmRun(c, w, events[..last], k) && CalmAt(Run(c, w, events[..last]), events[last], k))
  }

  lemma {:induction false} RunGuards(c: Config, w: World, events: seq<Event>, k: Key)
    requires c.Valid() && c.enabled && Consistent(w) && Conserved(c, w) && Guarded(c, w, k)
    requires forall e :: e in events ==> WellFormed(e)
    requires CalmRun(c, w, events, k)
    ensures Conserved(c, Run(c, w, events)) && Guarded(c, Run(c, w, events), k)
  {
    hide Step, Conserved, Guarded, CalmAt;
    if |events| > 0 {
      var last := |events| - 1;
      assert events[last] in events && forall e :: e in events[..last] ==> e in events;
      RunGuards(c, w, events[..last], k);
      StepConserves(c, Run(c, w, events[..last]), events[last]);
      StepGuards(c, Run(c, w, events[..last]), events[last], k);
    }
  }

  /** From a moment when the key's window is fresh, whatever sessions are already admitted and however they
      interleave: failures recorded in the current bucket plus admitted sessions that have not recorded theirs
      never exceed 2 * limit - 1 until a block of the key has elapsed. */
  lemma ConcurrentFailureBound(c: Config, before: seq<Event>, events: seq<Event>, k: Key)
    requires c.Valid() && c.enabled
    requires (forall e :: e in before ==> WellFormed(e)) && (forall e :: e in events ==> WellFormed(e))
    requires Fresh(Run(c, START, before).limiter, k)
    requires CalmRun(c, Run(c, START, before), events, k)
    ensures var w := Run(c, Run(c, START, before), events);
      Failures(w.limiter, k) + |UnrecordedOn(w, k)| <= 2 * c.LimitOf(k) - 1
  {
    hide LiveOn, UnrecordedOn, State.Inflight, CalmRun;
    var w := Run(c, START, before);
    InflightConserved(c, before);
    UnrecordedAtMostLive(w, k);
    assert w.limiter.Inflight(k) == |LiveOn(w, k)| && w.limiter.Inflight(k) <= c.LimitOf(k);
    RunGuards(c, w, events, k);
  }
}
