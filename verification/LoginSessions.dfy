/** Interleaved login sessions over one limiter (backend/app/services/auth_service.py, login). Each event is one
    critical section of the limiter. The clock is read before the lock is taken, so event times need not be ordered. */
module LoginSessions {
  import opened LoginRateLimiter

  /** Where an admitted session stands; every live session still holds its reservation. */
  datatype Phase = Unrecorded | Recorded | Verified

  datatype Session = Session(account: Key, source: Key, phase: Phase)

  datatype World = World(limiter: State, sessions: map<nat, Session>)

  datatype Event =
    | Begin(sid: nat, account: Key, source: Key, now: real)
    | Fail(sid: nat, now: real)
    | Succeed(sid: nat)
    | End(sid: nat)
    | Probe(account: Key, source: Key, now: real)

  ghost predicate WellFormed(e: Event) {
    && (e.Begin? || e.Probe? ==> e.account.Account? && e.source.Source?)
    && (e.Begin? || e.Fail? || e.Probe? ==> e.now >= 0.0)
  }

  ghost predicate Consistent(w: World) {
    && w.limiter.Valid()
    && forall i :: i in w.sessions ==> w.sessions[i].account.Account? && w.sessions[i].source.Source?
  }

  /** A session records its failure at most once, between its admission and its release. */
  predicate Enabled(w: World, e: Event) {
    match e
    case Begin(sid, _, _, _) => sid !in w.sessions
    case Fail(sid, _) => sid in w.sessions && w.sessions[sid].phase.Unrecorded?
    case Succeed(sid) => sid in w.sessions && w.sessions[sid].phase.Unrecorded?
    case End(sid) => sid in w.sessions
    case Probe(_, _, _) => true
  }

  ghost function Step(c: Config, w: World, e: Event): World
    requires Consistent(w)
  {
    if !Enabled(w, e) then w
    else
      match e
      case Begin(sid, account, source, now) =>
        var (limiter, decision) := Acquire(c, w.limiter, account, source, now);
        // A denied session is rejected before the try block: it holds nothing and never releases.
        if decision.allowed then World(limiter, w.sessions[sid := Session(account, source, Unrecorded)])
        else World(limiter, w.sessions)
      case Fail(sid, now) =>
        var me := w.sessions[sid];
        World(RecordFailure(c, w.limiter, me.account, me.source, now).0, w.sessions[sid := me.(phase := Recorded)])
      case Succeed(sid) =>
        var me := w.sessions[sid];
        World(ResetAccount(c, w.limiter, me.account), w.sessions[sid := me.(phase := Verified)])
      case End(sid) =>
        var me := w.sessions[sid];
        World(Release(c, w.limiter, me.account, me.source), map i | i in w.sessions && i != sid :: w.sessions[i])
      case Probe(account, source, now) =>
        World(Check(c, w.limiter, account, source, now).0, w.sessions)
  }

  lemma StepConsistent(c: Config, w: World, e: Event)
    requires Consistent(w) && WellFormed(e)
    ensures Consistent(Step(c, w, e))
  {
    hide Acquire, RecordFailure, ResetAccount, Release, Check;
  }

  const START := World(State(map[], [], map[]), map[])

  ghost function Run(c: Config, w: World, events: seq<Event>): (r: World)
    requires Consistent(w) && forall e :: e in events ==> WellFormed(e)
    ensures Consistent(r)
  {
    if |events| == 0 then w
    else
      var last := |events| - 1;
      assert events[last] in events;
      assert forall e :: e in events[..last] ==> e in events;
      StepConsistent(c, Run(c, w, events[..last]), events[last]);
      Step(c, Run(c, w, events[..last]), events[last])
  }

  // Reservations

  function Holds(s: Session, key: Key): bool {
    s.account == key || s.source == key
  }

  ghost function LiveOn(w: World, key: Key): set<nat> {
    set i | i in w.sessions && Holds(w.sessions[i], key)
  }

  ghost function UnrecordedOn(w: World, key: Key): set<nat> {
    set i | i in w.sessions && Holds(w.sessions[i], key) && w.sessions[i].phase.Unrecorded?
  }

  /** In-flight counts are exactly the admitted, unreleased sessions, and never exceed a limit. */
  ghost predicate Conserved(c: Config, w: World) {
    forall k :: w.limiter.Inflight(k) == |LiveOn(w, k)| && w.limiter.Inflight(k) <= c.LimitOf(k)
  }

  lemma AcquireInflight(c: Config, s: State, account: Key, source: Key, now: real)
    requires c.enabled && s.Valid() && account.Account? && source.Source?
    ensures var (t, d) := Acquire(c, s, account, source, now);
      && (!d.allowed ==> t.inflight == s.inflight)
      && (d.allowed ==>
            && s.Inflight(account) < c.LimitOf(account) && s.Inflight(source) < c.LimitOf(source)
            && forall k :: t.Inflight(k) == s.Inflight(k) + if k == account || k == source then 1 else 0)
  {
    hide Touch, Prune, Blocked;
  }

  lemma ReleaseInflight(c: Config, s: State, account: Key, source: Key)
    requires c.enabled && s.Valid() && account.Account? && source.Source?
    requires s.Inflight(account) >= 1 && s.Inflight(source) >= 1
    ensures forall k :: Release(c, s, account, source).Inflight(k) == s.Inflight(k) - (if k == account || k == source then 1 else 0)
  {
  }

  lemma OthersKeepInflight(c: Config, s: State, account: Key, source: Key, now: real)
    requires s.Valid()
    ensures RecordFailure(c, s, account, source, now).0.inflight == s.inflight
    ensures Check(c, s, account, source, now).0.inflight == s.inflight
    ensures ResetAccount(c, s, account).inflight == s.inflight
  {
    hide Touch, Prune, Blocked, JustBlocked;
  }

  lemma LiveAfterBegin(w: World, sid: nat, me: Session, limiter: State, key: Key)
    requires sid !in w.sessions
    ensures |LiveOn(World(limiter, w.sessions[sid := me]), key)| == |LiveOn(w, key)| + if Holds(me, key) then 1 else 0
  {
    var after := World(limiter, w.sessions[sid := me]);
    assert LiveOn(after, key) == LiveOn(w, key) + if Holds(me, key) then {sid} else {};
  }

  lemma LiveAfterPhase(w: World, sid: nat, phase: Phase, limiter: State, key: Key)
    requires sid in w.sessions
    ensures LiveOn(World(limiter, w.sessions[sid := w.sessions[sid].(phase := phase)]), key) == LiveOn(w, key)
  {
  }

  lemma LiveAfterEnd(w: World, sid: nat, limiter: State, key: Key)
    requires sid in w.sessions
    ensures |LiveOn(World(limiter, map i | i in w.sessions && i != sid :: w.sessions[i]), key)|
         == |LiveOn(w, key)| - if Holds(w.sessions[sid], key) then 1 else 0
  {
    var after := World(limiter, map i | i in w.sessions && i != sid :: w.sessions[i]);
    assert LiveOn(after, key) == LiveOn(w, key) - {sid};
    assert sid in LiveOn(w, key) <==> Holds(w.sessions[sid], key);
  }

  lemma StepConserves(c: Config, w: World, e: Event)
    requires c.enabled && Consistent(w) && WellFormed(e) && Conserved(c, w)
    ensures Conserved(c, Step(c, w, e))
  {
    hide Acquire, RecordFailure, ResetAccount, Release, Check, LiveOn, State.Inflight;
    if !Enabled(w, e) {
      return;
    }
    var after := Step(c, w, e);
    forall k ensures after.limiter.Inflight(k) == |LiveOn(after, k)| && after.limiter.Inflight(k) <= c.LimitOf(k) {
      match e
      case Begin(sid, account, source, now) =>
        AcquireInflight(c, w.limiter, account, source, now);
        LiveAfterBegin(w, sid, Session(account, source, Unrecorded), after.limiter, k);
        SameSessions(w, after, k);
        SameInflight(w.limiter, after.limiter, k);
      case Fail(sid, now) =>
        OthersKeepInflight(c, w.limiter, w.sessions[sid].account, w.sessions[sid].source, now);
        LiveAfterPhase(w, sid, Recorded, after.limiter, k);
        SameInflight(w.limiter, after.limiter, k);
      case Succeed(sid) =>
        OthersKeepInflight(c, w.limiter, w.sessions[sid].account, w.sessions[sid].source, 0.0);
        LiveAfterPhase(w, sid, Verified, after.limiter, k);
        SameInflight(w.limiter, after.limiter, k);
      case End(sid) =>
        var me := w.sessions[sid];
        assert sid in LiveOn(w, me.account) && sid in LiveOn(w, me.source) by {
          MemberIsLive(w, sid);
        }
        assert |LiveOn(w, me.account)| >= 1 && |LiveOn(w, me.source)| >= 1;
        ReleaseInflight(c, w.limiter, me.account, me.source);
        LiveAfterEnd(w, sid, after.limiter, k);
      case Probe(account, source, now) =>
        OthersKeepInflight(c, w.limiter, account, source, now);
        SameSessions(w, after, k);
        SameInflight(w.limiter, after.limiter, k);
    }
  }

  lemma MemberIsLive(w: World, sid: nat)
    requires sid in w.sessions
    ensures sid in LiveOn(w, w.sessions[sid].account) && sid in LiveOn(w, w.sessions[sid].source)
  {
  }

  lemma SameSessions(w: World, v: World, key: Key)
    ensures w.sessions == v.sessions ==> LiveOn(w, key) == LiveOn(v, key)
  {
  }

  lemma SameInflight(s: State, t: State, key: Key)
    ensures s.inflight == t.inflight ==> s.Inflight(key) == t.Inflight(key)
  {
  }

  /** In every state any interleaving reaches, the counts are conserved. */
  lemma {:induction false} InflightConserved(c: Config, events: seq<Event>)
    requires c.Valid() && c.enabled && forall e :: e in events ==> WellFormed(e)
    ensures Conserved(c, Run(c, START, events))
  {
    if |events| == 0 {
      assert forall k :: LiveOn(START, k) == {};
    } else {
      var last := |events| - 1;
      assert events[last] in events && forall e :: e in events[..last] ==> e in events;
      InflightConserved(c, events[..last]);
      StepConserves(c, Run(c, START, events[..last]), events[last]);
    }
  }

  /** Once every session has ended nothing is reserved. */
  lemma NothingHeldAtRest(c: Config, events: seq<Event>)
    requires c.Valid() && c.enabled && forall e :: e in events ==> WellFormed(e)
    requires Run(c, START, events).sessions == map[]
    ensures Run(c, START, events).limiter.inflight == map[]
  {
    var w := Run(c, START, events);
    InflightConserved(c, events);
    forall k ensures k !in w.limiter.inflight {
      assert LiveOn(w, k) == {};
      assert w.limiter.Inflight(k) == 0;
    }
  }
}
