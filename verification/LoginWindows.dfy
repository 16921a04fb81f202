/** Failure windows and blocks over whole runs: the table stays bounded, a bucket counts exactly the failures since
    its window started, and a block holds while its bucket is resident. */
module LoginWindows {
  import opened LoginRateLimiter
  import opened LoginSessions
  import opened LoginFailureBounds

  // The table stays within max_entries

  lemma OpenSize(c: Config, s: State, key: Key, now: real)
    requires c.Valid() && s.Valid() && |s.buckets| <= c.maxEntries
    ensures |Open(c, s, key, now).buckets| <= c.maxEntries
    ensures |Reopen(c, s, key, now).buckets| <= c.maxEntries
  {
    hide Prune, Touch;
    PruneKeepsValid(c, s, now);
    PruneSize(c, s, now);
    TouchSize(c, Prune(c, s, now), key, now);
    TouchSize(c, s, key, now);
  }

  lemma CountSize(c: Config, s: State, key: Key, now: real)
    requires s.Valid() && key in s.buckets
    ensures |Count(c, s, key, now).buckets| == |s.buckets|
  {
    var t := Count(c, s, key, now);
    assert t.buckets.Keys == s.buckets.Keys;
    assert |t.buckets| == |t.buckets.Keys| && |s.buckets| == |s.buckets.Keys|;
  }

  lemma StepSize(c: Config, w: World, e: Event)
    requires c.Valid() && Consistent(w) && WellFormed(e) && |w.limiter.buckets| <= c.maxEntries
    ensures |Step(c, w, e).limiter.buckets| <= c.maxEntries
  {
    hide Open, Reopen, Count, Blocked, JustBlocked, Drop, Unreserve;
    var s := w.limiter;
    if !Enabled(w, e) || !c.enabled {
      return;
    }
    match e
    case Begin(_, account, source, now) =>
      OpenSize(c, s, account, now);
      OpenSize(c, Open(c, s, account, now), source, now);
    case Probe(account, source, now) =>
      OpenSize(c, s, account, now);
      OpenSize(c, Open(c, s, account, now), source, now);
    case Fail(sid, now) =>
      var me := w.sessions[sid];
      var a := Open(c, s, me.account, now);
      OpenSize(c, s, me.account, now);
      CountSize(c, a, me.account, now);
      OpenSize(c, Count(c, a, me.account, now), me.source, now);
      CountSize(c, Reopen(c, Count(c, a, me.account, now), me.source, now), me.source, now);
    case Succeed(sid) =>
      DropAtMost(s, w.sessions[sid].account);
    case End(sid) =>
      ReleaseKeepsBuckets(c, s, w.sessions[sid].account, w.sessions[sid].source);
  }

  lemma DropAtMost(s: State, key: Key)
    ensures |Drop(s, key).buckets| <= |s.buckets|
  {
    SubsetSize(Drop(s, key).buckets.Keys, s.buckets.Keys);
    assert |Drop(s, key).buckets| == |Drop(s, key).buckets.Keys| && |s.buckets| == |s.buckets.Keys|;
  }

  lemma ReleaseKeepsBuckets(c: Config, s: State, account: Key, source: Key)
    requires s.Valid()
    ensures Release(c, s, account, source).buckets == s.buckets
  {
  }

  /** Attacker-chosen names cannot grow the table: no run exceeds max_entries. */
  lemma {:induction false} EntriesBounded(c: Config, events: seq<Event>)
    requires c.Valid() && forall e :: e in events ==> WellFormed(e)
    ensures |Run(c, START, events).limiter.buckets| <= c.maxEntries
  {
    hide Step;
    if |events| > 0 {
      var last := |events| - 1;
      assert events[last] in events && forall e :: e in events[..last] ==> e in events;
      EntriesBounded(c, events[..last]);
      StepSize(c, Run(c, START, events[..last]), events[last]);
    }
  }

  // `failures` is the number of failures recorded since the window started

  /** 1 when this event records a failure against the key. */
  ghost function FailsOn(w: World, e: Event, k: Key): nat {
    if e.Fail? && Enabled(w, e) && Holds(w.sessions[e.sid], k) then 1 else 0
  }

  ghost function CountFrom(c: Config, w: World, events: seq<Event>, start: nat, k: Key): nat
    requires Consistent(w) && forall e :: e in events ==> WellFormed(e)
  {
    if |events| == 0 || |events| <= start then 0
    else
      var last := |events| - 1;
      assert events[last] in events && forall e :: e in events[..last] ==> e in events;
      CountFrom(c, w, events[..last], start, k) + FailsOn(Run(c, w, events[..last]), events[last], k)
  }

  /** The bucket is carried over, apart from last_seen, a block, and n more failures. */
  predicate Carried(s: State, t: State, k: Key, n: nat) {
    && k in s.buckets && k in t.buckets
    && t.buckets[k].windowStarted == s.buckets[k].windowStarted
    && t.buckets[k].failures == s.buckets[k].failures + n
  }

  predicate Restarted(t: State, k: Key, now: real, n: nat) {
    k in t.buckets && t.buckets[k].windowStarted == now && t.buckets[k].failures == n
  }

  /** After an operation at time now the key is gone, carried over or restarted, with n failures added. */
  predicate WindowStep(s: State, t: State, k: Key, now: real, n: nat) {
    k !in t.buckets || Carried(s, t, k, n) || Restarted(t, k, now, n)
  }

  lemma OpenWindow(c: Config, s: State, key: Key, now: real, k: Key)
    requires s.Valid()
    ensures WindowStep(s, Open(c, s, key, now), k, now, 0)
    ensures WindowStep(s, Reopen(c, s, key, now), k, now, 0)
    ensures k != key ==> k !in Reopen(c, s, key, now).buckets || Carried(s, Reopen(c, s, key, now), k, 0)
  {
    hide Oldest;
  }

  lemma CountWindow(c: Config, s: State, key: Key, now: real, k: Key)
    requires s.Valid() && key in s.buckets
    ensures WindowStep(s, Count(c, s, key, now), k, now, if k == key then 1 else 0)
    ensures k in s.buckets ==> Carried(s, Count(c, s, key, now), k, if k == key then 1 else 0)
    ensures k !in s.buckets ==> k !in Count(c, s, key, now).buckets
  {
  }

  lemma FailureWindow(c: Config, s: State, account: Key, source: Key, now: real, k: Key)
    requires s.Valid() && c.enabled && account.Account? && source.Source?
    ensures WindowStep(s, RecordFailure(c, s, account, source, now).0, k, now,
                       if k == account || k == source then 1 else 0)
  {
    hide Open, Reopen, Count;
    var a := Open(c, s, account, now);
    var a' := Count(c, a, account, now);
    var b := Reopen(c, a', source, now);
    OpenWindow(c, s, account, now, k);
    CountWindow(c, a, account, now, k);
    OpenWindow(c, a', source, now, k);
    CountWindow(c, b, source, now, k);
  }

  lemma AdmissionWindow(c: Config, s: State, account: Key, source: Key, now: real, k: Key)
    requires s.Valid() && c.enabled && account.Account? && source.Source?
    ensures WindowStep(s, Acquire(c, s, account, source, now).0, k, now, 0)
    ensures WindowStep(s, Check(c, s, account, source, now).0, k, now, 0)
  {
    hide Open, Reopen, Blocked;
    OpenWindow(c, s, account, now, k);
    OpenWindow(c, Open(c, s, account, now), source, now, k);
  }

  function TimeOf(e: Event): real {
    if e.Begin? || e.Fail? || e.Probe? then e.now else 0.0
  }

  lemma StepWindow(c: Config, w: World, e: Event, k: Key)
    requires c.enabled && Consistent(w) && WellFormed(e)
    ensures WindowStep(w.limiter, Step(c, w, e).limiter, k, TimeOf(e), FailsOn(w, e, k))
    ensures e.Succeed? || e.End? ==>
      k !in Step(c, w, e).limiter.buckets || Carried(w.limiter, Step(c, w, e).limiter, k, FailsOn(w, e, k))
  {
    hide Acquire, RecordFailure, Check, Release;
    if !Enabled(w, e) {
      return;
    }
    match e
    case Begin(_, account, source, now) => AdmissionWindow(c, w.limiter, account, source, now, k);
    case Probe(account, source, now) => AdmissionWindow(c, w.limiter, account, source, now, k);
    case Fail(sid, now) => FailureWindow(c, w.limiter, w.sessions[sid].account, w.sessions[sid].source, now, k);
    case Succeed(sid) =>
    case End(sid) => ReleaseKeepsBuckets(c, w.limiter, w.sessions[sid].account, w.sessions[sid].source);
  }

  /** Event i started the key's current window, and the bucket counts the failures recorded from event i on. */
  ghost predicate WindowFrom(c: Config, events: seq<Event>, i: nat, k: Key)
    requires forall e :: e in events ==> WellFormed(e)
  {
    var t := Run(c, START, events).limiter;
    && i < |events| && !events[i].Succeed? && !events[i].End?
    && k in t.buckets
    && t.buckets[k].windowStarted == TimeOf(events[i])
    && t.buckets[k].failures == CountFrom(c, START, events, i, k)
  }

  /** Whenever a key has a bucket, some event started its window and `failures` counts what was recorded since. */
  lemma {:induction false} FailuresCountTheWindow(c: Config, events: seq<Event>, k: Key)
    requires c.Valid() && c.enabled && forall e :: e in events ==> WellFormed(e)
    requires k in Run(c, START, events).limiter.buckets
    ensures exists i :: WindowFrom(c, events, i, k)
  {
    hide Step, FailsOn;
    if |events| > 0 {
      var last := |events| - 1;
      var before, e := events[..last], events[last];
      assert e in events && forall x :: x in before ==> x in events;
      var w := Run(c, START, before);
      StepWindow(c, w, e, k);
      if Carried(w.limiter, Step(c, w, e).limiter, k, FailsOn(w, e, k)) {
        FailuresCountTheWindow(c, before, k);
        var i :| WindowFrom(c, before, i, k);
        assert WindowFrom(c, events, i, k);
      } else {
        assert CountFrom(c, START, before, last, k) == 0;
        assert WindowFrom(c, events, last, k);
      }
    }
  }

  // A block holds while its bucket is resident

  ghost predicate HeldUntil(s: State, k: Key, until: real) {
    k in s.buckets && s.buckets[k].blockedUntil == until
  }

  /** The keys the two insertions of one operation would evict. */
  ghost function Evicted(c: Config, s: State, account: Key, source: Key, now: real): set<Key>
    requires s.Valid()
  {
    PruneKeepsValid(c, s, now);
    Victims(c, Prune(c, s, now), account) + Victims(c, Open(c, s, account, now), source)
  }

  /** The event happens before `until`, does not evict the key and does not reset the account. */
  ghost predicate Spares(c: Config, w: World, e: Event, k: Key, until: real)
    requires Consistent(w)
  {
    match e
    case Begin(_, account, source, now) => now < until && k !in Evicted(c, w.limiter, account, source, now)
    case Probe(account, source, now) => now < until && k !in Evicted(c, w.limiter, account, source, now)
    case Fail(sid, now) => sid in w.sessions ==>
      now < until && k !in Evicted(c, w.limiter, w.sessions[sid].account, w.sessions[sid].source, now)
    case Succeed(sid) => sid in w.sessions ==> w.sessions[sid].account != k
    case End(_) => true
  }

  lemma OpenHolds(c: Config, s: State, key: Key, now: real, k: Key, until: real)
    requires s.Valid() && HeldUntil(s, k, until) && now < until
    ensures k !in (PruneKeepsValid(c, s, now); Victims(c, Prune(c, s, now), key)) ==> HeldUntil(Open(c, s, key, now), k, until)
    ensures k !in Victims(c, s, key) ==> HeldUntil(Reopen(c, s, key, now), k, until)
  {
  }

  /** Counting a failure changes neither which keys are present nor when they were last seen. */
  lemma CountSameVictims(c: Config, s: State, counted: Key, now: real, key: Key)
    requires s.Valid() && counted in s.buckets
    ensures Victims(c, Count(c, s, counted, now), key) == Victims(c, s, key)
  {
    var t := Count(c, s, counted, now);
    CountSize(c, s, counted, now);
    assert t.order == s.order;
    if |s.order| > 0 {
      SameOldest(s.buckets, t.buckets, s.order);
    }
  }

  lemma {:induction false} SameOldest(a: map<Key, Bucket>, b: map<Key, Bucket>, order: seq<Key>)
    requires |order| > 0 && forall k :: k in order ==> k in a && k in b && a[k].lastSeen == b[k].lastSeen
    ensures Oldest(a, order) == Oldest(b, order)
  {
    if |order| > 1 {
      SameOldest(a, b, order[1..]);
    }
  }

  lemma CountHolds(c: Config, s: State, key: Key, now: real, k: Key, until: real)
    requires s.Valid() && key in s.buckets && HeldUntil(s, k, until) && now < until
    ensures HeldUntil(Count(c, s, key, now), k, until)
  {
  }

  lemma AdmissionHolds(c: Config, s: State, account: Key, source: Key, now: real, k: Key, until: real)
    requires s.Valid() && c.enabled && HeldUntil(s, k, until) && now < until
    requires k !in Evicted(c, s, account, source, now)
    ensures HeldUntil(Acquire(c, s, account, source, now).0, k, until)
    ensures HeldUntil(Check(c, s, account, source, now).0, k, until)
    ensures k == account || k == source ==>
      !Acquire(c, s, account, source, now).1.allowed && !Check(c, s, account, source, now).1.allowed
  {
    hide Open, Reopen, Victims;
    OpenHolds(c, s, account, now, k, until);
    OpenHolds(c, Open(c, s, account, now), source, now, k, until);
  }

  lemma FailureHolds(c: Config, s: State, account: Key, source: Key, now: real, k: Key, until: real)
    requires s.Valid() && c.enabled && HeldUntil(s, k, until) && now < until
    requires k !in Evicted(c, s, account, source, now)
    ensures HeldUntil(RecordFailure(c, s, account, source, now).0, k, until)
  {
    hide Open, Reopen, Victims, Count;
    var a := Open(c, s, account, now);
    OpenHolds(c, s, account, now, k, until);
    CountHolds(c, a, account, now, k, until);
    var a' := Count(c, a, account, now);
    CountSameVictims(c, a, account, now, source);
    OpenHolds(c, a', source, now, k, until);
    CountHolds(c, Reopen(c, a', source, now), source, now, k, until);
  }

  lemma StepHolds(c: Config, w: World, e: Event, k: Key, until: real)
    requires c.enabled && Consistent(w) && WellFormed(e)
    requires HeldUntil(w.limiter, k, until) && Spares(c, w, e, k, until)
    ensures HeldUntil(Step(c, w, e).limiter, k, until)
    ensures e.Begin? && (e.account == k || e.source == k) ==> Step(c, w, e).sessions == w.sessions
  {
    hide Acquire, RecordFailure, Check, Release, Evicted;
    if !Enabled(w, e) {
      return;
    }
    match e
    case Begin(_, account, source, now) => AdmissionHolds(c, w.limiter, account, source, now, k, until);
    case Probe(account, source, now) => AdmissionHolds(c, w.limiter, account, source, now, k, until);
    case Fail(sid, now) => FailureHolds(c, w.limiter, w.sessions[sid].account, w.sessions[sid].source, now, k, until);
    case Succeed(sid) =>
    case End(sid) => ReleaseKeepsBuckets(c, w.limiter, w.sessions[sid].account, w.sessions[sid].source);
  }

  ghost predicate SparesRun(c: Config, w: World, events: seq<Event>, k: Key, until: real)
    requires Consistent(w) && forall e :: e in events ==> WellFormed(e)
  {
    |events| == 0 ||
    (var last := |events| - 1;
     assert events[last] in events && forall e :: e in events[..last] ==> e in events;
     SparesRun(c, w, events[..last], k, until) && Spares(c, Run(c, w, events[..last]), events[last], k, until))
  }

  /** While a blocked key's bucket is neither evicted nor reset, no pruning, window reset or further failure ends
      its block early: before `until` the block stands and no login on the key is admitted. */
  lemma {:induction false} BlockHolds(c: Config, w: World, events: seq<Event>, k: Key, until: real)
    requires c.enabled && Consistent(w) && HeldUntil(w.limiter, k, until)
    requires (forall e :: e in events ==> WellFormed(e)) && SparesRun(c, w, events, k, until)
    ensures HeldUntil(Run(c, w, events).limiter, k, until)
    ensures LiveOn(Run(c, w, events), k) <= LiveOn(w, k)
  {
    hide Step, Spares, HeldUntil, LiveOn;
    if |events| > 0 {
      var last := |events| - 1;
      var before, e := events[..last], events[last];
      assert e in events && forall x :: x in before ==> x in events;
      BlockHolds(c, w, before, k, until);
      StepHolds(c, Run(c, w, before), e, k, until);
      NoNewSession(c, Run(c, w, before), e, k, until);
    }
  }

  lemma NoNewSession(c: Config, w: World, e: Event, k: Key, until: real)
    requires c.enabled && Consistent(w) && WellFormed(e)
    requires HeldUntil(w.limiter, k, until) && Spares(c, w, e, k, until)
    ensures LiveOn(Step(c, w, e), k) <= LiveOn(w, k)
  {
    hide Acquire, RecordFailure, Check, Release, ResetAccount, Evicted;
    StepHolds(c, w, e, k, until);
  }
}
