/** The concurrent failure bound is reached: for either dimension, runs with one key and a new partner per session. */
module LoginBoundTightness {
  import opened Text
  import opened LoginRateLimiter
  import opened LoginSessions
  import opened LoginFailureBounds
  import opened LoginWindows

  /** The i-th key of the other dimension. */
  function Partner(k: Key, i: nat): Key {
    if k.Account? then Source(NatText(i)) else Account(NatText(i))
  }

  lemma PartnersDiffer(k: Key, i: nat, j: nat)
    requires i != j
    ensures Partner(k, i) != Partner(k, j)
  {
    if NatText(i) == NatText(j) {
      NatTextInjective(i, j);
    }
  }

  function AccountOf(k: Key, i: nat): Key {
    if k.Account? then k else Partner(k, i)
  }

  function SourceOf(k: Key, i: nat): Key {
    if k.Account? then Partner(k, i) else k
  }

  /** Two entries are enough for an account: its own bucket is the latest seen when its partner's is opened. A source is
      opened after its partner, so one more entry must stand in as the oldest. */
  predicate Roomy(c: Config, k: Key) {
    c.Valid() && c.enabled && (k.Source? ==> c.maxEntries >= 3)
  }

  // The limiter during such a run: the key's window began at 0.0, t is the latest time seen, and at most one other
  // entry was seen then

  predicate SeenAt(buckets: map<Key, Bucket>, x: Key, k: Key, t: real) {
    x in buckets && x != k && buckets[x].lastSeen == t
  }

  ghost predicate Warm(buckets: map<Key, Bucket>, k: Key, n: nat, t: real) {
    && k in buckets && buckets[k] == Bucket(n, 0.0, 0.0, t)
    && (forall x :: x in buckets ==> buckets[x].lastSeen <= t)
    && (forall x, y :: SeenAt(buckets, x, k, t) && SeenAt(buckets, y, k, t) ==> x == y)
  }

  /** Some entry is older than the key's, whenever an insertion has to evict. */
  ghost predicate Safe(c: Config, s: State, k: Key)
    requires k in s.buckets
  {
    |s.buckets| >= c.maxEntries ==> exists x :: x in s.buckets && s.buckets[x].lastSeen < s.buckets[k].lastSeen
  }

  /** t keeps entries of s, or has the one named. */
  ghost predicate Within(s: State, t: State, named: set<Key>) {
    && t.inflight == s.inflight
    && forall x :: x in t.buckets ==> x in named || (x in s.buckets && t.buckets[x] == s.buckets[x])
  }

  lemma PruneWithin(c: Config, s: State, now: real, k: Key)
    requires s.Valid()
    ensures Prune(c, s, now).Valid() && Within(s, Prune(c, s, now), {})
    ensures k in s.buckets && !Expired(c, s.buckets[k], now) ==>
      k in Prune(c, s, now).buckets && Prune(c, s, now).buckets[k] == s.buckets[k]
  {
    PruneKeepsValid(c, s, now);
  }

  lemma TouchKnown(c: Config, s: State, key: Key, now: real)
    requires s.Valid() && key in s.buckets && !Expired(c, s.buckets[key], now)
    ensures var t := Touch(c, s, key, now);
      && Within(s, t, {key}) && t.buckets.Keys == s.buckets.Keys
      && t.buckets[key] == s.buckets[key].(lastSeen := now)
  {
  }

  lemma TouchNew(c: Config, s: State, key: Key, now: real, k: Key)
    requires s.Valid() && key !in s.buckets && k in s.buckets && Safe(c, s, k)
    ensures var t := Touch(c, s, key, now);
      && Within(s, t, {key}) && t.buckets[key] == Bucket(0, now, 0.0, now)
      && k in t.buckets && t.buckets[k] == s.buckets[k]
  {
    if |s.buckets| >= c.maxEntries && |s.order| > 0 {
      var x :| x in s.buckets && s.buckets[x].lastSeen < s.buckets[k].lastSeen;
      assert x in s.order;
      assert Oldest(s.buckets, s.order) != k;
    }
  }

  lemma SomeStayWarm(s: State, b: State, k: Key, n: nat, t: real)
    requires Warm(s.buckets, k, n, t) && Within(s, b, {}) && k in b.buckets
    ensures Warm(b.buckets, k, n, t)
  {
    forall x, y | SeenAt(b.buckets, x, k, t) && SeenAt(b.buckets, y, k, t) ensures x == y {
      assert SeenAt(s.buckets, x, k, t) && SeenAt(s.buckets, y, k, t);
    }
  }

  /** With two other entries, one is older than t. */
  lemma OlderEntry(c: Config, s: State, k: Key, n: nat, t: real)
    requires Warm(s.buckets, k, n, t) && c.maxEntries >= 3
    ensures Safe(c, s, k)
  {
    if |s.buckets| >= c.maxEntries {
      var others := s.buckets.Keys - {k};
      assert |others| >= 2;
      var x :| x in others;
      assert |others - {x}| >= 1;
      var y :| y in others - {x};
      assert !SeenAt(s.buckets, x, k, t) || !SeenAt(s.buckets, y, k, t);
    }
  }

  lemma AnyOther(c: Config, s: State, k: Key)
    requires k in s.buckets && c.maxEntries >= 2
    requires forall x :: x in s.buckets && x != k ==> s.buckets[x].lastSeen < s.buckets[k].lastSeen
    ensures Safe(c, s, k)
  {
    if |s.buckets| >= c.maxEntries {
      assert |s.buckets.Keys - {k}| >= 1;
      var x :| x in s.buckets.Keys - {k};
    }
  }

  /** Both keys opened at `now`, in the order acquire uses. */
  ghost predicate Paired(s: State, b: State, k: Key, n: nat, p: Key, now: real) {
    && Within(s, b, {k, p})
    && k in b.buckets && b.buckets[k] == Bucket(n, 0.0, 0.0, now)
    && p in b.buckets && b.buckets[p] == Bucket(0, now, 0.0, now)
  }

  lemma OpenAccountFirst(c: Config, s: State, k: Key, n: nat, t: real, p: Key, now: real)
    requires c.Valid() && s.Valid() && Warm(s.buckets, k, n, t) && 0.0 <= t < now < c.window && p !in s.buckets
    ensures var a := Open(c, s, k, now);
      && a.buckets[k] == Bucket(n, 0.0, 0.0, now) && p !in a.buckets
      && Paired(s, Reopen(c, a, p, now), k, n, p, now)
  {
    hide Touch, Prune;
    var pruned, a := Prune(c, s, now), Open(c, s, k, now);
    PruneWithin(c, s, now, k);
    TouchKnown(c, pruned, k, now);
    assert a == Touch(c, pruned, k, now);
    AnyOther(c, a, k);
    TouchNew(c, a, p, now, k);
  }

  lemma OpenSourceSecond(c: Config, s: State, k: Key, n: nat, t: real, p: Key, now: real)
    requires c.Valid() && c.maxEntries >= 3
    requires s.Valid() && Warm(s.buckets, k, n, t) && 0.0 <= t < now < c.window && p !in s.buckets
    ensures var a := Open(c, s, p, now);
      && a.buckets[p] == Bucket(0, now, 0.0, now)
      && Paired(s, Reopen(c, a, k, now), k, n, p, now)
  {
    hide Touch, Prune;
    var pruned, a := Prune(c, s, now), Open(c, s, p, now);
    PruneWithin(c, s, now, k);
    SomeStayWarm(s, pruned, k, n, t);
    OlderEntry(c, pruned, k, n, t);
    TouchNew(c, pruned, p, now, k);
    assert a == Touch(c, pruned, p, now);
    TouchKnown(c, a, k, now);
  }

  lemma PairedIsWarm(s: State, b: State, k: Key, n: nat, t: real, p: Key, now: real)
    requires Warm(s.buckets, k, n, t) && t < now && k != p && Paired(s, b, k, n, p, now)
    ensures Warm(b.buckets, k, n, now)
  {
  }

  /** An attempt on a warm key with a new partner is admitted. */
  lemma Admits(c: Config, s: State, k: Key, n: nat, t: real, i: nat, now: real)
    requires Roomy(c, k) && s.Valid() && Warm(s.buckets, k, n, t) && 0.0 <= t < now < c.window
    requires Partner(k, i) !in s.buckets && s.Inflight(Partner(k, i)) == 0 && s.Inflight(k) < c.LimitOf(k)
    ensures var (b, d) := Acquire(c, s, AccountOf(k, i), SourceOf(k, i), now);
      && d.allowed && Warm(b.buckets, k, n, now)
      && (forall x :: x in b.buckets ==> x == k || x == Partner(k, i) || x in s.buckets)
      && Partner(k, i) in b.buckets && b.buckets[Partner(k, i)] == Bucket(0, now, 0.0, now)
  {
    hide Open, Reopen, Warm;
    var p := Partner(k, i);
    if k.Account? {
      OpenAccountFirst(c, s, k, n, t, p, now);
      PairedIsWarm(s, Reopen(c, Open(c, s, k, now), p, now), k, n, t, p, now);
    } else {
      OpenSourceSecond(c, s, k, n, t, p, now);
      PairedIsWarm(s, Reopen(c, Open(c, s, p, now), k, now), k, n, t, p, now);
    }
  }

  // Recording the failure of the session just admitted

  /** Both buckets are in the table: opening them again inserts nothing. */
  lemma Refails(c: Config, s: State, k: Key, n: nat, t: real, i: nat, now: real)
    requires c.Valid() && c.enabled && s.Valid() && Warm(s.buckets, k, n, t) && 0.0 <= t < now < c.window
    requires Partner(k, i) in s.buckets && s.buckets[Partner(k, i)] == Bucket(0, t, 0.0, t)
    requires n + 1 < c.LimitOf(k)
    ensures var b := RecordFailure(c, s, AccountOf(k, i), SourceOf(k, i), now).0;
      && Warm(b.buckets, k, n + 1, now)
      && (forall x :: x in b.buckets ==> x == k || x == Partner(k, i) || x in s.buckets)
  {
    var first, second := AccountOf(k, i), SourceOf(k, i);
    hide Touch, Prune, Open, Reopen, Count, Warm;
    var p := Partner(k, i);
    BothFresh(c, s, k, n, t, p, now);
    var a := Open(c, s, first, now);
    OpenKnown(c, s, first, now, second);
    CountOne(c, a, first, now);
    var a' := Count(c, a, first, now);
    ReopenKnown(c, a', second, now);
    var b := Reopen(c, a', second, now);
    CountOne(c, b, second, now);
    CountedIsWarm(c, s, Count(c, b, second, now), k, n, t, p, now);
  }

  lemma BothFresh(c: Config, s: State, k: Key, n: nat, t: real, p: Key, now: real)
    requires Warm(s.buckets, k, n, t) && 0.0 <= t < now < c.window && p in s.buckets && s.buckets[p] == Bucket(0, t, 0.0, t)
    ensures k in s.buckets && s.buckets[k] == Bucket(n, 0.0, 0.0, t)
    ensures !Expired(c, s.buckets[k], now) && !Expired(c, s.buckets[p], now)
  {
  }

  lemma OpenKnown(c: Config, s: State, key: Key, now: real, other: Key)
    requires s.Valid() && key in s.buckets && !Expired(c, s.buckets[key], now) && key != other
    requires other in s.buckets && !Expired(c, s.buckets[other], now)
    ensures var a := Open(c, s, key, now);
      && Within(s, a, {key}) && a.buckets[key] == s.buckets[key].(lastSeen := now)
      && other in a.buckets && a.buckets[other] == s.buckets[other]
  {
    hide Touch, Prune;
    PruneWithin(c, s, now, key);
    PruneWithin(c, s, now, other);
    TouchKnown(c, Prune(c, s, now), key, now);
  }

  lemma ReopenKnown(c: Config, s: State, key: Key, now: real)
    requires s.Valid() && key in s.buckets && !Expired(c, s.buckets[key], now)
    ensures var b := Reopen(c, s, key, now);
      && Within(s, b, {key}) && b.buckets.Keys == s.buckets.Keys && b.buckets[key] == s.buckets[key].(lastSeen := now)
  {
    hide Touch;
    TouchKnown(c, s, key, now);
  }

  lemma CountOne(c: Config, s: State, key: Key, now: real)
    requires s.Valid() && key in s.buckets
    ensures var t := Count(c, s, key, now);
      && Within(s, t, {key}) && t.buckets.Keys == s.buckets.Keys
      && t.buckets[key].lastSeen == s.buckets[key].lastSeen
      && (s.buckets[key].failures + 1 < c.LimitOf(key) ==>
            t.buckets[key] == s.buckets[key].(failures := s.buckets[key].failures + 1))
  {
  }

  lemma CountedIsWarm(c: Config, s: State, b: State, k: Key, n: nat, t: real, p: Key, now: real)
    requires Warm(s.buckets, k, n, t) && t < now && k != p && Within(s, b, {k, p})
    requires k in b.buckets && b.buckets[k] == Bucket(n + 1, 0.0, 0.0, now)
    requires p in b.buckets && b.buckets[p].lastSeen == now
    ensures Warm(b.buckets, k, n + 1, now)
  {
  }

  // The world during such a run

  ghost predicate Unused(s: State, k: Key, j: nat) {
    forall i: nat :: i >= j ==> Partner(k, i) !in s.buckets && s.Inflight(Partner(k, i)) == 0
  }

  lemma StillUnused(s: State, t: State, k: Key, j: nat)
    requires Unused(s, k, j + 1) || Unused(s, k, j)
    requires forall x :: x in t.buckets ==> x == k || x == Partner(k, j) || x in s.buckets
    requires forall x :: x != k && x != Partner(k, j) ==> t.Inflight(x) == s.Inflight(x)
    ensures Unused(t, k, j + 1)
  {
    forall i: nat | i >= j + 1 ensures Partner(k, i) !in t.buckets && t.Inflight(Partner(k, i)) == 0 {
      PartnersDiffer(k, i, j);
      assert Partner(k, i) !in s.buckets;
    }
  }

  lemma Roles(k: Key, j: nat)
    ensures AccountOf(k, j).Account? && SourceOf(k, j).Source? && Partner(k, j) != k
    ensures (AccountOf(k, j) == k && SourceOf(k, j) == Partner(k, j)) || (AccountOf(k, j) == Partner(k, j) && SourceOf(k, j) == k)
  {
  }

  ghost predicate NoSessionFrom(w: World, j: nat) {
    forall i: nat :: i >= j ==> i !in w.sessions
  }

  /** m sessions hold the key, u of them unrecorded; sessions and partners from j on are unused. */
  ghost predicate Busy(c: Config, w: World, k: Key, n: nat, m: nat, u: nat, t: real, j: nat) {
    && Consistent(w) && Warm(w.limiter.buckets, k, n, t) && 0.0 <= t < c.window
    && w.limiter.Inflight(k) == m && |UnrecordedOn(w, k)| == u
    && NoSessionFrom(w, j)
    && Unused(w.limiter, k, j)
  }

  /** Session j - 1 is the latest: unrecorded, with its partner's bucket just opened. */
  ghost predicate Latest(w: World, k: Key, t: real, j: nat) {
    && j in w.sessions && w.sessions[j] == Session(AccountOf(k, j), SourceOf(k, j), Unrecorded)
    && Partner(k, j) in w.limiter.buckets && w.limiter.buckets[Partner(k, j)] == Bucket(0, t, 0.0, t)
    && w.limiter.Inflight(Partner(k, j)) == 1
  }

  function Sooner(c: Config, t: real): (now: real)
    requires 0.0 <= t < c.window
    ensures t < now < c.window
  {
    (t + c.window) / 2.0
  }

  lemma AdmittedInflight(c: Config, s: State, k: Key, j: nat, now: real)
    requires c.enabled && s.Valid() && Acquire(c, s, AccountOf(k, j), SourceOf(k, j), now).1.allowed
    requires s.Inflight(Partner(k, j)) == 0
    ensures var t := Acquire(c, s, AccountOf(k, j), SourceOf(k, j), now).0;
      && t.Inflight(k) == s.Inflight(k) + 1 && t.Inflight(Partner(k, j)) == 1
      && forall x :: x != k && x != Partner(k, j) ==> t.Inflight(x) == s.Inflight(x)
  {
    Roles(k, j);
    hide Acquire, Partner, AccountOf, SourceOf, State.Inflight;
    AcquireInflight(c, s, AccountOf(k, j), SourceOf(k, j), now);
  }

  lemma AdmittedStep(c: Config, w: World, sid: nat, account: Key, source: Key, now: real)
    requires Consistent(w) && sid !in w.sessions && Acquire(c, w.limiter, account, source, now).1.allowed
    ensures Step(c, w, Begin(sid, account, source, now)) ==
      World(Acquire(c, w.limiter, account, source, now).0, w.sessions[sid := Session(account, source, Unrecorded)])
  {
    hide Acquire;
  }

  lemma BeginBusy(c: Config, w: World, k: Key, n: nat, m: nat, u: nat, t: real, j: nat, now: real)
    requires Roomy(c, k) && Busy(c, w, k, n, m, u, t, j) && m < c.LimitOf(k) && t < now < c.window
    ensures var v := Step(c, w, Begin(j, AccountOf(k, j), SourceOf(k, j), now));
      Busy(c, v, k, n, m + 1, u + 1, now, j + 1) && Latest(v, k, now, j)
  {
    hide *;
    var account, source := AccountOf(k, j), SourceOf(k, j);
    Roles(k, j);
    BusyParts(c, w, k, n, m, u, t, j);
    var s, v := w.limiter, Step(c, w, Begin(j, account, source, now));
    Admits(c, s, k, n, t, j, now);
    RoomyIsValid(c, k);
    AdmittedInflight(c, s, k, j, now);
    AdmittedStep(c, w, j, account, source, now);
    BeginCounts(w, v.limiter, j, account, source, k);
    BeginConsistent(c, w, j, account, source, now);
    StillUnused(s, v.limiter, k, j);
    NowBusy(c, v, k, n, m + 1, u + 1, now, j + 1);
    NowLatest(v, k, now, j);
  }

  lemma BusyParts(c: Config, w: World, k: Key, n: nat, m: nat, u: nat, t: real, j: nat)
    requires Busy(c, w, k, n, m, u, t, j)
    ensures Consistent(w) && w.limiter.Valid() && Warm(w.limiter.buckets, k, n, t) && 0.0 <= t < c.window
    ensures w.limiter.Inflight(k) == m && |UnrecordedOn(w, k)| == u
    ensures j !in w.sessions && NoSessionFrom(w, j) && Unused(w.limiter, k, j)
    ensures Partner(k, j) !in w.limiter.buckets && w.limiter.Inflight(Partner(k, j)) == 0
  {
  }

  lemma NowBusy(c: Config, w: World, k: Key, n: nat, m: nat, u: nat, t: real, j: nat)
    requires Consistent(w) && Warm(w.limiter.buckets, k, n, t) && 0.0 <= t < c.window
    requires w.limiter.Inflight(k) == m && |UnrecordedOn(w, k)| == u && NoSessionFrom(w, j) && Unused(w.limiter, k, j)
    ensures Busy(c, w, k, n, m, u, t, j)
  {
  }

  lemma NowLatest(w: World, k: Key, t: real, j: nat)
    requires j in w.sessions && w.sessions[j] == Session(AccountOf(k, j), SourceOf(k, j), Unrecorded)
    requires Partner(k, j) in w.limiter.buckets && w.limiter.buckets[Partner(k, j)] == Bucket(0, t, 0.0, t)
    requires w.limiter.Inflight(Partner(k, j)) == 1
    ensures Latest(w, k, t, j)
  {
  }

  lemma BeginCounts(w: World, limiter: State, j: nat, account: Key, source: Key, k: Key)
    requires NoSessionFrom(w, j) && (k == account || k == source)
    ensures var v := World(limiter, w.sessions[j := Session(account, source, Unrecorded)]);
      && |UnrecordedOn(v, k)| == |UnrecordedOn(w, k)| + 1 && NoSessionFrom(v, j + 1)
  {
    UnrecordedAfterBegin(w, limiter, j, Session(account, source, Unrecorded), k);
  }

  lemma BeginConsistent(c: Config, w: World, sid: nat, account: Key, source: Key, now: real)
    requires Consistent(w) && account.Account? && source.Source? && now >= 0.0
    ensures Consistent(Step(c, w, Begin(sid, account, source, now)))
  {
    hide Step;
    StepConsistent(c, w, Begin(sid, account, source, now));
  }

  lemma FailBusy(c: Config, w: World, k: Key, n: nat, m: nat, u: nat, t: real, j: nat, now: real)
    requires Roomy(c, k) && Busy(c, w, k, n, m, u, t, j + 1) && Latest(w, k, t, j) && u >= 1
    requires n + 1 < c.LimitOf(k) && t < now < c.window
    ensures var v := Step(c, w, Fail(j, now));
      && Busy(c, v, k, n + 1, m, u - 1, now, j + 1)
      && j in v.sessions && v.sessions[j] == Session(AccountOf(k, j), SourceOf(k, j), Recorded)
      && v.limiter.Inflight(Partner(k, j)) == 1
  {
    Roles(k, j);
    hide RecordFailure, Warm, UnrecordedOn, Unused, State.Inflight, Partner, AccountOf, SourceOf;
    var account, source := AccountOf(k, j), SourceOf(k, j);
    Refails(c, w.limiter, k, n, t, j, now);
    OthersKeepInflight(c, w.limiter, account, source, now);
    var v := Step(c, w, Fail(j, now));
    SameInflightFor(w.limiter, v.limiter);
    UnrecordedAfterPhase(w, v.limiter, j, Recorded, k);
    StepConsistent(c, w, Fail(j, now));
    StillUnused(w.limiter, v.limiter, k, j);
  }

  lemma SameInflightFor(s: State, t: State)
    requires s.inflight == t.inflight
    ensures forall x :: s.Inflight(x) == t.Inflight(x)
  {
  }

  lemma EndBusy(c: Config, w: World, k: Key, n: nat, t: real, j: nat)
    requires Roomy(c, k) && Busy(c, w, k, n, 1, 0, t, j + 1)
    requires j in w.sessions && w.sessions[j] == Session(AccountOf(k, j), SourceOf(k, j), Recorded)
    requires w.limiter.Inflight(Partner(k, j)) == 1
    ensures Busy(c, Step(c, w, End(j)), k, n, 0, 0, t, j + 1)
  {
    Roles(k, j);
    hide Release, Warm, UnrecordedOn, Unused, State.Inflight, Partner, AccountOf, SourceOf;
    var account, source := AccountOf(k, j), SourceOf(k, j);
    var v := Step(c, w, End(j));
    ReleaseInflight(c, w.limiter, account, source);
    ReleaseKeepsBuckets(c, w.limiter, account, source);
    UnrecordedAfterEnd(w, v.limiter, j, k);
    StepConsistent(c, w, End(j));
    StillUnused(w.limiter, v.limiter, k, j);
  }

  // The run

  lemma RunOne(c: Config, events: seq<Event>, e: Event)
    requires (forall x :: x in events ==> WellFormed(x)) && WellFormed(e)
    ensures forall x :: x in events + [e] ==> WellFormed(x)
    ensures Run(c, START, events + [e]) == Step(c, Run(c, START, events), e)
  {
    assert (events + [e])[..|events|] == events;
  }

  lemma FirstProbe(c: Config, k: Key)
    requires Roomy(c, k)
    ensures Consistent(START)
    ensures Busy(c, Step(c, START, Probe(AccountOf(k, 0), SourceOf(k, 0), 0.0)), k, 0, 0, 0, 0.0, 1)
  {
    hide *;
    var first, second := AccountOf(k, 0), SourceOf(k, 0);
    Roles(k, 0);
    RoomyIsValid(c, k);
    FirstPair(c, first, second);
    ProbeStep(c, first, second);
    var v := Step(c, START, Probe(first, second, 0.0));
    PairIsBusy(c, v, k);
  }

  lemma RoomyIsValid(c: Config, k: Key)
    requires Roomy(c, k)
    ensures c.Valid() && c.enabled
  {
  }

  lemma ProbeStep(c: Config, first: Key, second: Key)
    ensures Consistent(START)
    ensures Step(c, START, Probe(first, second, 0.0)) == World(Check(c, START.limiter, first, second, 0.0).0, map[])
    ensures Consistent(Step(c, START, Probe(first, second, 0.0)))
  {
    hide Check;
  }

  lemma PairIsBusy(c: Config, v: World, k: Key)
    requires c.Valid() && Consistent(v) && v.sessions == map[] && v.limiter.inflight == map[]
    requires v.limiter.buckets == map[AccountOf(k, 0) := Bucket(0, 0.0, 0.0, 0.0), SourceOf(k, 0) := Bucket(0, 0.0, 0.0, 0.0)]
    ensures Busy(c, v, k, 0, 0, 0, 0.0, 1)
  {
    Roles(k, 0);
    assert UnrecordedOn(v, k) == {};
    forall i: nat | i >= 1 ensures Partner(k, i) !in v.limiter.buckets {
      PartnersDiffer(k, i, 0);
      Roles(k, i);
    }
  }

  lemma FirstPair(c: Config, first: Key, second: Key)
    requires c.Valid() && c.enabled && first != second
    ensures var b := Check(c, START.limiter, first, second, 0.0).0;
      && b.buckets == map[first := Bucket(0, 0.0, 0.0, 0.0), second := Bucket(0, 0.0, 0.0, 0.0)]
      && b.inflight == map[]
  {
    hide Oldest;
    var a := Open(c, START.limiter, first, 0.0);
    assert a.buckets == map[first := Bucket(0, 0.0, 0.0, 0.0)];
    assert |a.buckets| == 1;
  }

  lemma {:induction false} QuietReached(c: Config, k: Key, n: nat) returns (events: seq<Event>, t: real, j: nat)
    requires Roomy(c, k) && n < c.LimitOf(k)
    ensures forall x :: x in events ==> WellFormed(x)
    ensures Busy(c, Run(c, START, events), k, n, 0, 0, t, j)
  {
    hide Step, Run, Busy, Latest;
    if n == 0 {
      var e := Probe(AccountOf(k, 0), SourceOf(k, 0), 0.0);
      StartsAtStart(c);
      RunOne(c, [], e);
      FirstProbe(c, k);
      events, t, j := [] + [e], 0.0, 1;
    } else {
      events, t, j := QuietReached(c, k, n - 1);
      var w := Run(c, START, events);
      BusyTimes(c, w, k, n - 1, 0, 0, t, j);
      var begun := Begin(j, AccountOf(k, j), SourceOf(k, j), Sooner(c, t));
      BeginBusy(c, w, k, n - 1, 0, 0, t, j, Sooner(c, t));
      RunOne(c, events, begun);
      events, t := events + [begun], Sooner(c, t);
      var failed := Fail(j, Sooner(c, t));
      FailBusy(c, Run(c, START, events), k, n - 1, 1, 1, t, j, Sooner(c, t));
      RunOne(c, events, failed);
      events, t := events + [failed], Sooner(c, t);
      EndBusy(c, Run(c, START, events), k, n, t, j);
      RunOne(c, events, End(j));
      events, j := events + [End(j)], j + 1;
    }
  }

  lemma StartsAtStart(c: Config)
    ensures Run(c, START, []) == START
  {
  }

  lemma BusyTimes(c: Config, w: World, k: Key, n: nat, m: nat, u: nat, t: real, j: nat)
    requires Busy(c, w, k, n, m, u, t, j)
    ensures 0.0 <= t < c.window && Failures(w.limiter, k) == n && |UnrecordedOn(w, k)| == u
  {
  }

  lemma {:induction false} CrowdReached(c: Config, k: Key, n: nat, m: nat) returns (events: seq<Event>, t: real, j: nat)
    requires Roomy(c, k) && n < c.LimitOf(k) && m <= c.LimitOf(k)
    ensures forall x :: x in events ==> WellFormed(x)
    ensures Busy(c, Run(c, START, events), k, n, m, m, t, j)
  {
    hide Step, Run, Busy, Latest;
    if m == 0 {
      events, t, j := QuietReached(c, k, n);
    } else {
      events, t, j := CrowdReached(c, k, n, m - 1);
      var w := Run(c, START, events);
      BusyTimes(c, w, k, n, m - 1, m - 1, t, j);
      var begun := Begin(j, AccountOf(k, j), SourceOf(k, j), Sooner(c, t));
      BeginBusy(c, w, k, n, m - 1, m - 1, t, j, Sooner(c, t));
      RunOne(c, events, begun);
      events, t, j := events + [begun], Sooner(c, t), j + 1;
    }
  }

  ghost predicate Attains(c: Config, events: seq<Event>, k: Key) {
    && (forall e :: e in events ==> WellFormed(e))
    && var w := Run(c, START, events);
       Failures(w.limiter, k) + |UnrecordedOn(w, k)| == 2 * c.LimitOf(k) - 1
  }

  /** Not limit failures but 2 * limit - 1 can be outstanding: the bound is attained by some run, for every limit of
      either dimension. */
  lemma FailureBoundIsTight(c: Config, k: Key)
    requires Roomy(c, k)
    ensures exists events :: Attains(c, events, k)
  {
    hide Busy, Run;
    var l := c.LimitOf(k);
    var events, t, j := CrowdReached(c, k, l - 1, l);
    BusyTimes(c, Run(c, START, events), k, l - 1, l, l, t, j);
    assert Attains(c, events, k);
  }
}
