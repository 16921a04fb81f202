/** What admits, blocks and frees a login key, said on the limiter's fields and settings
    (backend/app/services/login_rate_limiter.py). */
module LoginBlocks {
  import opened Sorting
  import opened LoginRateLimiter
  import opened LoginSessions
  import opened LoginWindows

  /** The key has a bucket that is blocked or within its window. */
  predicate Resident(c: Config, s: State, k: Key, now: real) {
    k in s.buckets && (s.buckets[k].blockedUntil > now || now - s.buckets[k].windowStarted < c.window)
  }

  /** Pruning keeps exactly the resident buckets, as they are and in their order. */
  lemma PruneExact(c: Config, s: State, now: real)
    requires s.Valid()
    ensures var t := Prune(c, s, now);
      && (forall k :: k in t.buckets <==> Resident(c, s, k, now))
      && (forall k :: k in t.buckets ==> t.buckets[k] == s.buckets[k])
      && t.order == Filter(s.order, k => Resident(c, s, k, now)) && t.inflight == s.inflight
  {
    FilterSame(s.order, k => k in s.buckets && !Expired(c, s.buckets[k], now), k => Resident(c, s, k, now));
  }

  /** The first key in dictionary order among those seen least recently. */
  ghost predicate LeastRecent(s: State, k: Key) {
    exists i :: 0 <= i < |s.order| && s.order[i] == k && LeastRecentAt(s, i)
  }

  ghost predicate LeastRecentAt(s: State, i: nat)
    requires i < |s.order|
  {
    forall j :: 0 <= j < |s.order| && s.order[j] in s.buckets && s.order[i] in s.buckets ==>
      var other, me := s.buckets[s.order[j]].lastSeen, s.buckets[s.order[i]].lastSeen;
      me <= other && (j < i ==> me < other)
  }

  lemma {:induction false} OldestIsLeastRecent(buckets: map<Key, Bucket>, order: seq<Key>) returns (i: nat)
    requires |order| > 0 && forall k :: k in order ==> k in buckets
    ensures i < |order| && order[i] == Oldest(buckets, order)
    ensures forall j :: 0 <= j < |order| ==>
      buckets[order[i]].lastSeen <= buckets[order[j]].lastSeen
      && (j < i ==> buckets[order[i]].lastSeen < buckets[order[j]].lastSeen)
  {
    if |order| == 1 || buckets[order[0]].lastSeen <= buckets[Oldest(buckets, order[1..])].lastSeen {
      i := 0;
      forall j | 0 <= j < |order| ensures buckets[order[0]].lastSeen <= buckets[order[j]].lastSeen {
        if j > 0 {
          assert order[j] in order[1..];
        }
      }
    } else {
      var rest := OldestIsLeastRecent(buckets, order[1..]);
      i := rest + 1;
      forall j | 0 <= j < |order|
        ensures buckets[order[i]].lastSeen <= buckets[order[j]].lastSeen
        ensures j < i ==> buckets[order[i]].lastSeen < buckets[order[j]].lastSeen
      {
        if j > 0 {
          assert order[j] == order[1..][j - 1];
        }
      }
    }
  }

  lemma LeastRecentUnique(s: State, a: Key, b: Key)
    requires s.Valid() && LeastRecent(s, a) && LeastRecent(s, b)
    ensures a == b
  {
    var i :| 0 <= i < |s.order| && s.order[i] == a && LeastRecentAt(s, i);
    var j :| 0 <= j < |s.order| && s.order[j] == b && LeastRecentAt(s, j);
    assert s.order[i] in s.buckets && s.order[j] in s.buckets;
  }

  /** Only a new key in a full table evicts, and then the least recently seen key alone. */
  lemma VictimsExact(c: Config, s: State, key: Key, k: Key)
    requires s.Valid()
    ensures k in Victims(c, s, key) <==> key !in s.buckets && |s.buckets| >= c.maxEntries && LeastRecent(s, k)
  {
    if key !in s.buckets && |s.buckets| >= c.maxEntries && |s.order| > 0 {
      var i := OldestIsLeastRecent(s.buckets, s.order);
      assert LeastRecentAt(s, i);
      assert LeastRecent(s, Oldest(s.buckets, s.order));
      if LeastRecent(s, k) {
        LeastRecentUnique(s, k, Oldest(s.buckets, s.order));
      }
    }
  }

  /** Opening a bucket for key: it is refreshed or starts afresh, and all others stay but the stale and the victims. */
  ghost predicate Opened(c: Config, s: State, t: State, key: Key, now: real, victims: set<Key>) {
    && key in t.buckets
    && t.buckets[key] == (if Resident(c, s, key, now) then s.buckets[key].(lastSeen := now) else Bucket(0, now, 0.0, now))
    && (forall k :: k != key ==> (k in t.buckets <==> Resident(c, s, k, now) && k !in victims))
    && (forall k :: k != key && k in t.buckets ==> t.buckets[k] == s.buckets[k])
    && t.inflight == s.inflight
  }

  ghost function Evictees(c: Config, s: State, key: Key, now: real): set<Key>
    requires s.Valid()
  {
    PruneKeepsValid(c, s, now);
    Victims(c, Prune(c, s, now), key)
  }

  lemma TouchExact(c: Config, s: State, key: Key, now: real)
    requires s.Valid() && forall k :: k in s.buckets ==> Resident(c, s, k, now)
    ensures Opened(c, s, Touch(c, s, key, now), key, now, Victims(c, s, key))
  {
    hide Oldest;
  }

  lemma OpenExact(c: Config, s: State, key: Key, now: real)
    requires c.Valid() && s.Valid()
    ensures Opened(c, s, Open(c, s, key, now), key, now, Evictees(c, s, key, now))
    ensures forall k :: k in Open(c, s, key, now).buckets ==> Resident(c, Open(c, s, key, now), k, now)
  {
    hide Prune, Touch, Victims;
    PruneKeepsValid(c, s, now);
    PruneExact(c, s, now);
    TouchExact(c, Prune(c, s, now), key, now);
  }

  lemma ReopenExact(c: Config, s: State, key: Key, now: real)
    requires s.Valid() && forall k :: k in s.buckets ==> Resident(c, s, k, now)
    ensures Opened(c, s, Reopen(c, s, key, now), key, now, Victims(c, s, key))
  {
    hide Touch, Victims, Resident;
    TouchExact(c, s, key, now);
  }

  // Recording a failure

  /** One more failure: a key that was free and reaches its limit is blocked for `block` seconds from now; otherwise
      the end of its block is what it was. A key without a resident bucket starts from nothing. */
  predicate OneMore(b: Bucket, resident: bool, before: Bucket, limit: nat, block: real, now: real) {
    if resident then
      && b.failures == before.failures + 1 && b.windowStarted == before.windowStarted && b.lastSeen == now
      && b.blockedUntil == (if before.blockedUntil <= now && before.failures + 1 >= limit then now + block else before.blockedUntil)
    else
      b == Bucket(1, now, if limit <= 1 then now + block else 0.0, now)
  }

  ghost predicate Recorded(c: Config, s: State, t: State, k: Key, resident: bool, limit: nat, now: real)
    requires resident ==> k in s.buckets
  {
    k in t.buckets && OneMore(t.buckets[k], resident, if resident then s.buckets[k] else t.buckets[k], limit, c.block, now)
  }

  /** The failure brings a key that is not blocked to its limit. */
  predicate ReachesLimit(s: State, k: Key, resident: bool, limit: nat, now: real)
    requires resident ==> k in s.buckets
  {
    if resident then s.buckets[k].blockedUntil <= now && s.buckets[k].failures + 1 >= limit else limit <= 1
  }

  lemma CountExact(c: Config, s: State, a: State, key: Key, now: real, resident: bool, limit: nat)
    requires a.Valid() && key in a.buckets && now >= 0.0
    requires limit == if key.Account? then c.accountLimit else c.sourceLimit
    requires resident ==> key in s.buckets
    requires a.buckets[key] == if resident then s.buckets[key].(lastSeen := now) else Bucket(0, now, 0.0, now)
    ensures var t := Count(c, a, key, now);
      && Recorded(c, s, t, key, resident, limit, now)
      && (forall k :: k != key ==> (k in t.buckets <==> k in a.buckets))
      && (forall k :: k != key && k in t.buckets ==> t.buckets[k] == a.buckets[k])
      && t.inflight == a.inflight
    ensures JustBlocked(c, a, key, now) <==> ReachesLimit(s, key, resident, limit, now)
    ensures a.buckets[key].failures == if resident then s.buckets[key].failures else 0
  {
  }

  lemma CountStaysResident(c: Config, a: State, key: Key, now: real)
    requires c.Valid() && a.Valid() && key in a.buckets && forall k :: k in a.buckets ==> Resident(c, a, k, now)
    ensures forall k :: k in Count(c, a, key, now).buckets ==> Resident(c, Count(c, a, key, now), k, now)
  {
  }

  /** The source's bucket is still there once the account's has been opened. */
  ghost predicate SourceStays(c: Config, s: State, account: Key, source: Key, now: real)
    requires s.Valid()
  {
    Resident(c, s, source, now) && source !in Evictees(c, s, account, now)
  }

  /** A recorded failure counts on both keys, each against its own limit, and blocks for `block` seconds exactly the
      keys it brings to theirs; the answer names the first of them. */
  lemma FailureExact(c: Config, s: State, account: Key, source: Key, now: real)
    requires c.Valid() && c.enabled && s.Valid() && account.Account? && source.Source? && now >= 0.0
    ensures var (t, d) := RecordFailure(c, s, account, source, now);
      var known, stays := Resident(c, s, account, now), SourceStays(c, s, account, source, now);
      && Recorded(c, s, t, source, stays, c.sourceLimit, now)
      && (account !in Victims(c, Open(c, s, account, now), source) ==> Recorded(c, s, t, account, known, c.accountLimit, now))
      && (account in Victims(c, Open(c, s, account, now), source) ==> account !in t.buckets)
      && (forall k :: k != account && k != source && k in t.buckets ==> Resident(c, s, k, now) && t.buckets[k] == s.buckets[k])
      && (forall k :: k != account && k != source && Resident(c, s, k, now) && k !in Evicted(c, s, account, source, now)
            ==> k in t.buckets)
      && t.inflight == s.inflight
      && d == (if ReachesLimit(s, account, known, c.accountLimit, now)
               then Decision(false, "account", 1 + if known then s.buckets[account].failures else 0)
               else if ReachesLimit(s, source, stays, c.sourceLimit, now)
               then Decision(false, "source", 1 + if stays then s.buckets[source].failures else 0)
               else Decision(true, "", 0))
  {
    hide Open, Reopen, Count, JustBlocked, Victims, Recorded, ReachesLimit;
    var a := Open(c, s, account, now);
    OpenExact(c, s, account, now);
    CountExact(c, s, a, account, now, Resident(c, s, account, now), c.accountLimit);
    CountStaysResident(c, a, account, now);
    var a' := Count(c, a, account, now);
    ReopenExact(c, a', source, now);
    CountSameVictims(c, a, account, now, source);
    var b := Reopen(c, a', source, now);
    SourceOpened(c, s, account, source, now, a, a', b);
    CountExact(c, s, b, source, now, SourceStays(c, s, account, source, now), c.sourceLimit);
    AccountCarried(c, s, account, source, now, a', b, Count(c, b, source, now));
  }

  lemma SourceOpened(c: Config, s: State, account: Key, source: Key, now: real, a: State, a': State, b: State)
    requires s.Valid() && a'.Valid() && account.Account? && source.Source?
    requires Opened(c, s, a, account, now, Evictees(c, s, account, now))
    requires (forall k :: k != account ==> (k in a'.buckets <==> k in a.buckets))
    requires (forall k :: k != account && k in a'.buckets ==> a'.buckets[k] == a.buckets[k])
    requires forall k :: k in a'.buckets ==> Resident(c, a', k, now)
    requires Opened(c, a', b, source, now, Victims(c, a', source))
    ensures var stays := SourceStays(c, s, account, source, now);
      b.buckets[source] == if stays then s.buckets[source].(lastSeen := now) else Bucket(0, now, 0.0, now)
  {
    hide Victims;
  }

  lemma AccountCarried(c: Config, s: State, account: Key, source: Key, now: real, a': State, b: State, t: State)
    requires a'.Valid() && account.Account? && source.Source? && account in a'.buckets
    requires forall k :: k in a'.buckets ==> Resident(c, a', k, now)
    requires Opened(c, a', b, source, now, Victims(c, a', source))
    requires (forall k :: k != source ==> (k in t.buckets <==> k in b.buckets))
    requires (forall k :: k != source && k in t.buckets ==> t.buckets[k] == b.buckets[k])
    requires Recorded(c, s, a', account, Resident(c, s, account, now), c.accountLimit, now)
    ensures account !in Victims(c, a', source) ==> Recorded(c, s, t, account, Resident(c, s, account, now), c.accountLimit, now)
    ensures account in Victims(c, a', source) ==> account !in t.buckets
  {
    hide Victims;
  }

  // Admission

  predicate BlockedAt(s: State, k: Key, now: real) {
    k in s.buckets && s.buckets[k].blockedUntil > now
  }

  predicate Crowded(s: State, k: Key, limit: nat) {
    k in s.inflight && s.inflight[k] >= limit
  }

  /** A login is admitted exactly when neither key is blocked nor has as many logins in flight as its limit; otherwise
      the answer names the account, or else the source, with its failures. Nothing else but reservations changes hands. */
  lemma AcquireExact(c: Config, s: State, account: Key, source: Key, now: real)
    requires c.Valid() && c.enabled && s.Valid() && account.Account? && source.Source? && now >= 0.0
    ensures var (t, d) := Acquire(c, s, account, source, now);
      var evicted := Evictees(c, s, account, now);
      var noAccount := BlockedAt(s, account, now) || Crowded(s, account, c.accountLimit);
      var noSource := (BlockedAt(s, source, now) && source !in evicted) || Crowded(s, source, c.sourceLimit);
      && (d.allowed <==> !noAccount && !noSource)
      && (d.allowed ==> d == Decision(true, "", 0))
      && (noAccount ==>
            && d.dimension == "account"
            && d.failureCount == if Resident(c, s, account, now) then s.buckets[account].failures else 0)
      && (!noAccount && noSource ==>
            && d.dimension == "source"
            && d.failureCount == if SourceStays(c, s, account, source, now) then s.buckets[source].failures else 0)
  {
    hide Open, Reopen, Victims;
    var a := Open(c, s, account, now);
    OpenExact(c, s, account, now);
    ReopenExact(c, a, source, now);
  }

  ghost predicate OpenedBoth(c: Config, s: State, t: State, account: Key, source: Key, now: real)
    requires s.Valid()
  {
    exists a: State :: a.Valid() && Opened(c, s, a, account, now, Evictees(c, s, account, now))
      && Opened(c, a, t, source, now, Victims(c, a, source))
  }

  /** Apart from reservations, asking only opens buckets: the account's, and unless the account is refused the
      source's. A reservation of each key is taken exactly when the login is admitted. */
  lemma AcquireWrites(c: Config, s: State, account: Key, source: Key, now: real)
    requires c.Valid() && c.enabled && s.Valid() && account.Account? && source.Source? && now >= 0.0
    ensures var (t, d) := Acquire(c, s, account, source, now);
      && (!d.allowed && d.dimension == "account" ==> Opened(c, s, t, account, now, Evictees(c, s, account, now)))
      && (d.allowed || d.dimension == "source" ==> OpenedBoth(c, s, t.(inflight := s.inflight), account, source, now))
      && (d.allowed || d.dimension == "source" || d.dimension == "account")
      && forall k :: (k in t.inflight <==> k in s.inflight || (d.allowed && (k == account || k == source)))
           && (k in t.inflight ==>
                 t.inflight[k] == (if k in s.inflight then s.inflight[k] else 0)
                                  + if d.allowed && (k == account || k == source) then 1 else 0)
  {
    hide Open, Reopen, Victims, Opened, Blocked;
    var a := Open(c, s, account, now);
    OpenExact(c, s, account, now);
    ReopenExact(c, a, source, now);
    var b := Reopen(c, a, source, now);
    assert b.(inflight := s.inflight) == b;
    assert !Refused(c, a, account, now) ==> OpenedBoth(c, s, b, account, source, now);
    assert Acquire(c, s, account, source, now).1.allowed ==>
      Acquire(c, s, account, source, now).0.(inflight := s.inflight) == b;
    assert Dimension(account) == "account" && Dimension(source) == "source";
    assert "account"[0] != "source"[0];
  }

  /** Releasing gives back one reservation of each key that has any, and nothing else. */
  lemma ReleaseExact(c: Config, s: State, account: Key, source: Key)
    requires c.enabled && s.Valid() && account.Account? && source.Source?
    ensures var t := Release(c, s, account, source);
      && t.buckets == s.buckets && t.order == s.order
      && forall k :: (k in t.inflight <==> k in s.inflight && !((k == account || k == source) && s.inflight[k] == 1))
           && (k in t.inflight ==> t.inflight[k] == s.inflight[k] - if k == account || k == source then 1 else 0)
  {
  }

  lemma PeekExact(c: Config, s: State, account: Key, source: Key, now: real)
    requires c.Valid() && c.enabled && s.Valid() && account.Account? && source.Source? && now >= 0.0
    ensures var (t, d) := Check(c, s, account, source, now);
      var evicted := Evictees(c, s, account, now);
      && (d.allowed <==> !BlockedAt(s, account, now) && !(BlockedAt(s, source, now) && source !in evicted))
      && (!d.allowed ==> d.dimension == if BlockedAt(s, account, now) then "account" else "source")
  {
    hide Open, Reopen, Victims;
    OpenExact(c, s, account, now);
    ReopenExact(c, Open(c, s, account, now), source, now);
  }

  /** A successful login forgets the account's failures and block, and nothing else. */
  lemma ResetClears(c: Config, s: State, account: Key)
    requires c.enabled && s.Valid()
    ensures var t := ResetAccount(c, s, account);
      && (forall k :: k in t.buckets <==> k in s.buckets && k != account)
      && (forall k :: k in t.buckets ==> t.buckets[k] == s.buckets[k]) && t.inflight == s.inflight
  {
  }

  // A block, from the failure that sets it to its end

  /** The session's failure brings this one of its keys, resident and not blocked, to its limit. */
  ghost predicate Trips(c: Config, w: World, sid: nat, now: real, k: Key)
    requires Consistent(w)
  {
    && sid in w.sessions && w.sessions[sid].phase == Unrecorded
    && (k == w.sessions[sid].account || k == w.sessions[sid].source)
    && Resident(c, w.limiter, k, now) && w.limiter.buckets[k].blockedUntil <= now
    && w.limiter.buckets[k].failures + 1 >= (if k.Account? then c.accountLimit else c.sourceLimit)
    && k !in Evicted(c, w.limiter, w.sessions[sid].account, w.sessions[sid].source, now)
  }

  lemma TrippedIsBlocked(c: Config, w: World, sid: nat, now: real, k: Key)
    requires c.Valid() && c.enabled && Consistent(w) && now >= 0.0 && Trips(c, w, sid, now, k)
    ensures HeldUntil(Step(c, w, Fail(sid, now)).limiter, k, now + c.block)
  {
    hide RecordFailure, Victims, Open;
    var me := w.sessions[sid];
    FailureExact(c, w.limiter, me.account, me.source, now);
  }

  /** After the failure that trips a key's limit, while the key is neither evicted nor reset, every login on it is
      refused at every time before now + block, and from then on none is refused for this block. */
  lemma BlockLastsExactly(c: Config, w: World, sid: nat, now: real, k: Key, events: seq<Event>, e: Event)
    requires c.Valid() && c.enabled && Consistent(w) && now >= 0.0 && Trips(c, w, sid, now, k)
    requires WellFormed(e) && e.Begin? && (e.account == k || e.source == k)
    requires (forall x :: x in events ==> WellFormed(x))
    requires Consistent(Step(c, w, Fail(sid, now))) && SparesRun(c, Step(c, w, Fail(sid, now)), events, k, now + c.block)
    ensures var v := Run(c, Step(c, w, Fail(sid, now)), events);
      var d := Acquire(c, v.limiter, e.account, e.source, e.now).1;
      && (e.now < now + c.block && k !in Evicted(c, v.limiter, e.account, e.source, e.now) ==> !d.allowed)
      && (e.now >= now + c.block ==>
            && !BlockedAt(v.limiter, k, e.now)
            && (d.allowed || Crowded(v.limiter, e.account, c.accountLimit) || Crowded(v.limiter, e.source, c.sourceLimit)
                || BlockedAt(v.limiter, if e.account == k then e.source else e.account, e.now)))
  {
    hide Acquire, Step, Spares, Evicted;
    var u := Step(c, w, Fail(sid, now));
    TrippedIsBlocked(c, w, sid, now, k);
    BlockHolds(c, u, events, k, now + c.block);
    var v := Run(c, u, events);
    if e.now < now + c.block && k !in Evicted(c, v.limiter, e.account, e.source, e.now) {
      AdmissionHolds(c, v.limiter, e.account, e.source, e.now, k, now + c.block);
    }
    AcquireExact(c, v.limiter, e.account, e.source, e.now);
  }
}
