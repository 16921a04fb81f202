/** Process-local login throttling (backend/app/services/login_rate_limiter.py): what each locked
    operation does to the limiter's dictionaries. Keys stand for their HMAC digests. */
module LoginRateLimiter {
  import opened Sorting

  datatype Key = Account(name: string) | Source(address: string)

  datatype Bucket = Bucket(failures: nat, windowStarted: real, blockedUntil: real, lastSeen: real)

  datatype Config = Config(
    accountLimit: nat, sourceLimit: nat, window: real, block: real, maxEntries: nat, enabled: bool)
  {
    predicate Valid() {
      accountLimit >= 1 && sourceLimit >= 1 && window > 0.0 && block > 0.0 && maxEntries >= 2
    }

    function LimitOf(key: Key): nat {
      if key.Account? then accountLimit else sourceLimit
    }
  }

  /** `order` is the dictionary order of `buckets`, which decides ties when evicting. */
  datatype State = State(buckets: map<Key, Bucket>, order: seq<Key>, inflight: map<Key, nat>) {
    ghost predicate Valid() {
      && (forall k :: k in order <==> k in buckets)
      && (forall k :: k in inflight ==> inflight[k] >= 1)
    }

    function Inflight(key: Key): nat {
      if key in inflight then inflight[key] else 0
    }
  }

  datatype Decision = Decision(allowed: bool, dimension: string, failureCount: nat)

  const ADMITTED := Decision(true, "", 0)

  function Dimension(key: Key): string {
    if key.Account? then "account" else "source"
  }

  // _prune and _bucket

  predicate Expired(c: Config, b: Bucket, now: real) {
    b.blockedUntil <= now && now - b.windowStarted >= c.window
  }

  function Prune(c: Config, s: State, now: real): State {
    s.(buckets := map k | k in s.buckets && !Expired(c, s.buckets[k], now) :: s.buckets[k],
       order := Filter(s.order, k => k in s.buckets && !Expired(c, s.buckets[k], now)))
  }

  function Drop(s: State, key: Key): State {
    s.(buckets := map k | k in s.buckets && k != key :: s.buckets[k],
       order := Filter(s.order, k => k != key))
  }

  /** min(..., key=last_seen): the first key in dictionary order with the least last_seen. */
  function Oldest(buckets: map<Key, Bucket>, order: seq<Key>): (k: Key)
    requires |order| > 0 && forall k :: k in order ==> k in buckets
    ensures k in order && forall o :: o in order ==> buckets[k].lastSeen <= buckets[o].lastSeen
  {
    if |order| == 1 then order[0]
    else
      var rest := Oldest(buckets, order[1..]);
      if buckets[order[0]].lastSeen <= buckets[rest].lastSeen then order[0] else rest
  }

  /** The keys an insertion evicts: none unless the key is new and the table is full. */
  function Victims(c: Config, s: State, key: Key): set<Key>
    requires s.Valid()
  {
    if key !in s.buckets && |s.buckets| >= c.maxEntries && |s.order| > 0 then {Oldest(s.buckets, s.order)} else {}
  }

  function MakeRoom(c: Config, s: State, key: Key): State
    requires s.Valid()
  {
    if key !in s.buckets && |s.buckets| >= c.maxEntries && |s.order| > 0
    then Drop(s, Oldest(s.buckets, s.order)) else s
  }

  function Touch(c: Config, s: State, key: Key, now: real): State
    requires s.Valid()
  {
    if key !in s.buckets then
      var room := MakeRoom(c, s, key);
      room.(buckets := room.buckets[key := Bucket(0, now, 0.0, now)], order := room.order + [key])
    else if Expired(c, s.buckets[key], now) then
      s.(buckets := s.buckets[key := Bucket(0, now, 0.0, now)])
    else
      s.(buckets := s.buckets[key := s.buckets[key].(lastSeen := now)])
  }

  lemma TouchKeepsValid(c: Config, s: State, key: Key, now: real)
    requires s.Valid()
    ensures Touch(c, s, key, now).Valid() && key in Touch(c, s, key, now).buckets
    ensures Touch(c, s, key, now).inflight == s.inflight
  {
    if key !in s.buckets && |s.buckets| >= c.maxEntries && |s.order| > 0 {
      var victim := Oldest(s.buckets, s.order);
      forall k ensures k in Filter(s.order, o => o != victim) <==> k in s.order && k != victim {
        FilterMembers(s.order, o => o != victim, k);
      }
    }
  }

  lemma PruneKeepsValid(c: Config, s: State, now: real)
    requires s.Valid()
    ensures Prune(c, s, now).Valid() && Prune(c, s, now).inflight == s.inflight
  {
    var p := k => k in s.buckets && !Expired(c, s.buckets[k], now);
    forall k ensures k in Filter(s.order, p) <==> k in s.order && p(k) {
      FilterMembers(s.order, p, k);
    }
  }

  /** Prune, then look up one bucket. */
  function Open(c: Config, s: State, key: Key, now: real): (t: State)
    requires s.Valid()
    ensures t.Valid() && key in t.buckets && t.inflight == s.inflight
  {
    PruneKeepsValid(c, s, now);
    TouchKeepsValid(c, Prune(c, s, now), key, now);
    Touch(c, Prune(c, s, now), key, now)
  }

  function Reopen(c: Config, s: State, key: Key, now: real): (t: State)
    requires s.Valid()
    ensures t.Valid() && key in t.buckets && t.inflight == s.inflight
  {
    TouchKeepsValid(c, s, key, now);
    Touch(c, s, key, now)
  }

  // The locked operations

  predicate Blocked(s: State, key: Key, now: real) {
    key in s.buckets && s.buckets[key].blockedUntil > now
  }

  predicate Refused(c: Config, s: State, key: Key, now: real) {
    Blocked(s, key, now) || s.Inflight(key) >= c.LimitOf(key)
  }

  function Refusal(s: State, key: Key): Decision
    requires key in s.buckets
  {
    Decision(false, Dimension(key), s.buckets[key].failures)
  }

  function Reserve(s: State, key: Key): State {
    s.(inflight := s.inflight[key := s.Inflight(key) + 1])
  }

  function Acquire(c: Config, s: State, account: Key, source: Key, now: real): (r: (State, Decision))
    requires s.Valid()
    ensures r.0.Valid()
  {
    if !c.enabled then (s, ADMITTED)
    else
      var a := Open(c, s, account, now);
      if Refused(c, a, account, now) then (a, Refusal(a, account))
      else
        var b := Reopen(c, a, source, now);
        if Refused(c, b, source, now) then (b, Refusal(b, source))
        else (Reserve(Reserve(b, account), source), ADMITTED)
  }

  function Check(c: Config, s: State, account: Key, source: Key, now: real): (r: (State, Decision))
    requires s.Valid()
    ensures r.0.Valid()
  {
    if !c.enabled then (s, ADMITTED)
    else
      var a := Open(c, s, account, now);
      if Blocked(a, account, now) then (a, Refusal(a, account))
      else
        var b := Reopen(c, a, source, now);
        (b, if Blocked(b, source, now) then Refusal(b, source) else ADMITTED)
  }

  function Unreserve(s: State, key: Key): (t: State)
    requires s.Valid()
    ensures t.Valid()
  {
    if s.Inflight(key) <= 1 then s.(inflight := map k | k in s.inflight && k != key :: s.inflight[k])
    else s.(inflight := s.inflight[key := s.Inflight(key) - 1])
  }

  function Release(c: Config, s: State, account: Key, source: Key): (t: State)
    requires s.Valid()
    ensures t.Valid()
  {
    if !c.enabled then s else Unreserve(Unreserve(s, account), source)
  }

  /** Count one failure in an open bucket, blocking the key when it reaches its limit. */
  function Count(c: Config, s: State, key: Key, now: real): (t: State)
    requires s.Valid() && key in s.buckets
    ensures t.Valid()
  {
    var b := s.buckets[key];
    var counted := b.(failures := b.failures + 1);
    s.(buckets := s.buckets[key :=
         if b.blockedUntil <= now && counted.failures >= c.LimitOf(key)
         then counted.(blockedUntil := now + c.block) else counted])
  }

  predicate JustBlocked(c: Config, s: State, key: Key, now: real)
    requires key in s.buckets
  {
    s.buckets[key].blockedUntil <= now && s.buckets[key].failures + 1 >= c.LimitOf(key)
  }

  function RecordFailure(c: Config, s: State, account: Key, source: Key, now: real): (r: (State, Decision))
    requires s.Valid()
    ensures r.0.Valid()
  {
    if !c.enabled then (s, ADMITTED)
    else
      var a := Open(c, s, account, now);
      var a' := Count(c, a, account, now);
      var b := Reopen(c, a', source, now);
      (Count(c, b, source, now),
       if JustBlocked(c, a, account, now) then Decision(false, "account", a.buckets[account].failures + 1)
       else if JustBlocked(c, b, source, now) then Decision(false, "source", b.buckets[source].failures + 1)
       else ADMITTED)
  }

  function ResetAccount(c: Config, s: State, account: Key): (t: State)
    requires s.Valid()
    ensures t.Valid()
  {
    DropKeepsValid(s, account);
    if !c.enabled then s else Drop(s, account)
  }

  lemma DropKeepsValid(s: State, key: Key)
    requires s.Valid()
    ensures Drop(s, key).Valid()
  {
    var others := k => k != key;
    var t := Drop(s, key);
    assert t.order == Filter(s.order, others);
    forall k ensures k in t.order <==> k in t.buckets {
      FilterMembers(s.order, others, k);
    }
  }

  // The table never outgrows its bound

  lemma DropSize(s: State, key: Key)
    requires key in s.buckets
    ensures |Drop(s, key).buckets| == |s.buckets| - 1
  {
    assert Drop(s, key).buckets.Keys == s.buckets.Keys - {key};
    assert |Drop(s, key).buckets| == |Drop(s, key).buckets.Keys|;
  }

  lemma PruneSize(c: Config, s: State, now: real)
    ensures |Prune(c, s, now).buckets| <= |s.buckets|
  {
    SubsetSize(Prune(c, s, now).buckets.Keys, s.buckets.Keys);
  }

  lemma {:induction false} SubsetSize<T>(a: set<T>, b: set<T>)
    requires a <= b
    ensures |a| <= |b|
  {
    assert b == a + (b - a);
  }

  lemma TouchSize(c: Config, s: State, key: Key, now: real)
    requires c.Valid() && s.Valid() && |s.buckets| <= c.maxEntries
    ensures |Touch(c, s, key, now).buckets| <= c.maxEntries
  {
    hide Filter, Oldest, Drop;
    if key !in s.buckets && |s.buckets| >= c.maxEntries {
      HasOrder(s);
      DropSize(s, Oldest(s.buckets, s.order));
    }
  }

  lemma HasOrder(s: State)
    requires s.Valid() && |s.buckets| > 0
    ensures |s.order| > 0
  {
    assert |s.buckets.Keys| > 0;
    var k :| k in s.buckets;
    assert k in s.order;
  }

  lemma OpenIsTouch(c: Config, s: State, account: Key, source: Key, now: real)
    requires s.Valid()
    ensures Prune(c, s, now).Valid() && Open(c, s, account, now) == Touch(c, Prune(c, s, now), account, now)
    ensures Reopen(c, s, source, now) == Touch(c, s, source, now)
  {
    PruneKeepsValid(c, s, now);
  }

  lemma ReserveKeepsValid(s: State, key: Key)
    requires s.Valid()
    ensures Reserve(s, key).Valid()
  {
  }

  /** The pruning loop after the first i entries in dictionary order. */
  ghost predicate Pruned(c: Config, s: State, now: real, i: nat, kept: seq<Key>, survivors: map<Key, Bucket>) {
    && i <= |s.order|
    && kept == Filter(s.order[..i], k => k in s.buckets && !Expired(c, s.buckets[k], now))
    && (forall k :: k in survivors <==> k in s.order[..i] && k in s.buckets && !Expired(c, s.buckets[k], now))
    && forall k :: k in survivors ==> k in s.buckets && survivors[k] == s.buckets[k]
  }

  lemma PruneNone(c: Config, s: State, now: real)
    ensures Pruned(c, s, now, 0, [], map[])
  {
  }

  lemma PruneOne(c: Config, s: State, now: real, i: nat, kept: seq<Key>, survivors: map<Key, Bucket>)
    requires s.Valid() && Pruned(c, s, now, i, kept, survivors) && i < |s.order|
    ensures var key := s.order[i];
      && key in s.buckets
      && (if Expired(c, s.buckets[key], now) then Pruned(c, s, now, i + 1, kept, survivors)
          else Pruned(c, s, now, i + 1, kept + [key], survivors[key := s.buckets[key]]))
  {
    hide Filter, Expired;
    var key := s.order[i];
    FilterAppend(s.order[..i], key, k => k in s.buckets && !Expired(c, s.buckets[k], now));
    assert s.order[..i + 1] == s.order[..i] + [key];
  }

  lemma PruneAll(c: Config, s: State, now: real, kept: seq<Key>, survivors: map<Key, Bucket>)
    requires s.Valid() && Pruned(c, s, now, |s.order|, kept, survivors)
    ensures State(survivors, kept, s.inflight) == Prune(c, s, now) && State(survivors, kept, s.inflight).Valid()
    ensures |survivors| <= |s.buckets|
  {
    hide Filter, Expired;
    assert s.order[..|s.order|] == s.order;
    assert survivors == Prune(c, s, now).buckets;
    PruneKeepsValid(c, s, now);
    PruneSize(c, s, now);
  }

  /** The class the service holds; every method is one critical section. */
  class Limiter {
    const config: Config
    var buckets: map<Key, Bucket>
    var order: seq<Key>
    var inflight: map<Key, nat>

    function Snapshot(): State
      reads this
    {
      State(buckets, order, inflight)
    }

    ghost predicate Valid()
      reads this
    {
      config.Valid() && Snapshot().Valid() && |buckets| <= config.maxEntries
    }

    constructor (config: Config)
      requires config.Valid()
      ensures Valid() && this.config == config && Snapshot() == State(map[], [], map[])
    {
      this.config := config;
      buckets, order, inflight := map[], [], map[];
    }

    method PruneExpired(now: real)
      requires Valid()
      modifies this
      ensures Valid() && Snapshot() == Prune(config, old(Snapshot()), now) && inflight == old(inflight)
    {
      hide *;
      ghost var before := Snapshot();
      SnapshotIsValid();
      var kept: seq<Key> := [];
      var survivors: map<Key, Bucket> := map[];
      PruneNone(config, before, now);
      var i := 0;
      while i < |order|
        invariant 0 <= i <= |order|
        invariant unchanged(this)
        invariant Pruned(config, before, now, i, kept, survivors)
      {
        var key := order[i];
        PruneOne(config, before, now, i, kept, survivors);
        if !Expired(config, buckets[key], now) {
          kept := kept + [key];
          survivors := survivors[key := buckets[key]];
        }
        i := i + 1;
      }
      PruneAll(config, before, now, kept, survivors);
      buckets, order := survivors, kept;
      BackToValid();
    }

    lemma SnapshotIsValid()
      requires Valid()
      ensures config.Valid() && Snapshot().Valid() && |buckets| <= config.maxEntries
      ensures Snapshot() == State(buckets, order, inflight)
      ensures forall k :: k in order ==> k in buckets
    {
    }

    lemma BackToValid()
      requires config.Valid() && State(buckets, order, inflight).Valid() && |buckets| <= config.maxEntries
      ensures Valid() && Snapshot() == State(buckets, order, inflight)
    {
    }

    /** The bucket for key, created, restarted or refreshed; a full table first loses its least recently seen entry. */
    method OpenBucket(key: Key, now: real)
      requires Valid()
      modifies this
      ensures Valid() && Snapshot() == Touch(config, old(Snapshot()), key, now)
      ensures key in buckets && inflight == old(inflight)
    {
      TouchKeepsValid(config, Snapshot(), key, now);
      TouchSize(config, Snapshot(), key, now);
      if key !in buckets {
        if |buckets| >= config.maxEntries && |order| > 0 {
          var oldest := Oldest(buckets, order);
          var room := Drop(Snapshot(), oldest);
          buckets, order := room.buckets, room.order;
        }
        buckets := buckets[key := Bucket(0, now, 0.0, now)];
        order := order + [key];
      } else if Expired(config, buckets[key], now) {
        buckets := buckets[key := Bucket(0, now, 0.0, now)];
      } else {
        buckets := buckets[key := buckets[key].(lastSeen := now)];
      }
    }

    method TryAcquire(account: Key, source: Key, now: real) returns (decision: Decision)
      requires Valid() && account.Account? && source.Source?
      modifies this
      ensures Valid()
      ensures (Snapshot(), decision) == Acquire(config, old(Snapshot()), account, source, now)
    {
      hide Touch, Prune, Open, Reopen, Refused, State.Valid, State.Inflight;
      if !config.enabled {
        return ADMITTED;
      }
      OpenIsTouch(config, Snapshot(), account, source, now);
      PruneExpired(now);
      OpenBucket(account, now);
      if Refused(config, Snapshot(), account, now) {
        return Refusal(Snapshot(), account);
      }
      OpenIsTouch(config, Snapshot(), account, source, now);
      OpenBucket(source, now);
      if Refused(config, Snapshot(), source, now) {
        return Refusal(Snapshot(), source);
      }
      ReserveKeepsValid(Snapshot(), account);
      inflight := inflight[account := Snapshot().Inflight(account) + 1];
      ReserveKeepsValid(Snapshot(), source);
      inflight := inflight[source := Snapshot().Inflight(source) + 1];
      decision := ADMITTED;
    }

    method Peek(account: Key, source: Key, now: real) returns (decision: Decision)
      requires Valid() && account.Account? && source.Source?
      modifies this
      ensures Valid()
      ensures (Snapshot(), decision) == Check(config, old(Snapshot()), account, source, now)
    {
      hide Touch, Prune, Expired, Blocked;
      if !config.enabled {
        return ADMITTED;
      }
      PruneExpired(now);
      OpenBucket(account, now);
      if Blocked(Snapshot(), account, now) {
        return Refusal(Snapshot(), account);
      }
      OpenBucket(source, now);
      decision := if Blocked(Snapshot(), source, now) then Refusal(Snapshot(), source) else ADMITTED;
    }

    method Free(account: Key, source: Key)
      requires Valid()
      modifies this
      ensures Valid() && Snapshot() == Release(config, old(Snapshot()), account, source)
    {
      if config.enabled {
        inflight := Unreserve(Snapshot(), account).inflight;
        inflight := Unreserve(Snapshot(), source).inflight;
      }
    }

    method Record(account: Key, source: Key, now: real) returns (decision: Decision)
      requires Valid() && account.Account? && source.Source?
      modifies this
      ensures Valid()
      ensures (Snapshot(), decision) == RecordFailure(config, old(Snapshot()), account, source, now)
    {
      hide Touch, Prune, Count, JustBlocked, Expired;
      if !config.enabled {
        return ADMITTED;
      }
      PruneExpired(now);
      OpenBucket(account, now);
      var accountBlocked, accountFailures := CountIn(account, now);
      OpenBucket(source, now);
      var sourceBlocked, sourceFailures := CountIn(source, now);
      decision :=
        if accountBlocked then Decision(false, "account", accountFailures)
        else if sourceBlocked then Decision(false, "source", sourceFailures)
        else ADMITTED;
    }

    method CountIn(key: Key, now: real) returns (justBlocked: bool, failures: nat)
      requires Valid() && key in buckets
      modifies this
      ensures Valid() && Snapshot() == Count(config, old(Snapshot()), key, now)
      ensures justBlocked == JustBlocked(config, old(Snapshot()), key, now)
      ensures failures == old(buckets)[key].failures + 1
    {
      var b := buckets[key];
      var wasBlocked := b.blockedUntil > now;
      failures := b.failures + 1;
      b := b.(failures := failures);
      justBlocked := !wasBlocked && failures >= config.LimitOf(key);
      if justBlocked {
        b := b.(blockedUntil := now + config.block);
      }
      assert buckets[key := b].Keys == buckets.Keys;
      assert |buckets[key := b]| == |buckets[key := b].Keys| == |buckets.Keys| == |buckets|;
      buckets := buckets[key := b];
    }

    method Reset(account: Key)
      requires Valid()
      modifies this
      ensures Valid() && Snapshot() == ResetAccount(config, old(Snapshot()), account)
    {
      DropKeepsValid(Snapshot(), account);
      if config.enabled {
        var dropped := Drop(Snapshot(), account);
        SubsetSize(dropped.buckets.Keys, buckets.Keys);
        assert |dropped.buckets| == |dropped.buckets.Keys| && |buckets| == |buckets.Keys|;
        buckets, order := dropped.buckets, dropped.order;
      }
    }
  }
}
