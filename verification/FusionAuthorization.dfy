/** The search result read off the provider's answer: who may see what, ranks, scores and snippets, said on the
    results' own fields (backend/app/retrieval_store.py). */
module FusionAuthorization {
  import opened Wrappers
  import opened Text
  import opened Sorting
  import opened Fusion

  /** The result is for this document, and the caller may see it. */
  predicate For(r: Scored, allowed: Option<set<int>>, d: int) {
    && r.payload.Some? && r.payload.value.documentId == Some(d) && d > 0
    && (allowed == None || d in allowed.value)
  }

  predicate Authorized(r: Scored, allowed: Option<set<int>>) {
    && r.payload.Some? && r.payload.value.documentId.Some?
    && r.payload.value.documentId.value > 0
    && match allowed case None => true case Some(ids) => r.payload.value.documentId.value in ids
  }

  lemma UsableIsFor(r: Scored, allowed: Option<set<int>>, d: int)
    ensures For(r, allowed, d) <==> Usable(r, allowed) && Doc(r) == d
    ensures Usable(r, allowed) <==> Authorized(r, allowed)
  {
  }

  /** Each lane without the results whose payload or id is missing, whose id is not positive or is not allowed. */
  ghost predicate WithoutForbidden(lanes: seq<seq<Scored>>, allowed: Option<set<int>>, kept: seq<seq<Scored>>) {
    |kept| == |lanes| && forall k :: 0 <= k < |lanes| ==> kept[k] == Filter(lanes[k], (r: Scored) => Authorized(r, allowed))
  }

  /** Taking them out first changes nothing. */
  lemma ForbiddenResultsLeaveNoTrace(query: string, allowed: Option<set<int>>, limit: int, lanes: seq<seq<Scored>>, kept: seq<seq<Scored>>)
    requires WithoutForbidden(lanes, allowed, kept)
    ensures SearchResult(query, allowed, limit, Some(kept)) == SearchResult(query, allowed, limit, Some(lanes))
  {
    hide SearchResult, Filter, Usable, Authorized;
    var t := Scrubbed(lanes, allowed);
    forall k | 0 <= k < |lanes| ensures t[k] == kept[k] {
      forall r ensures Usable(r, allowed) <==> Authorized(r, allowed) {
        UsableIsFor(r, allowed, 0);
      }
      FilterSame(lanes[k], (r: Scored) => Usable(r, allowed), (r: Scored) => Authorized(r, allowed));
    }
    assert t == kept;
    ScrubbingChangesNothing(query, allowed, limit, lanes);
  }

  // Order within a lane

  /** Result i of the lane comes before result j: a greater score, then the lesser id, then the earlier place. */
  predicate Ahead(lane: seq<Scored>, i: nat, j: nat)
    requires i < |lane| && j < |lane|
  {
    var a, b := lane[i], lane[j];
    || a.score > b.score
    || (a.score == b.score && a.id != b.id && LexLe(a.id, b.id))
    || (a.score == b.score && a.id == b.id && i < j)
  }

  /** Result i is the document's first in the lane. */
  ghost predicate Leads(lane: seq<Scored>, allowed: Option<set<int>>, i: nat, d: int) {
    && i < |lane| && For(lane[i], allowed, d)
    && forall j :: 0 <= j < |lane| && j != i && For(lane[j], allowed, d) ==> Ahead(lane, i, j)
  }

  ghost predicate Held(lane: seq<Scored>, allowed: Option<set<int>>, d: int) {
    exists i :: 0 <= i < |lane| && For(lane[i], allowed, d)
  }

  /** The result comes before every result of the document. */
  ghost predicate BeforeAll(lane: seq<Scored>, allowed: Option<set<int>>, i: nat, d: int)
    requires i < |lane|
  {
    forall j :: 0 <= j < |lane| && For(lane[j], allowed, d) ==> i != j && Ahead(lane, i, j)
  }

  ghost function DocsAhead(lane: seq<Scored>, allowed: Option<set<int>>, d: int): set<int> {
    set i | 0 <= i < |lane| && Authorized(lane[i], allowed) && BeforeAll(lane, allowed, i, d) :: lane[i].payload.value.documentId.value
  }

  /** Where the ranked results stood in the ordered lane: each is its document's first. */
  ghost predicate FirstOf(s: seq<Scored>, allowed: Option<set<int>>, ranked: seq<Scored>, at: seq<nat>)
    requires AllUsable(ranked)
  {
    FromPlaces(s, allowed, ranked, at) && AllRanked(s, allowed, ranked, at)
  }

  ghost predicate FromPlaces(s: seq<Scored>, allowed: Option<set<int>>, ranked: seq<Scored>, at: seq<nat>) {
    && |at| == |ranked|
    && (forall k :: 0 <= k < |at| ==> at[k] < |s| && ranked[k] == s[at[k]] && Usable(s[at[k]], allowed))
    && (forall j, k :: 0 <= j < k < |at| ==> at[j] < at[k])
  }

  ghost predicate AllRanked(s: seq<Scored>, allowed: Option<set<int>>, ranked: seq<Scored>, at: seq<nat>)
    requires AllUsable(ranked)
  {
    forall n :: 0 <= n < |s| && Usable(s[n], allowed) ==> RankedBy(s, n, ranked, at)
  }

  ghost predicate RankedBy(s: seq<Scored>, n: nat, ranked: seq<Scored>, at: seq<nat>)
    requires AllUsable(ranked) && n < |s| && Usable(s[n], None)
  {
    exists k :: 0 <= k < |ranked| && k < |at| && Doc(ranked[k]) == Doc(s[n]) && at[k] <= n
  }

  lemma {:induction false} SurvivorsFirst(s: seq<Scored>, allowed: Option<set<int>>) returns (at: seq<nat>)
    ensures FirstOf(s, allowed, Survivors(s, allowed), at)
    decreases |s|
  {
    hide Docs, Doc;
    if |s| == 0 {
      at := [];
    } else {
      var n := |s| - 1;
      var before := SurvivorsFirst(s[..n], allowed);
      var earlier := Survivors(s[..n], allowed);
      if Usable(s[n], allowed) {
        UsableAnyway(s[n], allowed);
      }
      var added := Usable(s[n], allowed) && Doc(s[n]) !in Docs(earlier);
      at := if added then before + [n] else before;
      FirstStep(s, allowed, earlier, before);
    }
  }

  lemma FirstStep(s: seq<Scored>, allowed: Option<set<int>>, earlier: seq<Scored>, before: seq<nat>)
    requires |s| > 0 && AllUsable(earlier) && FirstOf(s[..|s| - 1], allowed, earlier, before)
    ensures var r := s[|s| - 1];
      if Usable(r, allowed) && Doc(r) !in Docs(earlier) then FirstOf(s, allowed, earlier + [r], before + [|s| - 1])
      else FirstOf(s, allowed, earlier, before)
  {
    hide FromPlaces, AllRanked, Docs;
    var n, r := |s| - 1, s[|s| - 1];
    var added := Usable(r, allowed) && Doc(r) !in Docs(earlier);
    var ranked, at := if added then earlier + [r] else earlier, if added then before + [n] else before;
    PlacesStep(s, allowed, earlier, before, ranked, at, added);
    RankedStep(s, allowed, earlier, before, ranked, at, added);
  }

  lemma PlacesStep(s: seq<Scored>, allowed: Option<set<int>>, earlier: seq<Scored>, before: seq<nat>,
                   ranked: seq<Scored>, at: seq<nat>, added: bool)
    requires |s| > 0 && FromPlaces(s[..|s| - 1], allowed, earlier, before)
    requires if added then ranked == earlier + [s[|s| - 1]] && at == before + [|s| - 1] && Usable(s[|s| - 1], allowed)
             else ranked == earlier && at == before
    ensures FromPlaces(s, allowed, ranked, at)
    ensures |before| == |earlier| && forall k :: 0 <= k < |before| ==> before[k] < |s| - 1
  {
    hide Usable;
    assert forall k :: 0 <= k < |earlier| ==> ranked[k] == earlier[k] && at[k] == before[k];
    assert forall k :: 0 <= k < |earlier| ==> s[..|s| - 1][before[k]] == s[before[k]];
  }

  lemma RankedStep(s: seq<Scored>, allowed: Option<set<int>>, earlier: seq<Scored>, before: seq<nat>,
                   ranked: seq<Scored>, at: seq<nat>, added: bool)
    requires |s| > 0 && AllUsable(earlier) && AllUsable(ranked) && AllRanked(s[..|s| - 1], allowed, earlier, before)
    requires |before| == |earlier| && forall k :: 0 <= k < |before| ==> before[k] < |s| - 1
    requires added <==> Usable(s[|s| - 1], allowed) && Doc(s[|s| - 1]) !in Docs(earlier)
    requires if added then ranked == earlier + [s[|s| - 1]] && at == before + [|s| - 1] else ranked == earlier && at == before
    ensures AllRanked(s, allowed, ranked, at)
  {
    hide RankedBy, Docs, Doc, Usable;
    var n := |s| - 1;
    assert forall k :: 0 <= k < |earlier| ==> ranked[k] == earlier[k] && at[k] == before[k];
    forall m | 0 <= m < |s| && Usable(s[m], allowed) ensures Usable(s[m], None) && RankedBy(s, m, ranked, at) {
      UsableAnyway(s[m], allowed);
      if m < n {
        assert s[..n][m] == s[m];
        StillRanked(s, m, n, earlier, before, ranked, at);
      } else {
        LastRanked(s, earlier, before, ranked, at, allowed);
      }
    }
  }

  lemma StillRanked(s: seq<Scored>, m: nat, n: nat, earlier: seq<Scored>, before: seq<nat>, ranked: seq<Scored>, at: seq<nat>)
    requires m < n <= |s| && AllUsable(earlier) && AllUsable(ranked) && Usable(s[m], None) && RankedBy(s[..n], m, earlier, before)
    requires |earlier| <= |ranked| && |before| <= |at|
    requires forall k :: 0 <= k < |earlier| && k < |before| ==> ranked[k] == earlier[k] && at[k] == before[k]
    ensures RankedBy(s, m, ranked, at)
  {
    hide Doc, Usable;
    assert s[..n][m] == s[m];
    var k :| 0 <= k < |earlier| && k < |before| && Doc(earlier[k]) == Doc(s[m]) && before[k] <= m;
    assert ranked[k] == earlier[k] && at[k] == before[k];
  }

  lemma LastRanked(s: seq<Scored>, earlier: seq<Scored>, before: seq<nat>, ranked: seq<Scored>, at: seq<nat>, allowed: Option<set<int>>)
    requires |s| > 0 && AllUsable(earlier) && AllUsable(ranked) && Usable(s[|s| - 1], None)
    requires |before| == |earlier| && forall k :: 0 <= k < |before| ==> before[k] < |s| - 1
    requires var r := s[|s| - 1];
      if Doc(r) !in Docs(earlier) then ranked == earlier + [r] && at == before + [|s| - 1] else ranked == earlier && at == before
    ensures RankedBy(s, |s| - 1, ranked, at)
  {
    hide Doc, Usable;
    var r := s[|s| - 1];
    if Doc(r) !in Docs(earlier) {
      assert ranked[|earlier|] == r && at[|earlier|] == |s| - 1;
    } else {
      var k :| 0 <= k < |earlier| && Doc(earlier[k]) == Doc(r);
      assert ranked[k] == earlier[k] && before[k] < |s|;
    }
  }

  /** from[k] is the place in the lane of the k-th ranked result: its document's first, ahead of all that follow. */
  ghost predicate LaneRanks(lane: seq<Scored>, allowed: Option<set<int>>, ranked: seq<Scored>, from: seq<nat>)
    requires AllUsable(ranked)
  {
    && |from| == |ranked|
    && (forall k :: 0 <= k < |from| ==> from[k] < |lane| && ranked[k] == lane[from[k]] && Usable(lane[from[k]], allowed))
    && (forall j, k :: 0 <= j < k < |from| ==> Ahead(lane, from[j], from[k]))
    && (forall i :: 0 <= i < |lane| && Usable(lane[i], allowed) ==> FollowsIts(lane, i, ranked, from))
  }

  ghost predicate FollowsIts(lane: seq<Scored>, i: nat, ranked: seq<Scored>, from: seq<nat>)
    requires AllUsable(ranked) && i < |lane| && Usable(lane[i], None)
  {
    exists k :: 0 <= k < |ranked| && k < |from| && from[k] < |lane| && Doc(ranked[k]) == Doc(lane[i])
                && (from[k] == i || Ahead(lane, from[k], i))
  }

  lemma PlaceAhead(lane: seq<Scored>, s: seq<Scored>, place: seq<nat>, m: nat, n: nat)
    requires SortedFrom(lane, s, place, Before) && m < n < |place|
    ensures place[m] < |lane| && place[n] < |lane| && Ahead(lane, place[m], place[n])
  {
    LexIsOrder();
    assert Before(s[m], s[n]);
  }

  lemma AheadIsOrder(lane: seq<Scored>, i: nat, j: nat, k: nat)
    requires i < |lane| && j < |lane| && k < |lane|
    ensures !Ahead(lane, i, i) && !(Ahead(lane, i, j) && Ahead(lane, j, i))
    ensures Ahead(lane, i, j) && Ahead(lane, j, k) ==> Ahead(lane, i, k)
  {
    LexIsOrder();
  }

  lemma RankedFrom(lane: seq<Scored>, allowed: Option<set<int>>) returns (from: seq<nat>)
    ensures LaneRanks(lane, allowed, Ranked(lane, allowed), from)
  {
    hide Survivors, Sort, FirstOf, SortedFrom, LaneRanks;
    BeforeIsOrder();
    var s, ranked := Sort(lane, Before), Ranked(lane, allowed);
    var place := SortIsStable(lane, Before);
    var at := SurvivorsFirst(s, allowed);
    from := ComposePlaces(lane, s, allowed, ranked, place, at);
  }

  lemma ComposePlaces(lane: seq<Scored>, s: seq<Scored>, allowed: Option<set<int>>, ranked: seq<Scored>, place: seq<nat>, at: seq<nat>)
      returns (from: seq<nat>)
    requires AllUsable(ranked) && SortedFrom(lane, s, place, Before) && FirstOf(s, allowed, ranked, at)
    requires forall j :: 0 <= j < |lane| ==> j in place
    ensures LaneRanks(lane, allowed, ranked, from)
  {
    hide Usable, Doc, Ahead, RankedBy;
    from := seq(|at|, k requires 0 <= k < |at| && at[k] < |place| => place[at[k]]);
    forall j, k | 0 <= j < k < |from| ensures Ahead(lane, from[j], from[k]) {
      PlaceAhead(lane, s, place, at[j], at[k]);
    }
    forall i | 0 <= i < |lane| && Usable(lane[i], allowed) ensures Usable(lane[i], None) && FollowsIts(lane, i, ranked, from) {
      assert i in place;
      var n :| 0 <= n < |place| && place[n] == i;
      UsableAnyway(lane[i], allowed);
      assert s[n] == lane[i];
      FollowsOne(lane, s, ranked, place, at, from, i, n);
    }
  }

  lemma FollowsOne(lane: seq<Scored>, s: seq<Scored>, ranked: seq<Scored>, place: seq<nat>, at: seq<nat>, from: seq<nat>, i: nat, n: nat)
    requires AllUsable(ranked) && SortedFrom(lane, s, place, Before) && i < |lane| && n < |place| && n < |s| && place[n] == i
    requires Usable(lane[i], None) && s[n] == lane[i] && RankedBy(s, n, ranked, at)
    requires |from| == |at| == |ranked| && forall k :: 0 <= k < |at| ==> at[k] < |place| && from[k] == place[at[k]]
    ensures FollowsIts(lane, i, ranked, from)
  {
    hide Usable, Doc, Ahead, SortedFrom;
    var k :| 0 <= k < |ranked| && k < |at| && Doc(ranked[k]) == Doc(s[n]) && at[k] <= n;
    if at[k] < n {
      PlaceAhead(lane, s, place, at[k], n);
    }
    PlacesInRange(lane, s, place);
    assert from[k] == i || Ahead(lane, from[k], i);
  }

  lemma PlacesInRange(lane: seq<Scored>, s: seq<Scored>, place: seq<nat>)
    requires SortedFrom(lane, s, place, Before)
    ensures forall k :: 0 <= k < |place| ==> place[k] < |lane|
  {
  }

  /** Ranked results lead their documents, and every document held is ranked. */
  lemma RankedLeads(lane: seq<Scored>, allowed: Option<set<int>>, from: seq<nat>, k: nat)
    requires LaneRanks(lane, allowed, Ranked(lane, allowed), from) && k < |from|
    ensures Leads(lane, allowed, from[k], Doc(Ranked(lane, allowed)[k]))
  {
    hide Ranked, Ahead, Usable, Doc;
    var ranked, d := Ranked(lane, allowed), Doc(Ranked(lane, allowed)[k]);
    RankedDistinct(lane, allowed);
    forall j | 0 <= j < |lane| && j != from[k] && For(lane[j], allowed, d) ensures Ahead(lane, from[k], j) {
      UsableIsFor(lane[j], allowed, d);
      var m := Followed(lane, allowed, ranked, from, j);
      SameDocument(ranked, m, k);
    }
    UsableIsFor(lane[from[k]], allowed, d);
  }

  lemma Followed(lane: seq<Scored>, allowed: Option<set<int>>, ranked: seq<Scored>, from: seq<nat>, i: nat) returns (k: nat)
    requires AllUsable(ranked) && LaneRanks(lane, allowed, ranked, from) && i < |lane| && Usable(lane[i], allowed)
    ensures k < |from| && Usable(lane[i], None) && Doc(ranked[k]) == Doc(lane[i]) && (from[k] == i || Ahead(lane, from[k], i))
  {
    hide Ahead, Doc;
    assert FollowsIts(lane, i, ranked, from);
    k :| 0 <= k < |ranked| && k < |from| && from[k] < |lane| && Doc(ranked[k]) == Doc(lane[i]) && (from[k] == i || Ahead(lane, from[k], i));
  }

  lemma SameDocument(ranked: seq<Scored>, m: nat, k: nat)
    requires AllUsable(ranked) && DocsDistinct(ranked) && m < |ranked| && k < |ranked| && Doc(ranked[m]) == Doc(ranked[k])
    ensures m == k
  {
  }

  lemma LeadIsRanked(lane: seq<Scored>, allowed: Option<set<int>>, from: seq<nat>, i: nat, d: int) returns (k: nat)
    requires LaneRanks(lane, allowed, Ranked(lane, allowed), from) && Leads(lane, allowed, i, d)
    ensures k < |from| && from[k] == i && Doc(Ranked(lane, allowed)[k]) == d
  {
    hide Ranked, Ahead, Usable, Doc;
    UsableIsFor(lane[i], allowed, d);
    k := Followed(lane, allowed, Ranked(lane, allowed), from, i);
    UsableIsFor(lane[from[k]], allowed, d);
    if from[k] != i {
      AheadIsOrder(lane, i, from[k], i);
    }
  }

  lemma HeldIsRanked(lane: seq<Scored>, allowed: Option<set<int>>, d: int)
    ensures Held(lane, allowed, d) <==> d in Docs(Ranked(lane, allowed))
  {
    hide Ranked, Ahead, Usable, Doc;
    var ranked := Ranked(lane, allowed);
    var from := RankedFrom(lane, allowed);
    if i :| 0 <= i < |lane| && For(lane[i], allowed, d) {
      UsableIsFor(lane[i], allowed, d);
      var k := Followed(lane, allowed, ranked, from, i);
      assert Doc(ranked[k]) == d;
    }
    if d in Docs(ranked) {
      var k :| 0 <= k < |ranked| && Doc(ranked[k]) == d;
      UsableIsFor(lane[from[k]], allowed, d);
    }
  }

  // Ranks and scores

  lemma RankAhead(lane: seq<Scored>, allowed: Option<set<int>>, from: seq<nat>, k: nat, x: int)
    requires LaneRanks(lane, allowed, Ranked(lane, allowed), from) && k < |from|
    ensures x in DocsAhead(lane, allowed, Doc(Ranked(lane, allowed)[k])) <==> x in Docs(Ranked(lane, allowed)[..k])
  {
    hide Ranked, Ahead, Usable, Doc, For, Leads, LaneRanks;
    var ranked := Ranked(lane, allowed);
    LaneRanksAt(lane, allowed, ranked, from);
    var d := Doc(ranked[k]);
    if x in Docs(ranked[..k]) {
      var j :| 0 <= j < k && Doc(ranked[..k][j]) == x;
      EarlierIsAhead(lane, allowed, from, j, k);
    }
    if x in DocsAhead(lane, allowed, d) {
      var i :| 0 <= i < |lane| && Authorized(lane[i], allowed) && BeforeAll(lane, allowed, i, d)
        && lane[i].payload.value.documentId.value == x;
      AheadIsEarlier(lane, allowed, from, i, k);
    }
  }

  lemma LaneRanksAt(lane: seq<Scored>, allowed: Option<set<int>>, ranked: seq<Scored>, from: seq<nat>)
    requires AllUsable(ranked) && LaneRanks(lane, allowed, ranked, from)
    ensures |from| == |ranked|
    ensures forall k :: 0 <= k < |from| ==> from[k] < |lane| && ranked[k] == lane[from[k]] && Usable(lane[from[k]], allowed)
    ensures forall j, k :: 0 <= j < k < |from| ==> Ahead(lane, from[j], from[k])
  {
  }

  lemma EarlierIsAhead(lane: seq<Scored>, allowed: Option<set<int>>, from: seq<nat>, j: nat, k: nat)
    requires LaneRanks(lane, allowed, Ranked(lane, allowed), from) && j < k < |from|
    ensures Doc(Ranked(lane, allowed)[j]) in DocsAhead(lane, allowed, Doc(Ranked(lane, allowed)[k]))
  {
    hide Ranked, Ahead, Usable, Doc, For, LaneRanks;
    var ranked := Ranked(lane, allowed);
    LaneRanksAt(lane, allowed, ranked, from);
    var d := Doc(ranked[k]);
    var x, i := Doc(ranked[j]), from[j];
    RankedLeads(lane, allowed, from, k);
    RankedDistinct(lane, allowed);
    UsableIsFor(lane[i], allowed, x);
    ForDocument(lane[i], allowed, x);
    assert x != d;
    OneDocument(lane[i], allowed, x, d);
    forall l | 0 <= l < |lane| && For(lane[l], allowed, d) ensures i != l && Ahead(lane, i, l) {
      AheadIsOrder(lane, i, from[k], l);
    }
    assert BeforeAll(lane, allowed, i, d);
  }

  lemma OneDocument(r: Scored, allowed: Option<set<int>>, x: int, d: int)
    ensures For(r, allowed, x) && For(r, allowed, d) ==> x == d
  {
  }

  lemma ForDocument(r: Scored, allowed: Option<set<int>>, d: int)
    ensures For(r, allowed, d) <==> Authorized(r, allowed) && r.payload.value.documentId.value == d
  {
  }

  lemma AheadIsEarlier(lane: seq<Scored>, allowed: Option<set<int>>, from: seq<nat>, i: nat, k: nat)
    requires LaneRanks(lane, allowed, Ranked(lane, allowed), from) && k < |from| && i < |lane|
    requires Authorized(lane[i], allowed) && BeforeAll(lane, allowed, i, Doc(Ranked(lane, allowed)[k]))
    ensures lane[i].payload.value.documentId.value in Docs(Ranked(lane, allowed)[..k])
  {
    hide Ranked, Ahead, Usable, Doc, For, LaneRanks;
    var ranked, x := Ranked(lane, allowed), lane[i].payload.value.documentId.value;
    LaneRanksAt(lane, allowed, ranked, from);
    ForDocument(lane[i], allowed, x);
    UsableIsFor(lane[i], allowed, x);
    var j := Followed(lane, allowed, ranked, from, i);
    UsableIsFor(lane[from[k]], allowed, Doc(ranked[k]));
    AheadIsOrder(lane, from[j], i, from[k]);
    AheadIsOrder(lane, from[k], from[j], from[k]);
    assert j < k;
    assert Doc(ranked[..k][j]) == x;
  }

  lemma {:induction false} DocsCount(ranked: seq<Scored>)
    requires AllUsable(ranked) && DocsDistinct(ranked)
    ensures |Docs(ranked)| == |ranked|
  {
    hide Doc, Docs, Usable;
    if |ranked| == 0 {
      NoDocs();
    } else {
      var n := |ranked| - 1;
      DocsCount(ranked[..n]);
      assert ranked == ranked[..n] + [ranked[n]];
      DocsAppend(ranked[..n], ranked[n]);
      LastIsNew(ranked);
    }
  }

  lemma LastIsNew(ranked: seq<Scored>)
    requires |ranked| > 0 && AllUsable(ranked) && DocsDistinct(ranked)
    ensures Doc(ranked[|ranked| - 1]) !in Docs(ranked[..|ranked| - 1])
  {
  }

  /** What one lane adds to a document's score: 1 / (61 + the number of documents ahead of it). */
  ghost function LaneScore(lane: seq<Scored>, allowed: Option<set<int>>, d: int): real {
    if Held(lane, allowed, d) then 1.0 / (61 + |DocsAhead(lane, allowed, d)|) as real else 0.0
  }

  ghost function Score(lanes: seq<seq<Scored>>, allowed: Option<set<int>>, d: int): real {
    if |lanes| == 0 then 0.0 else Score(lanes[..|lanes| - 1], allowed, d) + LaneScore(lanes[|lanes| - 1], allowed, d)
  }

  lemma LaneScoreExact(lane: seq<Scored>, allowed: Option<set<int>>, d: int)
    ensures Contribution(Ranked(lane, allowed), d) == LaneScore(lane, allowed, d)
  {
    hide Ranked, Held, DocsAhead, Doc, Usable, LaneRanks, Contribution;
    var ranked := Ranked(lane, allowed);
    var from := RankedFrom(lane, allowed);
    RankedDistinct(lane, allowed);
    HeldIsRanked(lane, allowed, d);
    ContributionIsReciprocalRank(ranked, d);
    LaneRanksAt(lane, allowed, ranked, from);
    if d in Docs(ranked) {
      var k :| 0 <= k < |ranked| && Doc(ranked[k]) == d;
      forall x ensures x in DocsAhead(lane, allowed, d) <==> x in Docs(ranked[..k]) {
        RankAhead(lane, allowed, from, k, x);
      }
      assert DocsAhead(lane, allowed, d) == Docs(ranked[..k]);
      DocsCount(ranked[..k]);
      SixtyOne(k);
    }
  }

  lemma SixtyOne(k: nat)
    ensures Reciprocal(k + 1) == 1.0 / (61 + k) as real
  {
  }

  lemma {:induction false} ScoreExact(lanes: seq<seq<Scored>>, allowed: Option<set<int>>, d: int)
    ensures Total(lanes, allowed, d) == Score(lanes, allowed, d)
  {
    hide Contribution, LaneScore, Ranked;
    if |lanes| > 0 {
      ScoreExact(lanes[..|lanes| - 1], allowed, d);
      LaneScoreExact(lanes[|lanes| - 1], allowed, d);
    }
  }

  // The snippet

  function ChunkKey(r: Scored): string
    requires r.payload.Some?
  {
    match r.payload.value.chunkId case Some(c) => c case None => r.id
  }

  ghost predicate LeadsIn(lanes: seq<seq<Scored>>, allowed: Option<set<int>>, k: nat, i: nat, d: int) {
    k < |lanes| && Leads(lanes[k], allowed, i, d)
  }

  /** A lane's first result of the document, with the greatest provider score and then the greatest chunk id. */
  ghost predicate ShowsLead(lanes: seq<seq<Scored>>, allowed: Option<set<int>>, k: nat, i: nat, hit: RetrievalHit) {
    && LeadsIn(lanes, allowed, k, i, hit.documentId)
    && var r := lanes[k][i];
    && hit.snippet == r.payload.value.snippet
    && hit.chunkId == (if ChunkKey(r) == "" then None else Some(ChunkKey(r)))
    && forall k': nat, i': nat :: LeadsIn(lanes, allowed, k', i', hit.documentId) ==>
         var other := lanes[k'][i'];
         other.score < r.score || (other.score == r.score && LexLe(ChunkKey(other), ChunkKey(r)))
  }

  ghost predicate ShowsSomeLead(lanes: seq<seq<Scored>>, allowed: Option<set<int>>, hit: RetrievalHit) {
    exists k: nat, i: nat :: ShowsLead(lanes, allowed, k, i, hit)
  }

  lemma LeadOffers(lanes: seq<seq<Scored>>, allowed: Option<set<int>>, k: nat, i: nat, d: int)
    requires LeadsIn(lanes, allowed, k, i, d)
    ensures Usable(lanes[k][i], None) && Offered(lanes, allowed, d, CandidateOf(lanes[k][i]))
  {
    hide Ranked, Ahead, Usable, Doc, CandidateOf, LaneRanks;
    var ranked := Ranked(lanes[k], allowed);
    var from := RankedFrom(lanes[k], allowed);
    LaneRanksAt(lanes[k], allowed, ranked, from);
    var m := LeadIsRanked(lanes[k], allowed, from, i, d);
    UsableAnyway(lanes[k][i], allowed);
    assert Offers(ranked, d, CandidateOf(ranked[m]));
    assert LaneOffers(lanes[k], allowed, d, CandidateOf(ranked[m]));
  }

  lemma OfferedIsLead(lanes: seq<seq<Scored>>, allowed: Option<set<int>>, d: int, c: Candidate) returns (k: nat, i: nat)
    requires Offered(lanes, allowed, d, c)
    ensures LeadsIn(lanes, allowed, k, i, d) && Usable(lanes[k][i], None) && CandidateOf(lanes[k][i]) == c
  {
    hide Ranked, Ahead, Usable, Doc, CandidateOf, LaneRanks;
    k :| 0 <= k < |lanes| && LaneOffers(lanes[k], allowed, d, c);
    var ranked := Ranked(lanes[k], allowed);
    var from := RankedFrom(lanes[k], allowed);
    LaneRanksAt(lanes[k], allowed, ranked, from);
    var m :| 0 <= m < |ranked| && Doc(ranked[m]) == d && CandidateOf(ranked[m]) == c;
    i := from[m];
    UsableAnyway(lanes[k][i], allowed);
    RankedLeads(lanes[k], allowed, from, m);
  }

  lemma GreatestIsLead(lanes: seq<seq<Scored>>, allowed: Option<set<int>>, hit: RetrievalHit)
    requires ShowsGreatest(lanes, allowed, hit)
    ensures ShowsSomeLead(lanes, allowed, hit)
  {
    hide Offered, LeadsIn;
    var d := hit.documentId;
    var c :| Offered(lanes, allowed, d, c) && Unbeaten(lanes, allowed, d, c) && Shows(hit, c);
    var k, i := OfferedIsLead(lanes, allowed, d, c);
    InLane(lanes, allowed, k, i, d);
    forall k': nat, i': nat | LeadsIn(lanes, allowed, k', i', d)
      ensures k' < |lanes| && i' < |lanes[k']| && lanes[k'][i'].payload.Some?
      ensures var other, r := lanes[k'][i'], lanes[k][i];
        other.score < r.score || (other.score == r.score && LexLe(ChunkKey(other), ChunkKey(r)))
    {
      InLane(lanes, allowed, k', i', d);
      LeadOffers(lanes, allowed, k', i', d);
      assert !Better(CandidateOf(lanes[k'][i']), c);
    }
    assert ShowsLead(lanes, allowed, k, i, hit);
  }

  lemma InLane(lanes: seq<seq<Scored>>, allowed: Option<set<int>>, k: nat, i: nat, d: int)
    requires LeadsIn(lanes, allowed, k, i, d)
    ensures k < |lanes| && i < |lanes[k]| && lanes[k][i].payload.Some?
  {
  }

  // The whole answer

  /** Some lane holds a result for the document that the caller may see. */
  ghost predicate HeldBySome(lanes: seq<seq<Scored>>, allowed: Option<set<int>>, d: int) {
    exists k :: 0 <= k < |lanes| && Held(lanes[k], allowed, d)
  }

  lemma HeldAppears(lanes: seq<seq<Scored>>, allowed: Option<set<int>>, d: int)
    ensures HeldBySome(lanes, allowed, d) <==> Appears(lanes, allowed, d)
    ensures HeldBySome(lanes, allowed, d) ==> d > 0 && (allowed == None || d in allowed.value)
  {
    hide Held, Ranked, Docs;
    forall k | 0 <= k < |lanes|
      ensures Held(lanes[k], allowed, d) <==> d in Docs(Ranked(lanes[k], allowed))
      ensures Held(lanes[k], allowed, d) ==> d > 0 && (allowed == None || d in allowed.value)
    {
      HeldIsRanked(lanes[k], allowed, d);
      HeldIsAllowed(lanes[k], allowed, d);
    }
  }

  lemma HeldIsAllowed(lane: seq<Scored>, allowed: Option<set<int>>, d: int)
    ensures Held(lane, allowed, d) ==> d > 0 && (allowed == None || d in allowed.value)
  {
  }

  /** Every hit is a document the caller may see, and one a lane holds. */
  lemma HitsAreAuthorized(query: string, allowed: Option<set<int>>, limit: int, lanes: Option<seq<seq<Scored>>>)
    ensures forall h :: h in SearchResult(query, allowed, limit, lanes) ==>
      && h.documentId > 0 && (allowed.Some? ==> h.documentId in allowed.value)
      && lanes.Some? && HeldBySome(lanes.value, allowed, h.documentId)
  {
    var hits := SearchResult(query, allowed, limit, lanes);
    if query != "" && limit > 0 && allowed != Some({}) && lanes.Some? {
      hide SearchResult, Appears, HeldBySome, Total, Outscores, ShowsGreatest, Listed;
      SearchReturnsTheBest(query, allowed, limit, lanes.value);
      forall h | h in hits
        ensures h.documentId > 0 && (allowed.Some? ==> h.documentId in allowed.value) && HeldBySome(lanes.value, allowed, h.documentId)
      {
        HeldAppears(lanes.value, allowed, h.documentId);
      }
    }
  }

  /** The answer, in full: the documents the lanes hold for this caller, by score and then id, at most `limit` of them,
      each with its score and the snippet of its best first result; and nothing for an empty query, a limit of none,
      a filter of none, or no answer from the provider. */
  lemma SearchExact(query: string, allowed: Option<set<int>>, limit: int, lanes: Option<seq<seq<Scored>>>)
    ensures var hits := SearchResult(query, allowed, limit, lanes);
      if query == "" || limit <= 0 || allowed == Some({}) || lanes == None then hits == []
      else
        && (forall i :: 0 <= i < |hits| ==>
              && HeldBySome(lanes.value, allowed, hits[i].documentId)
              && hits[i].score == Score(lanes.value, allowed, hits[i].documentId)
              && ShowsSomeLead(lanes.value, allowed, hits[i]))
        && (forall i, j :: 0 <= i < j < |hits| ==>
              Outscores(hits[i].score, hits[i].documentId, hits[j].score, hits[j].documentId))
        && |hits| <= limit
        && (forall d :: HeldBySome(lanes.value, allowed, d) && !Listed(hits, d) ==>
              |hits| == limit && LosesToAll(hits, Score(lanes.value, allowed, d), d))
  {
    if query != "" && limit > 0 && allowed != Some({}) && lanes.Some? {
      SearchListed(query, allowed, limit, lanes.value);
    }
  }

  ghost predicate LosesToAll(hits: seq<RetrievalHit>, score: real, d: int) {
    forall i :: 0 <= i < |hits| ==> Outscores(hits[i].score, hits[i].documentId, score, d)
  }

  lemma SearchListed(query: string, allowed: Option<set<int>>, limit: int, lanes: seq<seq<Scored>>)
    requires query != "" && limit > 0 && allowed != Some({})
    ensures var hits := SearchResult(query, allowed, limit, Some(lanes));
      && (forall i :: 0 <= i < |hits| ==>
            && HeldBySome(lanes, allowed, hits[i].documentId)
            && hits[i].score == Score(lanes, allowed, hits[i].documentId)
            && ShowsSomeLead(lanes, allowed, hits[i]))
      && (forall i, j :: 0 <= i < j < |hits| ==>
            Outscores(hits[i].score, hits[i].documentId, hits[j].score, hits[j].documentId))
      && |hits| <= limit
      && (forall d :: HeldBySome(lanes, allowed, d) && !Listed(hits, d) ==>
            |hits| == limit && LosesToAll(hits, Score(lanes, allowed, d), d))
  {
    hide SearchResult, Appears, HeldBySome, Total, Outscores, ShowsGreatest, ShowsSomeLead, Listed, Score;
    SearchReturnsTheBest(query, allowed, limit, lanes);
    var hits := SearchResult(query, allowed, limit, Some(lanes));
    forall i | 0 <= i < |hits|
      ensures HeldBySome(lanes, allowed, hits[i].documentId)
      ensures hits[i].score == Score(lanes, allowed, hits[i].documentId)
      ensures ShowsSomeLead(lanes, allowed, hits[i])
    {
      HeldAppears(lanes, allowed, hits[i].documentId);
      ScoreExact(lanes, allowed, hits[i].documentId);
      GreatestIsLead(lanes, allowed, hits[i]);
    }
    forall d | HeldBySome(lanes, allowed, d) && !Listed(hits, d)
      ensures |hits| == limit && LosesToAll(hits, Score(lanes, allowed, d), d)
    {
      HeldAppears(lanes, allowed, d);
      ScoreExact(lanes, allowed, d);
    }
  }
}
