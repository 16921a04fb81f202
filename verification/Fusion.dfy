/** Reciprocal rank fusion with a local authorization check (backend/app/retrieval_store.py, Qdrant search).
    Provider scores are reals. */
module Fusion {
  import opened Wrappers
  import opened Text
  import opened Sorting

  /** What a provider stored beside a vector; documentId is None unless it is an integer. */
  datatype Payload = Payload(documentId: Option<int>, chunkId: Option<string>, snippet: string)

  datatype Scored = Scored(id: string, score: real, payload: Option<Payload>)

  datatype Candidate = Candidate(score: real, chunkId: string, snippet: string)

  datatype RetrievalHit = RetrievalHit(documentId: int, snippet: string, score: real, chunkId: Option<string>)

  const RRF_K := 60

  /** Highest score first, ties by result id. */
  predicate Before(a: Scored, b: Scored) {
    a.score > b.score || (a.score == b.score && LexLe(a.id, b.id))
  }

  /** A positive document id that the filter, if there is one, admits. */
  predicate Usable(r: Scored, allowed: Option<set<int>>) {
    && r.payload.Some? && r.payload.value.documentId.Some? && r.payload.value.documentId.value > 0
    && (allowed.Some? ==> r.payload.value.documentId.value in allowed.value)
  }

  function Doc(r: Scored): int
    requires Usable(r, None)
  {
    r.payload.value.documentId.value
  }

  predicate AllUsable(s: seq<Scored>) {
    forall i :: 0 <= i < |s| ==> Usable(s[i], None)
  }

  function Docs(s: seq<Scored>): set<int>
    requires AllUsable(s)
  {
    set i | 0 <= i < |s| :: Doc(s[i])
  }

  /** The results that receive a rank: the first usable one of each document. */
  function Survivors(s: seq<Scored>, allowed: Option<set<int>>): (ranked: seq<Scored>)
    ensures AllUsable(ranked)
  {
    if |s| == 0 then []
    else
      var earlier, r := Survivors(s[..|s| - 1], allowed), s[|s| - 1];
      if Usable(r, allowed) && Doc(r) !in Docs(earlier) then earlier + [r] else earlier
  }

  function Ranked(lane: seq<Scored>, allowed: Option<set<int>>): (ranked: seq<Scored>)
    ensures AllUsable(ranked)
  {
    Survivors(Sort(lane, Before), allowed)
  }

  // The fused and best dictionaries; `docs` is the insertion order of both

  datatype Board = Board(docs: seq<int>, fused: map<int, real>, best: map<int, Candidate>)

  const EMPTY := Board([], map[], map[])

  function CandidateOf(r: Scored): Candidate
    requires Usable(r, None)
  {
    Candidate(r.score, match r.payload.value.chunkId case Some(c) => c case None => r.id, r.payload.value.snippet)
  }

  /** The strict tuple comparison (score, chunk_id) > (score, chunk_id). */
  predicate Better(a: Candidate, b: Candidate) {
    a.score > b.score || (a.score == b.score && !LexLe(a.chunkId, b.chunkId))
  }

  function Fused(board: Board, d: int): real {
    if d in board.fused then board.fused[d] else 0.0
  }

  function Reciprocal(rank: nat): real {
    1.0 / (RRF_K + rank) as real
  }

  function Credit(board: Board, r: Scored, rank: nat): Board
    requires Usable(r, None)
  {
    var d, candidate := Doc(r), CandidateOf(r);
    Board(
      if d in board.fused then board.docs else board.docs + [d],
      board.fused[d := Fused(board, d) + Reciprocal(rank)],
      if d !in board.best || Better(candidate, board.best[d]) then board.best[d := candidate] else board.best)
  }

  function CreditLane(board: Board, ranked: seq<Scored>): Board
    requires AllUsable(ranked)
  {
    if |ranked| == 0 then board
    else Credit(CreditLane(board, ranked[..|ranked| - 1]), ranked[|ranked| - 1], |ranked|)
  }

  function FuseLanes(lanes: seq<seq<Scored>>, allowed: Option<set<int>>): Board {
    if |lanes| == 0 then EMPTY
    else CreditLane(FuseLanes(lanes[..|lanes| - 1], allowed), Ranked(lanes[|lanes| - 1], allowed))
  }

  function ByScore(board: Board): (int, int) -> bool {
    (a, b) => Fused(board, a) > Fused(board, b) || (Fused(board, a) == Fused(board, b) && a <= b)
  }

  predicate Filled(board: Board) {
    forall d :: d in board.docs ==> d in board.fused && d in board.best
  }

  function HitOf(board: Board, d: int): RetrievalHit
    requires d in board.fused && d in board.best
  {
    var best := board.best[d];
    RetrievalHit(d, best.snippet, board.fused[d], if best.chunkId == "" then None else Some(best.chunkId))
  }

  function Hits(board: Board, docs: seq<int>): (hits: seq<RetrievalHit>)
    requires forall d :: d in docs ==> d in board.fused && d in board.best
    ensures |hits| == |docs| && forall i :: 0 <= i < |docs| ==> hits[i] == HitOf(board, docs[i])
  {
    if |docs| == 0 then [] else [HitOf(board, docs[0])] + Hits(board, docs[1..])
  }

  function Top(board: Board, limit: nat): seq<RetrievalHit>
    requires Filled(board)
  {
    var ordered := Take(Sort(board.docs, ByScore(board)), limit);
    assert forall d :: d in ordered ==> d in board.docs by {
      forall d | d in ordered ensures d in board.docs {
        SortMembers(board.docs, ByScore(board), d);
      }
    }
    Hits(board, ordered)
  }

  /** `lanes` is None when there is no client, no query vector, or the provider call fails. */
  function SearchResult(query: string, allowed: Option<set<int>>, limit: int, lanes: Option<seq<seq<Scored>>>)
    : seq<RetrievalHit>
  {
    if query == "" || limit <= 0 || allowed == Some({}) || lanes.None? then []
    else
      BoardInvariant(lanes.value, allowed);
      Top(FuseLanes(lanes.value, allowed), limit)
  }

  method Search(query: string, allowed: Option<set<int>>, limit: int, lanes: Option<seq<seq<Scored>>>)
    returns (hits: seq<RetrievalHit>)
    ensures hits == SearchResult(query, allowed, limit, lanes)
  {
    hide Top, Credit, Before;
    if query == "" || limit <= 0 || allowed == Some({}) || lanes.None? {
      return [];
    }
    var board := EMPTY;
    var k := 0;
    while k < |lanes.value|
      invariant 0 <= k <= |lanes.value|
      invariant board == FuseLanes(lanes.value[..k], allowed)
    {
      board := FuseOne(board, lanes.value[k], allowed);
      assert lanes.value[..k + 1][..k] == lanes.value[..k];
      k := k + 1;
    }
    assert lanes.value[..k] == lanes.value;
    BoardInvariant(lanes.value, allowed);
    hits := Top(board, limit);
  }

  /** The lane's variables after its first `i` ordered results. */
  ghost predicate RankedSoFar(start: Board, prefix: seq<Scored>, allowed: Option<set<int>>,
                              seen: set<int>, rank: nat, board: Board)
  {
    var ranked := Survivors(prefix, allowed);
    seen == Docs(ranked) && rank == |ranked| && board == CreditLane(start, ranked)
  }

  lemma RankOne(start: Board, prefix: seq<Scored>, r: Scored, allowed: Option<set<int>>,
                seen: set<int>, rank: nat, board: Board)
    requires RankedSoFar(start, prefix, allowed, seen, rank, board)
    ensures !Usable(r, allowed) ==> RankedSoFar(start, prefix + [r], allowed, seen, rank, board)
    ensures Usable(r, allowed) ==>
      && Usable(r, None)
      && (if Doc(r) in seen then RankedSoFar(start, prefix + [r], allowed, seen, rank, board)
          else RankedSoFar(start, prefix + [r], allowed, seen + {Doc(r)}, rank + 1, Credit(board, r, rank + 1)))
  {
    hide Credit, Docs, Survivors;
    var earlier := Survivors(prefix, allowed);
    SurvivorsAppend(prefix, r, allowed);
    if Usable(r, allowed) && Doc(r) !in seen {
      DocsAppend(earlier, r);
      assert (earlier + [r])[..|earlier|] == earlier;
    }
  }

  /** One lane's loop over seen_documents and rank. */
  method FuseOne(start: Board, lane: seq<Scored>, allowed: Option<set<int>>) returns (board: Board)
    ensures board == CreditLane(start, Ranked(lane, allowed))
  {
    board := start;
    var ordered := Sort(lane, Before);
    var seen: set<int>, rank: nat := {}, 0;
    NoDocs();
    assert RankedSoFar(start, ordered[..0], allowed, seen, rank, board);
    hide Sort, Credit, Docs, RankedSoFar, Survivors, Usable, Doc;
    var i := 0;
    while i < |ordered|
      invariant 0 <= i <= |ordered|
      invariant RankedSoFar(start, ordered[..i], allowed, seen, rank, board)
    {
      var r := ordered[i];
      RankOne(start, ordered[..i], r, allowed, seen, rank, board);
      assert ordered[..i + 1] == ordered[..i] + [r];
      i := i + 1;
      if !Usable(r, allowed) || Doc(r) in seen {
        continue;
      }
      seen := seen + {Doc(r)};
      rank := rank + 1;
      board := Credit(board, r, rank);
    }
    assert ordered[..i] == ordered;
    RankedAtEnd(start, ordered, allowed, seen, rank, board);
  }

  lemma RankedAtEnd(start: Board, ordered: seq<Scored>, allowed: Option<set<int>>,
                    seen: set<int>, rank: nat, board: Board)
    requires RankedSoFar(start, ordered, allowed, seen, rank, board)
    ensures board == CreditLane(start, Survivors(ordered, allowed))
  {
  }

  lemma NoDocs()
    ensures Docs([]) == {}
  {
  }

  lemma DocsAppend(s: seq<Scored>, r: Scored)
    requires AllUsable(s) && Usable(r, None)
    ensures Docs(s + [r]) == Docs(s) + {Doc(r)}
  {
    var t := s + [r];
    forall d ensures d in Docs(t) <==> d in Docs(s) + {Doc(r)} {
      if d in Docs(s) {
        var i :| 0 <= i < |s| && Doc(s[i]) == d;
        assert t[i] == s[i];
      }
      if d == Doc(r) {
        assert t[|s|] == r;
      }
    }
  }

  // Ranks

  ghost function UsableDocs(s: seq<Scored>, allowed: Option<set<int>>): set<int> {
    set i | 0 <= i < |s| && Usable(s[i], allowed) :: Doc(s[i])
  }

  ghost predicate DocsDistinct(ranked: seq<Scored>)
    requires AllUsable(ranked)
  {
    forall i, j :: 0 <= i < j < |ranked| ==> Doc(ranked[i]) != Doc(ranked[j])
  }

  /** A rank counts distinct authorized documents only. */
  lemma {:induction false} RankCountsDocuments(s: seq<Scored>, allowed: Option<set<int>>)
    ensures
      var ranked := Survivors(s, allowed);
      && DocsDistinct(ranked)
      && Docs(ranked) == UsableDocs(s, allowed)
      && |ranked| == |UsableDocs(s, allowed)|
    decreases |s|
  {
    if |s| == 0 {
    } else {
      hide *;
      var earlier, r := Survivors(s[..|s| - 1], allowed), s[|s| - 1];
      RankCountsDocuments(s[..|s| - 1], allowed);
      RankCountsStep(s[..|s| - 1], r, allowed);
      assert s[..|s| - 1] + [r] == s;
    }
  }

  lemma SurvivorsAppend(s: seq<Scored>, r: Scored, allowed: Option<set<int>>)
    ensures Survivors(s + [r], allowed) ==
      if Usable(r, allowed) && Doc(r) !in Docs(Survivors(s, allowed)) then Survivors(s, allowed) + [r] else Survivors(s, allowed)
  {
    hide Usable, Doc, Docs;
    assert (s + [r])[..|s|] == s;
  }

  lemma RankCountsStep(s: seq<Scored>, r: Scored, allowed: Option<set<int>>)
    requires var ranked := Survivors(s, allowed);
      DocsDistinct(ranked) && Docs(ranked) == UsableDocs(s, allowed) && |ranked| == |UsableDocs(s, allowed)|
    ensures var ranked := Survivors(s + [r], allowed);
      && DocsDistinct(ranked)
      && Docs(ranked) == UsableDocs(s + [r], allowed) && |ranked| == |UsableDocs(s + [r], allowed)|
  {
    hide *;
    var earlier := Survivors(s, allowed);
    SurvivorsAppend(s, r, allowed);
    UsableDocsAppend(s, r, allowed);
    if Usable(r, allowed) {
      UsableAnyway(r, allowed);
      if Doc(r) !in Docs(earlier) {
        DocsAppend(earlier, r);
        DistinctAppend(earlier, r);
      } else {
        assert Docs(earlier) + {Doc(r)} == Docs(earlier);
      }
    }
  }

  lemma UsableAnyway(r: Scored, allowed: Option<set<int>>)
    requires Usable(r, allowed)
    ensures Usable(r, None)
  {
  }

  lemma DistinctAppend(s: seq<Scored>, r: Scored)
    requires AllUsable(s) && DocsDistinct(s) && Usable(r, None) && Doc(r) !in Docs(s)
    ensures DocsDistinct(s + [r])
  {
    forall i | 0 <= i < |s| ensures Doc(s[i]) != Doc(r) {
      assert Doc(s[i]) in Docs(s);
    }
  }

  lemma UsableDocsAppend(s: seq<Scored>, r: Scored, allowed: Option<set<int>>)
    ensures UsableDocs(s + [r], allowed) == UsableDocs(s, allowed) + if Usable(r, allowed) then {Doc(r)} else {}
  {
    var t := s + [r];
    forall d ensures d in UsableDocs(t, allowed) <==>
                     d in UsableDocs(s, allowed) + if Usable(r, allowed) then {Doc(r)} else {}
    {
      if d in UsableDocs(s, allowed) {
        var i :| 0 <= i < |s| && Usable(s[i], allowed) && Doc(s[i]) == d;
        assert t[i] == s[i];
      }
      if Usable(r, allowed) && d == Doc(r) {
        assert t[|s|] == r;
      }
    }
  }

  // Scores

  /** 1 / (60 + rank) when the document is ranked in the lane, else 0. */
  function Contribution(ranked: seq<Scored>, d: int): real
    requires AllUsable(ranked)
  {
    if |ranked| == 0 then 0.0
    else if Doc(ranked[|ranked| - 1]) == d then Reciprocal(|ranked|)
    else Contribution(ranked[..|ranked| - 1], d)
  }

  function Total(lanes: seq<seq<Scored>>, allowed: Option<set<int>>, d: int): real {
    if |lanes| == 0 then 0.0
    else Total(lanes[..|lanes| - 1], allowed, d) + Contribution(Ranked(lanes[|lanes| - 1], allowed), d)
  }

  lemma {:induction false} ContributionIsReciprocalRank(ranked: seq<Scored>, d: int)
    requires AllUsable(ranked) && DocsDistinct(ranked)
    ensures d !in Docs(ranked) ==> Contribution(ranked, d) == 0.0
    ensures forall k :: 0 <= k < |ranked| && Doc(ranked[k]) == d ==> Contribution(ranked, d) == Reciprocal(k + 1)
  {
    if |ranked| == 0 {
    } else {
      var n := |ranked| - 1;
      ContributionIsReciprocalRank(ranked[..n], d);
      assert ranked == ranked[..n] + [ranked[n]];
      DocsAppend(ranked[..n], ranked[n]);
    }
  }

  lemma {:induction false} CreditLaneScores(board: Board, ranked: seq<Scored>, d: int)
    requires AllUsable(ranked) && DocsDistinct(ranked)
    ensures Fused(CreditLane(board, ranked), d) == Fused(board, d) + Contribution(ranked, d)
    ensures d in CreditLane(board, ranked).fused <==> d in board.fused || d in Docs(ranked)
  {
    hide Reciprocal, CandidateOf, Better;
    if |ranked| == 0 {
    } else {
      var n := |ranked| - 1;
      CreditLaneScores(board, ranked[..n], d);
      ContributionIsReciprocalRank(ranked[..n], d);
      assert ranked == ranked[..n] + [ranked[n]];
      DocsAppend(ranked[..n], ranked[n]);
      if Doc(ranked[n]) == d {
        assert d !in Docs(ranked[..n]);
      }
    }
  }

  ghost predicate Appears(lanes: seq<seq<Scored>>, allowed: Option<set<int>>, d: int) {
    exists k :: 0 <= k < |lanes| && d in Docs(Ranked(lanes[k], allowed))
  }

  /** Every fused score is the sum over lanes of 1 / (60 + rank). */
  lemma {:induction false} FusedScore(lanes: seq<seq<Scored>>, allowed: Option<set<int>>, d: int)
    ensures Fused(FuseLanes(lanes, allowed), d) == Total(lanes, allowed, d)
    ensures d in FuseLanes(lanes, allowed).fused <==> Appears(lanes, allowed, d)
  {
    hide Ranked, Docs, Contribution, CreditLane;
    if |lanes| == 0 {
    } else {
      var n := |lanes| - 1;
      FusedScore(lanes[..n], allowed, d);
      RankCountsDocuments(Sort(lanes[n], Before), allowed);
      assert DocsDistinct(Ranked(lanes[n], allowed)) by { RankedDistinct(lanes[n], allowed); }
      CreditLaneScores(FuseLanes(lanes[..n], allowed), Ranked(lanes[n], allowed), d);
      AppearsInit(lanes, allowed, d);
    }
  }

  lemma RankedDistinct(lane: seq<Scored>, allowed: Option<set<int>>)
    ensures DocsDistinct(Ranked(lane, allowed))
  {
    RankCountsDocuments(Sort(lane, Before), allowed);
  }

  lemma AppearsInit(lanes: seq<seq<Scored>>, allowed: Option<set<int>>, d: int)
    requires |lanes| > 0
    ensures Appears(lanes, allowed, d) <==>
      Appears(lanes[..|lanes| - 1], allowed, d) || d in Docs(Ranked(lanes[|lanes| - 1], allowed))
  {
    hide Ranked, Docs;
    var n := |lanes| - 1;
    if Appears(lanes[..n], allowed, d) {
      var k :| 0 <= k < n && d in Docs(Ranked(lanes[..n][k], allowed));
      assert lanes[..n][k] == lanes[k];
    }
    if k :| 0 <= k < n && d in Docs(Ranked(lanes[k], allowed)) {
      assert lanes[..n][k] == lanes[k];
    }
  }

  // The dictionaries stay in step

  ghost predicate InStep(board: Board) {
    && Distinct(board.docs)
    && (forall d :: d in board.docs <==> d in board.fused)
    && (forall d :: d in board.fused <==> d in board.best)
  }

  lemma {:induction false} LaneInStep(board: Board, ranked: seq<Scored>)
    requires InStep(board) && AllUsable(ranked)
    ensures InStep(CreditLane(board, ranked))
  {
    hide Reciprocal, CandidateOf, Better, Fused, Doc;
    if |ranked| > 0 {
      LaneInStep(board, ranked[..|ranked| - 1]);
    }
  }

  lemma {:induction false} BoardInvariant(lanes: seq<seq<Scored>>, allowed: Option<set<int>>)
    ensures InStep(FuseLanes(lanes, allowed)) && Filled(FuseLanes(lanes, allowed))
  {
    hide Ranked, CreditLane;
    if |lanes| > 0 {
      BoardInvariant(lanes[..|lanes| - 1], allowed);
      LaneInStep(FuseLanes(lanes[..|lanes| - 1], allowed), Ranked(lanes[|lanes| - 1], allowed));
    }
  }

  // The snippet shown

  ghost predicate Offers(ranked: seq<Scored>, d: int, c: Candidate)
    requires AllUsable(ranked)
  {
    exists i :: 0 <= i < |ranked| && Doc(ranked[i]) == d && CandidateOf(ranked[i]) == c
  }

  ghost predicate LaneOffers(lane: seq<Scored>, allowed: Option<set<int>>, d: int, c: Candidate) {
    Offers(Ranked(lane, allowed), d, c)
  }

  ghost predicate Offered(lanes: seq<seq<Scored>>, allowed: Option<set<int>>, d: int, c: Candidate) {
    exists k :: 0 <= k < |lanes| && LaneOffers(lanes[k], allowed, d, c)
  }

  lemma BetterIsStrictOrder(a: Candidate, b: Candidate, c: Candidate)
    ensures !Better(a, a)
    ensures !Better(a, b) && !Better(b, c) ==> !Better(a, c)
    ensures Better(a, b) ==> !Better(b, a)
  {
    LexIsOrder();
  }

  lemma OffersAppend(s: seq<Scored>, r: Scored, d: int, c: Candidate)
    requires AllUsable(s) && Usable(r, None)
    ensures Offers(s + [r], d, c) <==> Offers(s, d, c) || (Doc(r) == d && CandidateOf(r) == c)
  {
    var t := s + [r];
    if Offers(s, d, c) {
      var i :| 0 <= i < |s| && Doc(s[i]) == d && CandidateOf(s[i]) == c;
      assert t[i] == s[i];
    }
    if Doc(r) == d && CandidateOf(r) == c {
      assert t[|s|] == r;
    }
  }

  /** After a lane, the best candidate of d was on the board or in the lane, and beats neither's others. */
  lemma {:induction false} CreditLaneBest(board: Board, ranked: seq<Scored>, d: int)
    requires AllUsable(ranked)
    ensures var after := CreditLane(board, ranked);
      && (d in after.best ==> (d in board.best && after.best[d] == board.best[d]) || Offers(ranked, d, after.best[d]))
      && (d in board.best ==> d in after.best && !Better(board.best[d], after.best[d]))
      && (forall c :: Offers(ranked, d, c) ==> d in after.best && !Better(c, after.best[d]))
  {
    hide Better, Offers, CandidateOf, Fused, Reciprocal, Doc;
    if |ranked| == 0 {
      NothingOffered(d);
      if d in board.best {
        BetterIsStrictOrder(board.best[d], board.best[d], board.best[d]);
      }
    } else {
      var n := |ranked| - 1;
      var before, r, after := CreditLane(board, ranked[..n]), ranked[n], CreditLane(board, ranked);
      CreditLaneBest(board, ranked[..n], d);
      assert ranked == ranked[..n] + [r];
      CreditBest(before, r, |ranked|, d);
      if d in after.best {
        OffersAppend(ranked[..n], r, d, after.best[d]);
      }
      if d in board.best {
        BetterIsStrictOrder(board.best[d], before.best[d], after.best[d]);
      }
      forall c | Offers(ranked, d, c) ensures d in after.best && !Better(c, after.best[d]) {
        OffersAppend(ranked[..n], r, d, c);
        if Offers(ranked[..n], d, c) {
          BetterIsStrictOrder(c, before.best[d], after.best[d]);
        }
      }
    }
  }

  lemma NothingOffered(d: int)
    ensures forall c :: !Offers([], d, c)
  {
  }

  lemma CreditBest(board: Board, r: Scored, rank: nat, d: int)
    requires Usable(r, None)
    ensures var after := Credit(board, r, rank);
      && (d in after.best ==>
            (d in board.best && after.best[d] == board.best[d]) || (Doc(r) == d && after.best[d] == CandidateOf(r)))
      && (d in board.best ==> d in after.best && !Better(board.best[d], after.best[d]))
      && (Doc(r) == d ==> d in after.best && !Better(CandidateOf(r), after.best[d]))
  {
    hide Better, Fused, Reciprocal, CandidateOf;
    var c := CandidateOf(r);
    BetterIsStrictOrder(c, c, c);
    if d in board.best {
      BetterIsStrictOrder(board.best[d], board.best[d], c);
      BetterIsStrictOrder(c, board.best[d], c);
    }
  }

  /** The stored candidate of a document is one its ranked results offer, and none of them beats it on
      (provider score, chunk id). */
  lemma {:induction false} BestIsGreatest(lanes: seq<seq<Scored>>, allowed: Option<set<int>>, d: int)
    ensures var best := FuseLanes(lanes, allowed).best;
      && (d in best ==> Offered(lanes, allowed, d, best[d]))
      && (forall c :: Offered(lanes, allowed, d, c) ==> d in best && !Better(c, best[d]))
  {
    hide Better, Offers, Ranked, CreditLane;
    if |lanes| == 0 {
    } else {
      var n := |lanes| - 1;
      var before, last := FuseLanes(lanes[..n], allowed), Ranked(lanes[n], allowed);
      BestIsGreatest(lanes[..n], allowed, d);
      CreditLaneBest(before, last, d);
      var best := FuseLanes(lanes, allowed).best;
      if d in best {
        OfferedInit(lanes, allowed, d, best[d]);
      }
      forall c | Offered(lanes, allowed, d, c) ensures d in best && !Better(c, best[d]) {
        OfferedInit(lanes, allowed, d, c);
        if Offered(lanes[..n], allowed, d, c) {
          BetterIsStrictOrder(c, before.best[d], best[d]);
        }
      }
    }
  }

  lemma OfferedInit(lanes: seq<seq<Scored>>, allowed: Option<set<int>>, d: int, c: Candidate)
    requires |lanes| > 0
    ensures Offered(lanes, allowed, d, c) <==>
      Offered(lanes[..|lanes| - 1], allowed, d, c) || LaneOffers(lanes[|lanes| - 1], allowed, d, c)
  {
    hide LaneOffers;
    var n := |lanes| - 1;
    if Offered(lanes[..n], allowed, d, c) {
      var k :| 0 <= k < n && LaneOffers(lanes[..n][k], allowed, d, c);
      assert lanes[..n][k] == lanes[k];
    }
    if k :| 0 <= k < n && LaneOffers(lanes[k], allowed, d, c) {
      assert lanes[..n][k] == lanes[k];
    }
  }

  // The list returned

  lemma ByScoreIsOrder(board: Board, s: seq<int>)
    ensures TotalPreorder(ByScore(board)) && Separates(ByScore(board), s)
  {
    hide Fused;
  }

  ghost predicate Listed(hits: seq<RetrievalHit>, d: int) {
    exists i :: 0 <= i < |hits| && hits[i].documentId == d
  }

  /** `first` is returned ahead of `second`: a greater score, or the same score and the lesser id. */
  predicate Outscores(firstScore: real, first: int, secondScore: real, second: int) {
    firstScore > secondScore || (firstScore == secondScore && first < second)
  }

  /** No ranked result of the document offers a greater candidate. */
  ghost predicate Unbeaten(lanes: seq<seq<Scored>>, allowed: Option<set<int>>, d: int, c: Candidate) {
    forall other :: Offered(lanes, allowed, d, other) ==> !Better(other, c)
  }

  predicate Shows(hit: RetrievalHit, c: Candidate) {
    hit.snippet == c.snippet && hit.chunkId == if c.chunkId == "" then None else Some(c.chunkId)
  }

  ghost predicate ShowsGreatest(lanes: seq<seq<Scored>>, allowed: Option<set<int>>, hit: RetrievalHit) {
    exists c :: Offered(lanes, allowed, hit.documentId, c) && Unbeaten(lanes, allowed, hit.documentId, c) && Shows(hit, c)
  }

  lemma HitShowsGreatest(lanes: seq<seq<Scored>>, allowed: Option<set<int>>, hit: RetrievalHit)
    requires IsHit(FuseLanes(lanes, allowed), hit)
    ensures ShowsGreatest(lanes, allowed, hit)
  {
    hide FuseLanes, Offered, Better;
    BestIsGreatest(lanes, allowed, hit.documentId);
    assert Shows(hit, FuseLanes(lanes, allowed).best[hit.documentId]);
  }

  /** The returned list is exactly the `limit` best-scoring documents, best first, each with its fused score and with
      the snippet and chunk id of its greatest candidate. */
  lemma SearchReturnsTheBest(query: string, allowed: Option<set<int>>, limit: int, lanes: seq<seq<Scored>>)
    requires query != "" && limit > 0 && allowed != Some({})
    ensures var hits := SearchResult(query, allowed, limit, Some(lanes));
      && (forall i :: 0 <= i < |hits| ==>
            && hits[i].score == Total(lanes, allowed, hits[i].documentId) && Appears(lanes, allowed, hits[i].documentId)
            && ShowsGreatest(lanes, allowed, hits[i]))
      && (forall i, j :: 0 <= i < j < |hits| ==>
            Outscores(hits[i].score, hits[i].documentId, hits[j].score, hits[j].documentId))
      && |hits| <= limit
      && (forall d :: Appears(lanes, allowed, d) && !Listed(hits, d) ==>
            && |hits| == limit
            && forall i :: 0 <= i < |hits| ==> Outscores(hits[i].score, hits[i].documentId, Total(lanes, allowed, d), d))
  {
    hide FuseLanes, Total, Appears, ShowsGreatest;
    var board := FuseLanes(lanes, allowed);
    BoardInvariant(lanes, allowed);
    forall d ensures Fused(board, d) == Total(lanes, allowed, d) && (d in board.fused <==> Appears(lanes, allowed, d)) {
      FusedScore(lanes, allowed, d);
    }
    TopIsBest(board, limit);
    var hits := Top(board, limit);
    forall i | 0 <= i < |hits| ensures ShowsGreatest(lanes, allowed, hits[i]) {
      HitShowsGreatest(lanes, allowed, hits[i]);
    }
    forall d | Appears(lanes, allowed, d) && !Listed(hits, d)
      ensures |hits| == limit
      ensures forall i :: 0 <= i < |hits| ==> Outscores(hits[i].score, hits[i].documentId, Total(lanes, allowed, d), d)
    {
      assert d in board.docs;
    }
  }

  /** The entry of a document on the board. */
  ghost predicate IsHit(board: Board, hit: RetrievalHit) {
    var d := hit.documentId;
    d in board.docs && d in board.fused && d in board.best && hit == HitOf(board, d)
  }

  lemma TopIsBest(board: Board, limit: nat)
    requires InStep(board) && Filled(board)
    ensures var hits := Top(board, limit);
      && (forall i :: 0 <= i < |hits| ==> IsHit(board, hits[i]))
      && (forall i, j :: 0 <= i < j < |hits| ==>
            Outscores(hits[i].score, hits[i].documentId, hits[j].score, hits[j].documentId))
      && |hits| <= limit
      && (forall d :: d in board.docs && !Listed(hits, d) ==>
            && |hits| == limit
            && forall i :: 0 <= i < |hits| ==> Outscores(hits[i].score, hits[i].documentId, Fused(board, d), d))
  {
    var le := ByScore(board);
    var all := Sort(board.docs, le);
    var hits := Top(board, limit);
    ByScoreIsOrder(board, board.docs);
    SortSorts(board.docs, le);
    SortDistinct(board.docs, le);
    hide Sort, ByScore, Top;
    forall d ensures d in all <==> d in board.docs {
      SortMembers(board.docs, le, d);
    }
    TopIs(board, limit);
    forall i, j | 0 <= i < j < |all| ensures Outscores(Fused(board, all[i]), all[i], Fused(board, all[j]), all[j]) {
      assert le(all[i], all[j]) && all[i] != all[j];
      ByScoreOutscores(board, all[i], all[j]);
    }
    forall i | 0 <= i < |hits| ensures Listed(hits, all[i]) && IsHit(board, hits[i]) {
      assert hits[i].documentId == all[i];
    }
    forall d | d in board.docs && !Listed(hits, d)
      ensures |hits| == limit
      ensures forall i :: 0 <= i < |hits| ==> Outscores(hits[i].score, hits[i].documentId, Fused(board, d), d)
    {
      var k :| 0 <= k < |all| && all[k] == d;
    }
  }

  lemma TopIs(board: Board, limit: nat)
    requires InStep(board) && Filled(board)
    ensures var hits, all := Top(board, limit), Sort(board.docs, ByScore(board));
      && |hits| == (if limit <= |all| then limit else |all|)
      && forall i :: 0 <= i < |hits| ==>
           all[i] in board.fused && all[i] in board.best && hits[i] == HitOf(board, all[i])
  {
    forall d ensures d in Sort(board.docs, ByScore(board)) <==> d in board.docs {
      SortMembers(board.docs, ByScore(board), d);
    }
  }

  lemma ByScoreOutscores(board: Board, a: int, b: int)
    requires ByScore(board)(a, b) && a != b
    ensures Outscores(Fused(board, a), a, Fused(board, b), b)
  {
  }

  // Noninterference

  /** Unauthorized and malformed results of a lane cannot change its ranks. */
  lemma RankedIgnoresUnusable(lane: seq<Scored>, allowed: Option<set<int>>)
    ensures Ranked(lane, allowed) == Survivors(Sort(Filter(lane, (r: Scored) => Usable(r, allowed)), Before), allowed)
  {
    BeforeIsOrder();
    var p := (r: Scored) => Usable(r, allowed);
    SortFilter(lane, Before, p);
    SurvivorsFilter(Sort(lane, Before), allowed);
  }

  lemma BeforeIsOrder()
    ensures TotalPreorder(Before)
  {
    LexIsOrder();
  }

  lemma {:induction false} SurvivorsFilter(s: seq<Scored>, allowed: Option<set<int>>)
    ensures Survivors(Filter(s, (r: Scored) => Usable(r, allowed)), allowed) == Survivors(s, allowed)
  {
    hide Usable, Docs, Doc, Filter;
    var p := (r: Scored) => Usable(r, allowed);
    if |s| == 0 {
      FilterKeepsAll(s, p);
    } else {
      var n := |s| - 1;
      SurvivorsFilter(s[..n], allowed);
      FilterAppend(s[..n], s[n], p);
      assert s == s[..n] + [s[n]];
      var kept := Filter(s[..n], p);
      if Usable(s[n], allowed) {
        assert (kept + [s[n]])[..|kept|] == kept;
      } else {
        assert kept + [] == kept;
      }
    }
  }

  ghost predicate DistinctIds(s: seq<Scored>) {
    forall i, j :: 0 <= i < j < |s| ==> s[i].id != s[j].id
  }

  /** Two lanes whose usable results are the same, in any order, with different ids. */
  ghost predicate Alike(a: seq<Scored>, b: seq<Scored>, allowed: Option<set<int>>) {
    var p := (r: Scored) => Usable(r, allowed);
    Filter(a, p) == Filter(b, p) || (multiset(Filter(a, p)) == multiset(Filter(b, p)) && DistinctIds(Filter(a, p)))
  }

  lemma AlikeRanked(a: seq<Scored>, b: seq<Scored>, allowed: Option<set<int>>)
    requires Alike(a, b, allowed)
    ensures Ranked(a, allowed) == Ranked(b, allowed)
  {
    var p := (r: Scored) => Usable(r, allowed);
    RankedIgnoresUnusable(a, allowed);
    RankedIgnoresUnusable(b, allowed);
    if Filter(a, p) != Filter(b, p) {
      BeforeIsOrder();
      forall x, y | x in Filter(a, p) && y in Filter(a, p) && Before(x, y) && Before(y, x) ensures x == y {
        LexIsOrder();
      }
      SortForgetsOrder(Filter(a, p), Filter(b, p), Before);
    }
  }

  lemma {:induction false} AlikeFused(a: seq<seq<Scored>>, b: seq<seq<Scored>>, allowed: Option<set<int>>)
    requires |a| == |b| && forall k :: 0 <= k < |a| ==> Alike(a[k], b[k], allowed)
    ensures FuseLanes(a, allowed) == FuseLanes(b, allowed)
  {
    hide Alike, Ranked, CreditLane;
    if |a| > 0 {
      var n := |a| - 1;
      AlikeFused(a[..n], b[..n], allowed);
      AlikeRanked(a[n], b[n], allowed);
    }
  }

  /** Two provider answers with the same authorized, well-formed results in each lane give the same search result:
      what the caller may not see leaves no trace, and neither does provider order when ids differ. */
  lemma SearchNoninterference(query: string, allowed: Option<set<int>>, limit: int,
                              a: seq<seq<Scored>>, b: seq<seq<Scored>>)
    requires |a| == |b| && forall k :: 0 <= k < |a| ==> Alike(a[k], b[k], allowed)
    ensures SearchResult(query, allowed, limit, Some(a)) == SearchResult(query, allowed, limit, Some(b))
  {
    hide Alike, Top, FuseLanes;
    AlikeFused(a, b, allowed);
  }

  lemma {:induction false} FilterIdempotent<T(!new)>(s: seq<T>, p: T -> bool)
    ensures Filter(Filter(s, p), p) == Filter(s, p)
  {
    forall x | x in Filter(s, p) ensures p(x) {
      FilterMembers(s, p, x);
    }
    FilterKeepsAll(Filter(s, p), p);
  }

  function Scrubbed(lanes: seq<seq<Scored>>, allowed: Option<set<int>>): (t: seq<seq<Scored>>)
    ensures |t| == |lanes|
    ensures forall k :: 0 <= k < |lanes| ==> t[k] == Filter(lanes[k], (r: Scored) => Usable(r, allowed))
  {
    if |lanes| == 0 then []
    else [Filter(lanes[0], (r: Scored) => Usable(r, allowed))] + Scrubbed(lanes[1..], allowed)
  }

  /** Removing every unauthorized or malformed result from each lane leaves the output unchanged. */
  lemma ScrubbingChangesNothing(query: string, allowed: Option<set<int>>, limit: int, lanes: seq<seq<Scored>>)
    ensures SearchResult(query, allowed, limit, Some(lanes)) == SearchResult(query, allowed, limit, Some(Scrubbed(lanes, allowed)))
  {
    var t := Scrubbed(lanes, allowed);
    forall k | 0 <= k < |lanes| ensures Alike(lanes[k], t[k], allowed) {
      FilterIdempotent(lanes[k], (r: Scored) => Usable(r, allowed));
    }
    SearchNoninterference(query, allowed, limit, lanes, t);
  }
}
