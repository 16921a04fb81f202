/** The bulk resolver against the point evaluator: where the one-query form agrees with the
    document-by-document form, and exactly where it does not. */
module BulkRefinement {
  import opened Wrappers
  import opened Sorting
  import opened Resources
  import opened Evaluator
  import opened Hierarchy
  import opened AccessRuleRepository
  import opened VisibleDocuments

  // What the tables' CHECK constraints and keys guarantee

  predicate WellFormedRow(r: RuleRow) {
    r.id > 0 && !InvalidData(r) && ValidPermission(r.permission)
  }

  ghost predicate Constraints(t: Tables) {
    && (forall r :: r in t.rules ==> WellFormedRow(r))
    && (forall m :: m in t.memberships ==> m.0 > 0)
    && (forall id :: id in t.cabinets ==> id > 0)
    && (forall id :: id in t.folders ==> id > 0)
    && (forall id :: id in t.documents ==> id > 0)
  }

  // The two walks agree

  lemma {:induction false} MaxDepthNumbered(rows: seq<Row>, first: nat)
    requires |rows| > 0 && Numbered(rows, first)
    ensures MaxDepth(rows) == first + |rows| - 1
  {
    if |rows| == 1 {
    } else {
      assert forall i :: 0 <= i < |rows| - 1 ==> rows[1..][i] == rows[i + 1];
      MaxDepthNumbered(rows[1..], first + 1);
    }
  }

  /** A bounded walk is sound exactly when it walked a whole chain. */
  lemma SoundWalk(q: Query, parents: ParentMap, start: int)
    requires q.limits.maxHierarchyDepth >= 1
    ensures SoundChain(q, Walk(parents, start, q.limits.maxHierarchyDepth)) <==>
      exists c :: IsChain(parents, start, c) && |c| <= q.limits.maxHierarchyDepth
  {
    hide Walk;
    var rows := Walk(parents, start, q.limits.maxHierarchyDepth);
    WalkExact(parents, start, q.limits.maxHierarchyDepth);
    if |rows| > 0 {
      MaxDepthNumbered(rows, 1);
    }
  }

  lemma SoundWalkOfChain(q: Query, parents: ParentMap, start: int, c: seq<int>)
    requires IsChain(parents, start, c) && |c| <= q.limits.maxHierarchyDepth
    ensures Walk(parents, start, q.limits.maxHierarchyDepth) == ChainRows(parents, c)
    ensures |ChainRows(parents, c)| == |c| && MaxDepth(ChainRows(parents, c)) == |c|
  {
    hide Walk;
    WalkOfChain(parents, start, c, q.limits.maxHierarchyDepth);
    ChainRowsAre(parents, c);
    MaxDepthNumbered(ChainRows(parents, c), 1);
  }

  lemma SoundIsNonempty(q: Query, rows: seq<Row>)
    requires SoundChain(q, rows)
    ensures |rows| > 0
  {
  }

  ghost predicate DocumentPath(q: Query, d: int, cs: seq<int>, fs: seq<int>) {
    d in q.t.documents && q.t.documents[d].active && HierarchyPath(q.t, Doc(d), cs, fs)
  }

  ghost predicate WithinDepth(q: Query, cs: seq<int>, fs: seq<int>) {
    |cs| <= q.limits.maxHierarchyDepth && |fs| <= q.limits.maxHierarchyDepth
  }

  lemma PathIsValidDocument(q: Query, d: int, cs: seq<int>, fs: seq<int>)
    requires q.limits.maxHierarchyDepth >= 1
    requires DocumentPath(q, d, cs, fs) && WithinDepth(q, cs, fs)
    ensures |cs| > 0 && |fs| > 0 && ValidDocument(q, d, cs[0])
    ensures FolderChain(q, d) == ChainRows(FolderParents(q.t), fs) && MaxDepth(FolderChain(q, d)) == |fs|
    ensures CabinetChain(q, cs[0]) == ChainRows(q.t.cabinets, cs) && MaxDepth(CabinetChain(q, cs[0])) == |cs|
  {
    hide Walk, SoundChain, ChainRows, ChainRow, MaxDepth;
    SoundWalk(q, FolderParents(q.t), fs[0]);
    SoundWalk(q, q.t.cabinets, cs[0]);
    SoundWalkOfChain(q, FolderParents(q.t), fs[0], fs);
    SoundWalkOfChain(q, q.t.cabinets, cs[0], cs);
    ChainRowsAre(FolderParents(q.t), fs);
    ChainRowsAre(q.t.cabinets, cs);
  }

  lemma ValidDocumentIsPath(q: Query, d: int, cabinet: int) returns (cs: seq<int>, fs: seq<int>)
    requires q.limits.maxHierarchyDepth >= 1
    requires ValidDocument(q, d, cabinet)
    ensures DocumentPath(q, d, cs, fs) && WithinDepth(q, cs, fs) && cs[0] == cabinet
  {
    hide Walk, SoundChain, ChainRows, ChainRow, MaxDepth;
    assert |FolderChain(q, d)| > 0 by {
      SoundIsNonempty(q, FolderChain(q, d));
    }
    var folder := q.t.documents[d].folder;
    SoundWalk(q, FolderParents(q.t), folder);
    SoundWalk(q, q.t.cabinets, cabinet);
    fs :| IsChain(FolderParents(q.t), folder, fs) && |fs| <= q.limits.maxHierarchyDepth;
    cs :| IsChain(q.t.cabinets, cabinet, cs) && |cs| <= q.limits.maxHierarchyDepth;
    SoundWalkOfChain(q, FolderParents(q.t), folder, fs);
    ChainRowsAre(FolderParents(q.t), fs);
    var rows := FolderChain(q, d);
    assert forall i :: 0 <= i < |fs| ==> rows[i].id == fs[i];
  }

  lemma PathUnique(q: Query, d: int, cs: seq<int>, fs: seq<int>, cs': seq<int>, fs': seq<int>)
    requires HierarchyPath(q.t, Doc(d), cs, fs) && HierarchyPath(q.t, Doc(d), cs', fs')
    ensures cs == cs' && fs == fs'
  {
    ChainUnique(FolderParents(q.t), fs[0], fs, fs');
    assert q.t.folders[fs[0]].cabinet == cs[0] && q.t.folders[fs'[0]].cabinet == cs'[0];
    ChainUnique(q.t.cabinets, cs[0], cs, cs');
  }

  // The numeric specificity orders resources as positions on the path do

  function Encoded(cabinets: nat, folders: nat, position: int): int {
    if position <= 0 then 0
    else if position <= cabinets then 1_000_000 + (position - 1)
    else if position <= cabinets + folders then 2_000_000 + (position - 1 - cabinets)
    else 3_000_000
  }

  /** For every depth the limits allow, comparing encoded numbers is comparing positions. */
  lemma SpecificityIsomorphic(cabinets: nat, folders: nat, a: int, b: int)
    requires cabinets <= 256 && folders <= 256
    requires 0 <= a <= cabinets + folders + 1 && 0 <= b <= cabinets + folders + 1
    ensures Encoded(cabinets, folders, a) <= Encoded(cabinets, folders, b) <==> a <= b
  {
  }

  lemma PositionOnPath(cs: seq<int>, fs: seq<int>, d: int, p: nat)
    requires Distinct(cs) && Distinct(fs) && |cs| > 0 && |fs| > 0
    requires p < |PathOf(cs, fs, Doc(d))|
    ensures Position(PathOf(cs, fs, Doc(d)), PathOf(cs, fs, Doc(d))[p]) == p
  {
    hide PathOf;
    PathIsValid(cs, fs, Doc(d));
    PositionAt(PathOf(cs, fs, Doc(d)), p);
  }

  lemma PathDistinct(q: Query, d: int, cs: seq<int>, fs: seq<int>)
    requires DocumentPath(q, d, cs, fs)
    ensures Distinct(cs) && Distinct(fs) && |cs| > 0 && |fs| > 0
  {
    ChainDistinct(q.t.cabinets, cs[0], cs);
    ChainDistinct(FolderParents(q.t), fs[0], fs);
  }

  ghost predicate OnPath(r: RuleRow, path: seq<ResourceRef>, specificity: int, cabinets: nat, folders: nat) {
    && RowResource(r).Some? && RowResource(r).value in path
    && specificity == Encoded(cabinets, folders, Position(path, RowResource(r).value))
  }

  lemma FolderCandidateOnPath(cs: seq<int>, fs: seq<int>, d: int, rows: seq<Row>, r: RuleRow, s: int)
    requires Distinct(cs) && Distinct(fs) && |cs| > 0 && |fs| > 0
    requires |rows| == |fs| && MaxDepth(rows) == |fs|
    requires forall i :: 0 <= i < |fs| ==> rows[i].id == fs[i] && rows[i].depth == i + 1 && !rows[i].cycle
    requires r.scopeType == "FOLDER" && WellFormedRow(r)
    ensures FolderCandidate(rows, r, s) <==> OnPath(r, PathOf(cs, fs, Doc(d)), s, |cs|, |fs|)
  {
    hide PathOf, MaxDepth, ValidPermission;
    var path := PathOf(cs, fs, Doc(d));
    PathAt(cs, fs, Doc(d));
    PathLength(cs, fs, Doc(d));
    assert RowResource(r) == Some(Folder(r.scopeId.value));
    if FolderCandidate(rows, r, s) {
      var i :| 0 <= i < |rows| && r.scopeId == Some(rows[i].id) && s == 2_000_000 + (MaxDepth(rows) - rows[i].depth);
      PositionOnPath(cs, fs, d, |cs| + |fs| - i);
    }
    if OnPath(r, path, s, |cs|, |fs|) {
      var p := Position(path, RowResource(r).value);
      PathIndex(cs, fs, Doc(d), p);
      var i := |cs| + |fs| - p;
      assert r.scopeId == Some(rows[i].id);
    }
  }

  lemma CabinetCandidateOnPath(cs: seq<int>, fs: seq<int>, d: int, rows: seq<Row>, r: RuleRow, s: int)
    requires Distinct(cs) && Distinct(fs) && |cs| > 0 && |fs| > 0
    requires |rows| == |cs| && MaxDepth(rows) == |cs|
    requires forall i :: 0 <= i < |cs| ==> rows[i].id == cs[i] && rows[i].depth == i + 1 && !rows[i].cycle
    requires r.scopeType == "CABINET" && WellFormedRow(r)
    ensures CabinetCandidate(rows, r, s) <==> OnPath(r, PathOf(cs, fs, Doc(d)), s, |cs|, |fs|)
  {
    hide PathOf;
    var path := PathOf(cs, fs, Doc(d));
    PathAt(cs, fs, Doc(d));
    PathLength(cs, fs, Doc(d));
    assert RowResource(r) == Some(Cabinet(r.scopeId.value));
    if CabinetCandidate(rows, r, s) {
      var i :| 0 <= i < |rows| && r.scopeId == Some(rows[i].id) && s == 1_000_000 + (MaxDepth(rows) - rows[i].depth);
      PositionOnPath(cs, fs, d, |cs| - i);
    }
    if OnPath(r, path, s, |cs|, |fs|) {
      var p := Position(path, RowResource(r).value);
      PathIndex(cs, fs, Doc(d), p);
      var i := |cs| - p;
      assert r.scopeId == Some(rows[i].id);
    }
  }

  lemma EndCandidateOnPath(cs: seq<int>, fs: seq<int>, d: int, r: RuleRow, s: int)
    requires Distinct(cs) && Distinct(fs) && |cs| > 0 && |fs| > 0
    requires r.scopeType in {"DOC", "GLOBAL"} && WellFormedRow(r)
    ensures OnPath(r, PathOf(cs, fs, Doc(d)), s, |cs|, |fs|) <==>
      if r.scopeType == "GLOBAL" then s == 0 else r.scopeId == Some(d) && s == 3_000_000
  {
    hide PathOf;
    var path := PathOf(cs, fs, Doc(d));
    PathAt(cs, fs, Doc(d));
    PathLength(cs, fs, Doc(d));
    PositionOnPath(cs, fs, d, 0);
    PositionOnPath(cs, fs, d, |cs| + |fs| + 1);
    if r.scopeType == "DOC" && RowResource(r).value in path {
      var p := Position(path, RowResource(r).value);
      PathIndex(cs, fs, Doc(d), p);
    }
  }

  /** A rule is a candidate of a document exactly when its resource is on the document's path. */
  lemma CandidateOnPath(q: Query, d: int, cs: seq<int>, fs: seq<int>, r: RuleRow, s: int)
    requires q.limits.maxHierarchyDepth >= 1
    requires DocumentPath(q, d, cs, fs) && WithinDepth(q, cs, fs)
    requires WellFormedRow(r)
    ensures |cs| > 0 && ValidDocument(q, d, cs[0])
    ensures IsCandidate(q, d, cs[0], r, s) <==>
      r in RuleSource(q) && OnPath(r, PathOf(cs, fs, Doc(d)), s, |cs|, |fs|)
  {
    hide PathOf, Walk, RuleSource, FolderChain, CabinetChain, OnPath, FolderCandidate, CabinetCandidate, SoundChain;
    PathIsValidDocument(q, d, cs, fs);
    PathDistinct(q, d, cs, fs);
    ChainRowsAre(FolderParents(q.t), fs);
    ChainRowsAre(q.t.cabinets, cs);
    if r.scopeType == "FOLDER" {
      FolderCandidateOnPath(cs, fs, d, FolderChain(q, d), r, s);
    } else if r.scopeType == "CABINET" {
      CabinetCandidateOnPath(cs, fs, d, CabinetChain(q, cs[0]), r, s);
    } else {
      EndCandidateOnPath(cs, fs, d, r, s);
    }
  }

  // The two rule loaders agree

  lemma RuleSourceMembers(q: Query, r: RuleRow)
    requires |RuleSource(q)| <= q.limits.maxRules
    ensures r in RuleSource(q) <==> r in q.t.rules && InRuleSource(q, r)
  {
    var p := r => InRuleSource(q, r);
    FilterMembers(q.t.rules, p, r);
    SortMembers(Filter(q.t.rules, p), IdLe, r);
  }

  lemma MatchingMembers(
      t: Tables, permission: string, principals: PrincipalSet, path: seq<ResourceRef>, now: int, r: RuleRow)
    ensures r in MatchingRows(t, permission, principals, path, now) <==>
      r in t.rules && Loads(r, permission, principals, path, now)
  {
    var p := r => Loads(r, permission, principals, path, now);
    FilterMembers(t.rules, p, r);
    SortMembers(Filter(t.rules, p), IdLe, r);
  }

  function Principals(q: Query): PrincipalSet {
    PrincipalSet(q.user, GroupIds(q.t, q.user))
  }

  /** The point request about document d on its path. */
  ghost predicate IsRequestAbout(q: Query, request: Request, path: seq<ResourceRef>) {
    && request.principals == Principals(q)
    && request.permission == q.permission
    && request.ancestry == path
    && request.now == q.now
    && Admitted(request)
  }

  /** The rules the point path loads for that request. */
  ghost predicate AreLoadedRules(q: Query, rules: seq<AccessRule>, path: seq<ResourceRef>) {
    forall x :: x in rules <==>
      exists r :: r in q.t.rules && Loads(r, q.permission, Principals(q), path, q.now) && Convertible(r) && RowToRule(r) == x
  }

  lemma OnlyDocumentOnPath(cs: seq<int>, fs: seq<int>, d: int, resource: ResourceRef)
    requires |cs| > 0 && |fs| > 0
    ensures var path := PathOf(cs, fs, Doc(d)); path[|path| - 1] == Doc(d) && Doc(d) in path
    ensures resource.Doc? && resource in PathOf(cs, fs, Doc(d)) ==> resource == Doc(d)
    ensures Global in PathOf(cs, fs, Doc(d))
  {
    var path := PathOf(cs, fs, Doc(d));
    PathAt(cs, fs, Doc(d));
    PathLength(cs, fs, Doc(d));
    if resource.Doc? && resource in path {
      var p :| 0 <= p < |path| && path[p] == resource;
      PathIndex(cs, fs, Doc(d), p);
    }
  }

  /** On a well-formed row, "loaded and applicable" is "in rule_source and on the path". */
  lemma SourcesAgree(q: Query, request: Request, r: RuleRow, cs: seq<int>, fs: seq<int>, d: int)
    requires WellFormedRow(r)
    requires |cs| > 0 && |fs| > 0
    requires IsRequestAbout(q, request, PathOf(cs, fs, Doc(d)))
    ensures Convertible(r)
    ensures Loads(r, q.permission, Principals(q), PathOf(cs, fs, Doc(d)), q.now) && Applicable(request, RowToRule(r))
       <==> InRuleSource(q, r) && RowResource(r).value in PathOf(cs, fs, Doc(d))
  {
    hide PathOf, GroupIds;
    OnlyDocumentOnPath(cs, fs, d, RowResource(r).value);
    assert RowResource(r).value.Doc? <==> r.scopeType == "DOC";
  }

  lemma CandidateIsApplicable(
      q: Query, request: Request, rules: seq<AccessRule>, d: int, cs: seq<int>, fs: seq<int>, r: RuleRow, s: int)
    requires q.limits.maxHierarchyDepth >= 1
    requires DocumentPath(q, d, cs, fs) && WithinDepth(q, cs, fs) && ValidDocument(q, d, cs[0])
    requires Constraints(q.t) && RulesUsable(q)
    requires IsRequestAbout(q, request, PathOf(cs, fs, Doc(d))) && AreLoadedRules(q, rules, PathOf(cs, fs, Doc(d)))
    requires IsCandidate(q, d, cs[0], r, s)
    ensures WellFormedRow(r) && Convertible(r) && RowToRule(r) in rules && Applicable(request, RowToRule(r))
    ensures s == Encoded(|cs|, |fs|, Position(request.ancestry, RowToRule(r).resource))
  {
    hide PathOf, IsCandidate, RuleSource, Loads, InRuleSource, Applicable, Walk, GroupIds;
    PathDistinct(q, d, cs, fs);
    assert r in RuleSource(q) by {
      CandidateInSource(q, d, cs[0], r, s);
    }
    RuleSourceMembers(q, r);
    CandidateOnPath(q, d, cs, fs, r, s);
    SourcesAgree(q, request, r, cs, fs, d);
  }

  lemma CandidateInSource(q: Query, d: int, cabinet: int, r: RuleRow, s: int)
    requires ValidDocument(q, d, cabinet) && IsCandidate(q, d, cabinet, r, s)
    ensures r in RuleSource(q)
  {
  }

  lemma ApplicableIsCandidate(
      q: Query, request: Request, rules: seq<AccessRule>, d: int, cs: seq<int>, fs: seq<int>, x: AccessRule)
      returns (r: RuleRow)
    requires q.limits.maxHierarchyDepth >= 1
    requires DocumentPath(q, d, cs, fs) && WithinDepth(q, cs, fs) && ValidDocument(q, d, cs[0])
    requires Constraints(q.t) && RulesUsable(q)
    requires IsRequestAbout(q, request, PathOf(cs, fs, Doc(d))) && AreLoadedRules(q, rules, PathOf(cs, fs, Doc(d)))
    requires x in rules && Applicable(request, x)
    ensures Convertible(r) && RowToRule(r) == x
    ensures IsCandidate(q, d, cs[0], r, Encoded(|cs|, |fs|, Position(request.ancestry, x.resource)))
  {
    hide PathOf, IsCandidate, RuleSource, Loads, InRuleSource, Applicable, Walk, GroupIds;
    PathDistinct(q, d, cs, fs);
    r :| r in q.t.rules && Loads(r, q.permission, Principals(q), PathOf(cs, fs, Doc(d)), q.now)
         && Convertible(r) && RowToRule(r) == x;
    SourcesAgree(q, request, r, cs, fs, d);
    RuleSourceMembers(q, r);
    CandidateOnPath(q, d, cs, fs, r, Encoded(|cs|, |fs|, Position(request.ancestry, x.resource)));
  }

  // The two decisions agree

  /** Everything the decision lemmas share: one document, its chains, its request and its loaded rules. */
  ghost predicate Setting(
      q: Query, request: Request, rules: seq<AccessRule>, d: int, cs: seq<int>, fs: seq<int>)
  {
    && q.limits.Valid()
    && DocumentPath(q, d, cs, fs) && WithinDepth(q, cs, fs)
    && Constraints(q.t) && RulesUsable(q)
    && IsRequestAbout(q, request, PathOf(cs, fs, Doc(d))) && AreLoadedRules(q, rules, PathOf(cs, fs, Doc(d)))
  }

  function Specificity(request: Request, cs: seq<int>, fs: seq<int>, x: AccessRule): int {
    Encoded(|cs|, |fs|, Position(request.ancestry, x.resource))
  }

  lemma SettingValid(q: Query, request: Request, rules: seq<AccessRule>, d: int, cs: seq<int>, fs: seq<int>)
    requires Setting(q, request, rules, d, cs, fs)
    ensures |cs| > 0 && ValidDocument(q, d, cs[0])
  {
    PathIsValidDocument(q, d, cs, fs);
  }

  /** A candidate at least as specific as the strongest rule is exactly as specific, and does not outrank it. */
  lemma CandidateBelow(
      q: Query, request: Request, rules: seq<AccessRule>, d: int, cs: seq<int>, fs: seq<int>, w: AccessRule,
      r: RuleRow, s: int)
    requires Setting(q, request, rules, d, cs, fs) && |cs| > 0 && ValidDocument(q, d, cs[0])
    requires Strongest(request, rules, w)
    requires IsCandidate(q, d, cs[0], r, s)
    ensures WellFormedRow(r) && Convertible(r) && !Outranks(request, RowToRule(r), w)
    ensures s <= Specificity(request, cs, fs, w)
    ensures s == Specificity(request, cs, fs, w) ==>
      Position(request.ancestry, RowToRule(r).resource) == Position(request.ancestry, w.resource)
  {
    hide IsCandidate, PathOf, Applicable, DocumentPath, ValidDocument, Constraints, RulesUsable, AreLoadedRules,
         RowToRule, Encoded;
    CandidateIsApplicable(q, request, rules, d, cs, fs, r, s);
    var a, b := Position(request.ancestry, RowToRule(r).resource), Position(request.ancestry, w.resource);
    ApplicablePosition(request, RowToRule(r));
    ApplicablePosition(request, w);
    PathLength(cs, fs, Doc(d));
    SpecificityIsomorphic(|cs|, |fs|, a, b);
    SpecificityIsomorphic(|cs|, |fs|, b, a);
  }

  lemma ApplicablePosition(request: Request, x: AccessRule)
    requires Applicable(request, x)
    ensures 0 <= Position(request.ancestry, x.resource) < |request.ancestry|
  {
  }

  lemma StrongestIsSelected(
      q: Query, request: Request, rules: seq<AccessRule>, d: int, cs: seq<int>, fs: seq<int>, w: AccessRule)
      returns (r: RuleRow)
    requires Setting(q, request, rules, d, cs, fs) && |cs| > 0 && ValidDocument(q, d, cs[0])
    requires Strongest(request, rules, w)
    ensures Convertible(r) && RowToRule(r) == w
    ensures IsCandidate(q, d, cs[0], r, Specificity(request, cs, fs, w))
    ensures IsSelectedScope(q, d, cs[0], Specificity(request, cs, fs, w))
  {
    hide IsCandidate, PathOf, Applicable, DocumentPath, ValidDocument, Constraints, RulesUsable, AreLoadedRules,
         Position, Encoded, Outranks;
    r := ApplicableIsCandidate(q, request, rules, d, cs, fs, w);
    forall c, s | IsCandidate(q, d, cs[0], c, s) ensures s <= Specificity(request, cs, fs, w) {
      CandidateBelow(q, request, rules, d, cs, fs, w, c, s);
    }
  }

  lemma SelectedScopeUnique(q: Query, d: int, cabinet: int, s: int, s': int)
    requires ValidDocument(q, d, cabinet)
    requires IsSelectedScope(q, d, cabinet, s) && IsSelectedScope(q, d, cabinet, s')
    ensures s == s'
  {
    hide IsCandidate, ValidDocument;
    var r :| IsCandidate(q, d, cabinet, r, s);
    var r' :| IsCandidate(q, d, cabinet, r', s');
  }

  lemma RowKindAndEffect(r: RuleRow)
    requires WellFormedRow(r) && Convertible(r)
    ensures r.principalType == "USER" <==> RowToRule(r).principal.kind.User?
    ensures r.effect == "DENY" <==> RowToRule(r).effect.Deny?
    ensures r.effect == "ALLOW" <==> RowToRule(r).effect.Allow?
  {
  }

  /** The selected tier holds the strongest rule's effect, and holds a DENY only when that effect is DENY. */
  lemma TierIsStrongest(
      q: Query, request: Request, rules: seq<AccessRule>, d: int, cs: seq<int>, fs: seq<int>, w: AccessRule)
    requires Setting(q, request, rules, d, cs, fs) && |cs| > 0 && ValidDocument(q, d, cs[0])
    requires Strongest(request, rules, w)
    ensures TierHas(q, d, cs[0], Specificity(request, cs, fs, w), "DENY") <==> w.effect.Deny?
    ensures w.effect.Allow? ==> TierHas(q, d, cs[0], Specificity(request, cs, fs, w), "ALLOW")
  {
    hide IsCandidate, PathOf, Applicable, DocumentPath, ValidDocument, Constraints, RulesUsable, AreLoadedRules,
         Position, Encoded, Setting, Strongest, Specificity, RowToRule, WellFormedRow, Convertible;
    var s := Specificity(request, cs, fs, w);
    var rw := StrongestIsSelected(q, request, rules, d, cs, fs, w);
    CandidateBelow(q, request, rules, d, cs, fs, w, rw, s);
    RowKindAndEffect(rw);
    forall c | IsCandidate(q, d, cs[0], c, s)
      ensures c.principalType == "USER" ==> w.principal.kind.User?
      ensures w.principal.kind.Group? || c.principalType == "USER" ==> c.effect == "DENY" ==> w.effect.Deny?
    {
      CandidateBelow(q, request, rules, d, cs, fs, w, c, s);
      RowKindAndEffect(c);
    }
    assert HasUser(q, d, cs[0], s) <==> w.principal.kind.User?;
    assert rw.principalType == "USER" || !HasUser(q, d, cs[0], s);
  }

  lemma VisibleAt(q: Query, d: int, cs: seq<int>, fs: seq<int>, s: int)
    requires q.limits.maxHierarchyDepth >= 1
    requires DocumentPath(q, d, cs, fs) && |cs| > 0 && ValidDocument(q, d, cs[0])
    requires IsSelectedScope(q, d, cs[0], s)
    ensures Visible(q, d) <==> !TierHas(q, d, cs[0], s, "DENY") && TierHas(q, d, cs[0], s, "ALLOW")
  {
    hide IsSelectedScope, TierHas, ValidDocument;
    if Visible(q, d) {
      var cabinet, s' :| ValidDocument(q, d, cabinet) && IsSelectedScope(q, d, cabinet, s')
                         && !TierHas(q, d, cabinet, s', "DENY") && TierHas(q, d, cabinet, s', "ALLOW");
      var cs', fs' := ValidDocumentIsPath(q, d, cabinet);
      PathUnique(q, d, cs, fs, cs', fs');
      SelectedScopeUnique(q, d, cabinet, s, s');
    }
  }

  /** On one document, the relational decision is the evaluator's. */
  lemma DecisionsAgree(q: Query, request: Request, rules: seq<AccessRule>, d: int, cs: seq<int>, fs: seq<int>)
    requires Setting(q, request, rules, d, cs, fs)
    ensures Visible(q, d) <==> Evaluate(request, rules).allowed
  {
    hide IsCandidate, PathOf, Applicable, DocumentPath, ValidDocument, Constraints, RulesUsable, AreLoadedRules,
         Position, Encoded, IsSelectedScope, TierHas, Evaluate, Outranks, Visible;
    SettingValid(q, request, rules, d, cs, fs);
    if x :| x in rules && Applicable(request, x) {
      var w := StrongestExists(request, rules);
      StrongestRuleDecides(request, rules, w);
      var r := StrongestIsSelected(q, request, rules, d, cs, fs, w);
      TierIsStrongest(q, request, rules, d, cs, fs, w);
      VisibleAt(q, d, cs, fs, Specificity(request, cs, fs, w));
    } else {
      NoApplicableRuleExactly(request, rules);
      EvaluateReason(request, rules);
      NoCandidateNotVisible(q, request, rules, d, cs, fs);
    }
  }

  lemma EvaluateReason(request: Request, rules: seq<AccessRule>)
    ensures Evaluate(request, rules).allowed <==> Evaluate(request, rules).reason == ExplicitAllow
  {
  }

  lemma NoCandidateNotVisible(
      q: Query, request: Request, rules: seq<AccessRule>, d: int, cs: seq<int>, fs: seq<int>)
    requires Setting(q, request, rules, d, cs, fs)
    requires forall x :: x in rules ==> !Applicable(request, x)
    ensures !Visible(q, d)
  {
    hide IsCandidate, PathOf, Applicable, ValidDocument, Constraints, RulesUsable, AreLoadedRules, TierHas;
    if Visible(q, d) {
      var cabinet, s :| ValidDocument(q, d, cabinet) && IsSelectedScope(q, d, cabinet, s);
      var r :| IsCandidate(q, d, cabinet, r, s);
      var cs', fs' := ValidDocumentIsPath(q, d, cabinet);
      PathUnique(q, d, cs, fs, cs', fs');
      CandidateIsApplicable(q, request, rules, d, cs, fs, r, s);
    }
  }

  // Main results

  ghost predicate InBulk(q: Query, d: int) {
    var result := ResolveVisibleDocumentIds(q);
    result.DocumentIds? && d in result.ids
  }

  /** No fail-closed bound is exceeded on either side. */
  ghost predicate NothingOverflows(q: Query, limits: Limits, path: seq<ResourceRef>) {
    && |GrantedCodes(q.t, q.user)| <= DEFAULT_LIMITS.maxPermissions
    && |GrantedCodes(q.t, q.user)| <= limits.maxPermissions
    && |GroupIds(q.t, q.user)| <= q.limits.maxGroups
    && |GroupIds(q.t, q.user)| <= limits.maxGroups
    && |RuleSource(q)| <= q.limits.maxRules
    && |MatchingRows(q.t, q.permission, Principals(q), path, q.now)| <= limits.maxRules
    && |Rows(q)| <= q.limits.maxDocumentIds
  }

  lemma RulesLoad(q: Query, path: seq<ResourceRef>, limits: Limits)
    requires Constraints(q.t)
    requires |GroupIds(q.t, q.user)| <= limits.maxGroups && |path| <= limits.maxAncestry
    requires |MatchingRows(q.t, q.permission, Principals(q), path, q.now)| <= limits.maxRules
    ensures LoadRules(q.t, q.permission, Principals(q), path, q.now, limits).Success?
    ensures AreLoadedRules(q, LoadRules(q.t, q.permission, Principals(q), path, q.now, limits).value, path)
  {
    hide MatchingRows, Loads;
    var rows := MatchingRows(q.t, q.permission, Principals(q), path, q.now);
    forall r ensures r in rows <==> r in q.t.rules && Loads(r, q.permission, Principals(q), path, q.now) {
      MatchingMembers(q.t, q.permission, Principals(q), path, q.now, r);
    }
    forall i | 0 <= i < |rows| ensures Convertible(rows[i]) {
      assert WellFormedRow(rows[i]);
    }
    var rules := LoadRules(q.t, q.permission, Principals(q), path, q.now, limits).value;
    forall x | x in rules
      ensures exists r :: r in q.t.rules && Loads(r, q.permission, Principals(q), path, q.now) && Convertible(r) && RowToRule(r) == x
    {
      var i :| 0 <= i < |rules| && rules[i] == x;
      assert rows[i] in rows && RowToRule(rows[i]) == x;
    }
    forall r | r in rows ensures RowToRule(r) in rules {
      var i :| 0 <= i < |rows| && rows[i] == r;
      assert rules[i] == RowToRule(r);
    }
  }

  lemma PathPositive(q: Query, d: int, cs: seq<int>, fs: seq<int>)
    requires Constraints(q.t) && HierarchyPath(q.t, Doc(d), cs, fs)
    ensures Positive(cs) && Positive(fs)
  {
    assert forall i :: 0 <= i < |fs| ==> fs[i] in FolderParents(q.t) && fs[i] in q.t.folders;
  }

  /** With usable capabilities, the point path loads exactly the path, the principals and the loaded rules. */
  lemma PointLoads(q: Query, limits: Limits, d: int, cs: seq<int>, fs: seq<int>)
    requires q.user > 0 && ValidPermission(q.permission) && d > 0
    requires Constraints(q.t) && HierarchyPath(q.t, Doc(d), cs, fs)
    requires |cs| + |fs| + 2 <= limits.maxAncestry
    requires NothingOverflows(q, limits, PathOf(cs, fs, Doc(d)))
    requires LoadCapabilities(q.t, q.user, limits.maxPermissions).Success?
    ensures var loaded := LoadDecisionInputs(q.t, q.user, q.permission, Doc(d), q.now, limits);
      && loaded.Success?
      && loaded.value.capabilities == LoadCapabilities(q.t, q.user, limits.maxPermissions).value
      && loaded.value.principals == Principals(q)
      && loaded.value.path == PathOf(cs, fs, Doc(d))
      && AreLoadedRules(q, loaded.value.rules, PathOf(cs, fs, Doc(d)))
  {
    hide PathOf, LoadCapabilities, ResolveAncestry, LoadRules, HierarchyPath, RuleSource, Rows;
    PathLength(cs, fs, Doc(d));
    PathPositive(q, d, cs, fs);
    assert AcceptablePath(q.t, Doc(d), cs, fs, limits.maxAncestry);
    AncestryAccepts(q.t, Doc(d), cs, fs, limits.maxAncestry);
    RulesLoad(q, PathOf(cs, fs, Doc(d)), limits);
  }

  lemma CapabilitiesIgnoreSpareRoom(q: Query, limits: Limits)
    requires |GrantedCodes(q.t, q.user)| <= DEFAULT_LIMITS.maxPermissions
    requires |GrantedCodes(q.t, q.user)| <= limits.maxPermissions
    ensures LoadCapabilities(q.t, q.user, limits.maxPermissions)
         == LoadCapabilities(q.t, q.user, DEFAULT_LIMITS.maxPermissions)
  {
  }

  /** Membership in the bulk result is eligibility and the per-document decision. */
  lemma InBulkIsVisible(q: Query, d: int)
    requires q.user > 0 && ValidPermission(q.permission) && Constraints(q.t)
    requires |GroupIds(q.t, q.user)| <= q.limits.maxGroups
    requires |RuleSource(q)| <= q.limits.maxRules && |Rows(q)| <= q.limits.maxDocumentIds
    ensures RulesUsable(q)
    ensures InBulk(q, d) <==> Eligible(q) && d in q.t.documents && Visible(q, d)
  {
    hide RuleSource, Visible, Eligible;
    forall r | r in RuleSource(q) ensures !InvalidData(r) {
      RuleSourceMembers(q, r);
      assert WellFormedRow(r);
    }
  }

  /** When the path fits both bounds, the two ways of deciding one document agree. */
  lemma AgreeWithinBounds(q: Query, limits: Limits, d: int, cs: seq<int>, fs: seq<int>)
    requires q.limits.Valid() && q.user > 0 && ValidPermission(q.permission) && Constraints(q.t)
    requires DocumentPath(q, d, cs, fs) && WithinDepth(q, cs, fs) && |cs| + |fs| + 2 <= limits.maxAncestry
    requires NothingOverflows(q, limits, PathOf(cs, fs, Doc(d)))
    ensures InBulk(q, d) <==> PointAllows(q.t, q.user, q.permission, Doc(d), q.now, limits)
  {
    hide PathOf, LoadCapabilities, LoadDecisionInputs, HierarchyPath, RuleSource, Rows, Visible, Evaluate, InBulk,
         WithinDepth, AreLoadedRules, RulesUsable;
    InBulkIsVisible(q, d);
    CapabilitiesIgnoreSpareRoom(q, limits);
    if LoadCapabilities(q.t, q.user, limits.maxPermissions).Success? {
      PointLoads(q, limits, d, cs, fs);
      var inputs := LoadDecisionInputs(q.t, q.user, q.permission, Doc(d), q.now, limits).value;
      var request := RequestFor(q.t, q.user, q.permission, inputs, q.now);
      if Eligible(q) {
        DecisionsAgree(q, request, inputs.rules, d, cs, fs);
      } else {
        NotAdmittedDenied(request, inputs.rules);
      }
    } else {
      NoCapabilitiesNoInputs(q.t, q.user, q.permission, Doc(d), q.now, limits);
    }
  }

  lemma NotAdmittedDenied(request: Request, rules: seq<AccessRule>)
    requires !Admitted(request)
    ensures !Evaluate(request, rules).allowed
  {
  }

  lemma NoCapabilitiesNoInputs(t: Tables, user: int, permission: string, resource: ResourceRef, now: int, limits: Limits)
    requires LoadCapabilities(t, user, limits.maxPermissions).Failure?
    ensures LoadDecisionInputs(t, user, permission, resource, now, limits).Failure?
  {
  }

  lemma PointNeedsPath(t: Tables, user: int, permission: string, d: int, now: int, limits: Limits)
      returns (cs: seq<int>, fs: seq<int>)
    requires d > 0 && PointAllows(t, user, permission, Doc(d), now, limits)
    ensures HierarchyPath(t, Doc(d), cs, fs) && |cs| + |fs| + 2 <= limits.maxAncestry
  {
    hide LoadCapabilities, ResolveAncestry, LoadRules, HierarchyPath, Evaluate, PathOf;
    assert ResolveAncestry(t, Doc(d), limits.maxAncestry).Success?;
    cs, fs := AncestryOnlyPaths(t, Doc(d), limits.maxAncestry);
    PathLength(cs, fs, Doc(d));
  }

  lemma BulkNeedsPath(q: Query, d: int) returns (cs: seq<int>, fs: seq<int>)
    requires q.limits.maxHierarchyDepth >= 1 && InBulk(q, d)
    ensures DocumentPath(q, d, cs, fs) && WithinDepth(q, cs, fs)
  {
    hide Eligible, RulesUsable, GroupOverflow;
    assert Visible(q, d);
    var cabinet, s :| ValidDocument(q, d, cabinet) && IsSelectedScope(q, d, cabinet, s);
    cs, fs := ValidDocumentIsPath(q, d, cabinet);
  }

  /** The exact relation on an active document with chains cs and fs: the two forms agree whenever the chains fit
      both limits, the bulk form needs each chain within its depth, and the point form needs their sum within its own. */
  lemma BulkAgainstPoint(q: Query, limits: Limits, d: int, cs: seq<int>, fs: seq<int>)
    requires q.limits.Valid() && q.user > 0 && ValidPermission(q.permission) && Constraints(q.t)
    requires DocumentPath(q, d, cs, fs) && NothingOverflows(q, limits, PathOf(cs, fs, Doc(d)))
    ensures InBulk(q, d) && |cs| + |fs| + 2 <= limits.maxAncestry <==>
      PointAllows(q.t, q.user, q.permission, Doc(d), q.now, limits) && WithinDepth(q, cs, fs)
  {
    hide PathOf, HierarchyPath, InBulk, PointAllows, NothingOverflows, ValidPermission;
    if InBulk(q, d) {
      var cs', fs' := BulkNeedsPath(q, d);
      PathUnique(q, d, cs, fs, cs', fs');
    }
    if PointAllows(q.t, q.user, q.permission, Doc(d), q.now, limits) {
      var cs', fs' := PointNeedsPath(q.t, q.user, q.permission, d, q.now, limits);
      PathUnique(q, d, cs, fs, cs', fs');
    }
    if WithinDepth(q, cs, fs) && |cs| + |fs| + 2 <= limits.maxAncestry {
      AgreeWithinBounds(q, limits, d, cs, fs);
    }
  }

  /** Point allows implies in bulk, whenever the ancestry limit leaves no chain deeper than the bulk depth. */
  lemma PointImpliesBulk(q: Query, limits: Limits, d: int)
    requires q.limits.Valid() && q.user > 0 && ValidPermission(q.permission) && Constraints(q.t)
    requires limits.maxAncestry <= q.limits.maxHierarchyDepth + 3
    requires d in q.t.documents && q.t.documents[d].active
    requires forall cs, fs :: DocumentPath(q, d, cs, fs) ==> NothingOverflows(q, limits, PathOf(cs, fs, Doc(d)))
    requires PointAllows(q.t, q.user, q.permission, Doc(d), q.now, limits)
    ensures InBulk(q, d)
  {
    hide PathOf, InBulk, PointAllows, NothingOverflows, ValidPermission;
    var cs, fs := PointNeedsPath(q.t, q.user, q.permission, d, q.now, limits);
    PathDistinct(q, d, cs, fs);
    BulkAgainstPoint(q, limits, d, cs, fs);
  }

  // Where they differ under the default limits of both: one cabinet and 62 folders above the document

  function DeepRule(): RuleRow {
    RuleRow(1, "USER", Some(1), None, "VIEW", "GLOBAL", None, "ALLOW", true, true, None)
  }

  function DeepFolder(i: int): FolderRow {
    FolderRow(1, if i == 62 then None else Some(i + 1))
  }

  function DeepTables(): Tables {
    Tables(
      map[1 := "active"], {Grant(1, "VIEW", "ALLOW")}, map[], {}, map[1 := None],
      map i | 1 <= i <= 62 :: DeepFolder(i),
      map[1 := DocumentRow(1, true)], [DeepRule()], 0)
  }

  function DeepQuery(): Query {
    Query(DeepTables(), 1, "VIEW", 0, DEFAULT_BULK_LIMITS)
  }

  lemma DeepPath() returns (cs: seq<int>, fs: seq<int>)
    ensures DocumentPath(DeepQuery(), 1, cs, fs) && WithinDepth(DeepQuery(), cs, fs) && |cs| == 1 && |fs| == 62
  {
    cs, fs := [1], seq(62, i => i + 1);
    var parents := FolderParents(DeepTables());
    assert forall i :: 0 <= i < 62 ==> fs[i] == i + 1 && fs[i] in parents;
    assert parents[fs[61]] == None;
  }

  lemma DeepRuleSource()
    ensures RuleSource(DeepQuery()) == [DeepRule()]
    ensures RulesUsable(DeepQuery()) && !GroupOverflow(DeepQuery())
  {
    var q := DeepQuery();
    assert GroupIds(q.t, q.user) == {};
    assert Filter([DeepRule()], r => InRuleSource(q, r)) == [DeepRule()];
  }

  lemma DeepVisible()
    ensures Visible(DeepQuery(), 1)
  {
    hide RuleSource, FolderChain, CabinetChain, DeepTables, Walk;
    var q := DeepQuery();
    var cs, fs := DeepPath();
    PathIsValidDocument(q, 1, cs, fs);
    DeepRuleSource();
    assert IsCandidate(q, 1, cs[0], DeepRule(), 0);
    assert IsSelectedScope(q, 1, cs[0], 0);
    assert TierHas(q, 1, cs[0], 0, "ALLOW");
  }

  lemma DeepEligible()
    ensures Eligible(DeepQuery())
  {
    assert GrantedCodes(DeepTables(), 1) == {"VIEW"};
    assert Grant(1, "VIEW", "ALLOW") in DeepTables().grants;
  }

  lemma DeepRows()
    ensures Rows(DeepQuery()) == {1}
    ensures InBulk(DeepQuery(), 1)
  {
    hide Visible, Eligible, RulesUsable, GroupOverflow;
    DeepRuleSource();
    DeepVisible();
    DeepEligible();
  }

  lemma DeepSetting()
    ensures var q := DeepQuery();
      && q.t == DeepTables() && q.user == 1 && q.permission == "VIEW" && q.now == 0 && q.limits.Valid()
      && ValidPermission(q.permission) && Constraints(q.t)
  {
  }

  lemma DeepNothingOverflows(limits: Limits, path: seq<ResourceRef>)
    requires limits.Valid()
    ensures NothingOverflows(DeepQuery(), limits, path)
  {
    hide Rows, RuleSource;
    var q := DeepQuery();
    DeepRows();
    DeepRuleSource();
    assert GrantedCodes(q.t, q.user) == {"VIEW"};
    assert GroupIds(q.t, q.user) == {};
    SortPermutes(Filter(q.t.rules, r => Loads(r, q.permission, Principals(q), path, q.now)), IdLe);
  }

  /** The claim of equal precedence fails under the default limits: this document is in the bulk result, nothing
      overflows, and the point path reports its ancestry as over the limit. */
  lemma BulkExceedsPointOnDeepFolders() returns (cs: seq<int>, fs: seq<int>)
    ensures Constraints(DeepTables())
    ensures DocumentPath(DeepQuery(), 1, cs, fs) && WithinDepth(DeepQuery(), cs, fs)
    ensures NothingOverflows(DeepQuery(), DEFAULT_LIMITS, PathOf(cs, fs, Doc(1)))
    ensures InBulk(DeepQuery(), 1)
    ensures !PointAllows(DeepTables(), 1, "VIEW", Doc(1), 0, DEFAULT_LIMITS)
  {
    hide *;
    var q := DeepQuery();
    cs, fs := DeepPath();
    DeepSetting();
    DefaultLimitsValid();
    DeepNothingOverflows(DEFAULT_LIMITS, PathOf(cs, fs, Doc(1)));
    DeepRows();
    BulkAgainstPoint(q, DEFAULT_LIMITS, 1, cs, fs);
  }

  lemma DefaultLimitsValid()
    ensures DEFAULT_LIMITS.Valid() && DEFAULT_LIMITS.maxAncestry == 64
    ensures DEFAULT_LIMITS.(maxAncestry := 65).Valid()
  {
  }

  /** One more ancestor allowed, and the two agree on the same document. */
  lemma AgreementOnDeepFolders()
    ensures PointAllows(DeepTables(), 1, "VIEW", Doc(1), 0, DEFAULT_LIMITS.(maxAncestry := 65))
  {
    hide *;
    var q, limits := DeepQuery(), DEFAULT_LIMITS.(maxAncestry := 65);
    var cs, fs := DeepPath();
    DeepSetting();
    DefaultLimitsValid();
    DeepNothingOverflows(limits, PathOf(cs, fs, Doc(1)));
    DeepRows();
    AgreeWithinBounds(q, limits, 1, cs, fs);
  }
}
