/** Which stored rows a decision depends on, said on the rows' own columns
    (backend/app/repositories/access_rule_repository.py, backend/app/repositories/visible_document_repository.py). */
module RuleRelevance {
  import opened Wrappers
  import opened Sorting
  import opened Resources
  import opened Evaluator
  import opened Hierarchy
  import opened AccessRuleRepository
  import opened VisibleDocuments
  import opened BulkRefinement
  import opened PolicyRevision
  import opened PolicyEffects

  /** The rule is for the permission, switched on, not past its expiry, and names the user or an active group the user
      is a member of. */
  predicate Relevant(t: Tables, user: int, permission: string, now: int, r: RuleRow) {
    && r.permission == permission && r.isActive && (r.expiresAt.None? || r.expiresAt.value > now)
    && (|| (r.principalType == "USER" && r.userId == Some(user))
        || (r.principalType == "GROUP" && r.groupId.Some? && (r.groupId.value, user) in t.memberships
            && r.groupId.value in t.groups && t.groups[r.groupId.value]))
  }

  /** The tables with only the kept rules. */
  function Keeping(t: Tables, keep: RuleRow -> bool): Tables {
    t.(rules := Filter(t.rules, keep))
  }

  ghost predicate KeepsRelevant(t: Tables, keep: RuleRow -> bool, user: int, permission: string, now: int) {
    forall r :: r in t.rules && Relevant(t, user, permission, now, r) ==> keep(r)
  }

  // The point path

  lemma InGroupIds(t: Tables, user: int, g: int)
    ensures g in GroupIds(t, user) <==> (g, user) in t.memberships && g in t.groups && t.groups[g]
  {
    if (g, user) in t.memberships && g in t.groups && t.groups[g] {
      var m := (g, user);
      assert m in t.memberships && m.1 == user && m.0 == g;
    }
  }

  lemma LoadsRelevant(t: Tables, user: int, permission: string, path: seq<ResourceRef>, now: int, r: RuleRow)
    requires Loads(r, permission, PrincipalSet(user, GroupIds(t, user)), path, now)
    ensures Relevant(t, user, permission, now, r)
  {
    if r.principalType == "GROUP" && r.groupId.Some? {
      InGroupIds(t, user, r.groupId.value);
    }
  }

  lemma MatchingIgnoresIrrelevant(t: Tables, keep: RuleRow -> bool, user: int, permission: string, path: seq<ResourceRef>, now: int)
    requires KeepsRelevant(t, keep, user, permission, now)
    ensures var principals := PrincipalSet(user, GroupIds(t, user));
      MatchingRows(Keeping(t, keep), permission, principals, path, now) == MatchingRows(t, permission, principals, path, now)
  {
    hide Loads, Relevant;
    var principals := PrincipalSet(user, GroupIds(t, user));
    var q := r => Loads(r, permission, principals, path, now);
    forall r | r in t.rules && q(r) ensures keep(r) {
      LoadsRelevant(t, user, permission, path, now, r);
    }
    FilterNarrows(t.rules, keep, q);
  }

  lemma AncestryIgnoresRules(t: Tables, rules: seq<RuleRow>, resource: ResourceRef, maxAncestry: nat)
    ensures ResolveAncestry(t.(rules := rules), resource, maxAncestry) == ResolveAncestry(t, resource, maxAncestry)
  {
    hide WalkFrom, ValidateRows, FinishAncestry;
    var u := t.(rules := rules);
    assert FolderParents(u) == FolderParents(t);
  }

  lemma GroupsIgnoreRules(t: Tables, rules: seq<RuleRow>, user: int)
    ensures GroupIds(t.(rules := rules), user) == GroupIds(t, user)
    ensures GrantedCodes(t.(rules := rules), user) == GrantedCodes(t, user)
  {
  }

  lemma CapabilitiesIgnoreRules(t: Tables, rules: seq<RuleRow>, user: int, max: nat)
    ensures LoadCapabilities(t.(rules := rules), user, max) == LoadCapabilities(t, user, max)
  {
    hide ValidPermission;
    GroupsIgnoreRules(t, rules, user);
  }

  lemma PrincipalsIgnoreRules(t: Tables, rules: seq<RuleRow>, user: int, max: nat)
    ensures LoadPrincipals(t.(rules := rules), user, max) == LoadPrincipals(t, user, max)
  {
    GroupsIgnoreRules(t, rules, user);
  }

  lemma PointIgnoresIrrelevant(t: Tables, keep: RuleRow -> bool, user: int, permission: string, resource: ResourceRef,
                               now: int, limits: Limits)
    requires KeepsRelevant(t, keep, user, permission, now)
    ensures PointAllows(Keeping(t, keep), user, permission, resource, now, limits)
         == PointAllows(t, user, permission, resource, now, limits)
  {
    hide LoadCapabilities, LoadPrincipals, ResolveAncestry, LoadRules, Evaluate, KeepsRelevant, ValidPermission;
    var u := Keeping(t, keep);
    CapabilitiesIgnoreRules(t, u.rules, user, limits.maxPermissions);
    PrincipalsIgnoreRules(t, u.rules, user, limits.maxGroups);
    AncestryIgnoresRules(t, u.rules, resource, limits.maxAncestry);
    var path := ResolveAncestry(t, resource, limits.maxAncestry);
    if path.Success? && LoadPrincipals(t, user, limits.maxGroups).Success? {
      LoadIgnoresIrrelevant(t, keep, user, permission, path.value, now, limits);
    }
  }

  lemma LoadIgnoresIrrelevant(t: Tables, keep: RuleRow -> bool, user: int, permission: string, path: seq<ResourceRef>,
                              now: int, limits: Limits)
    requires KeepsRelevant(t, keep, user, permission, now) && LoadPrincipals(t, user, limits.maxGroups).Success?
    ensures var principals := LoadPrincipals(t, user, limits.maxGroups).value;
      LoadRules(Keeping(t, keep), permission, principals, path, now, limits)
      == LoadRules(t, permission, principals, path, now, limits)
  {
    hide MatchingRows, Convertible, RowToRule, KeepsRelevant;
    MatchingIgnoresIrrelevant(t, keep, user, permission, path, now);
  }

  // The bulk query

  lemma SourceIsRelevant(q: Query, r: RuleRow)
    requires InRuleSource(q, r)
    ensures Relevant(q.t, q.user, q.permission, q.now, r)
  {
    if r.principalType == "GROUP" && r.groupId.Some? {
      InGroupIds(q.t, q.user, r.groupId.value);
    }
  }

  lemma SourceIgnoresIrrelevant(q: Query, keep: RuleRow -> bool)
    requires KeepsRelevant(q.t, keep, q.user, q.permission, q.now)
    ensures RuleSource(q.(t := Keeping(q.t, keep))) == RuleSource(q)
  {
    hide Relevant, InRuleSource;
    var v := q.(t := Keeping(q.t, keep));
    var p, p' := r => InRuleSource(q, r), r => InRuleSource(v, r);
    forall r | r in q.t.rules && p(r) ensures keep(r) {
      SourceIsRelevant(q, r);
    }
    FilterNarrows(q.t.rules, keep, p);
    forall r | r in v.t.rules ensures p(r) == p'(r) {
      SameSourceTest(q, v.t.rules, r);
    }
    FilterSame(v.t.rules, p, p');
  }

  lemma SameSourceTest(q: Query, rules: seq<RuleRow>, r: RuleRow)
    ensures InRuleSource(q.(t := q.t.(rules := rules)), r) == InRuleSource(q, r)
  {
    GroupsIgnoreRules(q.t, rules, q.user);
  }

  /** Two queries that differ only in rules no source takes up. */
  ghost predicate SameSource(q: Query, v: Query) {
    v == q.(t := q.t.(rules := v.t.rules)) && RuleSource(v) == RuleSource(q)
  }

  lemma SameChains(q: Query, v: Query, d: int, cabinet: int)
    requires SameSource(q, v)
    ensures FolderChain(v, d) == FolderChain(q, d) && CabinetChain(v, cabinet) == CabinetChain(q, cabinet)
    ensures ValidDocument(v, d, cabinet) == ValidDocument(q, d, cabinet)
  {
    hide RuleSource, Walk;
    assert FolderParents(v.t) == FolderParents(q.t);
  }

  lemma SameCandidates(q: Query, v: Query, d: int, cabinet: int, r: RuleRow, s: int)
    requires SameSource(q, v) && ValidDocument(q, d, cabinet) && ValidDocument(v, d, cabinet)
    ensures IsCandidate(v, d, cabinet, r, s) == IsCandidate(q, d, cabinet, r, s)
  {
    hide RuleSource, FolderChain, CabinetChain, ValidDocument;
    SameChains(q, v, d, cabinet);
  }

  lemma VisibleTransfers(q: Query, v: Query, d: int)
    requires SameSource(q, v) && Visible(q, d)
    ensures Visible(v, d)
  {
    hide RuleSource, IsCandidate, ValidDocument, SameSource;
    var cabinet, s :| ValidDocument(q, d, cabinet) && IsSelectedScope(q, d, cabinet, s)
      && !TierHas(q, d, cabinet, s, "DENY") && TierHas(q, d, cabinet, s, "ALLOW");
    SameChains(q, v, d, cabinet);
    forall r, s ensures IsCandidate(v, d, cabinet, r, s) == IsCandidate(q, d, cabinet, r, s) {
      SameCandidates(q, v, d, cabinet, r, s);
    }
    assert HasUser(v, d, cabinet, s) == HasUser(q, d, cabinet, s);
    assert TierHas(v, d, cabinet, s, "ALLOW") && !TierHas(v, d, cabinet, s, "DENY");
    assert IsSelectedScope(v, d, cabinet, s);
  }

  lemma SameSourceBack(q: Query, v: Query)
    requires SameSource(q, v)
    ensures SameSource(v, q)
  {
    hide RuleSource;
  }

  lemma BulkIgnoresIrrelevant(q: Query, keep: RuleRow -> bool, d: int)
    requires KeepsRelevant(q.t, keep, q.user, q.permission, q.now)
    ensures InBulk(q.(t := Keeping(q.t, keep)), d) == InBulk(q, d)
  {
    hide RuleSource, Visible, LoadCapabilities, GroupOverflow, RulesUsable, Rows, ValidPermission, KeepsRelevant;
    var v := q.(t := Keeping(q.t, keep));
    SourceIgnoresIrrelevant(q, keep);
    SameSourceBack(q, v);
    CapabilitiesIgnoreRules(q.t, v.t.rules, q.user, DEFAULT_LIMITS.maxPermissions);
    GroupsIgnoreRules(q.t, v.t.rules, q.user);
    forall e ensures Visible(v, e) == Visible(q, e) {
      if Visible(q, e) {
        VisibleTransfers(q, v, e);
      }
      if Visible(v, e) {
        VisibleTransfers(v, q, e);
      }
    }
    SameRows(q, v);
  }

  lemma SameRows(q: Query, v: Query)
    requires SameSource(q, v) && GroupIds(v.t, q.user) == GroupIds(q.t, q.user)
    requires forall e :: Visible(v, e) == Visible(q, e)
    ensures Rows(v) == Rows(q)
  {
    hide RuleSource, Visible;
  }

  // Rules switched off or past their expiry

  predicate SwitchedOff(r: RuleRow, now: int) {
    !r.isActive || (r.expiresAt.Some? && r.expiresAt.value <= now)
  }

  /** Deleting every rule that is inactive or whose expiry is at or before now changes no decision of either path. */
  lemma SwitchedOffRulesChangeNothing(q: Query, resource: ResourceRef, limits: Limits, d: int)
    ensures var u := Keeping(q.t, (r: RuleRow) => !SwitchedOff(r, q.now));
      && PointAllows(u, q.user, q.permission, resource, q.now, limits)
         == PointAllows(q.t, q.user, q.permission, resource, q.now, limits)
      && InBulk(q.(t := u), d) == InBulk(q, d)
  {
    var keep := (r: RuleRow) => !SwitchedOff(r, q.now);
    hide PointAllows, InBulk;
    PointIgnoresIrrelevant(q.t, keep, q.user, q.permission, resource, q.now, limits);
    BulkIgnoresIrrelevant(q, keep, d);
  }

  /** After a deactivation every decision is the one the tables give without that rule. */
  lemma DeactivatedRuleIsGone(s: Store, mayManage: bool, id: int, user: int, permission: string, resource: ResourceRef,
                              now: int, limits: Limits, bulk: BulkLimits, d: int)
    requires UniqueRuleIds(s) && DeactivateRule(s, mayManage, id).1.Success?
    ensures
      var t := DeactivateRule(s, mayManage, id).0.tables;
      var without := Keeping(t, (r: RuleRow) => r.id != id);
      && PointAllows(t, user, permission, resource, now, limits)
         == PointAllows(without, user, permission, resource, now, limits)
      && InBulk(Query(t, user, permission, now, bulk), d) == InBulk(Query(without, user, permission, now, bulk), d)
  {
    hide PointAllows, InBulk;
    var t := DeactivateRule(s, mayManage, id).0.tables;
    var keep := (r: RuleRow) => r.id != id;
    DeactivatedIsInactive(s, mayManage, id);
    PointIgnoresIrrelevant(t, keep, user, permission, resource, now, limits);
    BulkIgnoresIrrelevant(Query(t, user, permission, now, bulk), keep, d);
  }

  lemma DeactivatedIsInactive(s: Store, mayManage: bool, id: int)
    requires UniqueRuleIds(s) && DeactivateRule(s, mayManage, id).1.Success?
    ensures forall r :: r in DeactivateRule(s, mayManage, id).0.tables.rules && r.id == id ==> !r.isActive
  {
    var i, t := FindRule(s.tables.rules, id), DeactivateRule(s, mayManage, id).0;
    forall r | r in t.tables.rules && r.id == id ensures !r.isActive {
      var k :| 0 <= k < |t.tables.rules| && t.tables.rules[k] == r;
      assert s.tables.rules[k].id == id;
      assert k == i;
    }
  }

  // What being allowed takes

  /** The stored facts behind an allowance: an active account, a role that grants the permission and none that denies
      it, and a relevant ALLOW row that is on the resource itself or inherits. */
  ghost predicate AllowedByRow(t: Tables, user: int, permission: string, resource: ResourceRef, now: int) {
    && user in t.users && t.users[user] == "active"
    && Grant(user, permission, "ALLOW") in t.grants && Grant(user, permission, "DENY") !in t.grants
    && exists r :: IsAllowRow(t, user, permission, resource, now, r)
  }

  ghost predicate IsAllowRow(t: Tables, user: int, permission: string, resource: ResourceRef, now: int, r: RuleRow) {
    && r in t.rules && Relevant(t, user, permission, now, r) && r.effect == "ALLOW"
    && (r.inherits || RowResource(r) == Some(resource))
  }

  lemma CapabilitiesExact(t: Tables, user: int, max: nat, code: string)
    requires LoadCapabilities(t, user, max).Success?
    ensures code in LoadCapabilities(t, user, max).value <==>
      Grant(user, code, "ALLOW") in t.grants && Grant(user, code, "DENY") !in t.grants
  {
    if Grant(user, code, "ALLOW") in t.grants {
      var g := Grant(user, code, "ALLOW");
      assert g.permission in GrantedCodes(t, user);
    }
  }

  lemma PointAllowanceNeedsARow(t: Tables, user: int, permission: string, resource: ResourceRef, now: int, limits: Limits)
    requires resource.Global? || resource.id > 0
    requires PointAllows(t, user, permission, resource, now, limits)
    ensures AllowedByRow(t, user, permission, resource, now)
  {
    hide LoadCapabilities, LoadPrincipals, ResolveAncestry, LoadRules, Evaluate, Applicable;
    var inputs := LoadDecisionInputs(t, user, permission, resource, now, limits).value;
    var q := RequestFor(t, user, permission, inputs, now);
    DecisionIsWellFormed(q, inputs.rules);
    var id := Evaluate(q, inputs.rules).matchedRule.value;
    var rule :| rule in inputs.rules && Applicable(q, rule) && rule.id == id && rule.effect == Allow;
    CapabilitiesExact(t, user, limits.maxPermissions, permission);
    NotAdmittedMeansDenied(q, inputs.rules);
    PathEnds(t, resource, limits.maxAncestry);
    IsPrincipalSet(t, user, limits.maxGroups);
    var row := LoadedRow(t, user, permission, inputs.path, now, limits, rule);
    RowRead(q, row, resource);
    assert IsAllowRow(t, user, permission, resource, now, row);
  }

  lemma NotAdmittedMeansDenied(q: Request, rules: seq<AccessRule>)
    ensures Evaluate(q, rules).allowed ==> q.gates.accountActive && q.permission in q.capabilities
  {
    if !Admitted(q) {
      NotAdmittedDenied(q, rules);
    }
  }

  lemma IsPrincipalSet(t: Tables, user: int, maxGroups: nat)
    requires LoadPrincipals(t, user, maxGroups).Success?
    ensures LoadPrincipals(t, user, maxGroups).value == PrincipalSet(user, GroupIds(t, user))
  {
  }

  lemma PathEnds(t: Tables, resource: ResourceRef, maxAncestry: nat)
    requires ResolveAncestry(t, resource, maxAncestry).Success? && (resource.Global? || resource.id > 0)
    ensures var path := ResolveAncestry(t, resource, maxAncestry).value;
      |path| > 0 && path[|path| - 1] == resource
  {
    if !resource.Global? {
      var cs, fs := AncestryOnlyPaths(t, resource, maxAncestry);
      AncestryAccepts(t, resource, cs, fs, maxAncestry);
      PathAt(cs, fs, resource);
      PathLength(cs, fs, resource);
    }
  }

  lemma LoadedRow(t: Tables, user: int, permission: string, path: seq<ResourceRef>, now: int, limits: Limits, rule: AccessRule)
      returns (row: RuleRow)
    requires LoadRules(t, permission, PrincipalSet(user, GroupIds(t, user)), path, now, limits).Success?
    requires rule in LoadRules(t, permission, PrincipalSet(user, GroupIds(t, user)), path, now, limits).value
    ensures row in t.rules && Relevant(t, user, permission, now, row) && Convertible(row) && RowToRule(row) == rule
    ensures Loads(row, permission, PrincipalSet(user, GroupIds(t, user)), path, now)
  {
    hide Loads, Convertible, RowToRule, MatchingRows;
    var principals := PrincipalSet(user, GroupIds(t, user));
    var rows, rules := MatchingRows(t, permission, principals, path, now), LoadRules(t, permission, principals, path, now, limits).value;
    var i :| 0 <= i < |rules| && rules[i] == rule;
    row := rows[i];
    assert row in rows;
    MatchingMembers(t, permission, principals, path, now, row);
    LoadsRelevant(t, user, permission, path, now, row);
  }

  lemma RowRead(q: Request, row: RuleRow, resource: ResourceRef)
    requires Convertible(row) && Applicable(q, RowToRule(row)) && RowToRule(row).effect == Allow
    requires |q.ancestry| > 0 && q.ancestry[|q.ancestry| - 1] == resource
    ensures row.effect == "ALLOW" && (row.inherits || RowResource(row) == Some(resource))
  {
    hide ValidPermission;
  }

  lemma BulkAllowanceNeedsARow(q: Query, d: int)
    requires q.limits.maxHierarchyDepth >= 1 && InBulk(q, d) && d > 0
    ensures AllowedByRow(q.t, q.user, q.permission, Doc(d), q.now)
  {
    hide LoadCapabilities, RuleSource, ValidDocument, IsCandidate, ValidPermission;
    assert RulesUsable(q) && Visible(q, d) && d in q.t.documents;
    CapabilitiesExact(q.t, q.user, DEFAULT_LIMITS.maxPermissions, q.permission);
    var cabinet, s :| ValidDocument(q, d, cabinet) && IsSelectedScope(q, d, cabinet, s)
      && !TierHas(q, d, cabinet, s, "DENY") && TierHas(q, d, cabinet, s, "ALLOW");
    var r :| IsCandidate(q, d, cabinet, r, s) && r.effect == "ALLOW";
    CandidateRow(q, d, cabinet, r, s);
    RuleSourceMembers(q, r);
    SourceIsRelevant(q, r);
    assert IsAllowRow(q.t, q.user, q.permission, Doc(d), q.now, r);
  }

  lemma CandidateRow(q: Query, d: int, cabinet: int, r: RuleRow, s: int)
    requires ValidDocument(q, d, cabinet) && IsCandidate(q, d, cabinet, r, s) && |RuleSource(q)| <= q.limits.maxRules && d > 0
    ensures r in RuleSource(q) && (r.inherits || RowResource(r) == Some(Doc(d)))
  {
    hide ValidDocument, FolderChain, CabinetChain;
    RuleSourceMembers(q, r);
  }

  /** If every rule for the permission is switched off, nobody has it anywhere, by either path. */
  lemma NobodyWithoutALiveRule(q: Query, resource: ResourceRef, limits: Limits, d: int)
    requires forall r :: r in q.t.rules && r.permission == q.permission ==> SwitchedOff(r, q.now)
    requires (resource.Global? || resource.id > 0) && d > 0 && q.limits.maxHierarchyDepth >= 1
    ensures !PointAllows(q.t, q.user, q.permission, resource, q.now, limits)
    ensures !InBulk(q, d)
  {
    hide PointAllows, InBulk;
    if PointAllows(q.t, q.user, q.permission, resource, q.now, limits) {
      PointAllowanceNeedsARow(q.t, q.user, q.permission, resource, q.now, limits);
    }
    if InBulk(q, d) {
      BulkAllowanceNeedsARow(q, d);
    }
  }

  // The decision read off the stored rows

  predicate About(r: RuleRow, resource: ResourceRef) {
    match resource
    case Global => r.scopeType == "GLOBAL" && r.scopeId.None?
    case Cabinet(id) => r.scopeType == "CABINET" && r.scopeId == Some(id)
    case Folder(id) => r.scopeType == "FOLDER" && r.scopeId == Some(id)
    case Doc(id) => r.scopeType == "DOC" && r.scopeId == Some(id)
  }

  /** A stored rule that speaks about the request, from place p of the path: the last place is the target. */
  ghost predicate RuleAt(t: Tables, user: int, permission: string, path: seq<ResourceRef>, now: int, r: RuleRow, p: int) {
    && r in t.rules && Relevant(t, user, permission, now, r)
    && (r.principalType == "USER" ==> r.groupId.None?) && (r.principalType == "GROUP" ==> r.userId.None?)
    && 0 <= p < |path| && About(r, path[p]) && (p == |path| - 1 || r.inherits)
  }

  /** Nearer the target, or as near and for the user itself, or as near, for the same kind of principal, and a DENY. */
  predicate Overrules(a: RuleRow, pa: int, b: RuleRow, pb: int) {
    || pa > pb
    || (pa == pb && a.principalType == "USER" && b.principalType == "GROUP")
    || (pa == pb && a.principalType == b.principalType && a.effect == "DENY" && b.effect == "ALLOW")
  }

  ghost predicate AllowingRule(t: Tables, user: int, permission: string, path: seq<ResourceRef>, now: int, r: RuleRow, p: int) {
    && RuleAt(t, user, permission, path, now, r, p) && r.effect == "ALLOW"
    && forall r', p' :: RuleAt(t, user, permission, path, now, r', p') ==> !Overrules(r', p', r, p)
  }

  /** An active account, a role that grants the permission and none that denies it, and an ALLOW rule that no rule
      overrules. */
  ghost predicate RowsAllow(t: Tables, user: int, permission: string, path: seq<ResourceRef>, now: int) {
    && user in t.users && t.users[user] == "active"
    && Grant(user, permission, "ALLOW") in t.grants && Grant(user, permission, "DENY") !in t.grants
    && exists r, p :: AllowingRule(t, user, permission, path, now, r, p)
  }

  lemma LoadedIsRuleAt(t: Tables, user: int, permission: string, path: seq<ResourceRef>, now: int, r: RuleRow, q: Request)
    requires |path| > 0 && (forall i, j :: 0 <= i < j < |path| ==> path[i] != path[j])
    requires Convertible(r) && r in t.rules
    requires q.permission == permission && q.principals == PrincipalSet(user, GroupIds(t, user)) && q.ancestry == path && q.now == now
    requires Loads(r, permission, q.principals, path, now) && Applicable(q, RowToRule(r))
    ensures RuleAt(t, user, permission, path, now, r, Position(path, RowToRule(r).resource))
  {
    hide ValidPermission;
    LoadsRelevant(t, user, permission, path, now, r);
    var rule := RowToRule(r);
    PositionAt(path, |path| - 1);
    assert path[Position(path, rule.resource)] == rule.resource;
    assert About(r, rule.resource);
  }

  lemma RuleAtLoads(t: Tables, user: int, permission: string, path: seq<ResourceRef>, now: int, r: RuleRow, p: int)
    requires RuleAt(t, user, permission, path, now, r, p)
    ensures Loads(r, permission, PrincipalSet(user, GroupIds(t, user)), path, now)
  {
    if r.groupId.Some? {
      InGroupIds(t, user, r.groupId.value);
    }
    assert path[p] in path;
  }

  lemma AboutIsResource(r: RuleRow, resource: ResourceRef)
    requires Convertible(r) && About(r, resource)
    ensures RowToRule(r).resource == resource
  {
    hide ValidPermission;
  }

  lemma RuleAtContains(t: Tables, user: int, permission: string, path: seq<ResourceRef>, now: int, r: RuleRow, p: int)
    requires RuleAt(t, user, permission, path, now, r, p) && Convertible(r)
    ensures PrincipalSet(user, GroupIds(t, user)).Contains(RowToRule(r).principal)
    ensures RowToRule(r).permission == permission && ActiveAt(RowToRule(r), now)
    ensures About(r, path[p]) && (RowToRule(r).inherits || p == |path| - 1)
  {
    hide ValidPermission, About;
    if r.groupId.Some? {
      InGroupIds(t, user, r.groupId.value);
    }
  }

  lemma RuleAtApplies(t: Tables, user: int, permission: string, path: seq<ResourceRef>, now: int, r: RuleRow, p: int, q: Request)
    requires RuleAt(t, user, permission, path, now, r, p) && Convertible(r) && (forall i, j :: 0 <= i < j < |path| ==> path[i] != path[j])
    requires q.permission == permission && q.principals == PrincipalSet(user, GroupIds(t, user)) && q.ancestry == path && q.now == now
    ensures Applicable(q, RowToRule(r)) && Position(path, RowToRule(r).resource) == p
  {
    hide Convertible, RowToRule, GroupIds, Relevant, About, ActiveAt;
    RuleAtContains(t, user, permission, path, now, r, p);
    AboutIsResource(r, path[p]);
    PositionAt(path, p);
  }

  /** One request of the point path whose inputs loaded. */
  ghost predicate Asked(t: Tables, user: int, permission: string, resource: ResourceRef, now: int, limits: Limits,
                        inputs: Inputs, q: Request) {
    && LoadDecisionInputs(t, user, permission, resource, now, limits) == Success(inputs)
    && q == RequestFor(t, user, permission, inputs, now)
  }

  lemma AskedPath(t: Tables, user: int, permission: string, resource: ResourceRef, now: int, limits: Limits, inputs: Inputs, q: Request)
    requires Asked(t, user, permission, resource, now, limits, inputs, q)
    ensures |inputs.path| > 0 && inputs.path[0] == Global && (forall i, j :: 0 <= i < j < |inputs.path| ==> inputs.path[i] != inputs.path[j])
    ensures q.permission == permission && q.ancestry == inputs.path && q.now == now
    ensures q.principals == inputs.principals == PrincipalSet(user, GroupIds(t, user))
    ensures LoadRules(t, permission, q.principals, inputs.path, now, limits) == Success(inputs.rules)
    ensures Admitted(q) <==>
      (user in t.users && t.users[user] == "active"
       && Grant(user, permission, "ALLOW") in t.grants && Grant(user, permission, "DENY") !in t.grants)
  {
    hide LoadCapabilities, LoadPrincipals, ResolveAncestry, LoadRules, ValidPermission, ValidAncestry;
    CapabilitiesExact(t, user, limits.maxPermissions, permission);
    IsPrincipalSet(t, user, limits.maxGroups);
    if !resource.Global? {
      AncestryIsValid(t, resource, limits.maxAncestry);
    }
    AncestryStartsGlobal(t, resource, limits.maxAncestry);
  }

  lemma AncestryStartsGlobal(t: Tables, resource: ResourceRef, maxAncestry: nat)
    requires ResolveAncestry(t, resource, maxAncestry).Success?
    ensures var path := ResolveAncestry(t, resource, maxAncestry).value;
      |path| > 0 && path[0] == Global && forall i, j :: 0 <= i < j < |path| ==> path[i] != path[j]
  {
    hide ResolveAncestry;
    if resource.Global? {
      GlobalAncestry(t, maxAncestry);
    } else {
      AncestryIsValid(t, resource, maxAncestry);
    }
  }

  lemma GlobalAncestry(t: Tables, maxAncestry: nat)
    ensures ResolveAncestry(t, Global, maxAncestry) == Success([Global])
  {
  }

  lemma AskedRule(t: Tables, user: int, permission: string, resource: ResourceRef, now: int, limits: Limits, inputs: Inputs, q: Request,
                  r: RuleRow, p: int)
    requires Asked(t, user, permission, resource, now, limits, inputs, q)
    requires RuleAt(t, user, permission, inputs.path, now, r, p)
    ensures Convertible(r) && RowToRule(r) in inputs.rules && Applicable(q, RowToRule(r))
    ensures Position(inputs.path, RowToRule(r).resource) == p
  {
    hide *;
    AskedPath(t, user, permission, resource, now, limits, inputs, q);
    RuleAtLoads(t, user, permission, inputs.path, now, r, p);
    RuleAtMember(t, user, permission, inputs.path, now, r, p);
    LoadedRulesHave(t, permission, q.principals, inputs.path, now, limits, r);
    RuleAtApplies(t, user, permission, inputs.path, now, r, p, q);
  }

  lemma RuleAtMember(t: Tables, user: int, permission: string, path: seq<ResourceRef>, now: int, r: RuleRow, p: int)
    requires RuleAt(t, user, permission, path, now, r, p)
    ensures r in t.rules
  {
  }

  lemma AskedRow(t: Tables, user: int, permission: string, resource: ResourceRef, now: int, limits: Limits, inputs: Inputs, q: Request,
                 rule: AccessRule) returns (r: RuleRow)
    requires Asked(t, user, permission, resource, now, limits, inputs, q)
    requires rule in inputs.rules && Applicable(q, rule)
    ensures Convertible(r) && RowToRule(r) == rule
    ensures RuleAt(t, user, permission, inputs.path, now, r, Position(inputs.path, rule.resource))
  {
    hide *;
    AskedPath(t, user, permission, resource, now, limits, inputs, q);
    r := LoadedRow(t, user, permission, inputs.path, now, limits, rule);
    LoadedIsRuleAt(t, user, permission, inputs.path, now, r, q);
  }

  /** How rows compare is how their rules compare. */
  lemma OverrulesIsOutranks(q: Request, a: RuleRow, b: RuleRow)
    requires Convertible(a) && Convertible(b) && RowToRule(b).effect == Allow
    ensures var pa, pb := Position(q.ancestry, RowToRule(a).resource), Position(q.ancestry, RowToRule(b).resource);
      Overrules(a, pa, b, pb) ==> Outranks(q, RowToRule(a), RowToRule(b))
  {
    hide ValidPermission, Position;
  }

  lemma AllowUnlessOverruled(q: Request, w: RuleRow, r: RuleRow)
    requires Convertible(w) && Convertible(r) && r.effect == "ALLOW"
    requires !Outranks(q, RowToRule(r), RowToRule(w))
    requires !Overrules(w, Position(q.ancestry, RowToRule(w).resource), r, Position(q.ancestry, RowToRule(r).resource))
    ensures RowToRule(w).effect == Allow
  {
    hide ValidPermission, Position;
  }

  /** Whenever its inputs load, the point path's answer is the one read off the stored rows. */
  lemma PointAllowsExactly(t: Tables, user: int, permission: string, resource: ResourceRef, now: int, limits: Limits)
    requires LoadDecisionInputs(t, user, permission, resource, now, limits).Success?
    ensures PointAllows(t, user, permission, resource, now, limits) <==>
      RowsAllow(t, user, permission, LoadDecisionInputs(t, user, permission, resource, now, limits).value.path, now)
  {
    hide LoadDecisionInputs, Evaluate, Admitted, AllowingRule, RequestFor, Strongest, Applicable;
    var inputs := LoadDecisionInputs(t, user, permission, resource, now, limits).value;
    var q := RequestFor(t, user, permission, inputs, now);
    AskedPath(t, user, permission, resource, now, limits, inputs, q);
    if PointAllows(t, user, permission, resource, now, limits) {
      AllowedHasRow(t, user, permission, resource, now, limits, inputs, q);
    }
    if RowsAllow(t, user, permission, inputs.path, now) {
      var r, p :| AllowingRule(t, user, permission, inputs.path, now, r, p);
      RowAllows(t, user, permission, resource, now, limits, inputs, q, r, p);
    }
  }

  lemma AllowedHasRow(t: Tables, user: int, permission: string, resource: ResourceRef, now: int, limits: Limits, inputs: Inputs, q: Request)
    requires Asked(t, user, permission, resource, now, limits, inputs, q) && Evaluate(q, inputs.rules).allowed
    ensures RowsAllow(t, user, permission, inputs.path, now)
  {
    hide Evaluate, Asked, Applicable, RuleAt, Convertible, RowToRule, Outranks, Overrules, Position;
    AskedPath(t, user, permission, resource, now, limits, inputs, q);
    DecisionIsWellFormed(q, inputs.rules);
    if !Admitted(q) {
      NotAdmittedDenied(q, inputs.rules);
    }
    var w := StrongestExists(q, inputs.rules);
    StrongestRuleDecides(q, inputs.rules, w);
    var r := AskedRow(t, user, permission, resource, now, limits, inputs, q, w);
    var p := Position(inputs.path, w.resource);
    EffectRead(r);
    forall r', p' | RuleAt(t, user, permission, inputs.path, now, r', p') ensures !Overrules(r', p', r, p) {
      AskedRule(t, user, permission, resource, now, limits, inputs, q, r', p');
      OverrulesIsOutranks(q, r', r);
    }
    assert AllowingRule(t, user, permission, inputs.path, now, r, p);
  }

  lemma EffectRead(r: RuleRow)
    requires Convertible(r)
    ensures RowToRule(r).effect == Allow <==> r.effect == "ALLOW"
  {
  }

  lemma RowAllows(t: Tables, user: int, permission: string, resource: ResourceRef, now: int, limits: Limits, inputs: Inputs, q: Request,
                  r: RuleRow, p: int)
    requires Asked(t, user, permission, resource, now, limits, inputs, q) && Admitted(q)
    requires AllowingRule(t, user, permission, inputs.path, now, r, p)
    ensures Evaluate(q, inputs.rules).allowed
  {
    hide Evaluate, Asked, Applicable, RuleAt, Convertible, RowToRule, Outranks, Overrules, Position, Admitted;
    AskedPath(t, user, permission, resource, now, limits, inputs, q);
    AskedRule(t, user, permission, resource, now, limits, inputs, q, r, p);
    var w := StrongestExists(q, inputs.rules);
    StrongestRuleDecides(q, inputs.rules, w);
    var x := AskedRow(t, user, permission, resource, now, limits, inputs, q, w);
    assert !Outranks(q, RowToRule(r), w);
    AllowUnlessOverruled(q, x, r);
  }

  /** So is the bulk answer, for a document the point path's limit also reaches. */
  lemma BulkAllowsExactly(q: Query, limits: Limits, d: int, cs: seq<int>, fs: seq<int>)
    requires q.limits.Valid() && q.user > 0 && ValidPermission(q.permission) && Constraints(q.t)
    requires DocumentPath(q, d, cs, fs) && NothingOverflows(q, limits, PathOf(cs, fs, Doc(d)))
    requires |cs| + |fs| + 2 <= limits.maxAncestry && LoadCapabilities(q.t, q.user, limits.maxPermissions).Success?
    ensures InBulk(q, d) <==>
      WithinDepth(q, cs, fs) && RowsAllow(q.t, q.user, q.permission, PathOf(cs, fs, Doc(d)), q.now)
  {
    hide PathOf, HierarchyPath, InBulk, PointAllows, RowsAllow, NothingOverflows, ValidPermission, LoadCapabilities,
         LoadDecisionInputs, AreLoadedRules, WellFormedRow, WithinDepth;
    BulkAgainstPoint(q, limits, d, cs, fs);
    PointLoads(q, limits, d, cs, fs);
    PointAllowsExactly(q.t, q.user, q.permission, Doc(d), q.now, limits);
  }

  /** No document moves unless its mover's account is active, a role grants MOVE and none denies it, and a live ALLOW
      rule reaches the document and one reaches the folder. */
  lemma MoveNeedsRules(s: Store, m: MoveInput)
    requires MoveDocument(s, m).1.Success? && m.document > 0 && m.folder > 0
    ensures AllowedByRow(s.tables, m.user, "MOVE", Doc(m.document), m.now)
    ensures AllowedByRow(s.tables, m.user, "MOVE", Folder(m.folder), m.now)
  {
    hide PointAllows, InBulk, AllowedByRow, MoveDocument;
    MoveExact(s, m);
    PointAllowanceNeedsARow(s.tables, m.user, "MOVE", Folder(m.folder), m.now, Limits(128, 256, 2048, 64));
    BulkAllowanceNeedsARow(Query(s.tables, m.user, "MOVE", m.now, BulkLimits(50_000, 64, 2048, 256)), m.document);
  }
}
