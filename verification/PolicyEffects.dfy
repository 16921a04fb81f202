/** What the authorization writes mean to the readers: from a stored rule or placement to a decision. */
module PolicyEffects {
  import opened Wrappers
  import opened Text
  import opened Sorting
  import opened Resources
  import opened Evaluator
  import opened AccessRuleRepository
  import opened VisibleDocuments
  import opened BulkRefinement
  import opened PolicyRevision

  function ScopeOf(r: RuleInput): ResourceRef
    requires r.scopeType == "GLOBAL" || r.scopeId.Some?
  {
    if r.scopeType == "GLOBAL" then Global
    else if r.scopeType == "CABINET" then Cabinet(r.scopeId.value)
    else if r.scopeType == "FOLDER" then Folder(r.scopeId.value)
    else Doc(r.scopeId.value)
  }

  function ExpiryOf(r: RuleInput): Option<int> {
    match r.expires case Some(e) => Some(e.at) case None => None
  }

  /** An accepted rule reads back as the evaluator's rule for the principal, permission, resource and effect asked for. */
  lemma StoredRuleReadsBack(s: Store, r: RuleInput)
    requires InputAccepted(s, r)
    ensures Convertible(NewRow(s, r))
    ensures RowToRule(NewRow(s, r)) ==
      AccessRule(NewRow(s, r).id, r.principal, Strip(r.permission), ScopeOf(r),
                 if r.effect == "ALLOW" then Allow else Deny, r.inherits, true, ExpiryOf(r))
  {
    hide Blank, Strip;
    NewRowWellFormed(s, r);
  }

  /** It is loaded for exactly that permission, principal, resource and time. */
  lemma StoredRuleLoads(s: Store, r: RuleInput, permission: string, principals: PrincipalSet, path: seq<ResourceRef>, now: int)
    requires InputAccepted(s, r) && Global in path
    ensures Loads(NewRow(s, r), permission, principals, path, now) <==>
      && permission == Strip(r.permission) && principals.Contains(r.principal) && ScopeOf(r) in path
      && (ExpiryOf(r).None? || ExpiryOf(r).value > now)
  {
    hide Blank, Strip;
  }

  lemma ResolvedPathEnds(t: Tables, d: int, maxAncestry: nat)
    requires d > 0 && ResolveAncestry(t, Doc(d), maxAncestry).Success?
    ensures var path := ResolveAncestry(t, Doc(d), maxAncestry).value;
      && |path| > 0 && path[|path| - 1] == Doc(d)
      && forall i, j :: 0 <= i < j < |path| ==> path[i] != path[j]
  {
    var cs, fs := AncestryOnlyPaths(t, Doc(d), maxAncestry);
    AncestryAccepts(t, Doc(d), cs, fs, maxAncestry);
    PathAt(cs, fs, Doc(d));
    PathLength(cs, fs, Doc(d));
    AncestryIsValid(t, Doc(d), maxAncestry);
  }

  lemma AncestryIsValid(t: Tables, resource: ResourceRef, maxAncestry: nat)
    requires ResolveAncestry(t, resource, maxAncestry).Success? && !resource.Global?
    ensures ValidAncestry(ResolveAncestry(t, resource, maxAncestry).value)
  {
    hide ValidAncestry, PathOf, WalkFrom;
  }

  /** A DENY for one user on one document itself, while active, decides: whatever other rules there are. */
  ghost predicate DirectDeny(r: RuleRow, user: int, d: int) {
    && WellFormedRow(r)
    && r.principalType == "USER" && r.userId == Some(user)
    && r.scopeType == "DOC" && r.scopeId == Some(d)
    && r.effect == "DENY"
  }

  lemma LoadedRulesHave(t: Tables, permission: string, principals: PrincipalSet, path: seq<ResourceRef>, now: int,
                        limits: Limits, r: RuleRow)
    requires LoadRules(t, permission, principals, path, now, limits).Success?
    requires r in t.rules && Loads(r, permission, principals, path, now)
    ensures Convertible(r) && RowToRule(r) in LoadRules(t, permission, principals, path, now, limits).value
  {
    hide Loads, Convertible, RowToRule, MatchingRows;
    var rows := MatchingRows(t, permission, principals, path, now);
    MatchingMembers(t, permission, principals, path, now, r);
    var i :| 0 <= i < |rows| && rows[i] == r;
    assert Convertible(rows[i]);
    assert LoadRules(t, permission, principals, path, now, limits).value[i] == RowToRule(r);
  }

  lemma NearestUserDenyWins(q: Request, rules: seq<AccessRule>, deny: AccessRule)
    requires deny in rules && Applicable(q, deny) && deny.principal.kind.User? && deny.effect.Deny?
    requires |q.ancestry| > 0 && Position(q.ancestry, deny.resource) == |q.ancestry| - 1
    ensures !Evaluate(q, rules).allowed
  {
    hide Applicable, Evaluate, Position;
    DecisionIsWellFormed(q, rules);
    if Admitted(q) {
      var w := StrongestExists(q, rules);
      StrongestRuleDecides(q, rules, w);
      assert !Outranks(q, deny, w);
      assert Position(q.ancestry, w.resource) < |q.ancestry|;
    } else {
      NotAdmittedDenied(q, rules);
    }
  }

  lemma DirectDenyDecides(t: Tables, r: RuleRow, user: int, d: int, now: int, limits: Limits)
    requires r in t.rules && DirectDeny(r, user, d) && Unexpired(r, now)
    ensures !PointAllows(t, user, r.permission, Doc(d), now, limits)
  {
    hide ResolveAncestry, LoadRules, LoadCapabilities, Evaluate, Convertible, ValidPermission, Position;
    var loaded := LoadDecisionInputs(t, user, r.permission, Doc(d), now, limits);
    if loaded.Success? {
      var inputs := loaded.value;
      ResolvedPathEnds(t, d, limits.maxAncestry);
      assert inputs.path[|inputs.path| - 1] == Doc(d);
      PositionAt(inputs.path, |inputs.path| - 1);
      LoadedRulesHave(t, r.permission, inputs.principals, inputs.path, now, limits, r);
      var q, rule := RequestFor(t, user, r.permission, inputs, now), RowToRule(r);
      assert Applicable(q, rule);
      NearestUserDenyWins(q, inputs.rules, rule);
    }
  }

  /** From the write to the decision: once a direct DENY is stored the point path refuses that user that permission on
      that document until it expires, in every later state that still has the rule. */
  lemma DenyTakesEffect(s: Store, mayManage: bool, r: RuleInput, later: Tables, now: int, limits: Limits)
    requires UpsertRule(s, mayManage, r).1.Success?
    requires r.principal.kind.User? && r.scopeType == "DOC" && r.effect == "DENY"
    requires NewRow(s, r) in later.rules && (ExpiryOf(r).None? || ExpiryOf(r).value > now)
    ensures NewRow(s, r) in UpsertRule(s, mayManage, r).0.tables.rules
    ensures !PointAllows(later, r.principal.id, Strip(r.permission), Doc(r.scopeId.value), now, limits)
  {
    hide Blank, Strip, PointAllows, MaxId;
    NewRowWellFormed(s, r);
    var row := NewRow(s, r);
    assert UpsertRule(s, mayManage, r).0.tables.rules[|s.tables.rules|] == row;
    DirectDenyDecides(later, row, r.principal.id, r.scopeId.value, now, limits);
  }

  /** A successful move places the document in the folder asked for and touches no other row. */
  lemma MoveTakesEffect(s: Store, m: MoveInput)
    requires MoveDocument(s, m).1.Success?
    ensures var t := MoveDocument(s, m).0.tables;
      && m.document in t.documents && t.documents[m.document] == DocumentRow(m.folder, true)
      && m.folder in t.folders
      && (forall d :: d != m.document ==> (d in t.documents <==> d in s.tables.documents))
      && (forall d :: d != m.document && d in t.documents ==> t.documents[d] == s.tables.documents[d])
      && t.rules == s.tables.rules && t.memberships == s.tables.memberships
    ensures MoveDocument(s, m).0 != s ==> UpdatedAt(MoveDocument(s, m).0, m.document) == m.changedAt
  {
    hide PointAllows, InBulk;
  }

  // What each write takes, and what it refuses

  /** A move succeeds exactly when the document is in the bulk answer for MOVE, active and at the expected version, and
      the point path allows MOVE on the folder; a refusal says which check failed and leaves everything. */
  lemma MoveExact(s: Store, m: MoveInput)
    ensures var (t, result) := MoveDocument(s, m);
      var q := Query(s.tables, m.user, "MOVE", m.now, BulkLimits(50_000, 64, 2048, 256));
      var found := InBulk(q, m.document) && m.document in s.tables.documents && s.tables.documents[m.document].active;
      var folder := m.folder in s.tables.folders
        && PointAllows(s.tables, m.user, "MOVE", Folder(m.folder), m.now, Limits(128, 256, 2048, 64));
      var current := (if m.document in s.updatedAt then s.updatedAt[m.document] else 0) == m.expected;
      && (result.Success? <==> found && folder && current)
      && (!found ==> result == Failure("Document not found"))
      && (found && !folder ==> result == Failure("Folder not found"))
      && (found && folder && !current ==> result == Failure("Document was modified"))
      && (result.Failure? ==> t == s)
      && (result.Success? ==>
            var moved := s.tables.documents[m.document].folder != m.folder;
            t.tables.revision == s.tables.revision + if moved then 1 else 0)
  {
    hide PointAllows, InBulk;
  }

  predicate MembershipAsked(s: Store, group: int, user: int, actor: int) {
    && 1 <= group <= 2_147_483_647 && 1 <= user <= 2_147_483_647 && 1 <= actor <= 2_147_483_647
    && group in s.tables.groups && s.tables.groups[group] && user in s.tables.users && actor in s.tables.users
  }

  /** The memberships became `members` if the call was in order and stayed otherwise, the answer says whether that was
      a change, the revision counts the change, and nothing else moved. */
  predicate MembershipWritten(s: Store, t: Store, result: Result<Mutation>, inOrder: bool, members: set<(int, int)>) {
    var before := s.tables.memberships;
    && (result.Success? <==> inOrder)
    && t.tables.memberships == (if inOrder then members else before)
    && (inOrder ==> result.value.changed == (members != before))
    && t.tables.revision == s.tables.revision + (if inOrder && members != before then 1 else 0)
    && t == s.(tables := s.tables.(memberships := t.tables.memberships, revision := t.tables.revision))
  }

  /** Memberships change only between known users and active groups, one at a time. */
  lemma MembershipExact(s: Store, group: int, user: int, actor: int)
    ensures var (t, result) := AddMembership(s, group, user, actor);
      MembershipWritten(s, t, result, MembershipAsked(s, group, user, actor), s.tables.memberships + {(group, user)})
    ensures var (t, result) := RemoveMembership(s, group, user, actor);
      MembershipWritten(s, t, result, MembershipAsked(s, group, user, actor), s.tables.memberships - {(group, user)})
  {
    var before, m := s.tables.memberships, (group, user);
    assert m in before + {m} && m !in before - {m};
    assert if m in before then before + {m} == before else before - {m} == before;
  }

  ghost predicate SaysSomething(text: string, maximum: nat) {
    |text| <= maximum && exists i :: 0 <= i < |text| && !IsSpace(text[i])
  }

  /** What the rules table accepts: a known principal and resource, a known permission, an effect, and an expiry to come. */
  ghost predicate RuleAsked(s: Store, r: RuleInput) {
    && r.principal.id > 0 && r.principal.id in (if r.principal.kind.User? then s.tables.users.Keys else s.tables.groups.Keys)
    && (r.effect == "ALLOW" || r.effect == "DENY")
    && SaysSomething(r.permission, 40) && Strip(r.permission) in s.permissions
    && (r.reason.Some? ==> SaysSomething(r.reason.value, 1000))
    && (r.expires.Some? ==> r.expires.value.zoned && r.expires.value.at > r.clock)
    && if r.scopeType == "GLOBAL" then r.scopeId.None?
       else r.scopeId.Some? && r.scopeId.value > 0
            && (|| (r.scopeType == "CABINET" && r.scopeId.value in s.tables.cabinets)
                || (r.scopeType == "FOLDER" && r.scopeId.value in s.tables.folders)
                || (r.scopeType == "DOC" && r.scopeId.value in s.tables.documents))
  }

  lemma AskedIsAccepted(s: Store, r: RuleInput)
    ensures InputAccepted(s, r) <==> RuleAsked(s, r)
  {
    hide Strip;
    BlankExact(r.permission);
    if r.reason.Some? {
      BlankExact(r.reason.value);
    }
  }

  /** A rule is stored exactly when its manager asks for one the table accepts; then it is the one row added. */
  lemma UpsertExact(s: Store, mayManage: bool, r: RuleInput)
    ensures var (t, result) := UpsertRule(s, mayManage, r);
      && (result.Success? <==> mayManage && RuleAsked(s, r))
      && (result.Failure? ==> t == s)
      && (result.Success? ==>
            && |t.tables.rules| == |s.tables.rules| + 1 && t.tables.rules[..|s.tables.rules|] == s.tables.rules
            && t.tables.rules[|s.tables.rules|].id == result.value && t.tables.rules[|s.tables.rules|].isActive
            && t == s.(tables := s.tables.(rules := t.tables.rules, revision := s.tables.revision + 1)))
  {
    hide Strip, InputAccepted, RuleAsked;
    AskedIsAccepted(s, r);
    RefusedWithoutPrincipal(s, r);
  }

  lemma RefusedWithoutPrincipal(s: Store, r: RuleInput)
    ensures r.principal.id <= 0 ==> !InputAccepted(s, r)
  {
  }

  /** A manager's deactivation of a stored rule switches that one off and touches no other; without a manager, or
      without such a rule, it is refused. */
  lemma DeactivateExact(s: Store, mayManage: bool, id: int)
    requires UniqueRuleIds(s)
    ensures var (t, result) := DeactivateRule(s, mayManage, id);
      var before, after := s.tables.rules, t.tables.rules;
      && (result.Success? <==> mayManage && id > 0 && exists i :: 0 <= i < |before| && before[i].id == id)
      && |after| == |before|
      && (forall i :: 0 <= i < |before| ==>
            after[i] == if result.Success? && before[i].id == id then before[i].(isActive := false) else before[i])
      && t == s.(tables := s.tables.(rules := after, revision := s.tables.revision + if after == before then 0 else 1))
  {
    FoundExactly(s.tables.rules, id);
    hide FindRule;
    var i, t := FindRule(s.tables.rules, id), DeactivateRule(s, mayManage, id).0;
    if i >= 0 && t != s {
      assert !t.tables.rules[i].isActive;
    }
  }

  lemma FoundExactly(rules: seq<RuleRow>, id: int)
    ensures FindRule(rules, id) >= 0 <==> exists i :: 0 <= i < |rules| && rules[i].id == id
    ensures FindRule(rules, id) >= 0 ==> FindRule(rules, id) < |rules| && rules[FindRule(rules, id)].id == id
  {
    forall k | 0 <= k < |rules| ensures rules[k] in rules {
    }
  }

  /** An update keeps the old rule, switched off, and adds the new one; if only the new one is refused, the old one
      is off all the same. */
  lemma UpdateReplaces(s: Store, mayManage: bool, id: int, r: RuleInput)
    requires UniqueRuleIds(s)
    ensures var (t, result) := UpdateRule(s, mayManage, id, r);
      var off := DeactivateRule(s, mayManage, id);
      && (result.Success? <==> off.1.Success? && RuleAsked(s, r))
      && (result.Failure? ==> t == off.0)
      && (result.Success? ==>
            && |t.tables.rules| == |s.tables.rules| + 1 && t.tables.rules[..|s.tables.rules|] == off.0.tables.rules
            && t.tables.rules[|s.tables.rules|].id == result.value && t.tables.rules[|s.tables.rules|].isActive
            && t.tables.revision == off.0.tables.revision + 1)
  {
    hide DeactivateRule, UpsertRule, RuleAsked;
    DeactivateExact(s, mayManage, id);
    UpsertExact(DeactivateRule(s, mayManage, id).0, mayManage, r);
    AskedIgnoresRules(s, DeactivateRule(s, mayManage, id).0, r);
    DeactivateNeedsManager(s, mayManage, id);
  }

  lemma DeactivateNeedsManager(s: Store, mayManage: bool, id: int)
    ensures DeactivateRule(s, mayManage, id).1.Success? ==> mayManage
  {
  }

  lemma AskedIgnoresRules(s: Store, t: Store, r: RuleInput)
    requires t == s.(tables := s.tables.(rules := t.tables.rules, revision := t.tables.revision))
    ensures RuleAsked(t, r) <==> RuleAsked(s, r)
  {
    hide SaysSomething, Strip;
  }
}
