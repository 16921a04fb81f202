/** What the two decision paths answer when a bound is exceeded or stored data is malformed: never an allowance
    (backend/app/repositories/access_rule_repository.py, backend/app/repositories/visible_document_repository.py). */
module FailClosed {
  import opened Wrappers
  import opened Text
  import opened Sorting
  import opened Resources
  import opened Evaluator
  import opened Hierarchy
  import opened AccessRuleRepository
  import opened VisibleDocuments
  import opened BulkRefinement
  import opened RuleRelevance

  predicate CodeIsPlain(code: string) {
    1 <= |code| <= 40 && !IsSpace(code[0]) && !IsSpace(code[|code| - 1])
  }

  /** The active groups of the user. */
  ghost predicate AreGroups(t: Tables, user: int, groups: set<int>) {
    forall g :: g in groups <==> (g, user) in t.memberships && g in t.groups && t.groups[g]
  }

  /** The permission codes some role of the user mentions, whatever the effect. */
  ghost predicate AreCodes(t: Tables, user: int, codes: set<string>) {
    forall c :: c in codes <==> exists g :: g in t.grants && g.user == user && g.permission == c
  }

  lemma GroupsAre(t: Tables, user: int, groups: set<int>)
    ensures AreGroups(t, user, groups) <==> groups == GroupIds(t, user)
  {
    hide GroupIds;
    forall g ensures g in GroupIds(t, user) <==> (g, user) in t.memberships && g in t.groups && t.groups[g] {
      InGroupIds(t, user, g);
    }
    if AreGroups(t, user, groups) {
      assert forall g :: g in groups <==> g in GroupIds(t, user);
    }
  }

  lemma CodesAre(t: Tables, user: int, codes: set<string>)
    ensures AreCodes(t, user, codes) <==> codes == GrantedCodes(t, user)
  {
  }

  ghost predicate RoleDataSound(t: Tables, user: int) {
    forall g :: g in t.grants && g.user == user ==> CodeIsPlain(g.permission) && (g.effect == "ALLOW" || g.effect == "DENY")
  }

  /** A user's capabilities load exactly when the codes fit the limit and every role row is sound. */
  lemma CapabilitiesLoadExactly(t: Tables, user: int, max: nat, codes: set<string>)
    requires AreCodes(t, user, codes)
    ensures var loaded := LoadCapabilities(t, user, max);
      && (loaded == Failure("AUTHZ_PERMISSION_LIMIT") <==> |codes| > max)
      && (loaded.Success? <==> |codes| <= max && RoleDataSound(t, user))
  {
    CodesAre(t, user, codes);
    assert "AUTHZ_PERMISSION_LIMIT"[6] != "AUTHZ_ROLE_DATA_INVALID"[6];
  }

  /** Too many codes or groups, malformed role or group data, a path that is missing, malformed or too long, too many
      rules or a malformed one among them: each refuses the point decision. */
  lemma PointFailsClosed(t: Tables, user: int, permission: string, resource: ResourceRef, now: int, limits: Limits,
                         groups: set<int>, codes: set<string>)
    requires AreGroups(t, user, groups) && AreCodes(t, user, codes)
    requires PointAllows(t, user, permission, resource, now, limits)
    ensures user > 0 && CodeIsPlain(permission)
    ensures |codes| <= limits.maxPermissions && RoleDataSound(t, user)
    ensures |groups| <= limits.maxGroups && forall g :: g in groups ==> g > 0
    ensures var path := ResolveAncestry(t, resource, limits.maxAncestry);
      && path.Success? && |path.value| <= limits.maxAncestry
      && |MatchingRows(t, permission, PrincipalSet(user, groups), path.value, now)| <= limits.maxRules
      && forall r, p :: RuleAt(t, user, permission, path.value, now, r, p) ==>
           r.id > 0 && (r.effect == "ALLOW" || r.effect == "DENY") && (r.scopeId.Some? ==> r.scopeId.value > 0)
  {
    hide ResolveAncestry, LoadCapabilities, MatchingRows, Evaluate, RuleAt, RoleDataSound, AreGroups, AreCodes, Convertible, RowToRule;
    var inputs := LoadDecisionInputs(t, user, permission, resource, now, limits).value;
    GroupsAre(t, user, groups);
    CapabilitiesLoadExactly(t, user, limits.maxPermissions, codes);
    var q := RequestFor(t, user, permission, inputs, now);
    forall r, p | RuleAt(t, user, permission, inputs.path, now, r, p)
      ensures r.id > 0 && (r.effect == "ALLOW" || r.effect == "DENY") && (r.scopeId.Some? ==> r.scopeId.value > 0)
    {
      AskedRule(t, user, permission, resource, now, limits, inputs, q, r, p);
      ConvertibleRow(t, user, permission, inputs.path, now, r, p);
    }
  }

  lemma ConvertibleRow(t: Tables, user: int, permission: string, path: seq<ResourceRef>, now: int, r: RuleRow, p: int)
    requires Convertible(r) && RuleAt(t, user, permission, path, now, r, p)
    ensures r.id > 0 && (r.effect == "ALLOW" || r.effect == "DENY") && (r.scopeId.Some? ==> r.scopeId.value > 0)
  {
    hide ValidPermission, Relevant;
  }

  /** The row speaks for the user and permission, is live, and is on a document or inherits. */
  ghost predicate InSource(q: Query, r: RuleRow) {
    r in q.t.rules && Relevant(q.t, q.user, q.permission, q.now, r) && (r.scopeType == "DOC" || r.inherits)
  }

  predicate SoundRow(r: RuleRow) {
    && (r.effect == "ALLOW" || r.effect == "DENY")
    && (|| (r.principalType == "USER" && r.userId.Some? && r.userId.value > 0 && r.groupId == None)
        || (r.principalType == "GROUP" && r.groupId.Some? && r.groupId.value > 0 && r.userId == None))
    && (|| (r.scopeType == "GLOBAL" && r.scopeId == None)
        || (r.scopeType in {"CABINET", "FOLDER", "DOC"} && r.scopeId.Some? && r.scopeId.value > 0))
  }

  lemma SourceExact(q: Query, r: RuleRow)
    ensures InSource(q, r) <==> r in q.t.rules && InRuleSource(q, r)
    ensures SoundRow(r) <==> !InvalidData(r)
  {
    if r.principalType == "GROUP" && r.groupId.Some? {
      InGroupIds(q.t, q.user, r.groupId.value);
    }
  }

  /** One malformed rule among those that speak for the user, one rule or one group too many, an inactive account or
      unusable role data: each empties the bulk answer. More documents than asked for is an error, not a part. */
  lemma BulkFailsClosed(q: Query, groups: set<int>, codes: set<string>)
    requires AreGroups(q.t, q.user, groups) && AreCodes(q.t, q.user, codes)
    ensures var answer := ResolveVisibleDocumentIds(q);
      && (answer == InvalidArgument <==> q.user <= 0 || !CodeIsPlain(q.permission))
      && (answer == TooManyDocuments ==> |Rows(q)| > q.limits.maxDocumentIds)
      && (answer.DocumentIds? && answer.ids != {} ==>
            && q.user in q.t.users && q.t.users[q.user] == "active"
            && |codes| <= 128 && RoleDataSound(q.t, q.user) && |groups| <= q.limits.maxGroups
            && |Filter(q.t.rules, (r: RuleRow) => InSource(q, r))| <= q.limits.maxRules
            && (forall r :: InSource(q, r) ==> SoundRow(r))
            && |answer.ids| <= q.limits.maxDocumentIds && forall d :: d in answer.ids ==> d > 0)
  {
    hide Visible, LoadCapabilities, RoleDataSound, AreGroups, AreCodes, RuleSource, InvalidData, SoundRow, InSource;
    GroupsAre(q.t, q.user, groups);
    CapabilitiesLoadExactly(q.t, q.user, 128, codes);
    PlainExact(q.permission);
    var answer := ResolveVisibleDocumentIds(q);
    if answer.DocumentIds? && answer.ids != {} {
      SourceFits(q);
      forall r | InSource(q, r) ensures SoundRow(r) {
        SourceExact(q, r);
        RuleSourceMembers(q, r);
      }
    }
  }

  lemma PlainExact(code: string)
    ensures ValidPermission(code) <==> CodeIsPlain(code)
  {
  }

  lemma SourceFits(q: Query)
    requires |RuleSource(q)| <= q.limits.maxRules
    ensures |Filter(q.t.rules, (r: RuleRow) => InSource(q, r))| <= q.limits.maxRules
  {
    hide InSource, InRuleSource;
    var p, raw := (r: RuleRow) => InRuleSource(q, r), (r: RuleRow) => InSource(q, r);
    SortPermutes(Filter(q.t.rules, p), IdLe);
    forall r | r in q.t.rules ensures p(r) == raw(r) {
      SourceExact(q, r);
    }
    FilterSame(q.t.rules, p, raw);
  }
}
