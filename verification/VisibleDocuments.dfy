/** The bulk resolver of visible documents (backend/app/repositories/visible_document_repository.py).
    The recursive walks are sequences; the relational part of the query reads
    MAX(CASE WHEN p THEN 1 ELSE 0 END) = 1 as "some row satisfies p". */
module VisibleDocuments {
  import opened Wrappers
  import opened Sorting
  import opened Resources
  import opened Evaluator
  import opened Hierarchy
  import opened AccessRuleRepository

  datatype BulkLimits = BulkLimits(maxDocumentIds: nat, maxHierarchyDepth: nat, maxRules: nat, maxGroups: nat) {
    predicate Valid() {
      && 1 <= maxDocumentIds <= 100_000 && 1 <= maxHierarchyDepth <= 256
      && 1 <= maxRules <= 8192 && 1 <= maxGroups <= 1024
    }
  }

  const DEFAULT_BULK_LIMITS := BulkLimits(50_000, 64, 2048, 256)

  /** The bound parameters of one query. */
  datatype Query = Query(t: Tables, user: int, permission: string, now: int, limits: BulkLimits)

  datatype BulkResult = DocumentIds(ids: set<int>) | TooManyDocuments | InvalidArgument

  // group_state and rule_source

  predicate GroupOverflow(q: Query) {
    |GroupIds(q.t, q.user)| > q.limits.maxGroups
  }

  predicate JoinsPrincipal(q: Query, r: RuleRow) {
    || (r.principalType == "USER" && r.userId == Some(q.user))
    || (r.principalType == "GROUP" && r.groupId.Some? && r.groupId.value in GroupIds(q.t, q.user))
  }

  predicate InRuleSource(q: Query, r: RuleRow) {
    && JoinsPrincipal(q, r)
    && r.permission == q.permission
    && Unexpired(r, q.now)
    && (r.scopeType == "DOC" || r.inherits)
  }

  predicate InvalidData(r: RuleRow) {
    || r.principalType !in {"USER", "GROUP"}
    || (r.principalType == "USER" && (r.userId.None? || r.userId.value <= 0 || r.groupId.Some?))
    || (r.principalType == "GROUP" && (r.groupId.None? || r.groupId.value <= 0 || r.userId.Some?))
    || r.scopeType !in {"GLOBAL", "CABINET", "FOLDER", "DOC"}
    || (r.scopeType == "GLOBAL" && r.scopeId.Some?)
    || (r.scopeType != "GLOBAL" && (r.scopeId.None? || r.scopeId.value <= 0))
    || r.effect !in {"ALLOW", "DENY"}
  }

  function RuleSource(q: Query): seq<RuleRow> {
    Take(Sort(Filter(q.t.rules, r => InRuleSource(q, r)), IdLe), q.limits.maxRules + 1)
  }

  predicate RulesUsable(q: Query) {
    |RuleSource(q)| <= q.limits.maxRules && forall r :: r in RuleSource(q) ==> !InvalidData(r)
  }

  // folder_chain, folder_summary, cabinet_chain, cabinet_summary

  function FolderChain(q: Query, d: int): seq<Row> {
    if d in q.t.documents && q.t.documents[d].active
    then Walk(FolderParents(q.t), q.t.documents[d].folder, q.limits.maxHierarchyDepth)
    else []
  }

  function MaxDepth(rows: seq<Row>): nat
    requires |rows| > 0
  {
    if |rows| == 1 then rows[0].depth
    else
      var rest := MaxDepth(rows[1..]);
      if rows[0].depth >= rest then rows[0].depth else rest
  }

  /** terminated = 1 AND cycle = 0 AND chain_depth <= :max_hierarchy_depth over one document's group. */
  ghost predicate SoundChain(q: Query, rows: seq<Row>) {
    |rows| > 0 && Terminated(rows) && CycleFree(rows) && MaxDepth(rows) <= q.limits.maxHierarchyDepth
  }

  function CabinetChain(q: Query, cabinet: int): seq<Row> {
    Walk(q.t.cabinets, cabinet, q.limits.maxHierarchyDepth)
  }

  /** d is in valid_documents with this cabinet (min_cabinet_id = max_cabinet_id). */
  ghost predicate ValidDocument(q: Query, d: int, cabinet: int) {
    && SoundChain(q, FolderChain(q, d))
    && SameCabinet(q.t, FolderChain(q, d), cabinet)
    && SoundChain(q, CabinetChain(q, cabinet))
  }

  // rule_candidates: how near a rule's resource is, encoded as a number

  ghost predicate FolderCandidate(folders: seq<Row>, r: RuleRow, specificity: int)
    requires |folders| > 0
  {
    exists i :: 0 <= i < |folders| && !folders[i].cycle && r.scopeId == Some(folders[i].id)
                && specificity == 2_000_000 + (MaxDepth(folders) - folders[i].depth)
  }

  ghost predicate CabinetCandidate(cabinets: seq<Row>, r: RuleRow, specificity: int)
    requires |cabinets| > 0
  {
    exists i :: 0 <= i < |cabinets| && !cabinets[i].cycle && r.scopeId == Some(cabinets[i].id)
                && specificity == 1_000_000 + (MaxDepth(cabinets) - cabinets[i].depth)
  }

  ghost predicate IsCandidate(q: Query, d: int, cabinet: int, r: RuleRow, specificity: int)
    requires ValidDocument(q, d, cabinet)
  {
    && r in RuleSource(q)
    && (|| (r.scopeType == "DOC" && r.scopeId == Some(d) && specificity == 3_000_000)
        || (r.scopeType == "FOLDER" && FolderCandidate(FolderChain(q, d), r, specificity))
        || (r.scopeType == "CABINET" && CabinetCandidate(CabinetChain(q, cabinet), r, specificity))
        || (r.scopeType == "GLOBAL" && r.scopeId.None? && specificity == 0))
  }

  // selected_scope, principal_tier, decisions

  ghost predicate IsSelectedScope(q: Query, d: int, cabinet: int, specificity: int)
    requires ValidDocument(q, d, cabinet)
  {
    && (exists r :: IsCandidate(q, d, cabinet, r, specificity))
    && forall r, s :: IsCandidate(q, d, cabinet, r, s) ==> s <= specificity
  }

  ghost predicate HasUser(q: Query, d: int, cabinet: int, specificity: int)
    requires ValidDocument(q, d, cabinet)
  {
    exists r :: IsCandidate(q, d, cabinet, r, specificity) && r.principalType == "USER"
  }

  ghost predicate TierHas(q: Query, d: int, cabinet: int, specificity: int, effect: string)
    requires ValidDocument(q, d, cabinet)
  {
    exists r :: IsCandidate(q, d, cabinet, r, specificity)
      && (r.principalType == "USER" || !HasUser(q, d, cabinet, specificity))
      && r.effect == effect
  }

  ghost predicate Visible(q: Query, d: int) {
    exists cabinet, s ::
      && ValidDocument(q, d, cabinet) && IsSelectedScope(q, d, cabinet, s)
      && !TierHas(q, d, cabinet, s, "DENY") && TierHas(q, d, cabinet, s, "ALLOW")
  }

  /** The final SELECT. LIMIT on groups and rules drops rows only when it also makes this result empty. */
  ghost function Rows(q: Query): set<int> {
    if RulesUsable(q) && !GroupOverflow(q) then set d | d in q.t.documents && Visible(q, d) else {}
  }

  /** The capability gate shared with the point path. */
  predicate Eligible(q: Query) {
    && q.user in q.t.users && q.t.users[q.user] == "active"
    && LoadCapabilities(q.t, q.user, DEFAULT_LIMITS.maxPermissions).Success?
    && q.permission in LoadCapabilities(q.t, q.user, DEFAULT_LIMITS.maxPermissions).value
  }

  ghost function ResolveVisibleDocumentIds(q: Query): BulkResult {
    if q.user <= 0 || !ValidPermission(q.permission) then InvalidArgument
    else if !Eligible(q) then DocumentIds({})
    else if |Rows(q)| > q.limits.maxDocumentIds then TooManyDocuments
    else if exists d :: d in Rows(q) && d <= 0 then DocumentIds({})
    else DocumentIds(Rows(q))
  }
}
