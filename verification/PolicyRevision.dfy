/** Authorization writes and the policy revision they bump
    (backend/app/repositories/group_membership_repository.py, backend/app/repositories/policy_revision_repository.py,
    backend/app/services/access_rule_service.py, and move_document of backend/app/services/document_service.py).
    A failed call leaves the session as the calls inside it left it. */
module PolicyRevision {
  import opened Wrappers
  import opened Text
  import opened Sorting
  import opened Resources
  import opened AccessRuleRepository
  import opened VisibleDocuments
  import opened BulkRefinement

  /** The policy tables, the permission codes, and the documents' updated_at. */
  datatype Store = Store(tables: Tables, permissions: set<string>, updatedAt: map<int, int>)

  const MAX_IDENTIFIER := 2_147_483_647

  function Bumped(s: Store): Store {
    s.(tables := s.tables.(revision := s.tables.revision + 1))
  }

  // add_membership and remove_membership

  datatype Mutation = Mutation(changed: bool, revision: nat)

  predicate Identifier(id: int) {
    0 < id <= MAX_IDENTIFIER
  }

  /** The checks both membership calls make, in their order. */
  function MembershipError(s: Store, group: int, user: int, actor: int, role: string): Option<string> {
    if !Identifier(group) || !Identifier(user) || !Identifier(actor) then Some("ValueError")
    else if group !in s.tables.groups then Some("AUTHZ_GROUP_NOT_FOUND")
    else if !s.tables.groups[group] then Some("AUTHZ_GROUP_INACTIVE")
    else if user !in s.tables.users then Some("AUTHZ_USER_NOT_FOUND")
    else if actor !in s.tables.users then Some("AUTHZ_" + role + "_NOT_FOUND")
    else None
  }

  function WithMembers(s: Store, members: set<(int, int)>): Store {
    s.(tables := s.tables.(memberships := members))
  }

  function AddMembership(s: Store, group: int, user: int, actor: int): (Store, Result<Mutation>) {
    var error := MembershipError(s, group, user, actor, "CREATOR");
    if error.Some? then (s, Failure(error.value))
    else if (group, user) in s.tables.memberships then (s, Success(Mutation(false, s.tables.revision)))
    else
      var t := Bumped(WithMembers(s, s.tables.memberships + {(group, user)}));
      (t, Success(Mutation(true, t.tables.revision)))
  }

  function RemoveMembership(s: Store, group: int, user: int, actor: int): (Store, Result<Mutation>) {
    var error := MembershipError(s, group, user, actor, "REMOVER");
    if error.Some? then (s, Failure(error.value))
    else if (group, user) !in s.tables.memberships then (s, Success(Mutation(false, s.tables.revision)))
    else
      var t := Bumped(WithMembers(s, s.tables.memberships - {(group, user)}));
      (t, Success(Mutation(true, t.tables.revision)))
  }

  // upsert_rule, deactivate_rule and update_rule

  datatype Expiry = Expiry(at: int, zoned: bool)

  /** What the caller asks for; `clock` is the time of the call. */
  datatype RuleInput = RuleInput(
    principal: PrincipalRef, permission: string, scopeType: string, scopeId: Option<int>,
    effect: string, inherits: bool, expires: Option<Expiry>, reason: Option<string>, clock: int)

  predicate ScopeExists(s: Store, r: RuleInput) {
    match r.scopeType
    case "GLOBAL" => r.scopeId.None?
    case "CABINET" => r.scopeId.Some? && r.scopeId.value > 0 && r.scopeId.value in s.tables.cabinets
    case "FOLDER" => r.scopeId.Some? && r.scopeId.value > 0 && r.scopeId.value in s.tables.folders
    case "DOC" => r.scopeId.Some? && r.scopeId.value > 0 && r.scopeId.value in s.tables.documents
    case _ => false
  }

  predicate PrincipalExists(s: Store, p: PrincipalRef) {
    match p.kind
    case User => p.id in s.tables.users
    case Group => p.id in s.tables.groups
  }

  predicate InputAccepted(s: Store, r: RuleInput) {
    && r.principal.id > 0
    && r.effect in {"ALLOW", "DENY"}
    && !Blank(r.permission) && |r.permission| <= 40
    && (r.reason.Some? ==> !Blank(r.reason.value) && |r.reason.value| <= 1000)
    && (r.expires.Some? ==> r.expires.value.zoned && r.expires.value.at > r.clock)
    && ScopeExists(s, r)
    && PrincipalExists(s, r.principal)
    && Strip(r.permission) in s.permissions
  }

  function MaxId(rules: seq<RuleRow>): (m: nat)
    ensures forall r :: r in rules ==> r.id <= m
  {
    if |rules| == 0 then 0
    else
      var rest := MaxId(rules[1..]);
      assert forall r :: r in rules ==> r == rules[0] || r in rules[1..];
      if rules[0].id > rest then rules[0].id else rest
  }

  function NewRow(s: Store, r: RuleInput): RuleRow {
    RuleRow(
      MaxId(s.tables.rules) + 1,
      if r.principal.kind.User? then "USER" else "GROUP",
      if r.principal.kind.User? then Some(r.principal.id) else None,
      if r.principal.kind.User? then None else Some(r.principal.id),
      Strip(r.permission), r.scopeType, r.scopeId, r.effect, r.inherits, true,
      match r.expires case Some(e) => Some(e.at) case None => None)
  }

  function WithRules(s: Store, rules: seq<RuleRow>): Store {
    s.(tables := s.tables.(rules := rules))
  }

  function UpsertRule(s: Store, mayManage: bool, r: RuleInput): (Store, Result<int>) {
    if r.principal.id <= 0 then (s, Failure("ValueError"))
    else if !mayManage then (s, Failure("PermissionError"))
    else if !InputAccepted(s, r) then (s, Failure("ValueError"))
    else (Bumped(WithRules(s, s.tables.rules + [NewRow(s, r)])), Success(NewRow(s, r).id))
  }

  function FindRule(rules: seq<RuleRow>, id: int): (i: int)
    ensures -1 <= i < |rules|
    ensures i >= 0 ==> rules[i].id == id
    ensures i < 0 ==> forall r :: r in rules ==> r.id != id
  {
    if |rules| == 0 then -1
    else if rules[|rules| - 1].id == id then |rules| - 1
    else FindRule(rules[..|rules| - 1], id)
  }

  function DeactivateRule(s: Store, mayManage: bool, id: int): (Store, Result<int>) {
    var i := FindRule(s.tables.rules, id);
    if !mayManage then (s, Failure("PermissionError"))
    else if id <= 0 then (s, Failure("ValueError"))
    else if i < 0 then (s, Failure("LookupError"))
    else if !s.tables.rules[i].isActive then (s, Success(id))
    else (Bumped(WithRules(s, s.tables.rules[i := s.tables.rules[i].(isActive := false)])), Success(id))
  }

  function UpdateRule(s: Store, mayManage: bool, id: int, r: RuleInput): (Store, Result<int>) {
    var (t, dropped) := DeactivateRule(s, mayManage, id);
    if dropped.Failure? then (t, dropped) else UpsertRule(t, mayManage, r)
  }

  // move_document

  /** The document check is the bulk resolver's, the folder check the point evaluator's. */
  ghost predicate DocumentVisible(s: Store, user: int, permission: string, d: int, now: int) {
    InBulk(Query(s.tables, user, permission, now, DEFAULT_BULK_LIMITS), d)
  }

  datatype MoveInput = MoveInput(user: int, document: int, folder: int, expected: int, now: int, changedAt: int)

  /** updated_at is a column every document row has; 0 stands in for rows the map leaves out. */
  function UpdatedAt(s: Store, d: int): int {
    if d in s.updatedAt then s.updatedAt[d] else 0
  }

  function Moved(s: Store, m: MoveInput, visible: bool): (Store, Result<int>) {
    if !visible || m.document !in s.tables.documents || !s.tables.documents[m.document].active
    then (s, Failure("Document not found"))
    else if m.folder !in s.tables.folders
       || !PointAllows(s.tables, m.user, "MOVE", Folder(m.folder), m.now, DEFAULT_LIMITS)
    then (s, Failure("Folder not found"))
    else if UpdatedAt(s, m.document) != m.expected then (s, Failure("Document was modified"))
    else if s.tables.documents[m.document].folder == m.folder then (s, Success(m.document))
    else
      var row := s.tables.documents[m.document].(folder := m.folder);
      var tables := s.tables.(documents := s.tables.documents[m.document := row]);
      (Bumped(Store(tables, s.permissions, s.updatedAt[m.document := m.changedAt])), Success(m.document))
  }

  ghost function MoveDocument(s: Store, m: MoveInput): (Store, Result<int>) {
    Moved(s, m, DocumentVisible(s, m.user, "MOVE", m.document, m.now))
  }

  /** The session the services write through. */
  class PolicyStore {
    var tables: Tables
    var permissions: set<string>
    var updatedAt: map<int, int>

    function Snapshot(): Store
      reads this
    {
      Store(tables, permissions, updatedAt)
    }

    constructor (tables: Tables, permissions: set<string>, updatedAt: map<int, int>)
      ensures Snapshot() == Store(tables, permissions, updatedAt)
    {
      this.tables, this.permissions, this.updatedAt := tables, permissions, updatedAt;
    }

    method Bump() returns (revision: nat)
      modifies this`tables
      ensures Snapshot() == Bumped(old(Snapshot())) && revision == tables.revision
    {
      tables := tables.(revision := tables.revision + 1);
      revision := tables.revision;
    }

    method Add(group: int, user: int, actor: int) returns (result: Result<Mutation>)
      modifies this`tables
      ensures (Snapshot(), result) == AddMembership(old(Snapshot()), group, user, actor)
    {
      var error := MembershipError(Snapshot(), group, user, actor, "CREATOR");
      if error.Some? {
        return Failure(error.value);
      }
      if (group, user) in tables.memberships {
        return Success(Mutation(false, tables.revision));
      }
      tables := tables.(memberships := tables.memberships + {(group, user)});
      var revision := Bump();
      result := Success(Mutation(true, revision));
    }

    method Remove(group: int, user: int, actor: int) returns (result: Result<Mutation>)
      modifies this`tables
      ensures (Snapshot(), result) == RemoveMembership(old(Snapshot()), group, user, actor)
    {
      var error := MembershipError(Snapshot(), group, user, actor, "REMOVER");
      if error.Some? {
        return Failure(error.value);
      }
      if (group, user) !in tables.memberships {
        return Success(Mutation(false, tables.revision));
      }
      tables := tables.(memberships := tables.memberships - {(group, user)});
      var revision := Bump();
      result := Success(Mutation(true, revision));
    }

    method Upsert(mayManage: bool, r: RuleInput) returns (result: Result<int>)
      modifies this`tables
      ensures (Snapshot(), result) == UpsertRule(old(Snapshot()), mayManage, r)
    {
      if r.principal.id <= 0 {
        return Failure("ValueError");
      }
      if !mayManage {
        return Failure("PermissionError");
      }
      if !InputAccepted(Snapshot(), r) {
        return Failure("ValueError");
      }
      var row := NewRow(Snapshot(), r);
      tables := tables.(rules := tables.rules + [row]);
      var _ := Bump();
      result := Success(row.id);
    }

    method Deactivate(mayManage: bool, id: int) returns (result: Result<int>)
      modifies this`tables
      ensures (Snapshot(), result) == DeactivateRule(old(Snapshot()), mayManage, id)
    {
      if !mayManage {
        return Failure("PermissionError");
      }
      if id <= 0 {
        return Failure("ValueError");
      }
      var i := FindRule(tables.rules, id);
      if i < 0 {
        return Failure("LookupError");
      }
      if tables.rules[i].isActive {
        tables := tables.(rules := tables.rules[i := tables.rules[i].(isActive := false)]);
        var _ := Bump();
      }
      result := Success(id);
    }

    method Update(mayManage: bool, id: int, r: RuleInput) returns (result: Result<int>)
      modifies this`tables
      ensures (Snapshot(), result) == UpdateRule(old(Snapshot()), mayManage, id, r)
    {
      var _ :- Deactivate(mayManage, id);
      result := Upsert(mayManage, r);
    }

    /** `visible` is the bulk resolver's answer for the document. */
    method Move(m: MoveInput, visible: bool) returns (result: Result<int>)
      requires visible == DocumentVisible(Snapshot(), m.user, "MOVE", m.document, m.now)
      modifies this
      ensures (Snapshot(), result) == MoveDocument(old(Snapshot()), m)
    {
      hide PointAllows, InBulk;
      if !visible || m.document !in tables.documents || !tables.documents[m.document].active {
        return Failure("Document not found");
      }
      if m.folder !in tables.folders
         || !PointAllows(tables, m.user, "MOVE", Folder(m.folder), m.now, DEFAULT_LIMITS)
      {
        return Failure("Folder not found");
      }
      if UpdatedAt(Snapshot(), m.document) != m.expected {
        return Failure("Document was modified");
      }
      if tables.documents[m.document].folder != m.folder {
        var row := tables.documents[m.document].(folder := m.folder);
        tables := tables.(documents := tables.documents[m.document := row]);
        updatedAt := updatedAt[m.document := m.changedAt];
        var _ := Bump();
      }
      result := Success(m.document);
    }
  }

  // Runs

  datatype Op =
    | AddOp(group: int, user: int, actor: int)
    | RemoveOp(group: int, user: int, actor: int)
    | UpsertOp(mayManage: bool, rule: RuleInput)
    | DeactivateOp(mayManage: bool, id: int)
    | UpdateOp(mayManage: bool, id: int, rule: RuleInput)
    | MoveOp(move: MoveInput)

  ghost function Step(s: Store, op: Op): Store {
    match op
    case AddOp(group, user, actor) => AddMembership(s, group, user, actor).0
    case RemoveOp(group, user, actor) => RemoveMembership(s, group, user, actor).0
    case UpsertOp(mayManage, rule) => UpsertRule(s, mayManage, rule).0
    case DeactivateOp(mayManage, id) => DeactivateRule(s, mayManage, id).0
    case UpdateOp(mayManage, id, rule) => UpdateRule(s, mayManage, id, rule).0
    case MoveOp(m) => MoveDocument(s, m).0
  }

  ghost function Run(s: Store, ops: seq<Op>): Store {
    if |ops| == 0 then s else Step(Run(s, ops[..|ops| - 1]), ops[|ops| - 1])
  }

  /** A step leaves everything as it was or moves the revision up, and when it moves the revision it changed the
      memberships, the rules or a placement. */
  lemma StepMovesRevision(s: Store, op: Op)
    ensures var t := Step(s, op);
      && t.tables.revision >= s.tables.revision
      && (t.tables.revision == s.tables.revision <==> t == s)
      && (t != s ==> t.tables.(revision := s.tables.revision) != s.tables)
  {
    hide PointAllows, InBulk, InputAccepted, NewRow, MaxId, FindRule;
    match op
    case AddOp(group, user, actor) =>
      assert (group, user) in s.tables.memberships + {(group, user)};
    case RemoveOp(group, user, actor) =>
      assert (group, user) !in s.tables.memberships - {(group, user)};
    case UpsertOp(mayManage, rule) =>
      UpsertChanges(s, mayManage, rule);
    case DeactivateOp(mayManage, id) =>
      DeactivateChanges(s, mayManage, id);
    case UpdateOp(mayManage, id, rule) =>
      DeactivateChanges(s, mayManage, id);
      UpsertChanges(DeactivateRule(s, mayManage, id).0, mayManage, rule);
    case MoveOp(m) =>
      MoveChanges(s, m);
  }

  lemma UpsertChanges(s: Store, mayManage: bool, rule: RuleInput)
    ensures var t := UpsertRule(s, mayManage, rule).0;
      t == s || (t == Bumped(WithRules(s, t.tables.rules)) && |t.tables.rules| == |s.tables.rules| + 1)
  {
    hide InputAccepted, NewRow;
  }

  lemma DeactivateChanges(s: Store, mayManage: bool, id: int)
    ensures var t := DeactivateRule(s, mayManage, id).0;
      && (t == s || (t == Bumped(WithRules(s, t.tables.rules)) && t.tables.rules != s.tables.rules))
      && |t.tables.rules| == |s.tables.rules|
  {
    var i := FindRule(s.tables.rules, id);
    if mayManage && id > 0 && i >= 0 && s.tables.rules[i].isActive {
      assert !DeactivateRule(s, mayManage, id).0.tables.rules[i].isActive;
    }
  }

  lemma MoveChanges(s: Store, m: MoveInput)
    ensures var t := MoveDocument(s, m).0;
      && t.tables.revision >= s.tables.revision
      && (t.tables.revision == s.tables.revision <==> t == s)
      && (t != s ==> t.tables.(revision := s.tables.revision) != s.tables)
  {
    hide PointAllows, InBulk;
    var t := MoveDocument(s, m).0;
    if t != s {
      assert t.tables.documents[m.document].folder == m.folder != s.tables.documents[m.document].folder;
    }
  }

  lemma {:induction false} RunRevisionGrows(s: Store, ops: seq<Op>)
    ensures Run(s, ops).tables.revision >= s.tables.revision
    ensures Run(s, ops).tables.revision == s.tables.revision ==> Run(s, ops) == s
  {
    hide Step;
    if |ops| > 0 {
      RunRevisionGrows(s, ops[..|ops| - 1]);
      StepMovesRevision(Run(s, ops[..|ops| - 1]), ops[|ops| - 1]);
    }
  }

  lemma {:induction false} RunAppend(s: Store, before: seq<Op>, after: seq<Op>)
    ensures Run(s, before + after) == Run(Run(s, before), after)
  {
    hide Step;
    if |after| == 0 {
      assert before + after == before;
    } else {
      var n := |after| - 1;
      RunAppend(s, before, after[..n]);
      assert (before + after)[..|before + after| - 1] == before + after[..n];
    }
  }

  /** Revision soundness: in any run, two moments with the same revision have the same memberships, rules and
      placements, hence the same decisions of both evaluators at any one time. */
  lemma EqualRevisionsDecideAlike(s: Store, before: seq<Op>, between: seq<Op>)
    requires Run(s, before).tables.revision == Run(s, before + between).tables.revision
    ensures Run(s, before) == Run(s, before + between)
    ensures forall user, permission, resource, now, limits ::
      PointAllows(Run(s, before).tables, user, permission, resource, now, limits)
      == PointAllows(Run(s, before + between).tables, user, permission, resource, now, limits)
    ensures forall user, permission, now, limits, d ::
      InBulk(Query(Run(s, before).tables, user, permission, now, limits), d)
      == InBulk(Query(Run(s, before + between).tables, user, permission, now, limits), d)
  {
    hide Step, PointAllows, InBulk;
    RunAppend(s, before, between);
    RunRevisionGrows(Run(s, before), between);
  }

  // Repeats and inverses

  /** Adding twice is adding once, and says so; likewise removing. */
  lemma MembershipIdempotent(s: Store, group: int, user: int, actor: int)
    ensures var (t, r) := AddMembership(s, group, user, actor);
      r.Success? ==> AddMembership(t, group, user, actor) == (t, Success(Mutation(false, t.tables.revision)))
    ensures var (t, r) := RemoveMembership(s, group, user, actor);
      r.Success? ==> RemoveMembership(t, group, user, actor) == (t, Success(Mutation(false, t.tables.revision)))
  {
  }

  /** Removing undoes adding, but the revision still tells the two moments apart. */
  lemma RemoveUndoesAdd(s: Store, group: int, user: int, actor: int)
    requires AddMembership(s, group, user, actor).1.Success? && (group, user) !in s.tables.memberships
    ensures var t := RemoveMembership(AddMembership(s, group, user, actor).0, group, user, actor).0;
      t == s.(tables := s.tables.(revision := s.tables.revision + 2))
  {
    assert s.tables.memberships + {(group, user)} - {(group, user)} == s.tables.memberships;
  }

  lemma DeactivateIdempotent(s: Store, mayManage: bool, id: int)
    requires UniqueRuleIds(s)
    ensures var (t, r) := DeactivateRule(s, mayManage, id);
      r.Success? ==> DeactivateRule(t, mayManage, id) == (t, Success(id))
  {
    var i := FindRule(s.tables.rules, id);
    var t := DeactivateRule(s, mayManage, id).0;
    var j := FindRule(t.tables.rules, id);
    if i >= 0 {
      assert t.tables.rules[i].id == id && t.tables.rules[i] in t.tables.rules;
      assert j >= 0 && t.tables.rules[j].id == s.tables.rules[j].id;
      assert i == j;
    }
  }

  // What the readers rely on is kept

  ghost predicate UniqueRuleIds(s: Store) {
    forall i, j :: 0 <= i < j < |s.tables.rules| ==> s.tables.rules[i].id != s.tables.rules[j].id
  }

  lemma StripShorter(s: string)
    ensures |Strip(s)| <= |s|
  {
  }

  lemma NewRowWellFormed(s: Store, r: RuleInput)
    requires InputAccepted(s, r)
    ensures WellFormedRow(NewRow(s, r))
    ensures forall x :: x in s.tables.rules ==> x.id != NewRow(s, r).id
  {
    hide Leading, RStripLength, Blank;
    StripShorter(r.permission);
    assert MaxId(s.tables.rules) + 1 > 0;
  }

  lemma UpsertKeeps(s: Store, mayManage: bool, r: RuleInput)
    requires Constraints(s.tables) && UniqueRuleIds(s)
    ensures var t := UpsertRule(s, mayManage, r).0; Constraints(t.tables) && UniqueRuleIds(t)
  {
    hide InputAccepted, NewRow, WellFormedRow;
    if InputAccepted(s, r) {
      NewRowWellFormed(s, r);
    }
  }

  lemma DeactivateKeeps(s: Store, mayManage: bool, id: int)
    requires Constraints(s.tables) && UniqueRuleIds(s)
    ensures var t := DeactivateRule(s, mayManage, id).0; Constraints(t.tables) && UniqueRuleIds(t)
  {
    hide WellFormedRow;
    var i, t := FindRule(s.tables.rules, id), DeactivateRule(s, mayManage, id).0;
    if t != s {
      WellFormedInactive(s.tables.rules[i]);
    }
    forall r | r in t.tables.rules ensures WellFormedRow(r) {
      var k :| 0 <= k < |t.tables.rules| && t.tables.rules[k] == r;
      assert s.tables.rules[k] in s.tables.rules;
    }
    forall k | 0 <= k < |t.tables.rules| ensures t.tables.rules[k].id == s.tables.rules[k].id {
    }
  }

  lemma WellFormedInactive(r: RuleRow)
    requires WellFormedRow(r)
    ensures WellFormedRow(r.(isActive := false))
  {
  }

  /** Every write keeps what the agreement of the bulk and point paths assumes of the tables: no call of these
      services can store a rule that makes a reader fail closed. */
  lemma StepKeepsConstraints(s: Store, op: Op)
    requires Constraints(s.tables) && UniqueRuleIds(s)
    ensures Constraints(Step(s, op).tables) && UniqueRuleIds(Step(s, op))
  {
    hide PointAllows, InBulk, WellFormedRow, InputAccepted, UpsertRule, DeactivateRule;
    match op
    case AddOp(_, _, _) =>
    case RemoveOp(_, _, _) =>
    case UpsertOp(mayManage, rule) => UpsertKeeps(s, mayManage, rule);
    case DeactivateOp(mayManage, id) => DeactivateKeeps(s, mayManage, id);
    case UpdateOp(mayManage, id, rule) =>
      DeactivateKeeps(s, mayManage, id);
      UpsertKeeps(DeactivateRule(s, mayManage, id).0, mayManage, rule);
    case MoveOp(_) =>
  }

  lemma {:induction false} RunKeepsConstraints(s: Store, ops: seq<Op>)
    requires Constraints(s.tables) && UniqueRuleIds(s)
    ensures Constraints(Run(s, ops).tables) && UniqueRuleIds(Run(s, ops))
  {
    hide Constraints, UniqueRuleIds, Step;
    if |ops| > 0 {
      RunKeepsConstraints(s, ops[..|ops| - 1]);
      StepKeepsConstraints(Run(s, ops[..|ops| - 1]), ops[|ops| - 1]);
    }
  }

  /** So the bulk and point paths agree, in the sense of BulkAgainstPoint, after any run of writes. */
  lemma AgreementAfterAnyRun(s: Store, ops: seq<Op>, q: Query, limits: Limits, d: int, cs: seq<int>, fs: seq<int>)
    requires Constraints(s.tables) && UniqueRuleIds(s) && q.t == Run(s, ops).tables
    requires q.limits.Valid() && q.user > 0 && ValidPermission(q.permission)
    requires DocumentPath(q, d, cs, fs) && NothingOverflows(q, limits, PathOf(cs, fs, Doc(d)))
    ensures InBulk(q, d) && |cs| + |fs| + 2 <= limits.maxAncestry <==>
      PointAllows(q.t, q.user, q.permission, Doc(d), q.now, limits) && WithinDepth(q, cs, fs)
  {
    hide *;
    RunKeepsConstraints(s, ops);
    BulkAgainstPoint(q, limits, d, cs, fs);
  }
}
