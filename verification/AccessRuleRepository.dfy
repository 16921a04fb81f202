/** The persisted policy tables and the loader of one decision's inputs
    (backend/app/repositories/access_rule_repository.py). */
module AccessRuleRepository {
  import opened Wrappers
  import opened Sorting
  import opened Text
  import opened Resources
  import opened Evaluator
  import opened Hierarchy

  datatype FolderRow = FolderRow(cabinet: int, parent: Option<int>)

  datatype DocumentRow = DocumentRow(folder: int, active: bool)

  /** One access_rules row joined with its permission's code. */
  datatype RuleRow = RuleRow(
    id: int,
    principalType: string,
    userId: Option<int>,
    groupId: Option<int>,
    permission: string,
    scopeType: string,
    scopeId: Option<int>,
    effect: string,
    inherits: bool,
    isActive: bool,
    expiresAt: Option<int>)

  /** One role effect on a permission, after joining assignments, roles and role permissions. */
  datatype Grant = Grant(user: int, permission: string, effect: string)

  datatype Tables = Tables(
    users: map<int, string>,
    grants: set<Grant>,
    groups: map<int, bool>,
    memberships: set<(int, int)>,
    cabinets: ParentMap,
    folders: map<int, FolderRow>,
    documents: map<int, DocumentRow>,
    rules: seq<RuleRow>,
    revision: nat)

  datatype Limits = Limits(maxPermissions: nat, maxGroups: nat, maxRules: nat, maxAncestry: nat) {
    predicate Valid() {
      && 1 <= maxPermissions <= 512 && 1 <= maxGroups <= 1024
      && 1 <= maxRules <= 8192 && 1 <= maxAncestry <= 256
    }
  }

  const DEFAULT_LIMITS := Limits(128, 256, 2048, 64)

  predicate ValidPermission(code: string) {
    1 <= |code| <= 40 && Trimmed(code)
  }

  // Capabilities and principals

  function GrantedCodes(t: Tables, user: int): set<string> {
    set g | g in t.grants && g.user == user :: g.permission
  }

  function LoadCapabilities(t: Tables, user: int, maxPermissions: nat): Result<set<string>> {
    var codes := GrantedCodes(t, user);
    if |codes| > maxPermissions then Failure("AUTHZ_PERMISSION_LIMIT")
    else if exists g :: g in t.grants && g.user == user && (!ValidPermission(g.permission) || g.effect !in {"ALLOW", "DENY"})
    then Failure("AUTHZ_ROLE_DATA_INVALID")
    else Success(set c | c in codes && Grant(user, c, "ALLOW") in t.grants && Grant(user, c, "DENY") !in t.grants)
  }

  function GroupIds(t: Tables, user: int): set<int> {
    set m | m in t.memberships && m.1 == user && m.0 in t.groups && t.groups[m.0] :: m.0
  }

  function LoadPrincipals(t: Tables, user: int, maxGroups: nat): Result<PrincipalSet> {
    var groups := GroupIds(t, user);
    if |groups| > maxGroups then Failure("AUTHZ_GROUP_LIMIT")
    else if exists g :: g in groups && g <= 0 then Failure("AUTHZ_GROUP_DATA_INVALID")
    else Success(PrincipalSet(user, groups))
  }

  // Ancestry

  function FolderParents(t: Tables): ParentMap {
    map id | id in t.folders :: t.folders[id].parent
  }

  function TargetFolder(t: Tables, resource: ResourceRef): Option<int> {
    match resource
    case Folder(id) => if id in t.folders then Some(id) else None
    case Doc(id) =>
      if id in t.documents && t.documents[id].folder in t.folders then Some(t.documents[id].folder) else None
    case _ => None
  }

  function TargetCabinet(t: Tables, resource: ResourceRef): Option<int> {
    match resource
    case Cabinet(id) => Some(id)
    case Global => None
    case _ =>
      match TargetFolder(t, resource)
      case Some(f) => if f in t.folders then Some(t.folders[f].cabinet) else None
      case None => None
  }

  function WalkFrom(parents: ParentMap, start: Option<int>, bound: nat): seq<Row> {
    match start
    case None => []
    case Some(id) => Walk(parents, id, bound)
  }

  /** GLOBAL, then cabinets and folders root first, then the target; cs and fs are leaf first. */
  function PathOf(cs: seq<int>, fs: seq<int>, resource: ResourceRef): seq<ResourceRef> {
    [Global]
    + seq(|cs|, i requires 0 <= i < |cs| => Cabinet(cs[|cs| - 1 - i]))
    + seq(|fs|, i requires 0 <= i < |fs| => Folder(fs[|fs| - 1 - i]))
    + if resource.Doc? then [resource] else []
  }

  predicate SameCabinet(t: Tables, folders: seq<Row>, cabinet: int) {
    forall i :: 0 <= i < |folders| ==> folders[i].id in t.folders && t.folders[folders[i].id].cabinet == cabinet
  }

  function ExpectedLeaf(id: int, here: bool): Option<int> {
    if here then Some(id) else None
  }

  function ResolveAncestry(t: Tables, resource: ResourceRef, maxAncestry: nat): Result<seq<ResourceRef>> {
    if resource.Global? then Success([Global])
    else if resource.id <= 0 then Failure("ValueError")
    else
      // The repository query extends rows of depth <= max_depth.
      var folderRows := WalkFrom(FolderParents(t), TargetFolder(t, resource), maxAncestry + 1);
      var cabinetRows := WalkFrom(t.cabinets, TargetCabinet(t, resource), maxAncestry + 1);
      CheckRows(t, resource, cabinetRows, folderRows, maxAncestry)
  }

  function CheckRows(
      t: Tables, resource: ResourceRef, cabinetRows: seq<Row>, folderRows: seq<Row>, maxAncestry: nat)
      : Result<seq<ResourceRef>>
    requires !resource.Global?
  {
    if |cabinetRows| + |folderRows| > maxAncestry then Failure("AUTHZ_ANCESTRY_LIMIT")
    else
      var cabinets :- ValidateRows(cabinetRows, ExpectedLeaf(resource.id, resource.Cabinet?), maxAncestry);
      if resource.Cabinet? then FinishAncestry(Ids(cabinets), [], resource, maxAncestry)
      else CheckFolders(t, resource, Ids(cabinets), folderRows, maxAncestry)
  }

  function CheckFolders(
      t: Tables, resource: ResourceRef, cs: seq<int>, folderRows: seq<Row>, maxAncestry: nat)
      : Result<seq<ResourceRef>>
    requires !resource.Global?
  {
    var folders :- ValidateRows(folderRows, ExpectedLeaf(resource.id, resource.Folder?), maxAncestry);
    if |cs| == 0 || cs[0] <= 0 || !SameCabinet(t, folders, cs[0]) then Failure("AUTHZ_ANCESTRY_INVALID")
    else FinishAncestry(cs, Ids(folders), resource, maxAncestry)
  }

  function FinishAncestry(cs: seq<int>, fs: seq<int>, resource: ResourceRef, maxAncestry: nat): Result<seq<ResourceRef>> {
    var path := PathOf(cs, fs, resource);
    if |path| > maxAncestry then Failure("AUTHZ_ANCESTRY_LIMIT")
    else if !ValidAncestry(path) then Failure("AUTHZ_ANCESTRY_INVALID")
    else Success(path)
  }

  // Rules

  predicate Unexpired(r: RuleRow, now: int) {
    r.isActive && (r.expiresAt.None? || r.expiresAt.value > now)
  }

  predicate PrincipalPredicate(r: RuleRow, principals: PrincipalSet) {
    || (r.principalType == "USER" && r.userId == Some(principals.user) && r.groupId.None?)
    || (r.principalType == "GROUP" && r.groupId.Some? && r.groupId.value in principals.groups && r.userId.None?)
  }

  predicate ResourcePredicate(r: RuleRow, path: seq<ResourceRef>) {
    || (r.scopeType == "GLOBAL" && r.scopeId.None?)
    || (r.scopeType == "CABINET" && r.scopeId.Some? && Cabinet(r.scopeId.value) in path)
    || (r.scopeType == "FOLDER" && r.scopeId.Some? && Folder(r.scopeId.value) in path)
    || (r.scopeType == "DOC" && r.scopeId.Some? && Doc(r.scopeId.value) in path)
  }

  function RowResource(r: RuleRow): Option<ResourceRef> {
    if r.scopeType == "GLOBAL" then Some(Global)
    else if r.scopeId.None? || r.scopeId.value <= 0 then None
    else if r.scopeType == "CABINET" then Some(Cabinet(r.scopeId.value))
    else if r.scopeType == "FOLDER" then Some(Folder(r.scopeId.value))
    else if r.scopeType == "DOC" then Some(Doc(r.scopeId.value))
    else None
  }

  function RowPrincipal(r: RuleRow): Option<PrincipalRef> {
    if r.principalType == "USER" && r.userId.Some? && r.userId.value > 0
    then Some(PrincipalRef(User, r.userId.value))
    else if r.principalType == "GROUP" && r.groupId.Some? && r.groupId.value > 0
    then Some(PrincipalRef(Group, r.groupId.value))
    else None
  }

  function RowEffect(r: RuleRow): Option<Effect> {
    if r.effect == "ALLOW" then Some(Allow) else if r.effect == "DENY" then Some(Deny) else None
  }

  predicate Convertible(r: RuleRow) {
    r.id > 0 && RowPrincipal(r).Some? && RowResource(r).Some? && RowEffect(r).Some? && ValidPermission(r.permission)
  }

  function RowToRule(r: RuleRow): AccessRule
    requires Convertible(r)
  {
    AccessRule(r.id, RowPrincipal(r).value, r.permission, RowResource(r).value, RowEffect(r).value,
               r.inherits, true, r.expiresAt)
  }

  predicate Loads(
      r: RuleRow, permission: string, principals: PrincipalSet, path: seq<ResourceRef>, now: int)
  {
    r.permission == permission && Unexpired(r, now) && PrincipalPredicate(r, principals) && ResourcePredicate(r, path)
  }

  predicate IdLe(a: RuleRow, b: RuleRow) {
    a.id <= b.id
  }

  function MatchingRows(
      t: Tables, permission: string, principals: PrincipalSet, path: seq<ResourceRef>, now: int): seq<RuleRow>
  {
    Sort(Filter(t.rules, r => Loads(r, permission, principals, path, now)), IdLe)
  }

  function LoadRules(
      t: Tables, permission: string, principals: PrincipalSet, path: seq<ResourceRef>, now: int, limits: Limits)
      : Result<seq<AccessRule>>
  {
    var rows := MatchingRows(t, permission, principals, path, now);
    if |principals.groups| > limits.maxGroups then Failure("AUTHZ_GROUP_LIMIT")
    else if |path| > limits.maxAncestry then Failure("AUTHZ_ANCESTRY_LIMIT")
    else if |rows| > limits.maxRules then Failure("AUTHZ_RULE_LIMIT")
    else if exists i :: 0 <= i < |rows| && !Convertible(rows[i]) then Failure("AUTHZ_RULE_DATA_INVALID")
    else Success(seq(|rows|, i requires 0 <= i < |rows| && Convertible(rows[i]) => RowToRule(rows[i])))
  }

  // One decision

  datatype Inputs = Inputs(capabilities: set<string>, principals: PrincipalSet, path: seq<ResourceRef>, rules: seq<AccessRule>)

  function LoadDecisionInputs(
      t: Tables, user: int, permission: string, resource: ResourceRef, now: int, limits: Limits): Result<Inputs>
  {
    if user <= 0 || !ValidPermission(permission) then Failure("ValueError")
    else
      var capabilities :- LoadCapabilities(t, user, limits.maxPermissions);
      var principals :- LoadPrincipals(t, user, limits.maxGroups);
      var path :- ResolveAncestry(t, resource, limits.maxAncestry);
      var rules :- LoadRules(t, permission, principals, path, now, limits);
      Success(Inputs(capabilities, principals, path, rules))
  }

  function RequestFor(t: Tables, user: int, permission: string, inputs: Inputs, now: int): Request {
    Request(Gates(true, user in t.users && t.users[user] == "active", true, true),
            inputs.capabilities, inputs.principals, permission, inputs.path, t.revision, now)
  }

  /** The authoritative check of one resource: unavailable inputs deny (document_service.py). */
  predicate PointAllows(t: Tables, user: int, permission: string, resource: ResourceRef, now: int, limits: Limits) {
    match LoadDecisionInputs(t, user, permission, resource, now, limits)
    case Success(inputs) => Evaluate(RequestFor(t, user, permission, inputs, now), inputs.rules).allowed
    case Failure(_) => false
  }

  // Exactness of ancestry resolution

  /** cs and fs are the leaf-first cabinet and folder chains above the resource, in a single cabinet. */
  ghost predicate HierarchyPath(t: Tables, resource: ResourceRef, cs: seq<int>, fs: seq<int>) {
    match resource
    case Global => false
    case Cabinet(id) => fs == [] && IsChain(t.cabinets, id, cs)
    case Folder(id) => FolderPath(t, id, cs, fs)
    case Doc(id) => id in t.documents && FolderPath(t, t.documents[id].folder, cs, fs)
  }

  ghost predicate FolderPath(t: Tables, folder: int, cs: seq<int>, fs: seq<int>) {
    && IsChain(FolderParents(t), folder, fs)
    && |cs| > 0
    && IsChain(t.cabinets, cs[0], cs)
    && forall i :: 0 <= i < |fs| ==> t.folders[fs[i]].cabinet == cs[0]
  }

  lemma PathLength(cs: seq<int>, fs: seq<int>, resource: ResourceRef)
    ensures |PathOf(cs, fs, resource)| == 1 + |cs| + |fs| + if resource.Doc? then 1 else 0
  {
  }

  lemma PathAt(cs: seq<int>, fs: seq<int>, resource: ResourceRef)
    ensures var path := PathOf(cs, fs, resource);
      && path[0] == Global
      && (forall i :: 0 <= i < |cs| ==> path[|cs| - i] == Cabinet(cs[i]))
      && (forall i :: 0 <= i < |fs| ==> path[|cs| + |fs| - i] == Folder(fs[i]))
      && (resource.Doc? ==> path[|cs| + |fs| + 1] == resource)
  {
  }

  lemma PathIndex(cs: seq<int>, fs: seq<int>, resource: ResourceRef, p: nat)
    requires p < |PathOf(cs, fs, resource)|
    ensures PathOf(cs, fs, resource)[p] ==
      if p == 0 then Global
      else if p <= |cs| then Cabinet(cs[|cs| - p])
      else if p <= |cs| + |fs| then Folder(fs[|cs| + |fs| - p])
      else resource
  {
  }

  lemma PathIsValid(cs: seq<int>, fs: seq<int>, resource: ResourceRef)
    requires Distinct(cs) && Distinct(fs)
    requires |cs| > 0 && (|fs| > 0 || !resource.Doc?)
    ensures ValidAncestry(PathOf(cs, fs, resource))
  {
    var path := PathOf(cs, fs, resource);
    forall i | 0 <= i < |path| ensures path[i] ==
      if i == 0 then Global
      else if i <= |cs| then Cabinet(cs[|cs| - i])
      else if i <= |cs| + |fs| then Folder(fs[|cs| + |fs| - i])
      else resource
    {
      PathIndex(cs, fs, resource, i);
    }
    assert path[1].Cabinet?;
    assert |fs| > 0 ==> path[|cs| + 1].Folder?;
  }

  ghost predicate AcceptablePath(t: Tables, resource: ResourceRef, cs: seq<int>, fs: seq<int>, maxAncestry: nat) {
    HierarchyPath(t, resource, cs, fs) && Positive(cs) && Positive(fs) && |PathOf(cs, fs, resource)| <= maxAncestry
  }

  lemma IdsOfChainRows(parents: ParentMap, start: int, c: seq<int>)
    requires IsChain(parents, start, c)
    ensures Ids(ChainRows(parents, c)) == c
  {
    ChainRowsAre(parents, c);
  }

  lemma CabinetWalk(t: Tables, resource: ResourceRef, cs: seq<int>, fs: seq<int>, maxAncestry: nat)
    requires AcceptablePath(t, resource, cs, fs, maxAncestry)
    ensures |cs| > 0 && ChainWithin(t.cabinets, cs[0], cs, maxAncestry)
    ensures resource.Cabinet? ==> fs == [] && cs[0] == resource.id
    ensures WalkFrom(t.cabinets, TargetCabinet(t, resource), maxAncestry + 1) == ChainRows(t.cabinets, cs)
    ensures Ids(ChainRows(t.cabinets, cs)) == cs
    ensures ValidateRows(ChainRows(t.cabinets, cs), ExpectedLeaf(resource.id, resource.Cabinet?), maxAncestry)
         == Success(ChainRows(t.cabinets, cs))
  {
    hide Walk, ValidateRows;
    PathLength(cs, fs, resource);
    assert TargetCabinet(t, resource) == Some(cs[0]);
    WalkOfChain(t.cabinets, cs[0], cs, maxAncestry + 1);
    IdsOfChainRows(t.cabinets, cs[0], cs);
    ChainRowsValid(
      t.cabinets, cs[0], cs, maxAncestry, ChainRows(t.cabinets, cs), ExpectedLeaf(resource.id, resource.Cabinet?));
  }

  lemma FolderWalk(t: Tables, resource: ResourceRef, cs: seq<int>, fs: seq<int>, maxAncestry: nat)
    requires AcceptablePath(t, resource, cs, fs, maxAncestry)
    requires !resource.Cabinet?
    ensures |fs| > 0 && |cs| > 0 && ChainWithin(FolderParents(t), fs[0], fs, maxAncestry)
    ensures resource.Folder? ==> fs[0] == resource.id
    ensures WalkFrom(FolderParents(t), TargetFolder(t, resource), maxAncestry + 1) == ChainRows(FolderParents(t), fs)
  {
    hide Walk;
    PathLength(cs, fs, resource);
    assert TargetFolder(t, resource) == Some(fs[0]);
    WalkOfChain(FolderParents(t), fs[0], fs, maxAncestry + 1);
  }

  lemma FinishAccepts(t: Tables, resource: ResourceRef, cs: seq<int>, fs: seq<int>, maxAncestry: nat)
    requires AcceptablePath(t, resource, cs, fs, maxAncestry)
    ensures FinishAncestry(cs, fs, resource, maxAncestry) == Success(PathOf(cs, fs, resource))
  {
    ChainDistinct(t.cabinets, cs[0], cs);
    if !resource.Cabinet? {
      ChainDistinct(FolderParents(t), fs[0], fs);
    }
    PathIsValid(cs, fs, resource);
  }

  lemma FoldersAccept(t: Tables, resource: ResourceRef, cs: seq<int>, fs: seq<int>, maxAncestry: nat)
    requires resource.Folder? || resource.Doc?
    requires AcceptablePath(t, resource, cs, fs, maxAncestry)
    ensures |WalkFrom(FolderParents(t), TargetFolder(t, resource), maxAncestry + 1)| == |fs|
    ensures CheckFolders(t, resource, cs, WalkFrom(FolderParents(t), TargetFolder(t, resource), maxAncestry + 1), maxAncestry)
         == Success(PathOf(cs, fs, resource))
  {
    hide Walk, ValidateRows, FinishAncestry;
    FolderWalk(t, resource, cs, fs, maxAncestry);
    IdsOfChainRows(FolderParents(t), fs[0], fs);
    ChainRowsAre(FolderParents(t), fs);
    assert SameCabinet(t, ChainRows(FolderParents(t), fs), cs[0]);
    ChainRowsValid(
      FolderParents(t), fs[0], fs, maxAncestry, ChainRows(FolderParents(t), fs), ExpectedLeaf(resource.id, resource.Folder?));
    FinishAccepts(t, resource, cs, fs, maxAncestry);
  }

  lemma CheckAccepts(t: Tables, resource: ResourceRef, cs: seq<int>, fs: seq<int>, maxAncestry: nat)
    requires !resource.Global?
    requires AcceptablePath(t, resource, cs, fs, maxAncestry)
    ensures CheckRows(
        t, resource,
        WalkFrom(t.cabinets, TargetCabinet(t, resource), maxAncestry + 1),
        WalkFrom(FolderParents(t), TargetFolder(t, resource), maxAncestry + 1), maxAncestry)
      == Success(PathOf(cs, fs, resource))
  {
    hide Walk, ValidateRows, FinishAncestry;
    PathLength(cs, fs, resource);
    CabinetWalk(t, resource, cs, fs, maxAncestry);
    if resource.Cabinet? {
      FinishAccepts(t, resource, cs, fs, maxAncestry);
    } else {
      FoldersAccept(t, resource, cs, fs, maxAncestry);
    }
  }

  lemma AncestryAccepts(t: Tables, resource: ResourceRef, cs: seq<int>, fs: seq<int>, maxAncestry: nat)
    requires !resource.Global? && resource.id > 0
    requires AcceptablePath(t, resource, cs, fs, maxAncestry)
    ensures ResolveAncestry(t, resource, maxAncestry) == Success(PathOf(cs, fs, resource))
  {
    CheckAccepts(t, resource, cs, fs, maxAncestry);
  }

  lemma CabinetsFound(t: Tables, resource: ResourceRef, maxAncestry: nat) returns (cs: seq<int>)
    requires !resource.Global? && resource.id > 0
    requires ResolveAncestry(t, resource, maxAncestry).Success?
    ensures TargetCabinet(t, resource).Some?
    ensures ChainWithin(t.cabinets, TargetCabinet(t, resource).value, cs, maxAncestry)
    ensures resource.Cabinet? ==> FinishAncestry(cs, [], resource, maxAncestry).Success?
    ensures !resource.Cabinet? ==>
      CheckFolders(t, resource, cs, WalkFrom(FolderParents(t), TargetFolder(t, resource), maxAncestry + 1), maxAncestry).Success?
  {
    hide Walk, ValidateRows, FinishAncestry;
    var cabinetRows := WalkFrom(t.cabinets, TargetCabinet(t, resource), maxAncestry + 1);
    var leaf := ExpectedLeaf(resource.id, resource.Cabinet?);
    assert ValidateRows(cabinetRows, leaf, maxAncestry).Success?;
    ValidatedNonempty(cabinetRows, leaf, maxAncestry);
    var cabinet := TargetCabinet(t, resource).value;
    ValidationExact(t.cabinets, cabinet, maxAncestry, cabinetRows, leaf);
    cs :| ChainWithin(t.cabinets, cabinet, cs, maxAncestry);
    IdsOfChainRows(t.cabinets, cabinet, cs);
  }

  lemma FoldersFound(t: Tables, resource: ResourceRef, cs: seq<int>, maxAncestry: nat) returns (fs: seq<int>)
    requires (resource.Folder? || resource.Doc?) && |cs| > 0
    requires CheckFolders(t, resource, cs, WalkFrom(FolderParents(t), TargetFolder(t, resource), maxAncestry + 1), maxAncestry).Success?
    ensures TargetFolder(t, resource).Some?
    ensures ChainWithin(FolderParents(t), TargetFolder(t, resource).value, fs, maxAncestry)
    ensures forall i :: 0 <= i < |fs| ==> t.folders[fs[i]].cabinet == cs[0]
    ensures FinishAncestry(cs, fs, resource, maxAncestry).Success?
  {
    hide Walk, ValidateRows, FinishAncestry;
    var folderRows := WalkFrom(FolderParents(t), TargetFolder(t, resource), maxAncestry + 1);
    var leaf := ExpectedLeaf(resource.id, resource.Folder?);
    assert ValidateRows(folderRows, leaf, maxAncestry).Success?;
    ValidatedNonempty(folderRows, leaf, maxAncestry);
    var folder := TargetFolder(t, resource).value;
    ValidationExact(FolderParents(t), folder, maxAncestry, folderRows, leaf);
    fs :| ChainWithin(FolderParents(t), folder, fs, maxAncestry);
    IdsOfChainRows(FolderParents(t), folder, fs);
    var folders := ChainRows(FolderParents(t), fs);
    ChainRowsAre(FolderParents(t), fs);
    assert SameCabinet(t, folders, cs[0]);
    assert forall i :: 0 <= i < |fs| ==> folders[i].id == fs[i];
  }

  lemma AncestryOnlyPaths(t: Tables, resource: ResourceRef, maxAncestry: nat) returns (cs: seq<int>, fs: seq<int>)
    requires !resource.Global? && resource.id > 0
    requires ResolveAncestry(t, resource, maxAncestry).Success?
    ensures AcceptablePath(t, resource, cs, fs, maxAncestry)
  {
    cs := CabinetsFound(t, resource, maxAncestry);
    if resource.Cabinet? {
      fs := [];
    } else {
      fs := FoldersFound(t, resource, cs, maxAncestry);
    }
  }

  /** A path is resolved exactly when the positive, single-cabinet chains to the roots exist and fit the limit;
      it is then that one path, root first. */
  lemma AncestryExact(t: Tables, resource: ResourceRef, maxAncestry: nat)
    requires !resource.Global? && resource.id > 0
    ensures ResolveAncestry(t, resource, maxAncestry).Success? <==>
      exists cs, fs :: AcceptablePath(t, resource, cs, fs, maxAncestry)
    ensures forall cs, fs :: AcceptablePath(t, resource, cs, fs, maxAncestry) ==>
      ResolveAncestry(t, resource, maxAncestry) == Success(PathOf(cs, fs, resource))
  {
    if ResolveAncestry(t, resource, maxAncestry).Success? {
      var cs, fs := AncestryOnlyPaths(t, resource, maxAncestry);
    }
    forall cs, fs | AcceptablePath(t, resource, cs, fs, maxAncestry)
      ensures ResolveAncestry(t, resource, maxAncestry) == Success(PathOf(cs, fs, resource))
    {
      AncestryAccepts(t, resource, cs, fs, maxAncestry);
    }
  }
}
