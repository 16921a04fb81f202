/** Identities and resource paths (backend/app/domain/resources.py). */
module Resources {

  datatype PrincipalKind = User | Group

  datatype PrincipalRef = PrincipalRef(kind: PrincipalKind, id: int)

  /** One direct user and that user's active groups. */
  datatype PrincipalSet = PrincipalSet(user: int, groups: set<int>) {
    predicate Contains(principal: PrincipalRef) {
      match principal.kind
      case User => principal.id == user
      case Group => principal.id in groups
    }
  }

  datatype ResourceRef = Global | Cabinet(id: int) | Folder(id: int) | Doc(id: int) {
    function ScopeRank(): nat {
      match this
      case Global => 0
      case Cabinet(_) => 1
      case Folder(_) => 2
      case Doc(_) => 3
    }
  }

  /** The conditions a ResourceAncestry constructor checks, in its order. */
  predicate ValidAncestry(path: seq<ResourceRef>) {
    && |path| > 0
    && path[0] == Global
    && (forall i, j :: 0 <= i < j < |path| ==> path[i] != path[j])
    && (forall i, j :: 0 <= i < |path| && i < j < |path| && j == i + 1 ==> path[i].ScopeRank() <= path[j].ScopeRank())
    && ((exists i :: 0 <= i < |path| && path[i].Folder?) ==> exists i :: 0 <= i < |path| && path[i].Cabinet?)
    && ((exists i :: 0 <= i < |path| && path[i].Doc?) ==> exists i :: 0 <= i < |path| && path[i].Folder?)
    && (forall i, j :: 0 <= i < j < |path| ==> !(path[i].Doc? && path[j].Doc?))
    && ((exists i :: 0 <= i < |path| && path[i].Doc?) ==> path[|path| - 1].Doc?)
  }

  /** The index of a resource on the path: larger is more specific; -1 when it is not on the path. */
  function Position(path: seq<ResourceRef>, resource: ResourceRef): (p: int)
    ensures -1 <= p < |path|
    ensures p >= 0 <==> resource in path
    ensures p >= 0 ==> path[p] == resource
  {
    if |path| == 0 then -1
    else if path[0] == resource then 0
    else
      var rest := Position(path[1..], resource);
      if rest < 0 then -1 else rest + 1
  }

  lemma PositionAt(path: seq<ResourceRef>, i: nat)
    requires i < |path|
    requires forall a, b :: 0 <= a < b < |path| ==> path[a] != path[b]
    ensures Position(path, path[i]) == i
  {
    var p := Position(path, path[i]);
    assert p < i || i < p || p == i;
  }
}
