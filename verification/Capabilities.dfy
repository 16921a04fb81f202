/** The loop of load_effective_permission_codes (backend/app/repositories/access_rule_repository.py) over the
    aggregated role effects of one user. */
module Capabilities {
  import opened Wrappers
  import opened AccessRuleRepository

  /** One group of the aggregate query: a permission code and which effects some role gives it. */
  datatype CodeRow = CodeRow(code: string, hasAllow: bool, hasDeny: bool, hasInvalid: bool)

  /** The row is the aggregate of the user's grants of its code. */
  ghost predicate Aggregates(row: CodeRow, t: Tables, user: int) {
    && row.code in GrantedCodes(t, user)
    && (row.hasAllow <==> Grant(user, row.code, "ALLOW") in t.grants)
    && (row.hasDeny <==> Grant(user, row.code, "DENY") in t.grants)
    && (row.hasInvalid <==>
          exists g :: g in t.grants && g.user == user && g.permission == row.code && g.effect !in {"ALLOW", "DENY"})
  }

  /** GROUP BY code LIMIT max + 1. */
  ghost predicate QueryRows(rows: seq<CodeRow>, t: Tables, user: int, max: nat) {
    && (forall i :: 0 <= i < |rows| ==> Aggregates(rows[i], t, user))
    && (forall i, j :: 0 <= i < j < |rows| ==> rows[i].code != rows[j].code)
    && |rows| == (if |GrantedCodes(t, user)| <= max + 1 then |GrantedCodes(t, user)| else max + 1)
  }

  function Codes(rows: seq<CodeRow>): set<string> {
    set i | 0 <= i < |rows| :: rows[i].code
  }

  predicate Sound(row: CodeRow) {
    ValidPermission(row.code) && !row.hasInvalid
  }

  method LoadEffectivePermissionCodes(rows: seq<CodeRow>, ghost t: Tables, ghost user: int, max: nat)
    returns (result: Result<set<string>>)
    requires QueryRows(rows, t, user, max)
    ensures result == LoadCapabilities(t, user, max)
  {
    hide ValidPermission;
    EveryCodeHasARow(rows, t, user, max);
    if |rows| > max {
      return Failure("AUTHZ_PERMISSION_LIMIT");
    }
    var effective: set<string> := {};
    var i := 0;
    while i < |rows|
      invariant 0 <= i <= |rows|
      invariant forall k :: 0 <= k < i ==> Sound(rows[k])
      invariant forall c :: c in effective <==> exists k :: 0 <= k < i && rows[k].code == c && rows[k].hasAllow && !rows[k].hasDeny
    {
      if !Sound(rows[i]) {
        UnsoundRow(rows[i], t, user);
        return Failure("AUTHZ_ROLE_DATA_INVALID");
      }
      if rows[i].hasAllow && !rows[i].hasDeny {
        effective := effective + {rows[i].code};
      }
      i := i + 1;
    }
    AllSound(rows, t, user, max);
    ghost var capable := set c | c in GrantedCodes(t, user) && Grant(user, c, "ALLOW") in t.grants && Grant(user, c, "DENY") !in t.grants;
    forall c ensures c in effective <==> c in capable {
      if c in effective {
        var k :| 0 <= k < i && rows[k].code == c && rows[k].hasAllow && !rows[k].hasDeny;
        assert Aggregates(rows[k], t, user);
      }
      if c in capable {
        var k :| 0 <= k < |rows| && rows[k].code == c;
        assert Aggregates(rows[k], t, user);
      }
    }
    assert effective == capable;
    result := Success(effective);
  }

  lemma {:induction false} CodesSize(rows: seq<CodeRow>)
    requires forall i, j :: 0 <= i < j < |rows| ==> rows[i].code != rows[j].code
    ensures |Codes(rows)| == |rows|
  {
    if |rows| == 0 {
    } else {
      var n := |rows| - 1;
      CodesSize(rows[..n]);
      forall c ensures c in Codes(rows) <==> c in Codes(rows[..n]) + {rows[n].code} {
        if k :| 0 <= k < n && rows[k].code == c {
          assert rows[..n][k].code == c;
        }
      }
      assert Codes(rows) == Codes(rows[..n]) + {rows[n].code};
    }
  }

  lemma EveryCodeHasARow(rows: seq<CodeRow>, t: Tables, user: int, max: nat)
    requires QueryRows(rows, t, user, max)
    ensures |rows| > max <==> |GrantedCodes(t, user)| > max
    ensures |rows| <= max ==> Codes(rows) == GrantedCodes(t, user)
  {
    CodesSize(rows);
    if |rows| <= max {
      var missing := GrantedCodes(t, user) - Codes(rows);
      assert Codes(rows) <= GrantedCodes(t, user);
      assert GrantedCodes(t, user) == Codes(rows) + missing;
      assert |missing| == 0;
    }
  }

  lemma UnsoundRow(row: CodeRow, t: Tables, user: int)
    requires Aggregates(row, t, user) && !Sound(row)
    ensures exists g :: g in t.grants && g.user == user && (!ValidPermission(g.permission) || g.effect !in {"ALLOW", "DENY"})
  {
    hide ValidPermission;
    if !ValidPermission(row.code) {
      var g :| g in t.grants && g.user == user && g.permission == row.code;
    }
  }

  lemma AllSound(rows: seq<CodeRow>, t: Tables, user: int, max: nat)
    requires QueryRows(rows, t, user, max) && |rows| <= max && forall k :: 0 <= k < |rows| ==> Sound(rows[k])
    ensures !exists g :: g in t.grants && g.user == user && (!ValidPermission(g.permission) || g.effect !in {"ALLOW", "DENY"})
    ensures forall c :: c in GrantedCodes(t, user) ==> exists k :: 0 <= k < |rows| && rows[k].code == c
  {
    hide ValidPermission;
    EveryCodeHasARow(rows, t, user, max);
    forall g | g in t.grants && g.user == user ensures ValidPermission(g.permission) && g.effect in {"ALLOW", "DENY"} {
      assert g.permission in Codes(rows);
      var k :| 0 <= k < |rows| && rows[k].code == g.permission;
      assert Sound(rows[k]);
    }
  }
}
