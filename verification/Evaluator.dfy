/** The pure evaluator of one action on one resource (backend/app/services/authorization_service.py). */
module Evaluator {
  import opened Wrappers
  import opened Resources
  import opened Sorting

  datatype Effect = Allow | Deny

  datatype AccessRule = AccessRule(
    id: int,
    principal: PrincipalRef,
    permission: string,
    resource: ResourceRef,
    effect: Effect,
    inherits: bool,
    active: bool,
    expiresAt: Option<int>)

  datatype Gates = Gates(
    authenticated: bool,
    accountActive: bool,
    securityBoundaryAllowed: bool,
    hardPolicyAllowed: bool)

  datatype Reason =
    | SystemUnauthenticated
    | SystemAccountInactive
    | SystemSecurityBoundary
    | SystemHardDeny
    | CapabilityMissing
    | NoApplicableRule
    | ExplicitDeny
    | ExplicitAllow

  datatype Decision = Decision(
    allowed: bool,
    reason: Reason,
    matchedRule: Option<int>,
    policyVersion: nat,
    ancestry: seq<ResourceRef>)

  /** Everything one evaluation is given besides the rules. */
  datatype Request = Request(
    gates: Gates,
    capabilities: set<string>,
    principals: PrincipalSet,
    permission: string,
    ancestry: seq<ResourceRef>,
    policyVersion: nat,
    now: int)

  function HardDenial(gates: Gates): Option<Reason> {
    if !gates.authenticated then Some(SystemUnauthenticated)
    else if !gates.accountActive then Some(SystemAccountInactive)
    else if !gates.securityBoundaryAllowed then Some(SystemSecurityBoundary)
    else if !gates.hardPolicyAllowed then Some(SystemHardDeny)
    else None
  }

  predicate ActiveAt(rule: AccessRule, now: int) {
    rule.active && (rule.expiresAt.None? || rule.expiresAt.value > now)
  }

  predicate ReachesTarget(rule: AccessRule, path: seq<ResourceRef>) {
    rule.resource in path && (rule.resource == path[|path| - 1] || rule.inherits)
  }

  predicate Applicable(q: Request, rule: AccessRule) {
    && rule.permission == q.permission
    && q.principals.Contains(rule.principal)
    && ActiveAt(rule, q.now)
    && ReachesTarget(rule, q.ancestry)
  }

  function MaxPosition(path: seq<ResourceRef>, rules: seq<AccessRule>): int
    requires |rules| > 0
  {
    var p := Position(path, rules[0].resource);
    if |rules| == 1 then p
    else
      var rest := MaxPosition(path, rules[1..]);
      if p >= rest then p else rest
  }

  function LeastId(rules: seq<AccessRule>): int
    requires |rules| > 0
  {
    if |rules| == 1 then rules[0].id
    else
      var rest := LeastId(rules[1..]);
      if rules[0].id <= rest then rules[0].id else rest
  }

  function Denied(q: Request, reason: Reason, matched: Option<int>): Decision {
    Decision(false, reason, matched, q.policyVersion, q.ancestry)
  }

  function ApplicableRules(q: Request, rules: seq<AccessRule>): seq<AccessRule> {
    Filter(rules, r => Applicable(q, r))
  }

  function SelectedScope(path: seq<ResourceRef>, applicable: seq<AccessRule>): seq<AccessRule>
    requires |applicable| > 0
  {
    var selected := MaxPosition(path, applicable);
    Filter(applicable, (r: AccessRule) => Position(path, r.resource) == selected)
  }

  function SelectedTier(scoped: seq<AccessRule>): seq<AccessRule> {
    var direct := Filter(scoped, (r: AccessRule) => r.principal.kind.User?);
    if |direct| > 0 then direct else Filter(scoped, (r: AccessRule) => r.principal.kind.Group?)
  }

  function Evaluate(q: Request, rules: seq<AccessRule>): Decision {
    match HardDenial(q.gates)
    case Some(reason) => Denied(q, reason, None)
    case None =>
      if q.permission !in q.capabilities then Denied(q, CapabilityMissing, None)
      else if |ApplicableRules(q, rules)| == 0 then Denied(q, NoApplicableRule, None)
      else
        var tier := SelectedTier(SelectedScope(q.ancestry, ApplicableRules(q, rules)));
        var denies := Filter(tier, (r: AccessRule) => r.effect.Deny?);
        if |denies| > 0 then Denied(q, ExplicitDeny, Some(LeastId(denies)))
        else
          var allows := Filter(tier, (r: AccessRule) => r.effect.Allow?);
          if |allows| == 0 then Denied(q, NoApplicableRule, None)
          else Decision(true, ExplicitAllow, Some(LeastId(allows)), q.policyVersion, q.ancestry)
  }

  // What the evaluator computes, said without its filters

  predicate Admitted(q: Request) {
    HardDenial(q.gates).None? && q.permission in q.capabilities
  }

  /** Nearest resource, then USER over GROUP, then DENY over ALLOW, then least id. */
  predicate Outranks(q: Request, a: AccessRule, b: AccessRule) {
    var pa, pb := Position(q.ancestry, a.resource), Position(q.ancestry, b.resource);
    || pa > pb
    || (pa == pb && a.principal.kind.User? && b.principal.kind.Group?)
    || (pa == pb && a.principal.kind == b.principal.kind && a.effect.Deny? && b.effect.Allow?)
    || (pa == pb && a.principal.kind == b.principal.kind && a.effect == b.effect && a.id < b.id)
  }

  ghost predicate Strongest(q: Request, rules: seq<AccessRule>, w: AccessRule) {
    && w in rules
    && Applicable(q, w)
    && forall r :: r in rules && Applicable(q, r) ==> !Outranks(q, r, w)
  }

  function DecisionOf(q: Request, w: AccessRule): Decision {
    Decision(w.effect.Allow?, if w.effect.Allow? then ExplicitAllow else ExplicitDeny,
             Some(w.id), q.policyVersion, q.ancestry)
  }

  lemma FilterSpec(s: seq<AccessRule>, p: AccessRule -> bool)
    ensures forall x :: x in Filter(s, p) <==> x in s && p(x)
    ensures |Filter(s, p)| == 0 <==> forall x :: x in s ==> !p(x)
  {
    forall x ensures x in Filter(s, p) <==> x in s && p(x) {
      FilterMembers(s, p, x);
    }
    if |Filter(s, p)| > 0 {
      assert Filter(s, p)[0] in Filter(s, p);
    }
  }

  lemma {:induction false} MaxPositionIs(path: seq<ResourceRef>, rules: seq<AccessRule>, w: AccessRule)
    requires w in rules
    requires forall r :: r in rules ==> Position(path, r.resource) <= Position(path, w.resource)
    ensures MaxPosition(path, rules) == Position(path, w.resource)
  {
    if |rules| == 1 {
    } else {
      var tail := rules[1..];
      assert tail[0] in rules;
      MaxPositionBound(path, tail, Position(path, w.resource));
      if w in tail {
        MaxPositionIs(path, tail, w);
      }
    }
  }

  lemma {:induction false} MaxPositionBound(path: seq<ResourceRef>, rules: seq<AccessRule>, bound: int)
    requires |rules| > 0
    requires forall r :: r in rules ==> Position(path, r.resource) <= bound
    ensures MaxPosition(path, rules) <= bound
  {
    if |rules| == 1 {
    } else {
      MaxPositionBound(path, rules[1..], bound);
    }
  }

  lemma {:induction false} LeastIdIs(rules: seq<AccessRule>, w: AccessRule)
    requires w in rules
    requires forall r :: r in rules ==> w.id <= r.id
    ensures LeastId(rules) == w.id
  {
    if |rules| == 1 {
    } else {
      var tail := rules[1..];
      LeastIdBound(tail, w.id);
      if w in tail {
        LeastIdIs(tail, w);
      }
    }
  }

  lemma {:induction false} LeastIdBound(rules: seq<AccessRule>, bound: int)
    requires |rules| > 0
    requires forall r :: r in rules ==> bound <= r.id
    ensures bound <= LeastId(rules)
  {
    if |rules| == 1 {
    } else {
      LeastIdBound(rules[1..], bound);
    }
  }

  lemma ApplicableSpec(q: Request, rules: seq<AccessRule>)
    ensures forall x :: x in ApplicableRules(q, rules) <==> x in rules && Applicable(q, x)
    ensures |ApplicableRules(q, rules)| == 0 <==> forall x :: x in rules ==> !Applicable(q, x)
  {
    FilterSpec(rules, r => Applicable(q, r));
  }

  lemma ScopeSpec(path: seq<ResourceRef>, applicable: seq<AccessRule>, w: AccessRule)
    requires w in applicable
    requires forall r :: r in applicable ==> Position(path, r.resource) <= Position(path, w.resource)
    ensures forall r :: r in SelectedScope(path, applicable) <==>
      r in applicable && Position(path, r.resource) == Position(path, w.resource)
  {
    MaxPositionIs(path, applicable, w);
    var selected := MaxPosition(path, applicable);
    FilterSpec(applicable, (r: AccessRule) => Position(path, r.resource) == selected);
  }

  lemma TierSpec(scoped: seq<AccessRule>, w: AccessRule)
    requires w in scoped
    requires w.principal.kind.Group? ==> forall r :: r in scoped ==> r.principal.kind.Group?
    ensures forall r :: r in SelectedTier(scoped) <==> r in scoped && r.principal.kind == w.principal.kind
  {
    FilterSpec(scoped, (r: AccessRule) => r.principal.kind.User?);
    FilterSpec(scoped, (r: AccessRule) => r.principal.kind.Group?);
  }

  /** The decision is the strongest applicable rule's effect and id. */
  lemma StrongestRuleDecides(q: Request, rules: seq<AccessRule>, w: AccessRule)
    requires Admitted(q) && Strongest(q, rules, w)
    ensures Evaluate(q, rules) == DecisionOf(q, w)
  {
    var applicable := ApplicableRules(q, rules);
    ApplicableSpec(q, rules);
    ScopeSpec(q.ancestry, applicable, w);
    var scoped := SelectedScope(q.ancestry, applicable);
    TierSpec(scoped, w);
    var tier := SelectedTier(scoped);
    var isDeny, isAllow := (r: AccessRule) => r.effect.Deny?, (r: AccessRule) => r.effect.Allow?;
    FilterSpec(tier, isDeny);
    FilterSpec(tier, isAllow);
    forall r | r in tier ensures !Outranks(q, r, w) {
    }
    if w.effect.Deny? {
      LeastIdIs(Filter(tier, isDeny), w);
    } else {
      LeastIdIs(Filter(tier, isAllow), w);
    }
  }

  lemma {:induction false} StrongestExists(q: Request, rules: seq<AccessRule>) returns (w: AccessRule)
    requires exists r :: r in rules && Applicable(q, r)
    ensures Strongest(q, rules, w)
  {
    var head, tail := rules[0], rules[1..];
    assert forall r :: r in rules <==> r == head || r in tail;
    if exists r :: r in tail && Applicable(q, r) {
      w := StrongestExists(q, tail);
      if Applicable(q, head) && Outranks(q, head, w) {
        w := head;
      }
    } else {
      w := head;
    }
  }

  /** NoApplicableRule is reported exactly when no rule applies: the second such exit is never taken. */
  lemma NoApplicableRuleExactly(q: Request, rules: seq<AccessRule>)
    requires Admitted(q)
    ensures Evaluate(q, rules).reason == NoApplicableRule <==> forall r :: r in rules ==> !Applicable(q, r)
  {
    ApplicableSpec(q, rules);
    if exists r :: r in rules && Applicable(q, r) {
      var w := StrongestExists(q, rules);
      StrongestRuleDecides(q, rules, w);
    }
  }

  /** The decision depends on the set of rules that no other rule makes irrelevant, and on nothing else. */
  lemma DecisionIsAFunctionOfTheRuleSet(q: Request, rules: seq<AccessRule>, others: seq<AccessRule>)
    requires forall r :: r in rules ==> r in others
    requires forall x :: x in others && x !in rules && Applicable(q, x) ==>
      exists r :: r in rules && Applicable(q, r) && Outranks(q, r, x)
    ensures Evaluate(q, rules) == Evaluate(q, others)
  {
    hide Evaluate, Applicable, Outranks, Admitted;
    if !Admitted(q) {
      NotAdmittedIgnoresRules(q, rules, others);
    } else if exists r :: r in rules && Applicable(q, r) {
      var w := StrongestExists(q, rules);
      StrongestRuleDecides(q, rules, w);
      forall x | x in others && Applicable(q, x) ensures !Outranks(q, x, w) {
        if x !in rules {
          var r :| r in rules && Applicable(q, r) && Outranks(q, r, x);
          OutranksTransitive(q, r, x, w);
        }
      }
      StrongestRuleDecides(q, others, w);
    } else {
      NoneApplies(q, rules);
      NoneApplies(q, others);
    }
  }

  lemma OutranksTransitive(q: Request, a: AccessRule, b: AccessRule, c: AccessRule)
    requires Outranks(q, a, b)
    ensures Outranks(q, b, c) ==> Outranks(q, a, c)
  {
    hide Position;
  }

  lemma NotAdmittedIgnoresRules(q: Request, rules: seq<AccessRule>, others: seq<AccessRule>)
    requires !Admitted(q)
    ensures Evaluate(q, rules) == Evaluate(q, others)
  {
  }

  lemma NoneApplies(q: Request, rules: seq<AccessRule>)
    requires Admitted(q) && forall r :: r in rules ==> !Applicable(q, r)
    ensures Evaluate(q, rules) == Denied(q, NoApplicableRule, None)
  {
    ApplicableSpec(q, rules);
  }

  /** A rule of the list that applies to the request and has this id and effect. */
  ghost predicate Cites(q: Request, rules: seq<AccessRule>, id: int, effect: Effect) {
    exists r :: r in rules && Applicable(q, r) && r.id == id && r.effect == effect
  }

  /** Every decision passes the AuthorizationDecision constructor's checks, and a rule decision names an applicable
      rule with the effect it reports. */
  lemma DecisionIsWellFormed(q: Request, rules: seq<AccessRule>)
    ensures var d := Evaluate(q, rules);
      && (d.allowed <==> d.reason == ExplicitAllow)
      && (d.matchedRule.Some? <==> d.reason in {ExplicitAllow, ExplicitDeny})
      && (d.matchedRule.Some? ==> Cites(q, rules, d.matchedRule.value, if d.allowed then Allow else Deny))
      && d.policyVersion == q.policyVersion && d.ancestry == q.ancestry
  {
    if Admitted(q) {
      ApplicableSpec(q, rules);
      if exists r :: r in rules && Applicable(q, r) {
        var w := StrongestExists(q, rules);
        StrongestRuleDecides(q, rules, w);
        assert Cites(q, rules, w.id, w.effect);
      }
    }
  }

  /** The gates come before every rule: without all of them, or without the capability, the request is refused by no
      rule, for the first reason in this order. */
  lemma GatesComeFirst(q: Request, rules: seq<AccessRule>)
    ensures var d := Evaluate(q, rules);
      && (!q.gates.authenticated <==> d.reason == SystemUnauthenticated)
      && (q.gates.authenticated && !q.gates.accountActive <==> d.reason == SystemAccountInactive)
      && (q.gates.authenticated && q.gates.accountActive && !q.gates.securityBoundaryAllowed <==> d.reason == SystemSecurityBoundary)
      && (q.gates == Gates(true, true, true, false) <==> d.reason == SystemHardDeny)
      && (q.gates == Gates(true, true, true, true) && q.permission !in q.capabilities <==> d.reason == CapabilityMissing)
      && (q.gates != Gates(true, true, true, true) || q.permission !in q.capabilities ==> !d.allowed && d.matchedRule == None)
  {
    hide Applicable, SelectedTier, SelectedScope;
  }
}
