/** The policy engine (services/operator/internal/policy). */
module PolicyEngine {
  import opened Types

  datatype Classification = Approved | RequiresApproval | Blocked

  datatype ValidationResult = ValidationResult(action: string, classification: Classification, reason: string)

  // ---------------------------------------------------------------- the five checks

  function CheckForbidden(step: RemediationStep, policy: Policy): Classification {
    if step.action in policy.forbidden then Blocked else Approved
  }

  function CheckBlastRadiusAction(step: RemediationStep, policy: Policy): Classification {
    if policy.blastRadius.forbidDelete && step.action == "delete" then Blocked else Approved
  }

  /** An empty scope allows every namespace. */
  predicate InScope(ns: seq<string>, env: string) { ns == [] || env in ns }

  function ScopeClass(env: string, policy: Policy): Classification {
    if InScope(policy.scope.ns, env) then Approved else Blocked
  }

  method CheckScope(env: string, policy: Policy) returns (c: Classification)
    ensures c == ScopeClass(env, policy)
  {
    if |policy.scope.ns| == 0 {
      return Approved;
    }
    var allowed := false;
    var i := 0;
    while i < |policy.scope.ns|
      invariant 0 <= i <= |policy.scope.ns| && !allowed
      invariant env !in policy.scope.ns[..i]
    {
      if policy.scope.ns[i] == env {
        allowed := true;
        break;
      }
      i := i + 1;
    }
    return if allowed then Approved else Blocked;
  }

  /** A non-empty rollback section is enough: the search for a matching entry cannot change the answer. */
  function CheckRollback(step: RemediationStep, runbook: Runbook): Classification {
    if step.risk == "low" && step.autoApprove then Approved
    else if runbook.rollback == [] then Blocked
    else Approved
  }

  function CheckEnvironment(step: RemediationStep, env: string, policy: Policy): Classification {
    if env == "production" then RequiresApproval
    else if step.risk in policy.approval.requireApprovalFor then RequiresApproval
    else Approved
  }

  function ValidateSingleAction(step: RemediationStep, policy: Policy, runbook: Runbook,
                                env: string): ValidationResult {
    if CheckForbidden(step, policy) == Blocked then
      ValidationResult(step.name, Blocked, "action is in forbidden list")
    else if CheckBlastRadiusAction(step, policy) == Blocked then
      ValidationResult(step.name, Blocked, "delete action forbidden by blast radius policy")
    else if ScopeClass(env, policy) == Blocked then
      ValidationResult(step.name, Blocked, "action outside allowed scope")
    else if CheckRollback(step, runbook) == Blocked then
      ValidationResult(step.name, Blocked, "missing rollback path")
    else if CheckEnvironment(step, env, policy) == RequiresApproval then
      ValidationResult(step.name, RequiresApproval, "production environment requires approval")
    else ValidationResult(step.name, Approved, "all checks passed")
  }

  function ClassOf(step: RemediationStep, policy: Policy, runbook: Runbook, env: string): Classification {
    ValidateSingleAction(step, policy, runbook, env).classification
  }

  function Plan(steps: seq<RemediationStep>, policy: Policy, runbook: Runbook, env: string): (r: seq<ValidationResult>)
    ensures |r| == |steps|
  {
    seq(|steps|, i requires 0 <= i < |steps| => ValidateSingleAction(steps[i], policy, runbook, env))
  }

  method ValidatePlan(steps: seq<RemediationStep>, policy: Policy, runbook: Runbook, env: string)
    returns (results: seq<ValidationResult>)
    ensures results == Plan(steps, policy, runbook, env)
  {
    results := [];
    for i := 0 to |steps|
      invariant results == Plan(steps, policy, runbook, env)[..i]
    {
      results := results + [ValidateSingleAction(steps[i], policy, runbook, env)];
    }
  }

  // ---------------------------------------------------------------- classification is a join

  function Rank(c: Classification): nat {
    match c case Approved => 0 case RequiresApproval => 1 case Blocked => 2
  }

  function Worse(a: Classification, b: Classification): Classification { if Rank(a) < Rank(b) then b else a }

  /** An action's class is the worst of its five checks, in whatever order they are made. */
  lemma ClassIsWorstCheck(step: RemediationStep, policy: Policy, runbook: Runbook, env: string)
    ensures ClassOf(step, policy, runbook, env)
         == Worse(CheckEnvironment(step, env, policy),
                  Worse(CheckRollback(step, runbook),
                        Worse(ScopeClass(env, policy),
                              Worse(CheckBlastRadiusAction(step, policy), CheckForbidden(step, policy)))))
  {
  }

  /** The first of the five checks that fails gives the class and the reason; the action's name is kept. */
  lemma ResultExact(step: RemediationStep, policy: Policy, runbook: Runbook, env: string)
    ensures var r := ValidateSingleAction(step, policy, runbook, env);
      && r.action == step.name
      && (r.classification, r.reason) ==
           (if step.action in policy.forbidden then (Blocked, "action is in forbidden list")
            else if step.action == "delete" && policy.blastRadius.forbidDelete
            then (Blocked, "delete action forbidden by blast radius policy")
            else if policy.scope.ns != [] && env !in policy.scope.ns then (Blocked, "action outside allowed scope")
            else if runbook.rollback == [] && !(step.risk == "low" && step.autoApprove)
            then (Blocked, "missing rollback path")
            else if env == "production" || step.risk in policy.approval.requireApprovalFor
            then (RequiresApproval, "production environment requires approval")
            else (Approved, "all checks passed"))
  {}

  // ---------------------------------------------------------------- stricter policies

  function BlockedNames(p: Policy): seq<string> {
    p.forbidden + if p.blastRadius.forbidDelete then ["delete"] else []
  }

  predicate Within(a: seq<string>, b: seq<string>) { forall x :: x in a ==> x in b }

  predicate OnlyProduction(ns: seq<string>) { forall n :: n in ns ==> n == "production" }

  /** q asks at least as much as p: it blocks every action name p blocks, its scope is no wider (an empty
      scope being the widest), and it sends every risk level to approval that p does, unless all of q's
      scope is production, where every action needs approval anyway. */
  predicate AtLeastAsStrict(q: Policy, p: Policy) {
    && Within(BlockedNames(p), BlockedNames(q))
    && (p.scope.ns == [] || (q.scope.ns != [] && Within(q.scope.ns, p.scope.ns)))
    && (|| Within(p.approval.requireApprovalFor, q.approval.requireApprovalFor)
        || (q.scope.ns != [] && OnlyProduction(q.scope.ns)))
  }

  ghost predicate NeverLower(q: Policy, p: Policy) {
    forall step, runbook, env :: Rank(ClassOf(step, p, runbook, env)) <= Rank(ClassOf(step, q, runbook, env))
  }

  lemma StrictPolicyNeverLower(q: Policy, p: Policy, step: RemediationStep, runbook: Runbook, env: string)
    requires AtLeastAsStrict(q, p)
    ensures Rank(ClassOf(step, p, runbook, env)) <= Rank(ClassOf(step, q, runbook, env))
  {
    assert "delete" in BlockedNames(p) <==> p.blastRadius.forbidDelete || "delete" in p.forbidden by {
      BlockedNamesIff(p, "delete");
    }
    BlockedNamesIff(p, step.action);
    BlockedNamesIff(q, step.action);
  }

  lemma BlockedNamesIff(p: Policy, name: string)
    ensures name in BlockedNames(p) <==> name in p.forbidden || (p.blastRadius.forbidDelete && name == "delete")
  {
    var d := if p.blastRadius.forbidDelete then ["delete"] else [];
    assert name in d <==> p.blastRadius.forbidDelete && name == "delete";
  }

  lemma {:induction false} FreshName(names: seq<string>) returns (x: string)
    ensures forall n :: n in names ==> |n| < |x|
    ensures x !in names
  {
    if names == [] {
      x := "";
    } else {
      var y := FreshName(names[1..]);
      x := y + names[0] + "x";
    }
  }

  function Undoable(): Runbook { Runbook("", [], [], [RemediationStep("", "", "", "", false)]) }

  predicate Lowers(q: Policy, p: Policy, step: RemediationStep, env: string) {
    Rank(ClassOf(step, q, Undoable(), env)) < Rank(ClassOf(step, p, Undoable(), env))
  }

  lemma UnblockedName(q: Policy, p: Policy) returns (name: string)
    ensures name !in p.forbidden && name !in q.forbidden && name != "delete"
  {
    var all := p.forbidden + q.forbidden + ["delete"];
    name := FreshName(all);
    assert all[|all| - 1] == "delete";
    assert forall n :: n in p.forbidden || n in q.forbidden ==> n in all;
  }

  lemma BlockedNameWitness(q: Policy, p: Policy) returns (step: RemediationStep, env: string)
    requires !Within(BlockedNames(p), BlockedNames(q))
    ensures Lowers(q, p, step, env)
  {
    var name :| name in BlockedNames(p) && name !in BlockedNames(q);
    env := if q.scope.ns == [] then "" else q.scope.ns[0];
    step := RemediationStep("", name, "", "", false);
    BlockedNamesIff(p, name);
    BlockedNamesIff(q, name);
  }

  lemma WiderScopeWitness(q: Policy, p: Policy) returns (step: RemediationStep, env: string)
    requires p.scope.ns != [] && (q.scope.ns == [] || !Within(q.scope.ns, p.scope.ns))
    ensures Lowers(q, p, step, env)
  {
    if q.scope.ns == [] {
      env := FreshName(p.scope.ns);
    } else {
      env :| env in q.scope.ns && env !in p.scope.ns;
    }
    var name := UnblockedName(q, p);
    step := RemediationStep("", name, "", "", false);
  }

  lemma UnguardedRiskWitness(q: Policy, p: Policy) returns (step: RemediationStep, env: string)
    requires !Within(p.approval.requireApprovalFor, q.approval.requireApprovalFor)
    requires q.scope.ns == [] || !OnlyProduction(q.scope.ns)
    ensures Lowers(q, p, step, env)
  {
    var risk :| risk in p.approval.requireApprovalFor && risk !in q.approval.requireApprovalFor;
    if q.scope.ns == [] {
      env := "";
    } else {
      env :| env in q.scope.ns && env != "production";
    }
    var name := UnblockedName(q, p);
    step := RemediationStep("", name, "", risk, false);
  }

  /** The exact condition: one policy never lowers a class below another's, over all actions, runbooks and
      namespaces, if and only if it is at least as strict. */
  lemma StrictnessExact(q: Policy, p: Policy)
    ensures AtLeastAsStrict(q, p) <==> NeverLower(q, p)
  {
    if AtLeastAsStrict(q, p) {
      forall step, runbook, env
        ensures Rank(ClassOf(step, p, runbook, env)) <= Rank(ClassOf(step, q, runbook, env))
      {
        StrictPolicyNeverLower(q, p, step, runbook, env);
      }
    } else {
      var step, env;
      if !Within(BlockedNames(p), BlockedNames(q)) {
        step, env := BlockedNameWitness(q, p);
      } else if p.scope.ns != [] && (q.scope.ns == [] || !Within(q.scope.ns, p.scope.ns)) {
        step, env := WiderScopeWitness(q, p);
      } else {
        step, env := UnguardedRiskWitness(q, p);
      }
      assert Lowers(q, p, step, env);
    }
  }

  // ---------------------------------------------------------------- the limit on auto-approved actions

  function CountApproved(rs: seq<ValidationResult>): nat {
    if rs == [] then 0
    else CountApproved(rs[..|rs| - 1]) + if rs[|rs| - 1].classification == Approved then 1 else 0
  }

  function Demoted(r: ValidationResult): ValidationResult {
    r.(classification := RequiresApproval, reason := "max auto-approved actions exceeded")
  }

  /** A result keeps its approval exactly when fewer than max approved results come before it. */
  function LimitedAt(rs: seq<ValidationResult>, max: int, i: nat): ValidationResult
    requires i < |rs|
  {
    if rs[i].classification == Approved && CountApproved(rs[..i]) >= max then Demoted(rs[i]) else rs[i]
  }

  function Limited(rs: seq<ValidationResult>, max: int): (r: seq<ValidationResult>)
    ensures |r| == |rs|
  {
    seq(|rs|, i requires 0 <= i < |rs| => LimitedAt(rs, max, i))
  }

  method LimitAutoApproved(results: array<ValidationResult>, maxAutoApproved: int)
    modifies results
    ensures results[..] == Limited(old(results[..]), maxAutoApproved)
  {
    ghost var was := results[..];
    var autoApprovedCount := 0;
    for i := 0 to results.Length
      invariant autoApprovedCount == CountApproved(was[..i])
      invariant forall k :: 0 <= k < i ==> results[k] == LimitedAt(was, maxAutoApproved, k)
      invariant forall k :: i <= k < results.Length ==> results[k] == was[k]
    {
      assert was[..i + 1][..i] == was[..i];
      if results[i].classification == Approved {
        autoApprovedCount := autoApprovedCount + 1;
        if autoApprovedCount > maxAutoApproved {
          results[i] := Demoted(results[i]);
        }
      }
    }
  }

  method ValidatePlanWithLimit(steps: seq<RemediationStep>, policy: Policy, runbook: Runbook, env: string,
                               maxAutoApproved: int) returns (r: seq<ValidationResult>)
    ensures r == Limited(Plan(steps, policy, runbook, env), maxAutoApproved)
  {
    var planned := ValidatePlan(steps, policy, runbook, env);
    var results := new ValidationResult[|planned|](i requires 0 <= i < |planned| => planned[i]);
    assert results[..] == planned;
    LimitAutoApproved(results, maxAutoApproved);
    return results[..];
  }

  lemma {:induction false} LimitedCount(rs: seq<ValidationResult>, max: int)
    ensures CountApproved(Limited(rs, max))
         == if max < 0 then 0 else if CountApproved(rs) < max then CountApproved(rs) else max
  {
    if rs == [] {
    } else {
      var before := rs[..|rs| - 1];
      LimitedCount(before, max);
      forall i | 0 <= i < |before| ensures LimitedAt(before, max, i) == LimitedAt(rs, max, i) {
        assert before[..i] == rs[..i];
      }
      assert Limited(rs, max)[..|rs| - 1] == Limited(before, max);
    }
  }

  /** The limit refines the plan: min(count, max(0, limit)) approvals survive, they are the earliest, every other
      result is untouched, and a demotion changes neither the action nor the position. */
  lemma LimitRefines(rs: seq<ValidationResult>, max: int)
    ensures var out := Limited(rs, max);
            && CountApproved(out) == (if max < 0 then 0 else if CountApproved(rs) < max then CountApproved(rs) else max)
            && (forall i :: 0 <= i < |rs| ==> out[i].action == rs[i].action)
            && (forall i :: 0 <= i < |rs| && rs[i].classification != Approved ==> out[i] == rs[i])
            && (forall i :: 0 <= i < |rs| && rs[i].classification == Approved ==>
                  out[i] == rs[i] || out[i] == ValidationResult(rs[i].action, RequiresApproval,
                                                                "max auto-approved actions exceeded"))
            && (forall i, j :: 0 <= i < j < |rs| ==>
                  rs[i].classification == Approved && out[j].classification == Approved
                  ==> out[i].classification == Approved)
  {
    hide CountApproved;
    LimitedCount(rs, max);
    var out := Limited(rs, max);
    forall i, j | 0 <= i < j < |rs| && rs[i].classification == Approved && out[j].classification == Approved
      ensures out[i].classification == Approved
    {
      CountMonotone(rs, i, j);
    }
  }

  lemma {:induction false} CountMonotone(rs: seq<ValidationResult>, i: nat, j: nat)
    requires i <= j <= |rs|
    ensures CountApproved(rs[..i]) <= CountApproved(rs[..j])
  {
    if i < j {
      CountMonotone(rs, i, j - 1);
      assert rs[..j][..j - 1] == rs[..j - 1];
    }
  }
}
