/** From Markdown text to execution: what the policy compiled from a runbook lets run. */
module CompiledPolicy {
  import opened Text
  import opened RunbookParser
  import opened NormalForm
  import opened PolicyGenerator
  import opened Types
  import opened PolicyEngine
  import opened Reconciler
  import opened StepExecutor

  /** The reconciler's view of a parsed step and runbook, field by field. */
  function ToStep(s: ParsedStep): RemediationStep { RemediationStep(s.name, s.action, s.target, s.risk, s.autoApprove) }

  function ToSteps(steps: seq<ParsedStep>): (r: seq<RemediationStep>)
    ensures |r| == |steps| && forall i :: 0 <= i < |steps| ==> r[i] == ToStep(steps[i])
  {
    seq(|steps|, i requires 0 <= i < |steps| => ToStep(steps[i]))
  }

  function ToRunbook(alertName: string, rb: ParsedRunbook): Runbook {
    Runbook(alertName, rb.severity, ToSteps(rb.remediation), ToSteps(rb.rollback))
  }

  /** The compiled policy's answer on a step of its own runbook. */
  lemma CompiledClass(rb: ParsedRunbook, i: nat, runbook: Runbook, env: string)
    requires i < |rb.remediation|
    ensures var step, p := rb.remediation[i], PolicyFor(rb);
            var c := ClassOf(ToStep(step), p, runbook, env);
            && (step.risk == "medium" || step.risk == "high" ==> c != Approved)
            && (env == "production" ==> c != Approved)
            && (!InScope(rb.scope.namespaces, env) ==> c == Blocked)
            && (step.action in rb.forbidden ==> c == Blocked)
            && (step.action == "delete" && HasRisk(rb.remediation, "high") ==> c == Blocked)
            && (c == Approved <==>
                  && step.risk != "medium" && step.risk != "high" && env != "production"
                  && InScope(rb.scope.namespaces, env) && step.action !in rb.forbidden
                  && !(step.action == "delete" && HasRisk(rb.remediation, "high"))
                  && ((step.risk == "low" && step.autoApprove) || runbook.rollback != []))
  {
    var step := rb.remediation[i];
    RiskLoopsAgree(rb);
    assert step.risk == "high" ==> HasRisk(rb.remediation, "high");
    assert step.risk == "medium" ==> HasRisk(rb.remediation, "medium");
    assert forall r :: r in ["medium", "high"] || r in ["high"] ==> r == "medium" || r == "high";
  }

  predicate Harmless(rb: ParsedRunbook, step: ParsedStep) {
    step.risk != "medium" && step.risk != "high" && step.action !in rb.forbidden
  }

  /** For every text that compiles, its whole plan is approved under its own policy exactly when the namespace is
      in scope and not production and no step is of medium or high risk or forbidden. */
  lemma CompiledPlanExact(text: string, alertName: string, env: string)
    requires Parse(text).Ok?
    ensures var rb := Parse(text).value;
            AllApproved(ToRunbook(alertName, rb), PolicyFor(rb), env)
            <==> (rb.remediation == []
                  || (env != "production" && InScope(rb.scope.namespaces, env)
                      && forall i :: 0 <= i < |rb.remediation| ==> Harmless(rb, rb.remediation[i])))
  {
    hide PolicyFor, Parse, ClassOf;
    var rb := Parse(text).value;
    var runbook := ToRunbook(alertName, rb);
    ParseIsNormal(text);
    assert |runbook.rollback| == |rb.rollback| > 0;
    forall i | 0 <= i < |rb.remediation|
      ensures ClassOf(runbook.remediation[i], PolicyFor(rb), runbook, env) == Approved ==>
                Harmless(rb, rb.remediation[i]) && env != "production" && InScope(rb.scope.namespaces, env)
      ensures (forall k :: 0 <= k < |rb.remediation| ==> Harmless(rb, rb.remediation[k]))
              && env != "production" && InScope(rb.scope.namespaces, env) ==>
                ClassOf(runbook.remediation[i], PolicyFor(rb), runbook, env) == Approved
    {
      CompiledClass(rb, i, runbook, env);
    }
    if AllApproved(runbook, PolicyFor(rb), env) && rb.remediation != [] {
      assert ClassOf(runbook.remediation[0], PolicyFor(rb), runbook, env) == Approved;
    }
  }

  /** Reconciling with a compiled runbook and its own policy: once anything is executed, every step of the plan is
      harmless, the incident is in scope and outside production. */
  lemma CompiledRunSafety(text: string, alertName: string, w: World, oracle: Oracle, id: string)
    requires Parse(text).Ok? && id in w.store.incidents
    ensures var rb := Parse(text).value;
            var cfg := Config([ToRunbook(alertName, rb)], PolicyFor(rb), oracle);
            var (w', r) := Reconciled(w, cfg, id);
            var env := w.store.incidents[id].ns;
            w'.calls != w.calls ==>
              && env != "production" && InScope(rb.scope.namespaces, env)
              && (forall i :: 0 <= i < |rb.remediation| ==> Harmless(rb, rb.remediation[i]))
              && w.calls <= w'.calls && w'.calls[|w.calls|..] <= ToSteps(rb.remediation)
  {
    var rb := Parse(text).value;
    var runbook := ToRunbook(alertName, rb);
    var inc := w.store.incidents[id];
    RunSafety(w, Config([runbook], PolicyFor(rb), oracle), id);
    CompiledPlanExact(text, alertName, inc.ns);
    assert [runbook][1..] == [];
    assert MatchRunbook([runbook], inc.alertName, inc.severity) in {None, Some(runbook)};
  }

  /** The repository's own executor as the reconciler's. */
  function ExecutorOracle(failAction: string): Oracle {
    (calls: seq<RemediationStep>, step: RemediationStep, inc: Incident) => !Fails(failAction, step)
  }

  predicate Resolves(rb: ParsedRunbook, failAction: string, env: string) {
    rb.remediation == []
    || (&& env != "production" && (rb.scope.namespaces == [] || env in rb.scope.namespaces)
        && forall i | 0 <= i < |rb.remediation| ::
             var step := rb.remediation[i];
             && step.risk != "medium" && step.risk != "high" && step.action !in rb.forbidden
             && (step.action == "restart" || step.action == "scale" || step.action == "rollback")
             && (failAction == "" || step.action != failAction))
  }

  /** With the repository's executor, exactly when reconciling an incident with a compiled text ends in Resolved:
      alert and severity match, the plan is approved, and it holds only actions that the executor knows and was not
      told to fail. */
  lemma CompiledResolvesExactly(text: string, alertName: string, w: World, failAction: string, id: string)
    requires Parse(text).Ok? && id in w.store.incidents
    ensures var rb, inc := Parse(text).value, w.store.incidents[id];
            var cfg := Config([ToRunbook(alertName, rb)], PolicyFor(rb), ExecutorOracle(failAction));
            var (w', r) := Reconciled(w, cfg, id);
            && id in w'.store.incidents
            && (w'.store.incidents[id].phase == PhaseResolved
                <==> inc.alertName == alertName && inc.severity in rb.severity && Resolves(rb, failAction, inc.ns))
  {
    hide Reconciled, Parse, Plan, MatchRunbook, ClassOf, PolicyFor, AllApproved, ExecutorOracle;
    var rb, inc := Parse(text).value, w.store.incidents[id];
    var runbook, oracle := ToRunbook(alertName, rb), ExecutorOracle(failAction);
    RunSafety(w, Config([runbook], PolicyFor(rb), oracle), id);
    CompiledPlanExact(text, alertName, inc.ns);
    OnlyMatch(runbook, inc);
    OracleOnPlan(rb, runbook, w.calls, inc.(phase := PhaseExecuting), failAction);
  }

  lemma OnlyMatch(runbook: Runbook, inc: Incident)
    ensures MatchRunbook([runbook], inc.alertName, inc.severity)
         == if Matches(runbook, inc.alertName, inc.severity) then Some(runbook) else None
  {
    assert [runbook][1..] == [];
  }

  lemma OracleOnPlan(rb: ParsedRunbook, runbook: Runbook, calls: seq<RemediationStep>, inc: Incident,
                     failAction: string)
    requires runbook.remediation == ToSteps(rb.remediation)
    ensures (forall i :: 0 <= i < |runbook.remediation| ==>
               ExecutorOracle(failAction)(calls + runbook.remediation[..i], runbook.remediation[i], inc))
            <==> forall i | 0 <= i < |rb.remediation| :: !Fails(failAction, ToStep(rb.remediation[i]))
  {
    forall i | 0 <= i < |rb.remediation|
      ensures ExecutorOracle(failAction)(calls + runbook.remediation[..i], runbook.remediation[i], inc)
              <==> !Fails(failAction, ToStep(rb.remediation[i]))
    {}
    if forall i :: 0 <= i < |runbook.remediation| ==>
         ExecutorOracle(failAction)(calls + runbook.remediation[..i], runbook.remediation[i], inc)
    {
      forall i | 0 <= i < |rb.remediation| ensures !Fails(failAction, ToStep(rb.remediation[i])) {
        assert ExecutorOracle(failAction)(calls + runbook.remediation[..i], runbook.remediation[i], inc);
      }
    }
  }
}
