/** From parsed runbook to policy (services/operator/internal/compiler/policy_generator.go) and back. */
module PolicyGenerator {
  import opened Text
  import opened RunbookParser
  import opened NormalForm
  import opened Types

  predicate HasRisk(steps: seq<ParsedStep>, risk: string) {
    exists i :: 0 <= i < |steps| && steps[i].risk == risk
  }

  /** The policy in terms of which risks occur, whatever their order. */
  function PolicyFor(rb: ParsedRunbook): Policy {
    var high, medium := HasRisk(rb.remediation, "high"), HasRisk(rb.remediation, "medium");
    Policy(
      Scope(rb.scope.namespaces, rb.scope.resources),
      if high then BlastRadius(3, 1, true)
      else if medium then BlastRadius(5, 1, false)
      else BlastRadius(10, 2, false),
      ApprovalConfig(if high || medium then ["medium", "high"] else ["high"], [], 30),
      rb.forbidden)
  }

  method GeneratePolicy(rb: ParsedRunbook) returns (policy: Policy)
    ensures policy == PolicyFor(rb)
    ensures policy.scope.ns == rb.scope.namespaces && policy.scope.resources == rb.scope.resources
    ensures policy.forbidden == rb.forbidden
    ensures policy.approval.approvers == [] && policy.approval.timeoutMinutes == 30
    ensures (exists i | 0 <= i < |rb.remediation| :: rb.remediation[i].risk == "high") ==>
      policy.blastRadius == BlastRadius(3, 1, true) && policy.approval.requireApprovalFor == ["medium", "high"]
    ensures (&& (forall i | 0 <= i < |rb.remediation| :: rb.remediation[i].risk != "high")
             && (exists i | 0 <= i < |rb.remediation| :: rb.remediation[i].risk == "medium")) ==>
      policy.blastRadius == BlastRadius(5, 1, false) && policy.approval.requireApprovalFor == ["medium", "high"]
    ensures (forall i | 0 <= i < |rb.remediation| ::
               rb.remediation[i].risk != "high" && rb.remediation[i].risk != "medium") ==>
      policy.blastRadius == BlastRadius(10, 2, false) && policy.approval.requireApprovalFor == ["high"]
  {
    var maxRisk := "low";
    for i := 0 to |rb.remediation|
      invariant maxRisk in ["low", "medium", "high"]
      invariant maxRisk == "high" <==> HasRisk(rb.remediation[..i], "high")
      invariant maxRisk == "low" <==> !HasRisk(rb.remediation[..i], "high") && !HasRisk(rb.remediation[..i], "medium")
    {
      var step := rb.remediation[i];
      HasRiskSnoc(rb.remediation, i, "high");
      HasRiskSnoc(rb.remediation, i, "medium");
      if step.risk == "high" {
        maxRisk := "high";
      } else if step.risk == "medium" && maxRisk != "high" {
        maxRisk := "medium";
      }
    }
    assert rb.remediation[..|rb.remediation|] == rb.remediation;
    var blastRadius := match maxRisk {
      case "high" => BlastRadius(3, 1, true)
      case "medium" => BlastRadius(5, 1, false)
      case _ => BlastRadius(10, 2, false)
    };

    var hasHighRisk := false;
    var j := 0;
    while j < |rb.remediation|
      invariant 0 <= j <= |rb.remediation|
      invariant !hasHighRisk
      invariant forall k :: 0 <= k < j ==> rb.remediation[k].risk != "high" && rb.remediation[k].risk != "medium"
    {
      if rb.remediation[j].risk == "high" || rb.remediation[j].risk == "medium" {
        hasHighRisk := true;
        break;
      }
      j := j + 1;
    }
    var approval := ApprovalConfig(if hasHighRisk then ["medium", "high"] else ["high"], [], 30);
    return Policy(Scope(rb.scope.namespaces, rb.scope.resources), blastRadius, approval, rb.forbidden);
  }

  lemma HasRiskSnoc(steps: seq<ParsedStep>, i: nat, risk: string)
    requires i < |steps|
    ensures HasRisk(steps[..i + 1], risk) <==> HasRisk(steps[..i], risk) || steps[i].risk == risk
  {
    if HasRisk(steps[..i], risk) {
      var k :| 0 <= k < i && steps[..i][k].risk == risk;
      assert steps[..i + 1][k].risk == risk;
    }
    if steps[i].risk == risk { assert steps[..i + 1][i].risk == risk; }
  }

  /** The two risk loops agree: medium risk needs approval exactly when the blast radius is below the default. */
  lemma RiskLoopsAgree(rb: ParsedRunbook)
    ensures var p := PolicyFor(rb);
            ("medium" in p.approval.requireApprovalFor <==> p.blastRadius != BlastRadius(10, 2, false))
            && "high" in p.approval.requireApprovalFor
            && (p.blastRadius.forbidDelete <==> HasRisk(rb.remediation, "high"))
  {
    assert "high" in ["medium", "high"] && "medium" in ["medium", "high"] && "medium" !in ["high"] by {
      assert ["medium", "high"][0] == "medium" && ["medium", "high"][1] == "high";
    }
  }

  /** Reordering the steps does not change the policy. */
  lemma OrderIndependent(rb: ParsedRunbook, steps: seq<ParsedStep>)
    requires multiset(steps) == multiset(rb.remediation)
    ensures PolicyFor(rb.(remediation := steps)) == PolicyFor(rb)
  {
    SameRisks(steps, rb.remediation, "high");
    SameRisks(steps, rb.remediation, "medium");
  }

  lemma SameRisks(a: seq<ParsedStep>, b: seq<ParsedStep>, risk: string)
    requires multiset(a) == multiset(b)
    ensures HasRisk(a, risk) <==> HasRisk(b, risk)
  {
    if i :| 0 <= i < |a| && a[i].risk == risk {
      assert a[i] in multiset(b);
    }
    if i :| 0 <= i < |b| && b[i].risk == risk {
      assert b[i] in multiset(a);
    }
  }

  // ---------------------------------------------------------------- requirement 1.5

  /** A runbook that compiles to a given policy: one remediation step that carries the policy's risk. */
  function RunbookOf(p: Policy): ParsedRunbook {
    var risk := if p.blastRadius.forbidDelete then "high"
                else if p.blastRadius.maxPodsAffected == 5 then "medium"
                else "low";
    ParsedRunbook("Policy", RunbookScope(p.scope.ns, p.scope.resources), [], [], p.forbidden, [],
                  [NewStep("Remediate").(risk := risk)], [NewStep("Undo")])
  }

  function PolicyToMarkdown(p: Policy): string { Render(RunbookOf(p)) }

  lemma PolicyOfRunbookOf(rb: ParsedRunbook)
    ensures PolicyFor(RunbookOf(PolicyFor(rb))) == PolicyFor(rb)
  {
    var p := PolicyFor(rb);
    var step := RunbookOf(p).remediation[0];
    assert RunbookOf(p).remediation == [step];
    forall risk ensures HasRisk([step], risk) <==> step.risk == risk {
      if step.risk == risk { assert [step][0].risk == risk; }
    }
  }

  /** A policy compiled from a text, converted back to Markdown and compiled again, is the same policy;
      so is the one compiled from the printed runbook. */
  lemma PolicyRoundTrip(text: string)
    ensures Parse(text).Ok? ==>
              var policy := PolicyFor(Parse(text).value);
              && Parse(PolicyToMarkdown(policy)).Ok?
              && PolicyFor(Parse(PolicyToMarkdown(policy)).value) == policy
              && Parse(Render(Parse(text).value)).Ok?
              && PolicyFor(Parse(Render(Parse(text).value)).value) == policy
  {
    if Parse(text).Ok? {
      var rb := Parse(text).value;
      ParseIsNormal(text);
      RoundTrip(rb);
      RunbookOfNormal(rb);
      RoundTrip(RunbookOf(PolicyFor(rb)));
      PolicyOfRunbookOf(rb);
    }
  }

  lemma FixedTexts()
    ensures LineRest("Remediate") && LineRest("Undo") && '\n' !in "Policy"
    ensures Clean("high") && Clean("medium") && Clean("low") && Clean("")
  {}

  lemma OneStepNormal(name: string, risk: string)
    requires LineRest(name) && Clean(risk) && Clean("")
    ensures NormalSteps([NewStep(name).(risk := risk)]) && NormalSteps([NewStep(name)])
  {}

  lemma RunbookOfNormal(rb: ParsedRunbook)
    requires Normal(rb)
    ensures Normal(RunbookOf(PolicyFor(rb)))
  {
    var r := RunbookOf(PolicyFor(rb));
    FixedTexts();
    OneStepNormal("Remediate", r.remediation[0].risk);
    OneStepNormal("Undo", "");
  }
}
