/** The entities shared by the services (shared/types). */
module Types {

  datatype Phase =
    | PhasePending | PhaseAnalyzing | PhaseRequiresApproval | PhaseExecuting
    | PhaseResolved | PhaseFailed | PhaseRejected

  datatype Incident = Incident(alertName: string, severity: string, ns: string, workload: string, phase: Phase)

  datatype RemediationStep = RemediationStep(name: string, action: string, target: string, risk: string,
                                             autoApprove: bool)

  /** A runbook as the reconciler sees it; its diagnosis steps play no part there. */
  datatype Runbook = Runbook(alertName: string, severity: seq<string>,
                             remediation: seq<RemediationStep>, rollback: seq<RemediationStep>)

  datatype Scope = Scope(ns: seq<string>, resources: seq<string>)

  datatype BlastRadius = BlastRadius(maxPodsAffected: int, maxNamespacesAffected: int, forbidDelete: bool)

  datatype ApprovalConfig = ApprovalConfig(requireApprovalFor: seq<string>, approvers: seq<string>, timeoutMinutes: int)

  datatype Policy = Policy(scope: Scope, blastRadius: BlastRadius, approval: ApprovalConfig, forbidden: seq<string>)
}
