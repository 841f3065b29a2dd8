/** Change plans, approval requests, and the digest that binds one to the other. */
module ChangePlans {

  import opened JsonValues
  import opened Basics

  datatype Risk = Low | Medium | High

  datatype PlanStatus = Draft | PlanApproved | PlanRejected | PlanCancelled

  type Args = map<string, Json>

  datatype ChangeStep = ChangeStep(
    stepId: string,
    actionType: string,
    target: string,
    toolName: string,
    inputArgs: Args,
    risk: Risk,
    requiresApproval: bool,
    canDryRun: bool,
    rollbackStepId: string,   // "" when there is none
    expectedResult: string)

  /** The metadata fields the checks read; a missing text is "". */
  datatype PlanMetadata = PlanMetadata(
    stepId: string,
    toolName: string,
    policyVersion: string,
    serviceName: string,
    environment: string,
    approvedInputArgs: Option<Args>,
    dryRunShouldFail: bool)

  datatype ChangePlan = ChangePlan(
    changePlanId: string,
    incidentId: string,
    action: string,
    risk: Risk,
    status: PlanStatus,
    executionSteps: seq<string>,
    rollbackSteps: seq<string>,
    steps: seq<ChangeStep>,
    rollbackPlan: seq<ChangeStep>,
    observeMetrics: seq<string>,
    expiresInSeconds: int,
    createdAt: real,
    metadata: PlanMetadata,
    notes: string)

  /** The digest of a plan's canonical text, taken as injective; `Missing` is the absent one. */
  datatype Fingerprint = Missing | Of(plan: ChangePlan)

  datatype ApprovalStatus = Pending | Approved | Rejected | Cancelled

  datatype ApprovalRequest = ApprovalRequest(
    approvalId: string,
    incidentId: string,
    action: string,
    risk: Risk,
    status: ApprovalStatus,
    stepId: string,           // "" when there is none
    toolName: string,         // "" when there is none
    policyVersion: string,
    plan: Option<ChangePlan>,
    fingerprint: Fingerprint,
    inputArgs: Option<Args>,
    projectionPending: set<string>,
    expiresInSeconds: int,
    createdAt: real,
    decidedAt: Option<real>,
    decidedBy: string)

  const RISK_POLICY_VERSION := "2026-07-21.1"

  function Max(a: int, b: int): int { if a < b then b else a }

  predicate ApprovalExpired(r: ApprovalRequest, now: real) {
    now - r.createdAt > r.expiresInSeconds as real
  }

  predicate PlanExpired(plan: ChangePlan, now: real) {
    now - plan.createdAt > Max(plan.expiresInSeconds, 1) as real
  }
}
