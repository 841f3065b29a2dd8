/** From a risk decision to a dry-run: what a plan built from a decision needs to pass. */
module ApprovalFlow {

  import opened JsonValues
  import opened ChangePlans
  import opened ChangeChecks
  import opened TextTools
  import opened Basics
  import Approvals

  /** The risk decision, with the incident's scope; a missing text is "". */
  datatype RiskDecision = RiskDecision(
    incidentId: string,
    action: string,
    riskLevel: string,
    toolName: string,
    serviceName: string,
    environment: string,
    reason: string,
    inputArgs: Args,
    stepId: string,
    policyVersion: string)

  const DEFAULT_ACTION := "人工确认后执行处置动作"
  const EXPIRES_IN_SECONDS := 3600

  function OrElse(text: string, fallback: string): string { if text == "" then fallback else text }

  function SafeRisk(text: string): Risk {
    if text == "low" then Low else if text == "high" then High else Medium
  }

  predicate FoundAt(text: string, token: string, i: nat) { i + |token| <= |text| && text[i..i + |token|] == token }

  predicate Contains(text: string, token: string) { exists i: nat | i <= |text| :: FoundAt(text, token, i) }

  predicate ContainsAny(text: string, tokens: seq<string>) {
    exists i :: 0 <= i < |tokens| && Contains(text, tokens[i])
  }

  const MYSQL_TOKENS := ["mysql", "sql", "慢查询", "连接池", "索引", "数据库", "threads_running", "slow query"]

  function InferActionType(text: string): string {
    if ContainsAny(text, ["redis", "maxclients"]) then "redis_config_change"
    else if ContainsAny(text, MYSQL_TOKENS) then "database_change"
    else if ContainsAny(text, ["restart", "重启"]) then "service_restart"
    else if ContainsAny(text, ["scale", "扩缩容", "扩容"]) then "capacity_change"
    else if ContainsAny(text, ["rollback", "回滚"]) then "release_rollback"
    else "manual_change"
  }

  /** The identifiers and texts that are generated around a plan. */
  datatype Generated = Generated(
    planId: string, stepId: string, rollbackId: string, approvalId: string,
    context: string, executionSteps: seq<string>, rollbackSteps: seq<string>, observeMetrics: seq<string>,
    notes: string,
    createdAt: real)

  function BuildChangePlan(d: RiskDecision, g: Generated): ChangePlan {
    var risk := SafeRisk(d.riskLevel);
    var action := OrElse(d.action, DEFAULT_ACTION);
    var service := OrElse(d.serviceName, "unknown-service");
    var environment := OrElse(d.environment, "unknown");
    var rollback := ChangeStep(
      g.rollbackId, "manual_rollback", service, MANUAL_CHANGE_RECORD,
      map["source_action" := Str(action), "environment" := Str(environment)],
      risk, true, true, "", "");
    var execution := ChangeStep(
      g.stepId, InferActionType(g.context), service, OrElse(d.toolName, MANUAL_CHANGE_RECORD),
      d.inputArgs["action" := Str(action)]["service_name" := Str(service)]["environment" := Str(environment)],
      risk, true, true, g.rollbackId, "");
    ChangePlan(
      g.planId, d.incidentId, action, risk, Draft, g.executionSteps, g.rollbackSteps,
      [execution], [rollback], g.observeMetrics, EXPIRES_IN_SECONDS, g.createdAt,
      PlanMetadata(d.stepId, d.toolName, d.policyVersion, service, environment, Some(d.inputArgs), false),
      g.notes)
  }

  function CreateApprovalRequest(d: RiskDecision, plan: ChangePlan, g: Generated): ApprovalRequest {
    ApprovalRequest(
      g.approvalId, d.incidentId, d.action, SafeRisk(d.riskLevel), Pending, d.stepId, d.toolName, d.policyVersion,
      Some(plan), Of(plan), Some(d.inputArgs), {}, EXPIRES_IN_SECONDS, g.createdAt, None, "")
  }

  /** The request as it stands after it was stored and approved at `at`. */
  function Approved(d: RiskDecision, g: Generated, at: real, actor: string): ApprovalRequest {
    Approvals.Decided(CreateApprovalRequest(d, BuildChangePlan(d, g), g), ApprovalStatus.Approved, at, actor)
  }

  predicate Complete(d: RiskDecision) {
    d.action != "" && d.stepId != "" && d.toolName != "" && d.policyVersion == RISK_POLICY_VERSION
  }

  /** The groups of words that name an action type, the first group that occurs deciding. */
  const ACTION_GROUPS: seq<(seq<string>, string)> := [
    (["redis", "maxclients"], "redis_config_change"),
    (["mysql", "sql", "慢查询", "连接池", "索引", "数据库", "threads_running", "slow query"], "database_change"),
    (["restart", "重启"], "service_restart"),
    (["scale", "扩缩容", "扩容"], "capacity_change"),
    (["rollback", "回滚"], "release_rollback")]

  /** Some word of the group stands somewhere in the text. */
  ghost predicate Occurs(text: string, words: seq<string>) {
    exists i, front, back :: 0 <= i < |words| && text == front + words[i] + back
  }

  lemma OccursIff(text: string, words: seq<string>)
    ensures ContainsAny(text, words) <==> Occurs(text, words)
  {
    if ContainsAny(text, words) {
      var i :| 0 <= i < |words| && Contains(text, words[i]);
      var at: nat :| at <= |text| && FoundAt(text, words[i], at);
      assert text == text[..at] + words[i] + text[at + |words[i]|..];
    }
    if Occurs(text, words) {
      var i, front, back :| 0 <= i < |words| && text == front + words[i] + back;
      assert FoundAt(text, words[i], |front|) && Contains(text, words[i]);
    }
  }

  ghost predicate FirstGroup(text: string, k: nat) {
    && k < |ACTION_GROUPS| && Occurs(text, ACTION_GROUPS[k].0)
    && forall j :: 0 <= j < k ==> !Occurs(text, ACTION_GROUPS[j].0)
  }

  /** The inferred action type is that of the first group a word of which occurs, and a manual change
      when none does. */
  lemma InferredIs(text: string)
    ensures forall k: nat :: FirstGroup(text, k) ==> InferActionType(text) == ACTION_GROUPS[k].1
    ensures (forall k :: 0 <= k < |ACTION_GROUPS| ==> !Occurs(text, ACTION_GROUPS[k].0)) ==>
              InferActionType(text) == "manual_change"
  {
    var groups := ACTION_GROUPS;
    OccursIff(text, groups[0].0);
    OccursIff(text, groups[1].0);
    OccursIff(text, groups[2].0);
    OccursIff(text, groups[3].0);
    OccursIff(text, groups[4].0);
  }

  /** The plan and its request say what the decision says: an unknown risk counts as medium, and a
      missing action, service or environment is named so. */
  lemma PlanSays(d: RiskDecision, g: Generated)
    ensures
      var plan := BuildChangePlan(d, g);
      var request := CreateApprovalRequest(d, plan, g);
      && |plan.steps| == 1 && |plan.rollbackPlan| == 1
      && (plan.risk == Low <==> d.riskLevel == "low") && (plan.risk == High <==> d.riskLevel == "high")
      && plan.steps[0].risk == plan.rollbackPlan[0].risk == request.risk == plan.risk
      && (d.action != "" ==> plan.action == d.action)
      && (d.serviceName != "" ==> plan.steps[0].target == plan.rollbackPlan[0].target == d.serviceName)
      && (d.environment != "" ==> plan.metadata.environment == d.environment)
      && plan.steps[0].actionType == InferActionType(g.context)
      && plan.steps[0].toolName == (if d.toolName == "" then "manual_change_record" else d.toolName)
      && plan.steps[0].inputArgs.Keys == d.inputArgs.Keys + {"action", "service_name", "environment"}
      && (forall k :: k in d.inputArgs && k !in {"action", "service_name", "environment"} ==>
            plan.steps[0].inputArgs[k] == d.inputArgs[k])
      && plan.rollbackPlan[0].actionType == "manual_rollback" && plan.rollbackPlan[0].toolName == "manual_change_record"
      && plan.rollbackPlan[0].inputArgs
           == map["source_action" := Str(plan.action), "environment" := Str(plan.metadata.environment)]
      && plan.steps[0].requiresApproval && plan.steps[0].canDryRun
      && plan.rollbackPlan[0].requiresApproval && plan.rollbackPlan[0].canDryRun
      && plan.incidentId == request.incidentId == d.incidentId && plan.status == Draft && request.status == Pending
      && request.plan == Some(plan) && request.inputArgs == plan.metadata.approvedInputArgs == Some(d.inputArgs)
  {
  }

  lemma InferredActionAllowed(text: string)
    ensures InferActionType(text) in DRY_RUN_ACTIONS
  {
  }

  lemma ApprovalIsStorable(d: RiskDecision, g: Generated, at: real, actor: string)
    ensures
      var request := CreateApprovalRequest(d, BuildChangePlan(d, g), g);
      && Approvals.WithPlanFingerprint(request) == Some(request)
      && (!ApprovalExpired(request, at) ==>
            Approvals.Resolve(request, Approvals.Approve, at, actor) == Some(Approved(d, g, at, actor)))
  {
  }

  /** The one step of the plan stays in scope whatever the decision says, as long as it names a tool. */
  lemma BuiltStepInScope(d: RiskDecision, g: Generated, at: real, actor: string)
    requires d.toolName != ""
    ensures
      var plan := Approved(d, g, at, actor).plan.value;
      InScope(plan, d.inputArgs, plan.steps[0])
  {
    var plan := Approved(d, g, at, actor).plan.value;
    assert IsLast(plan.rollbackPlan, plan.steps[0].rollbackStepId, 0);
    assert HasRollback(plan, plan.steps[0]);
  }

  /** An approved decision passes the pre-check exactly when it names an action, a step and a tool,
      carries the current policy version, and the plan is at most an hour old. */
  lemma PreCheckIff(d: RiskDecision, g: Generated, at: real, actor: string, now: real)
    ensures
      var approval := Approved(d, g, at, actor);
      PreCheckHolds(Checked(approval, approval.plan.value, now)) <==> Complete(d) && now - g.createdAt <= 3600.0
  {
    var approval := Approved(d, g, at, actor);
    var plan := approval.plan.value;
    assert Bound(Checked(approval, plan, now)) <==> Complete(d) && now - g.createdAt <= 3600.0;
    if d.toolName != "" {
      BuiltStepInScope(d, g, at, actor);
    }
  }

  /** It then passes the dry-run exactly when the tool is one of two, the service name has no space
      around it, and the environment has a name other than "unknown". */
  lemma DryRunIff(d: RiskDecision, g: Generated, at: real, actor: string, now: real, ids: nat -> string,
                  render: Json -> string)
    requires Complete(d) && now - g.createdAt <= 3600.0
    ensures
      var plan := Approved(d, g, at, actor).plan.value;
      DryRunHolds(plan, PlanSteps(plan, ids), render) <==>
        && d.toolName in {"manual_change_record", "suggest_remediation"}
        && Trimmed(d.serviceName)
        && NormalizeEnvironment(d.environment) !in {"", "unknown"}
  {
    var approval := Approved(d, g, at, actor);
    var plan := approval.plan.value;
    PreCheckIff(d, g, at, actor, now);
    DryRunAfterPreCheck(Checked(approval, plan, now), ids, render);
    InferredActionAllowed(g.context);
    var service := OrElse(d.serviceName, "unknown-service");
    StripFixes(service);
    assert Trimmed(service) <==> Trimmed(d.serviceName);
    EnvironmentDefaults(d.environment);
    assert plan.steps[0].target == service && plan.steps[0].canDryRun && plan.steps[0].actionType in DRY_RUN_ACTIONS;
  }

  /** An absent environment becomes "unknown", which the dry-run refuses like an empty one. */
  lemma EnvironmentDefaults(environment: string)
    ensures NormalizeEnvironment(OrElse(environment, "unknown")) !in {"", "unknown"} <==>
            NormalizeEnvironment(environment) !in {"", "unknown"}
  {
    if environment == "" {
      StripFixes("unknown");
      assert Strip("unknown") == "unknown";
      assert Lower("unknown") == "unknown";
      assert Strip("") == "" && Lower("") == "";
    }
  }
}
