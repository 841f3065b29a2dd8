/** The pre-check and the dry-run of an approved change plan. */
module ChangeChecks {

  import opened JsonValues
  import opened ChangePlans
  import opened Basics
  import opened TextTools

  // ----------------------------------------------------------------------- plan steps

  const MANUAL_CHANGE_RECORD := "manual_change_record"

  /** The steps of a plan; a plan without structured steps gets one per line of text.  `ids` names
      the steps made here. */
  function PlanSteps(plan: ChangePlan, ids: nat -> string): seq<ChangeStep> {
    if plan.steps != [] then plan.steps
    else
      seq(|plan.executionSteps|, i requires 0 <= i < |plan.executionSteps| =>
        ChangeStep(ids(i), "manual_change", plan.metadata.serviceName,
                   if plan.metadata.toolName == "" then MANUAL_CHANGE_RECORD else plan.metadata.toolName,
                   map["description" := Str(plan.executionSteps[i])],
                   plan.risk, true, true, "", ""))
  }

  /** The arguments every step must carry: the approved ones, overridden by the three scope fields. */
  function ScopedArgs(approved: Args, plan: ChangePlan): Args {
    approved["action" := Str(plan.action)]
            ["service_name" := Str(plan.metadata.serviceName)]
            ["environment" := Str(plan.metadata.environment)]
  }

  /** The text of a step's environment argument. */
  function StepEnvironment(step: ChangeStep, render: Json -> string): string {
    TextOf(Field(step.inputArgs, "environment"), render)
  }

  // ------------------------------------------------------------------------- rollbacks

  /** The dictionary of rollback steps by identifier: a later step replaces an earlier one. */
  function RollbacksById(rollbacks: seq<ChangeStep>): map<string, ChangeStep> {
    if rollbacks == [] then map[]
    else
      var last := rollbacks[|rollbacks| - 1];
      RollbacksById(rollbacks[..|rollbacks| - 1])[last.stepId := last]
  }

  /** Position `k` is the last in the rollback plan that has the identifier. */
  predicate IsLast(rollbacks: seq<ChangeStep>, id: string, k: nat) {
    k < |rollbacks| && rollbacks[k].stepId == id && forall j :: k < j < |rollbacks| ==> rollbacks[j].stepId != id
  }

  lemma {:induction false} RollbackFound(rollbacks: seq<ChangeStep>, id: string)
    ensures id in RollbacksById(rollbacks) <==> exists k: nat :: IsLast(rollbacks, id, k)
    ensures forall k: nat :: IsLast(rollbacks, id, k) ==>
                               id in RollbacksById(rollbacks) && RollbacksById(rollbacks)[id] == rollbacks[k]
  {
    if rollbacks != [] {
      var n := |rollbacks| - 1;
      var init := rollbacks[..n];
      RollbackFound(init, id);
      assert forall k: nat :: k < n ==> init[k] == rollbacks[k];
      if rollbacks[n].stepId == id {
        assert IsLast(rollbacks, id, n);
      } else {
        forall k: nat ensures IsLast(rollbacks, id, k) <==> IsLast(init, id, k) {
          assert k < n ==> init[k] == rollbacks[k];
        }
      }
    } else {
      assert forall k: nat :: !IsLast(rollbacks, id, k);
    }
  }

  // -------------------------------------------------------------------------- pre-check

  datatype CheckItem =
    | IncidentMatches | FingerprintMatches | ActionMatches | StepIdMatches | ToolMatches
    | PolicyIsCurrent | ApprovalIsApproved | PlanIsApproved | RiskMatches
    | ArgsSnapshotMatches | StepArgsMatch | HasSteps | StepRisksMatch | StepsNeedApproval
    | StepToolsMatch | StepTargetsMatch | StepEnvironmentsMatch | NotExpired | HighRiskHasRollback
    | RollbacksLinked | RollbacksBounded

  datatype Checked = Checked(approval: ApprovalRequest, plan: ChangePlan, now: real)

  predicate Linked(plan: ChangePlan, step: ChangeStep) { step.rollbackStepId in RollbacksById(plan.rollbackPlan) }

  predicate Bounded(plan: ChangePlan, step: ChangeStep) {
    && Linked(plan, step)
    && var rollback := RollbacksById(plan.rollbackPlan)[step.rollbackStepId];
    && rollback.target == step.target && rollback.risk == step.risk && rollback.requiresApproval
  }

  /** The checks on the approval and the plan as a whole. */
  predicate MeetsBinding(item: CheckItem, c: Checked) {
    var approval, plan, meta := c.approval, c.plan, c.plan.metadata;
    match item
    case IncidentMatches => approval.incidentId == plan.incidentId
    case FingerprintMatches => approval.fingerprint != Missing && approval.fingerprint == Of(plan)
    case ActionMatches => approval.action == plan.action
    case StepIdMatches => approval.stepId != "" && meta.stepId != "" && approval.stepId == meta.stepId
    case ToolMatches => approval.toolName != "" && meta.toolName != "" && approval.toolName == meta.toolName
    case PolicyIsCurrent =>
      approval.policyVersion != "" && approval.policyVersion == RISK_POLICY_VERSION
      && meta.policyVersion == RISK_POLICY_VERSION
    case ApprovalIsApproved => approval.status == Approved
    case PlanIsApproved => plan.status == PlanApproved
    case RiskMatches => approval.risk == plan.risk
    case ArgsSnapshotMatches => approval.inputArgs.Some? && approval.inputArgs == meta.approvedInputArgs
    case NotExpired => !PlanExpired(plan, c.now)
    case HighRiskHasRollback => plan.risk != High || plan.rollbackSteps != [] || plan.rollbackPlan != []
    case _ => true
  }

  /** The checks on every step. */
  predicate MeetsSteps(item: CheckItem, c: Checked, steps: seq<ChangeStep>, render: Json -> string) {
    var approval, plan, meta := c.approval, c.plan, c.plan.metadata;
    match item
    case StepArgsMatch =>
      var expected := ScopedArgs(if approval.inputArgs.Some? then approval.inputArgs.value else map[], plan);
      steps != [] && forall i :: 0 <= i < |steps| ==> steps[i].inputArgs == expected
    case HasSteps => steps != []
    case StepRisksMatch => forall i :: 0 <= i < |steps| ==> steps[i].risk == plan.risk
    case StepsNeedApproval => forall i :: 0 <= i < |steps| ==> steps[i].requiresApproval
    case StepToolsMatch => forall i :: 0 <= i < |steps| ==> steps[i].toolName == meta.toolName
    case StepTargetsMatch =>
      meta.serviceName == "" || forall i :: 0 <= i < |steps| ==>
                                              steps[i].target == "" || steps[i].target == meta.serviceName
    case StepEnvironmentsMatch =>
      forall i :: 0 <= i < |steps| ==>
        "environment" !in steps[i].inputArgs || !Truthy(steps[i].inputArgs["environment"])
        || StepEnvironment(steps[i], render) == meta.environment
    case RollbacksLinked => forall i :: 0 <= i < |plan.steps| ==> Linked(plan, plan.steps[i])
    case RollbacksBounded => forall i :: 0 <= i < |plan.steps| ==> Bounded(plan, plan.steps[i])
    case _ => true
  }

  predicate Meets(item: CheckItem, c: Checked, steps: seq<ChangeStep>, render: Json -> string) {
    MeetsBinding(item, c) && MeetsSteps(item, c, steps, render)
  }

  const BASE_ITEMS := [
    IncidentMatches, FingerprintMatches, ActionMatches, StepIdMatches, ToolMatches, PolicyIsCurrent,
    ApprovalIsApproved, PlanIsApproved, RiskMatches, ArgsSnapshotMatches, StepArgsMatch, HasSteps,
    StepRisksMatch, StepsNeedApproval, StepToolsMatch, StepTargetsMatch, StepEnvironmentsMatch,
    NotExpired, HighRiskHasRollback]

  function Items(plan: ChangePlan): seq<CheckItem> {
    BASE_ITEMS + if plan.risk == High && plan.steps != [] then [RollbacksLinked, RollbacksBounded] else []
  }

  function Having(items: seq<CheckItem>, keep: CheckItem -> bool): seq<CheckItem> {
    if items == [] then []
    else Having(items[..|items| - 1], keep) + if keep(items[|items| - 1]) then [items[|items| - 1]] else []
  }

  lemma {:induction false} HavingOnly(items: seq<CheckItem>, keep: CheckItem -> bool)
    ensures forall item :: item in Having(items, keep) <==> item in items && keep(item)
  {
    if items != [] {
      var init, last := items[..|items| - 1], items[|items| - 1];
      HavingOnly(init, keep);
      assert items == init + [last];
    }
  }

  /** Each check in order lands in one of two lists. */
  method RunChecks(items: seq<CheckItem>, met: CheckItem -> bool)
    returns (checked: seq<CheckItem>, failed: seq<CheckItem>)
    ensures checked == Having(items, met) && failed == Having(items, item => !met(item))
  {
    checked, failed := [], [];
    ghost var unmet := (item: CheckItem) => !met(item);
    var i := 0;
    while i < |items|
      invariant 0 <= i <= |items|
      invariant checked == Having(items[..i], met) && failed == Having(items[..i], unmet)
    {
      assert items[..i + 1][..i] == items[..i];
      if met(items[i]) {
        checked := checked + [items[i]];
      } else {
        failed := failed + [items[i]];
      }
      i := i + 1;
    }
    assert items[..|items|] == items;
  }

  lemma NothingFailed(items: seq<CheckItem>, failed: seq<CheckItem>, met: CheckItem -> bool)
    requires forall item :: item in failed <==> item in items && !met(item)
    ensures failed == [] <==> forall i :: 0 <= i < |items| ==> met(items[i])
  {
    if failed != [] {
      assert failed[0] in items && !met(failed[0]);
    }
  }

  /** The plan passes when no check failed, and that is when the approval binds it and every
      structured step stays in scope. */
  method BuildPreCheckResult(c: Checked, ids: nat -> string, render: Json -> string)
    returns (checked: seq<CheckItem>, failed: seq<CheckItem>)
    ensures checked == Having(Items(c.plan), item => Meets(item, c, PlanSteps(c.plan, ids), render))
    ensures forall item :: item in failed <==> item in Items(c.plan) && !Meets(item, c, PlanSteps(c.plan, ids), render)
    ensures failed == [] <==> PreCheckHolds(c)
  {
    var steps := PlanSteps(c.plan, ids);
    var met := (item: CheckItem) => Meets(item, c, steps, render);
    checked, failed := RunChecks(Items(c.plan), met);
    HavingOnly(Items(c.plan), item => !met(item));
    PassesIff(c, ids, render);
    assert met == (item => Meets(item, c, PlanSteps(c.plan, ids), render));
    NothingFailed(Items(c.plan), failed, met);
  }

  // --------------------------------------------------------------- what passing means

  /** The approval binds exactly this plan, current and approved, on both sides. */
  predicate Bound(c: Checked) {
    var approval, plan := c.approval, c.plan;
    && approval.fingerprint == Of(plan)
    && approval.incidentId == plan.incidentId && approval.action == plan.action && approval.risk == plan.risk
    && approval.stepId == plan.metadata.stepId != "" && approval.toolName == plan.metadata.toolName != ""
    && approval.policyVersion == plan.metadata.policyVersion == RISK_POLICY_VERSION
    && approval.status == Approved && plan.status == PlanApproved
    && !PlanExpired(plan, c.now)
    && approval.inputArgs.Some? && approval.inputArgs == plan.metadata.approvedInputArgs
  }

  /** One structured step stays inside what was approved. */
  predicate InScope(plan: ChangePlan, approved: Args, step: ChangeStep) {
    && step.inputArgs == ScopedArgs(approved, plan)
    && step.risk == plan.risk && step.requiresApproval && step.toolName == plan.metadata.toolName
    && (step.target == "" || plan.metadata.serviceName == "" || step.target == plan.metadata.serviceName)
    && (plan.risk == High ==> HasRollback(plan, step))
  }

  /** The last rollback step with the linked identifier has the step's own target and risk. */
  predicate HasRollback(plan: ChangePlan, step: ChangeStep) {
    exists k: nat | k < |plan.rollbackPlan| ::
      && IsLast(plan.rollbackPlan, step.rollbackStepId, k)
      && var rollback := plan.rollbackPlan[k];
      && rollback.target == step.target && rollback.risk == step.risk && rollback.requiresApproval
  }

  predicate PreCheckHolds(c: Checked) {
    && Bound(c) && c.plan.steps != []
    && forall i :: 0 <= i < |c.plan.steps| ==> InScope(c.plan, c.approval.inputArgs.value, c.plan.steps[i])
  }

  predicate Applies(item: CheckItem, plan: ChangePlan) {
    (item == RollbacksLinked || item == RollbacksBounded) ==> plan.risk == High && plan.steps != []
  }

  lemma ItemsAreAll(plan: ChangePlan, item: CheckItem)
    ensures item in Items(plan) <==> Applies(item, plan)
  {
    assert item in BASE_ITEMS <==> item != RollbacksLinked && item != RollbacksBounded;
  }

  lemma BoundedIff(plan: ChangePlan, step: ChangeStep)
    ensures Bounded(plan, step) <==> HasRollback(plan, step)
  {
    RollbackFound(plan.rollbackPlan, step.rollbackStepId);
  }

  /** A plan without structured steps never passes: the arguments of the steps made for it have no
      scope fields. */
  lemma UnstructuredFails(c: Checked, ids: nat -> string, render: Json -> string)
    requires c.plan.steps == []
    ensures !Meets(StepArgsMatch, c, PlanSteps(c.plan, ids), render)
  {
    var steps := PlanSteps(c.plan, ids);
    if steps != [] {
      var expected := ScopedArgs(if c.approval.inputArgs.Some? then c.approval.inputArgs.value else map[], c.plan);
      assert "action" in expected && "action" !in steps[0].inputArgs;
    }
  }

  /** Whether every check is met comes down to the approval binding the plan and every structured
      step staying in scope; what the other checks ask follows. */
  lemma PassesIff(c: Checked, ids: nat -> string, render: Json -> string)
    ensures (forall i :: 0 <= i < |Items(c.plan)| ==> Meets(Items(c.plan)[i], c, PlanSteps(c.plan, ids), render)) <==>
              PreCheckHolds(c)
  {
    var steps := PlanSteps(c.plan, ids);
    forall item ensures item in Items(c.plan) <==> Applies(item, c.plan) {
      ItemsAreAll(c.plan, item);
    }
    if c.plan.steps == [] {
      UnstructuredFails(c, ids, render);
      assert StepArgsMatch in Items(c.plan);
    } else {
      forall i | 0 <= i < |steps| ensures Bounded(c.plan, steps[i]) <==> HasRollback(c.plan, steps[i]) {
        BoundedIff(c.plan, steps[i]);
      }
      if PreCheckHolds(c) {
        forall item | Applies(item, c.plan) ensures Meets(item, c, steps, render) {
          HoldsMeets(c, item, render);
        }
      } else if forall item :: Applies(item, c.plan) ==> Meets(item, c, steps, render) {
        MeetsHolds(c, render);
        assert false;
      } else {
        var item :| Applies(item, c.plan) && !Meets(item, c, steps, render);
        assert item in Items(c.plan);
      }
    }
  }

  /** The checks that fail, of those that apply, are exactly these. */
  ghost predicate OnlyFails(c: Checked, failing: set<CheckItem>, ids: nat -> string, render: Json -> string) {
    forall item :: Applies(item, c.plan) ==> (Meets(item, c, PlanSteps(c.plan, ids), render) <==> item !in failing)
  }

  lemma NothingFails(c: Checked, ids: nat -> string, render: Json -> string)
    requires PreCheckHolds(c)
    ensures OnlyFails(c, {}, ids, render)
  {
    forall item | Applies(item, c.plan) ensures Meets(item, c, PlanSteps(c.plan, ids), render) {
      HoldsMeets(c, item, render);
    }
  }

  predicate BindingOnlyFails(c: Checked, failing: set<CheckItem>) {
    forall item :: MeetsBinding(item, c) <==> item !in failing
  }

  predicate SameSteps(c: Checked, d: Checked, steps: seq<ChangeStep>, render: Json -> string) {
    forall item :: MeetsSteps(item, c, steps, render) == MeetsSteps(item, d, steps, render)
  }

  lemma BindingFailures(c: Checked, d: Checked, failing: set<CheckItem>, ids: nat -> string, render: Json -> string)
    requires OnlyFails(c, {}, ids, render) && d.plan == c.plan
    requires SameSteps(c, d, PlanSteps(c.plan, ids), render) && BindingOnlyFails(d, failing)
    ensures OnlyFails(d, failing, ids, render)
  {
  }

  lemma HoldsBinding(c: Checked)
    requires PreCheckHolds(c)
    ensures BindingOnlyFails(c, {})
  {
    forall item ensures MeetsBinding(item, c) {
      if item.HighRiskHasRollback? {
        assert InScope(c.plan, c.approval.inputArgs.value, c.plan.steps[0]);
      }
    }
  }

  /** One field of the approval that disagrees fails the check about it. */
  lemma IdentityFails(c: Checked, d: Checked)
    requires BindingOnlyFails(c, {}) && d.plan == c.plan && d.now == c.now && d.approval != c.approval
    ensures d.approval == c.approval.(incidentId := d.approval.incidentId) ==> BindingOnlyFails(d, {IncidentMatches})
    ensures d.approval == c.approval.(fingerprint := d.approval.fingerprint) ==>
              BindingOnlyFails(d, {FingerprintMatches})
    ensures d.approval == c.approval.(action := d.approval.action) ==> BindingOnlyFails(d, {ActionMatches})
    ensures d.approval == c.approval.(stepId := d.approval.stepId) ==> BindingOnlyFails(d, {StepIdMatches})
    ensures d.approval == c.approval.(toolName := d.approval.toolName) ==> BindingOnlyFails(d, {ToolMatches})
  {
    assert MeetsBinding(IncidentMatches, c) && MeetsBinding(FingerprintMatches, c) && MeetsBinding(ActionMatches, c);
    assert MeetsBinding(StepIdMatches, c) && MeetsBinding(ToolMatches, c);
    forall item ensures MeetsBinding(item, c) {
    }
  }

  lemma DecisionFails(c: Checked, d: Checked)
    requires BindingOnlyFails(c, {}) && d.plan == c.plan && d.now == c.now && d.approval != c.approval
    ensures d.approval == c.approval.(policyVersion := d.approval.policyVersion) ==>
              BindingOnlyFails(d, {PolicyIsCurrent})
    ensures d.approval == c.approval.(status := d.approval.status) ==> BindingOnlyFails(d, {ApprovalIsApproved})
    ensures d.approval == c.approval.(risk := d.approval.risk) ==> BindingOnlyFails(d, {RiskMatches})
    ensures d.approval == c.approval.(inputArgs := d.approval.inputArgs) ==> BindingOnlyFails(d, {ArgsSnapshotMatches})
  {
    assert MeetsBinding(PolicyIsCurrent, c) && MeetsBinding(ApprovalIsApproved, c) && MeetsBinding(RiskMatches, c);
    assert MeetsBinding(ArgsSnapshotMatches, c);
    forall item ensures MeetsBinding(item, c) {
    }
  }

  /** Each check catches its own disagreement and no other: when an approval that passes is changed in
      one place, exactly the check about that place fails. */
  lemma EachFailsAlone(c: Checked, d: Checked, ids: nat -> string, render: Json -> string)
    requires PreCheckHolds(c) && d.plan == c.plan && d.now == c.now && d.approval != c.approval
    requires d.approval.inputArgs.Some?
             && ScopedArgs(d.approval.inputArgs.value, c.plan) == ScopedArgs(c.approval.inputArgs.value, c.plan)
    ensures d.approval == c.approval.(incidentId := d.approval.incidentId) ==>
              OnlyFails(d, {IncidentMatches}, ids, render)
    ensures d.approval == c.approval.(fingerprint := d.approval.fingerprint) ==>
              OnlyFails(d, {FingerprintMatches}, ids, render)
    ensures d.approval == c.approval.(action := d.approval.action) ==> OnlyFails(d, {ActionMatches}, ids, render)
    ensures d.approval == c.approval.(stepId := d.approval.stepId) ==> OnlyFails(d, {StepIdMatches}, ids, render)
    ensures d.approval == c.approval.(toolName := d.approval.toolName) ==> OnlyFails(d, {ToolMatches}, ids, render)
    ensures d.approval == c.approval.(policyVersion := d.approval.policyVersion) ==>
              OnlyFails(d, {PolicyIsCurrent}, ids, render)
    ensures d.approval == c.approval.(status := d.approval.status) ==> OnlyFails(d, {ApprovalIsApproved}, ids, render)
    ensures d.approval == c.approval.(risk := d.approval.risk) ==> OnlyFails(d, {RiskMatches}, ids, render)
    ensures d.approval == c.approval.(inputArgs := d.approval.inputArgs) ==>
              OnlyFails(d, {ArgsSnapshotMatches}, ids, render)
  {
    NothingFails(c, ids, render);
    HoldsBinding(c);
    IdentityFails(c, d);
    DecisionFails(c, d);
    assert SameSteps(c, d, PlanSteps(c.plan, ids), render);
    forall failing | BindingOnlyFails(d, failing) ensures OnlyFails(d, failing, ids, render) {
      BindingFailures(c, d, failing, ids, render);
    }
  }

  /** The same for what the plan says of itself, once the approval is bound to it again. */
  lemma PlanFailsAlone(c: Checked, d: Checked, ids: nat -> string, render: Json -> string)
    requires PreCheckHolds(c) && d.approval == c.approval.(fingerprint := Of(d.plan))
    ensures d.plan == c.plan && PlanExpired(d.plan, d.now) ==> OnlyFails(d, {NotExpired}, ids, render)
    ensures d.now == c.now && d.plan == c.plan.(status := d.plan.status) != c.plan ==>
              OnlyFails(d, {PlanIsApproved}, ids, render)
  {
    NothingFails(c, ids, render);
  }

  predicate StepsOnlyFail(c: Checked, steps: seq<ChangeStep>, failing: set<CheckItem>, render: Json -> string) {
    forall item :: Applies(item, c.plan) ==> (MeetsSteps(item, c, steps, render) <==> item !in failing)
  }

  /** The plan with one step changed, and the approval bound to it. */
  predicate StepChanged(c: Checked, d: Checked, k: nat, step: ChangeStep) {
    && k < |c.plan.steps| && step != c.plan.steps[k] && c.plan.risk != High
    && d == Checked(c.approval.(fingerprint := Of(d.plan)), c.plan.(steps := c.plan.steps[k := step]), c.now)
  }

  lemma StillBound(c: Checked, d: Checked, k: nat, step: ChangeStep)
    requires PreCheckHolds(c) && StepChanged(c, d, k, step)
    ensures BindingOnlyFails(d, {})
  {
    HoldsBinding(c);
    forall item ensures MeetsBinding(item, d) {
      assert MeetsBinding(item, c);
    }
  }

  lemma ChangedStepFails(c: Checked, d: Checked, k: nat, step: ChangeStep, render: Json -> string)
    requires PreCheckHolds(c) && StepChanged(c, d, k, step) && StepsOnlyFail(c, c.plan.steps, {}, render)
    ensures step == c.plan.steps[k].(risk := step.risk) ==>
              StepsOnlyFail(d, d.plan.steps, {StepRisksMatch}, render)
    ensures step == c.plan.steps[k].(requiresApproval := step.requiresApproval) ==>
              StepsOnlyFail(d, d.plan.steps, {StepsNeedApproval}, render)
  {
    var steps, changed := c.plan.steps, d.plan.steps;
    assert changed[k] == step;
    assert forall i :: 0 <= i < |steps| && i != k ==> changed[i] == steps[i];
    assert InScope(c.plan, c.approval.inputArgs.value, steps[k]);
  }

  lemma RedirectedStepFails(c: Checked, d: Checked, k: nat, step: ChangeStep, render: Json -> string)
    requires PreCheckHolds(c) && StepChanged(c, d, k, step) && StepsOnlyFail(c, c.plan.steps, {}, render)
    ensures step == c.plan.steps[k].(toolName := step.toolName) ==>
              StepsOnlyFail(d, d.plan.steps, {StepToolsMatch}, render)
    ensures step == c.plan.steps[k].(target := step.target) && step.target != ""
            && c.plan.metadata.serviceName !in {"", step.target} ==>
              StepsOnlyFail(d, d.plan.steps, {StepTargetsMatch}, render)
  {
    var steps, changed := c.plan.steps, d.plan.steps;
    assert changed[k] == step;
    assert forall i :: 0 <= i < |steps| && i != k ==> changed[i] == steps[i];
    assert InScope(c.plan, c.approval.inputArgs.value, steps[k]);
  }

  /** And for one of its steps, where no rollback is asked for. */
  lemma StepFailsAlone(c: Checked, d: Checked, k: nat, step: ChangeStep, ids: nat -> string, render: Json -> string)
    requires PreCheckHolds(c) && StepChanged(c, d, k, step)
    ensures step == c.plan.steps[k].(risk := step.risk) ==> OnlyFails(d, {StepRisksMatch}, ids, render)
    ensures step == c.plan.steps[k].(requiresApproval := step.requiresApproval) ==>
              OnlyFails(d, {StepsNeedApproval}, ids, render)
    ensures step == c.plan.steps[k].(toolName := step.toolName) ==> OnlyFails(d, {StepToolsMatch}, ids, render)
    ensures step == c.plan.steps[k].(target := step.target) && step.target != ""
            && c.plan.metadata.serviceName !in {"", step.target} ==>
              OnlyFails(d, {StepTargetsMatch}, ids, render)
  {
    StepsHold(c, ids, render);
    StillBound(c, d, k, step);
    ChangedStepFails(c, d, k, step, render);
    RedirectedStepFails(c, d, k, step, render);
    forall failing | StepsOnlyFail(d, d.plan.steps, failing, render) ensures OnlyFails(d, failing, ids, render) {
      StepFailures(d, failing, ids, render);
    }
  }

  lemma StepsHold(c: Checked, ids: nat -> string, render: Json -> string)
    requires PreCheckHolds(c)
    ensures StepsOnlyFail(c, c.plan.steps, {}, render)
  {
    NothingFails(c, ids, render);
    forall item | Applies(item, c.plan) ensures MeetsSteps(item, c, c.plan.steps, render) {
      assert Meets(item, c, PlanSteps(c.plan, ids), render);
    }
  }

  lemma StepFailures(d: Checked, failing: set<CheckItem>, ids: nat -> string, render: Json -> string)
    requires d.plan.steps != [] && BindingOnlyFails(d, {}) && StepsOnlyFail(d, d.plan.steps, failing, render)
    ensures OnlyFails(d, failing, ids, render)
  {
  }

  /** The environment check fails exactly when some step names another environment than the plan. */
  lemma EnvironmentsTell(c: Checked, steps: seq<ChangeStep>, render: Json -> string)
    requires Prints(render)
    ensures Meets(StepEnvironmentsMatch, c, steps, render) <==>
              forall i :: 0 <= i < |steps| ==> StepEnvironment(steps[i], render) in {"", c.plan.metadata.environment}
  {
    forall i | 0 <= i < |steps|
      ensures StepEnvironment(steps[i], render) == "" <==> !Truthy(Field(steps[i].inputArgs, "environment"))
    {
    }
  }

  /** What a high risk asks for: some way back at all, and for every structured step a rollback step,
      the last one with the identifier the step names, for its target and risk and with approval. */
  lemma RollbackChecksTell(c: Checked, steps: seq<ChangeStep>, render: Json -> string)
    ensures !Meets(HighRiskHasRollback, c, steps, render) <==>
              c.plan.risk == High && |c.plan.rollbackSteps| + |c.plan.rollbackPlan| == 0
    ensures Meets(RollbacksLinked, c, steps, render) <==>
              forall i :: 0 <= i < |c.plan.steps| ==> Named(c.plan, c.plan.steps[i])
    ensures Meets(RollbacksBounded, c, steps, render) <==>
              forall i :: 0 <= i < |c.plan.steps| ==> HasRollback(c.plan, c.plan.steps[i])
  {
    forall i | 0 <= i < |c.plan.steps|
      ensures Bounded(c.plan, c.plan.steps[i]) <==> HasRollback(c.plan, c.plan.steps[i])
      ensures Linked(c.plan, c.plan.steps[i]) <==> Named(c.plan, c.plan.steps[i])
    {
      BoundedIff(c.plan, c.plan.steps[i]);
      LinkedIff(c.plan, c.plan.steps[i]);
    }
  }

  /** Some rollback step has the identifier the step names. */
  predicate Named(plan: ChangePlan, step: ChangeStep) {
    exists k :: 0 <= k < |plan.rollbackPlan| && plan.rollbackPlan[k].stepId == step.rollbackStepId
  }

  lemma LinkedIff(plan: ChangePlan, step: ChangeStep)
    ensures Linked(plan, step) <==> Named(plan, step)
  {
    LinkedFrom(plan.rollbackPlan, step.rollbackStepId);
  }

  lemma {:induction false} LinkedFrom(rollbacks: seq<ChangeStep>, id: string)
    ensures id in RollbacksById(rollbacks) <==> exists k :: 0 <= k < |rollbacks| && rollbacks[k].stepId == id
  {
    if rollbacks != [] {
      var n := |rollbacks| - 1;
      LinkedFrom(rollbacks[..n], id);
      assert forall k :: 0 <= k < n ==> rollbacks[..n][k] == rollbacks[k];
    }
  }

  /** A plan without structured steps gets one for each line of text, which only describes it. */
  lemma MadeSteps(plan: ChangePlan, ids: nat -> string, i: nat)
    requires plan.steps == [] && i < |plan.executionSteps|
    ensures |PlanSteps(plan, ids)| == |plan.executionSteps|
    ensures
      var step := PlanSteps(plan, ids)[i];
      && step.stepId == ids(i) && step.actionType == "manual_change" && step.target == plan.metadata.serviceName
      && step.toolName == (if plan.metadata.toolName != "" then plan.metadata.toolName else "manual_change_record")
      && step.inputArgs == map["description" := Str(plan.executionSteps[i])] && step.risk == plan.risk
      && step.requiresApproval && step.canDryRun && step.rollbackStepId == "" && step.expectedResult == ""
  {
  }

  lemma HoldsMeets(c: Checked, item: CheckItem, render: Json -> string)
    requires PreCheckHolds(c) && Applies(item, c.plan)
    ensures Meets(item, c, c.plan.steps, render)
  {
    var steps := c.plan.steps;
    assert forall i :: 0 <= i < |steps| ==> InScope(c.plan, c.approval.inputArgs.value, steps[i]);
    match item
    case RollbacksLinked => forall i | 0 <= i < |steps|
                              ensures Linked(c.plan, steps[i]) { BoundedIff(c.plan, steps[i]); }
    case RollbacksBounded => forall i | 0 <= i < |steps|
                               ensures Bounded(c.plan, steps[i]) { BoundedIff(c.plan, steps[i]); }
    case HighRiskHasRollback => assert InScope(c.plan, c.approval.inputArgs.value, steps[0]);
    case _ =>
  }

  lemma MeetsBound(c: Checked)
    requires forall item :: Applies(item, c.plan) ==> MeetsBinding(item, c)
    ensures Bound(c)
  {
    assert MeetsBinding(IncidentMatches, c) && MeetsBinding(FingerprintMatches, c) && MeetsBinding(ActionMatches, c);
    assert MeetsBinding(StepIdMatches, c) && MeetsBinding(ToolMatches, c) && MeetsBinding(PolicyIsCurrent, c);
    assert MeetsBinding(ApprovalIsApproved, c) && MeetsBinding(PlanIsApproved, c) && MeetsBinding(RiskMatches, c);
    assert MeetsBinding(ArgsSnapshotMatches, c) && MeetsBinding(NotExpired, c);
  }

  lemma MeetsInScope(c: Checked, approved: Args, render: Json -> string, i: nat)
    requires c.plan.steps != [] && i < |c.plan.steps| && c.approval.inputArgs == Some(approved)
    requires forall item :: Applies(item, c.plan) ==> MeetsSteps(item, c, c.plan.steps, render)
    ensures InScope(c.plan, approved, c.plan.steps[i])
  {
    var steps := c.plan.steps;
    assert MeetsSteps(StepArgsMatch, c, steps, render) && MeetsSteps(StepRisksMatch, c, steps, render);
    assert MeetsSteps(StepsNeedApproval, c, steps, render) && MeetsSteps(StepToolsMatch, c, steps, render);
    assert MeetsSteps(StepTargetsMatch, c, steps, render);
    if c.plan.risk == High {
      assert MeetsSteps(RollbacksBounded, c, steps, render);
      BoundedIff(c.plan, steps[i]);
    }
  }

  lemma MeetsHolds(c: Checked, render: Json -> string)
    requires c.plan.steps != []
    requires forall item :: Applies(item, c.plan) ==> Meets(item, c, c.plan.steps, render)
    ensures PreCheckHolds(c)
  {
    forall item | Applies(item, c.plan) ensures MeetsBinding(item, c) && MeetsSteps(item, c, c.plan.steps, render) {
      assert Meets(item, c, c.plan.steps, render);
    }
    MeetsBound(c);
    forall i | 0 <= i < |c.plan.steps| ensures InScope(c.plan, c.approval.inputArgs.value, c.plan.steps[i]) {
      MeetsInScope(c, c.approval.inputArgs.value, render, i);
    }
  }

  /** One approval lets at most one plan through: a plan that passes is the one that was approved. */
  lemma OnlyTheApprovedPlanPasses(approval: ApprovalRequest, plan: ChangePlan, other: ChangePlan, now: real,
                                  later: real)
    requires PreCheckHolds(Checked(approval, plan, now)) && PreCheckHolds(Checked(approval, other, later))
    ensures plan == other
  {
  }

  // ---------------------------------------------------------------------------- dry-run

  const DRY_RUN_TOOLS := {MANUAL_CHANGE_RECORD, "suggest_remediation"}
  const DRY_RUN_ACTIONS := {
    "manual", "manual_change", "manual_rollback", "redis_config_change", "database_change",
    "service_restart", "capacity_change", "release_rollback"}
  const SYSTEM_INPUTS := {"action", "description", "environment", "service_name", "source_action"}
  const NON_PRODUCTION := {"dev", "development", "test", "testing", "qa", "staging", "stage", "sandbox", "local"}

  function NormalizeEnvironment(text: string): string { Lower(Strip(text)) }

  predicate KnownEnvironment(plan: ChangePlan) {
    NormalizeEnvironment(plan.metadata.environment) != ""
    && NormalizeEnvironment(plan.metadata.environment) != "unknown"
  }

  function AllowedKeys(plan: ChangePlan): set<string> {
    SYSTEM_INPUTS + if plan.metadata.approvedInputArgs.Some? then plan.metadata.approvedInputArgs.value.Keys else {}
  }

  datatype BlockReason =
    | DeclaresNoDryRun | ToolNotAllowed | ActionNotAllowed | TargetNotAllowed
    | EnvironmentUnknown | EnvironmentMismatch | InputNotAllowed

  /** A step that a dry-run lets through. */
  predicate MayDryRun(step: ChangeStep, plan: ChangePlan, render: Json -> string) {
    && step.canDryRun && step.toolName in DRY_RUN_TOOLS && step.actionType in DRY_RUN_ACTIONS
    && step.target == Strip(plan.metadata.serviceName) != ""
    && KnownEnvironment(plan)
    && NormalizeEnvironment(StepEnvironment(step, render)) in {"", NormalizeEnvironment(plan.metadata.environment)}
    && step.inputArgs.Keys <= AllowedKeys(plan)
  }

  /** What each reason objects to. */
  predicate Objects(reason: BlockReason, step: ChangeStep, plan: ChangePlan, render: Json -> string) {
    match reason
    case DeclaresNoDryRun => !step.canDryRun
    case ToolNotAllowed => step.toolName !in DRY_RUN_TOOLS
    case ActionNotAllowed => step.actionType !in DRY_RUN_ACTIONS
    case TargetNotAllowed => step.target == "" || step.target != Strip(plan.metadata.serviceName)
    case EnvironmentUnknown => !KnownEnvironment(plan)
    case EnvironmentMismatch =>
      NormalizeEnvironment(StepEnvironment(step, render)) !in {"", NormalizeEnvironment(plan.metadata.environment)}
    case InputNotAllowed => exists key :: key in step.inputArgs && key !in AllowedKeys(plan)
  }

  /** The order in which reasons are given. */
  function Rank(reason: BlockReason): nat {
    match reason
    case DeclaresNoDryRun => 0
    case ToolNotAllowed => 1
    case ActionNotAllowed => 2
    case TargetNotAllowed => 3
    case EnvironmentUnknown => 4
    case EnvironmentMismatch => 5
    case InputNotAllowed => 6
  }

  predicate Ranked(reasons: seq<BlockReason>, below: nat) {
    && (forall i, j :: 0 <= i < j < |reasons| ==> Rank(reasons[i]) < Rank(reasons[j]))
    && forall i :: 0 <= i < |reasons| ==> Rank(reasons[i]) < below
  }

  /** Of the reasons below a rank exactly those that object are given. */
  predicate GivenBelow(reasons: seq<BlockReason>, below: nat, objects: BlockReason -> bool) {
    Ranked(reasons, below) && forall reason :: reason in reasons <==> Rank(reason) < below && objects(reason)
  }

  method Note(reasons: seq<BlockReason>, reason: BlockReason, holds: bool, ghost objects: BlockReason -> bool)
    returns (more: seq<BlockReason>)
    requires GivenBelow(reasons, Rank(reason), objects) && holds == objects(reason)
    ensures GivenBelow(more, Rank(reason) + 1, objects)
  {
    more := if holds then reasons + [reason] else reasons;
  }

  lemma NoObjectionIff(step: ChangeStep, plan: ChangePlan, render: Json -> string)
    ensures MayDryRun(step, plan, render) <==> forall reason :: !Objects(reason, step, plan, render)
  {
    KeysOutside(step.inputArgs, AllowedKeys(plan));
    if forall reason :: !Objects(reason, step, plan, render) {
      assert !Objects(DeclaresNoDryRun, step, plan, render) && !Objects(ToolNotAllowed, step, plan, render);
      assert !Objects(ActionNotAllowed, step, plan, render) && !Objects(TargetNotAllowed, step, plan, render);
      assert !Objects(EnvironmentUnknown, step, plan, render) && !Objects(EnvironmentMismatch, step, plan, render);
      assert !Objects(InputNotAllowed, step, plan, render);
    }
  }

  /** The seven conditions, in the order of the reasons. */
  datatype Findings = Findings(noDryRun: bool, tool: bool, action: bool, target: bool, unknown: bool, mismatch: bool,
                               input: bool)

  predicate Finds(f: Findings, reason: BlockReason) {
    match reason
    case DeclaresNoDryRun => f.noDryRun
    case ToolNotAllowed => f.tool
    case ActionNotAllowed => f.action
    case TargetNotAllowed => f.target
    case EnvironmentUnknown => f.unknown
    case EnvironmentMismatch => f.mismatch
    case InputNotAllowed => f.input
  }

  method ReasonsOf(f: Findings) returns (reasons: seq<BlockReason>)
    ensures GivenBelow(reasons, 7, reason => Finds(f, reason))
  {
    ghost var objects := (reason: BlockReason) => Finds(f, reason);
    reasons := Note([], DeclaresNoDryRun, f.noDryRun, objects);
    reasons := Note(reasons, ToolNotAllowed, f.tool, objects);
    reasons := Note(reasons, ActionNotAllowed, f.action, objects);
    reasons := Note(reasons, TargetNotAllowed, f.target, objects);
    reasons := Note(reasons, EnvironmentUnknown, f.unknown, objects);
    reasons := Note(reasons, EnvironmentMismatch, f.mismatch, objects);
    reasons := Note(reasons, InputNotAllowed, f.input, objects);
  }

  lemma FindingsObject(f: Findings, step: ChangeStep, plan: ChangePlan, render: Json -> string, reason: BlockReason)
    requires f.noDryRun == !step.canDryRun && f.tool == (step.toolName !in DRY_RUN_TOOLS)
    requires f.action == (step.actionType !in DRY_RUN_ACTIONS) && f.unknown == !KnownEnvironment(plan)
    requires f.target == Objects(TargetNotAllowed, step, plan, render)
    requires f.mismatch == Objects(EnvironmentMismatch, step, plan, render)
    requires f.input == (step.inputArgs.Keys - AllowedKeys(plan) != {})
    ensures Finds(f, reason) <==> Objects(reason, step, plan, render)
  {
    KeysOutside(step.inputArgs, AllowedKeys(plan));
  }

  /** Exactly the reasons there are, in their order; none iff the step may be dry-run. */
  method DryRunStepBlockReasons(step: ChangeStep, plan: ChangePlan, render: Json -> string)
    returns (reasons: seq<BlockReason>)
    ensures forall reason :: reason in reasons <==> Objects(reason, step, plan, render)
    ensures Ranked(reasons, 7)
    ensures reasons == [] <==> MayDryRun(step, plan, render)
  {
    var planTarget := Strip(plan.metadata.serviceName);
    var planEnvironment := NormalizeEnvironment(plan.metadata.environment);
    var stepEnvironment := NormalizeEnvironment(StepEnvironment(step, render));
    var f := Findings(
      !step.canDryRun,
      step.toolName !in DRY_RUN_TOOLS,
      step.actionType !in DRY_RUN_ACTIONS,
      planTarget == "" || step.target == "" || step.target != planTarget,
      planEnvironment == "" || planEnvironment == "unknown",
      stepEnvironment != "" && stepEnvironment != planEnvironment,
      step.inputArgs.Keys - AllowedKeys(plan) != {});
    reasons := ReasonsOf(f);
    forall reason ensures reason in reasons <==> Objects(reason, step, plan, render) {
      FindingsObject(f, step, plan, render, reason);
    }
    NoObjectionIff(step, plan, render);
    if reasons != [] {
      assert reasons[0] in reasons;
    }
  }

  lemma KeysOutside(args: Args, allowed: set<string>)
    ensures args.Keys - allowed == {} <==> args.Keys <= allowed
    ensures args.Keys - allowed == {} <==> forall key :: key in args ==> key in allowed
  {
    assert forall key :: key in args && key !in allowed <==> key in args.Keys - allowed;
  }

  /** Every structured or synthesised step passes, and no flag forces a failure. */
  predicate DryRunHolds(plan: ChangePlan, steps: seq<ChangeStep>, render: Json -> string) {
    !plan.metadata.dryRunShouldFail && forall i :: 0 <= i < |steps| ==> MayDryRun(steps[i], plan, render)
  }

  /** `picked` lists the identifiers of the chosen steps, which stand at these places, in order. */
  ghost predicate Picks(at: seq<nat>, steps: seq<ChangeStep>, picked: seq<string>, chosen: ChangeStep -> bool) {
    && |at| == |picked| && (forall i, j :: 0 <= i < j < |at| ==> at[i] < at[j])
    && (forall i :: 0 <= i < |at| ==> at[i] < |steps| && picked[i] == steps[at[i]].stepId)
    && (forall k: nat :: k < |steps| ==> (k in at <==> chosen(steps[k])))
  }

  lemma PicksNext(at: seq<nat>, steps: seq<ChangeStep>, i: nat, picked: seq<string>, chosen: ChangeStep -> bool)
    requires i < |steps| && Picks(at, steps[..i], picked, chosen)
    ensures chosen(steps[i]) ==> Picks(at + [i], steps[..i + 1], picked + [steps[i].stepId], chosen)
    ensures !chosen(steps[i]) ==> Picks(at, steps[..i + 1], picked, chosen)
  {
    var before, after := steps[..i], steps[..i + 1];
    assert i !in at;
    assert forall k :: 0 <= k < i ==> before[k] == after[k];
    forall k: nat | k < i ensures k in at + [i] <==> k in at {
    }
  }

  /** Whether some step with this identifier is blocked. */
  predicate BlocksId(plan: ChangePlan, steps: seq<ChangeStep>, render: Json -> string, id: string) {
    exists i :: 0 <= i < |steps| && steps[i].stepId == id && !MayDryRun(steps[i], plan, render)
  }

  /** The identifiers of the steps that may not be dry-run. */
  method BlockedSteps(plan: ChangePlan, steps: seq<ChangeStep>, render: Json -> string)
    returns (blocked: seq<string>, ghost at: seq<nat>)
    ensures Picks(at, steps, blocked, step => !MayDryRun(step, plan, render))
    ensures forall id :: id in blocked <==> BlocksId(plan, steps, render, id)
  {
    ghost var chosen := (step: ChangeStep) => !MayDryRun(step, plan, render);
    blocked, at := [], [];
    var i := 0;
    while i < |steps|
      invariant 0 <= i <= |steps| && Picks(at, steps[..i], blocked, chosen)
    {
      var reasons := DryRunStepBlockReasons(steps[i], plan, render);
      PicksNext(at, steps, i, blocked, chosen);
      if reasons != [] {
        blocked, at := blocked + [steps[i].stepId], at + [i];
      }
      i := i + 1;
    }
    assert steps[..i] == steps;
    PickedIds(at, steps, blocked, chosen);
    assert forall id :: BlocksId(plan, steps, render, id) <==>
                        exists i :: 0 <= i < |steps| && steps[i].stepId == id && chosen(steps[i]);
  }

  lemma PickedIds(at: seq<nat>, steps: seq<ChangeStep>, picked: seq<string>, chosen: ChangeStep -> bool)
    requires Picks(at, steps, picked, chosen)
    ensures forall id :: id in picked <==> exists i :: 0 <= i < |steps| && steps[i].stepId == id && chosen(steps[i])
  {
    forall id | id in picked ensures exists i :: 0 <= i < |steps| && steps[i].stepId == id && chosen(steps[i]) {
      var n :| 0 <= n < |picked| && picked[n] == id;
      assert at[n] in at && steps[at[n]].stepId == id;
    }
    forall i: nat | i < |steps| && chosen(steps[i]) ensures steps[i].stepId in picked {
      var n :| 0 <= n < |at| && at[n] == i;
      assert picked[n] == steps[i].stepId;
    }
  }

  const FORCED := "metadata:dry_run_should_fail"

  /** The dry-run blocks exactly the steps that may not be dry-run, and one more name when the plan
      forces a failure; it validates the steps none of whose namesakes is blocked. */
  method BuildDryRunResult(plan: ChangePlan, ids: nat -> string, render: Json -> string)
    returns (passed: bool, validated: seq<string>, blocked: seq<string>, ghost b: seq<nat>, ghost v: seq<nat>)
    ensures passed <==> DryRunHolds(plan, PlanSteps(plan, ids), render)
    ensures
      var steps := PlanSteps(plan, ids);
      var forced := if plan.metadata.dryRunShouldFail then 1 else 0;
      && |blocked| >= forced && (forced == 1 ==> blocked[|blocked| - 1] == "metadata:dry_run_should_fail")
      && Picks(b, steps, blocked[..|blocked| - forced], step => !MayDryRun(step, plan, render))
      && Picks(v, steps, validated, (step: ChangeStep) => !BlocksId(plan, steps, render, step.stepId))
  {
    var steps := PlanSteps(plan, ids);
    blocked, b := BlockedSteps(plan, steps, render);
    ghost var clear := (step: ChangeStep) => !BlocksId(plan, steps, render, step.stepId);
    validated, v := [], [];
    var i := 0;
    while i < |steps|
      invariant 0 <= i <= |steps| && Picks(v, steps[..i], validated, clear)
    {
      PicksNext(v, steps, i, validated, clear);
      if steps[i].stepId !in blocked {
        validated, v := validated + [steps[i].stepId], v + [i];
      }
      i := i + 1;
    }
    assert steps[..i] == steps;
    ghost var ownBlocked := blocked;
    NoneBlockedIff(plan, steps, render, blocked);
    if plan.metadata.dryRunShouldFail {
      blocked := blocked + [FORCED];
      assert blocked[..|blocked| - 1] == ownBlocked;
    } else {
      assert blocked[..|blocked|] == ownBlocked;
    }
    passed := blocked == [];
  }

  lemma NoneBlockedIff(plan: ChangePlan, steps: seq<ChangeStep>, render: Json -> string, blocked: seq<string>)
    requires forall id :: id in blocked <==> BlocksId(plan, steps, render, id)
    ensures blocked == [] <==> forall i :: 0 <= i < |steps| ==> MayDryRun(steps[i], plan, render)
  {
    if blocked != [] {
      assert blocked[0] in blocked;
    }
    forall i | 0 <= i < |steps| && !MayDryRun(steps[i], plan, render) ensures steps[i].stepId in blocked {
      assert BlocksId(plan, steps, render, steps[i].stepId);
    }
  }

  datatype Mode = DryRunOnly | ManualRecord | Sandbox

  datatype AfterDryRun = Completed | WaitingForManual | InSandbox | Escalates

  function StatusAfterDryRun(mode: Mode, plan: ChangePlan): AfterDryRun {
    match mode
    case ManualRecord => WaitingForManual
    case Sandbox =>
      if NormalizeEnvironment(NormalizeEnvironment(plan.metadata.environment)) in NON_PRODUCTION then InSandbox
      else Escalates
    case DryRunOnly => Completed
  }

  /** The environment's name, up to case and surrounding space, is one of the nine. */
  predicate NonProduction(plan: ChangePlan) { NormalizeEnvironment(plan.metadata.environment) in NON_PRODUCTION }

  lemma LowerKeepsTrimmed(s: string)
    requires Trimmed(s)
    ensures Trimmed(Lower(s)) && Lower(Lower(s)) == Lower(s)
  {
  }

  lemma NormalizeTwice(text: string)
    ensures NormalizeEnvironment(NormalizeEnvironment(text)) == NormalizeEnvironment(text)
  {
    StripFixes(text);
    LowerKeepsTrimmed(Strip(text));
    StripFixes(Lower(Strip(text)));
  }

  /** Only a sandbox request on a known non-production environment reaches the sandbox. */
  lemma SandboxIffNonProduction(mode: Mode, plan: ChangePlan)
    ensures StatusAfterDryRun(mode, plan) == InSandbox <==> mode == Sandbox && NonProduction(plan)
  {
    NormalizeTwice(plan.metadata.environment);
  }

  /** After a passed pre-check the dry-run comes down to what the pre-check left open: the
      allowlists, the target, and the environment's name.  The arguments need no further check. */
  lemma DryRunAfterPreCheck(c: Checked, ids: nat -> string, render: Json -> string)
    requires PreCheckHolds(c)
    ensures DryRunHolds(c.plan, PlanSteps(c.plan, ids), render) <==>
            && !c.plan.metadata.dryRunShouldFail && c.approval.toolName in DRY_RUN_TOOLS
            && KnownEnvironment(c.plan) && Strip(c.plan.metadata.serviceName) != ""
            && forall i :: 0 <= i < |c.plan.steps| ==>
                 var step := c.plan.steps[i];
                 step.canDryRun && step.actionType in DRY_RUN_ACTIONS
                 && step.target == Strip(c.plan.metadata.serviceName)
  {
    var approved := c.approval.inputArgs.value;
    forall i | 0 <= i < |c.plan.steps|
      ensures var step := c.plan.steps[i];
              && step.inputArgs.Keys <= AllowedKeys(c.plan) && step.toolName == c.approval.toolName
              && NormalizeEnvironment(StepEnvironment(step, render))
                 in {"", NormalizeEnvironment(c.plan.metadata.environment)}
    {
      var step := c.plan.steps[i];
      assert InScope(c.plan, approved, step);
      ScopedKeys(approved, c.plan);
      ScopedEnvironment(step, approved, c.plan, render);
    }
    var steps := c.plan.steps;
    if DryRunHolds(c.plan, steps, render) {
      assert MayDryRun(steps[0], c.plan, render);
      assert forall i :: 0 <= i < |steps| ==> MayDryRun(steps[i], c.plan, render);
    }
  }

  lemma ScopedKeys(approved: Args, plan: ChangePlan)
    ensures ScopedArgs(approved, plan).Keys == approved.Keys + {"action", "service_name", "environment"}
  {
  }

  lemma ScopedEnvironment(step: ChangeStep, approved: Args, plan: ChangePlan, render: Json -> string)
    requires step.inputArgs == ScopedArgs(approved, plan)
    ensures StepEnvironment(step, render) == plan.metadata.environment
  {
    assert step.inputArgs["environment"] == Str(plan.metadata.environment);
  }
}
