/** One approved change, driven by any number of concurrent calls over a store that offers
    create-once and save-if-status.

    Every call holds a copy of the execution between store operations; after each committed save it
    writes the projections and then saves again, with the projections that failed, if the status is
    still the one it committed. */
module ChangeExecutions {

  import opened JsonValues
  import opened ChangePlans
  import opened ChangeChecks
  import opened Basics
  import Manual = ManualResults

  datatype Status =
    | Created | PreCheckRunning | PreCheckFailed | DryRunRunning | DryRunFailed | DryRunCompleted
    | WaitingManual | SandboxExecuting | SandboxValidated | Escalated
    | Closed | RollbackRecommended | PartialSuccess | RecoveryPending | RolledBack | RollbackFailed

  datatype PreCheck = PreCheck(passed: bool, at: real)

  datatype Observation = NotObserved | Passed | Pending | Failed

  datatype Rollback = NoRollback | Recommended | RollbackDidFail | Done | NotStarted

  datatype Execution = Execution(
    status: Status,
    mode: Mode,
    preCheck: Option<PreCheck>,
    dryRun: Option<bool>,
    manual: Manual.ManualRecord,
    observation: Observation,
    rollback: Rollback,
    pending: set<string>)

  const ALL_PROJECTIONS := {"incident_state", "report", "trace"}

  function NewExecution(mode: Mode): Execution {
    Execution(Created, mode, None, None, Manual.NoReport, NotObserved, NoRollback, {})
  }

  /** What is fixed while one approved plan is carried out: when its pre-check holds, whether its
      dry-run passes, where it runs, and its steps. */
  datatype Context = Context(holds: real -> bool, dryRunPasses: bool, nonProduction: bool, steps: set<string>)

  function NextStatus(mode: Mode, nonProduction: bool): Status {
    match mode
    case ManualRecord => WaitingManual
    case Sandbox => if nonProduction then SandboxExecuting else Escalated
    case DryRunOnly => DryRunCompleted
  }

  // ------------------------------------------------------------------- manual reports

  function SourceStatuses(report: Manual.ReportStatus): set<Status> {
    match report
    case Succeeded => {WaitingManual, RecoveryPending}
    case Failed => {WaitingManual, PartialSuccess, RecoveryPending}
    case Partial => {WaitingManual}
    case RecoveryPending => {WaitingManual, PartialSuccess, RollbackRecommended, RolledBack, RollbackFailed}
    case RolledBack => {WaitingManual, PartialSuccess, RollbackRecommended, RollbackFailed}
    case RollbackFailed => {WaitingManual, PartialSuccess, RollbackRecommended}
  }

  function StatusFromReport(report: Manual.ReportStatus): Status {
    match report
    case Succeeded => Closed
    case Failed => RollbackRecommended
    case Partial => PartialSuccess
    case RecoveryPending => Status.RecoveryPending
    case RolledBack => Status.RolledBack
    case RollbackFailed => Status.RollbackFailed
  }

  function ObservationFrom(report: Manual.ReportStatus): Observation {
    match report
    case Succeeded => Passed
    case RolledBack => Passed
    case RecoveryPending => Observation.Pending
    case _ => Observation.Failed
  }

  function RollbackFrom(report: Manual.ReportStatus): Rollback {
    match report
    case RollbackFailed => RollbackDidFail
    case RolledBack => Done
    case Failed => Recommended
    case Partial => Recommended
    case _ => NoRollback
  }

  function Recorded(e: Execution, report: Manual.Report): Execution {
    e.(status := StatusFromReport(report.status), manual := Manual.Push(e.manual, report),
       observation := ObservationFrom(report.status), rollback := RollbackFrom(report.status),
       pending := ALL_PROJECTIONS)
  }

  // --------------------------------------------------------------------- the machine

  /** What a call does next with the copy it holds. */
  datatype Next =
    | Found(mode: Mode)
    | PreChecking(mode: Mode)
    | DryRunning(mode: Mode)
    | InSandboxRun
    | Reporting(report: Manual.Report)
    | Finished

  datatype Local = Holding(copy: Execution, next: Next) | Syncing(copy: Execution, next: Next)

  datatype World = World(record: Option<Execution>, locals: map<nat, Local>)

  datatype Step =
    | Start(call: nat, mode: Mode)                   // look up, or create
    | BeginReport(call: nat, report: Manual.Report)  // load for a manual result
    | Repair(call: nat)                              // any read of a record with projections pending
    | Advance(call: nat, now: real)                  // compute from the copy and save
    | Project(call: nat, failed: set<string>)        // write projections and save which failed
    | Crash(call: nat)

  /** A save: the new execution, the statuses it may replace, and what follows. */
  datatype Attempt = NoAttempt | Attempt(updated: Execution, expected: set<Status>, next: Next)

  /** An existing execution goes on when it was only created, or when its dry-run is complete and
      the call asks for more; a completed dry-run is checked again first. */
  function ResumeAttempt(ctx: Context, copy: Execution, mode: Mode, now: real): Attempt {
    if copy.status == Created then Attempt(copy.(status := PreCheckRunning), {Created}, PreChecking(mode))
    else if copy.status == DryRunCompleted && mode != DryRunOnly then
      if !ctx.holds(now) then
        Attempt(copy.(status := PreCheckFailed, preCheck := Some(PreCheck(false, now))), {DryRunCompleted}, Finished)
      else
        Attempt(copy.(mode := mode, status := NextStatus(mode, ctx.nonProduction)), {DryRunCompleted},
                if mode == Sandbox then InSandboxRun else Finished)
    else NoAttempt
  }

  function PreCheckAttempt(ctx: Context, copy: Execution, mode: Mode, now: real): Attempt {
    if ctx.holds(now)
    then Attempt(copy.(status := DryRunRunning, preCheck := Some(PreCheck(true, now))), {PreCheckRunning},
                 DryRunning(mode))
    else Attempt(copy.(status := PreCheckFailed, preCheck := Some(PreCheck(false, now))), {PreCheckRunning}, Finished)
  }

  function DryRunAttempt(ctx: Context, copy: Execution, mode: Mode): Attempt {
    if ctx.dryRunPasses
    then Attempt(copy.(status := NextStatus(mode, ctx.nonProduction), dryRun := Some(true)), {DryRunRunning},
                 if mode == Sandbox then InSandboxRun else Finished)
    else Attempt(copy.(status := DryRunFailed, dryRun := Some(false)), {DryRunRunning}, Finished)
  }

  function SandboxAttempt(copy: Execution): Attempt {
    if copy.status == Escalated then Attempt(copy.(rollback := NotStarted), {Escalated}, Finished)
    else Attempt(copy.(status := SandboxValidated, observation := Passed), {SandboxExecuting}, Finished)
  }

  function ReportAttempt(ctx: Context, copy: Execution, report: Manual.Report, now: real): Attempt {
    if copy.status in SourceStatuses(report.status) && ctx.holds(now) && Manual.Acceptable(ctx.steps, report)
    then Attempt(Recorded(copy, report), SourceStatuses(report.status), Finished)
    else NoAttempt
  }

  function AttemptOf(ctx: Context, copy: Execution, next: Next, now: real): Attempt {
    match next
    case Found(mode) => ResumeAttempt(ctx, copy, mode, now)
    case PreChecking(mode) => PreCheckAttempt(ctx, copy, mode, now)
    case DryRunning(mode) => DryRunAttempt(ctx, copy, mode)
    case InSandboxRun => SandboxAttempt(copy)
    case Reporting(report) => ReportAttempt(ctx, copy, report, now)
    case Finished => NoAttempt
  }

  function Drop(w: World, call: nat): World { w.(locals := w.locals - {call}) }

  function Put(w: World, call: nat, local: Local): World { w.(locals := w.locals[call := local]) }

  function SaveIfStatus(w: World, call: nat, attempt: Attempt): World {
    if attempt.Attempt? && w.record.Some? && w.record.value.status in attempt.expected then
      var e := attempt.updated.(pending := ALL_PROJECTIONS);
      World(Some(e), w.locals[call := Syncing(e, attempt.next)])
    else Drop(w, call)
  }

  predicate Writes(w: World, copy: Execution, failed: set<string>) {
    failed != copy.pending && w.record.Some? && w.record.value.status == copy.status
  }

  function Apply(ctx: Context, w: World, step: Step): World {
    match step
    case Start(call, mode) =>
      if call in w.locals then w
      else if w.record.Some? then Put(w, call, Holding(w.record.value, Found(mode)))
      else World(Some(NewExecution(mode)), w.locals[call := Holding(NewExecution(mode), Found(mode))])
    case BeginReport(call, report) =>
      if call in w.locals || w.record.None? then w
      else if w.record.value.pending == {} then Put(w, call, Holding(w.record.value, Reporting(report)))
      else Put(w, call, Syncing(w.record.value.(pending := {}), Reporting(report)))
    case Repair(call) =>
      if call in w.locals || w.record.None? || w.record.value.pending == {} then w
      else Put(w, call, Syncing(w.record.value.(pending := {}), Finished))
    case Advance(call, now) =>
      if call in w.locals && w.locals[call].Holding?
      then SaveIfStatus(w, call, AttemptOf(ctx, w.locals[call].copy, w.locals[call].next, now)) else w
    case Project(call, failed) =>
      if call in w.locals && w.locals[call].Syncing? && w.record.Some? then
        var copy, next := w.locals[call].copy, w.locals[call].next;
        var updated := copy.(pending := failed);
        if Writes(w, copy, failed) then World(Some(updated), w.locals[call := Holding(updated, next)])
        else if failed == copy.pending then Put(w, call, Holding(updated, next))
        else Put(w, call, Holding(w.record.value, next))
      else w
    case Crash(call) => Drop(w, call)
  }

  const EMPTY := World(None, map[])

  function Run(ctx: Context, steps: seq<Step>): World {
    if steps == [] then EMPTY else Apply(ctx, Run(ctx, steps[..|steps| - 1]), steps[|steps| - 1])
  }

  // -------------------------------------------------------------------- what runs keep

  /** How far an execution has come; it never goes back. */
  function Phase(status: Status): nat {
    match status
    case Created => 0
    case PreCheckRunning => 1
    case DryRunRunning => 2
    case DryRunCompleted => 3
    case SandboxExecuting => 4
    case _ => 5
  }

  predicate PreCheckPassed(e: Execution) { e.preCheck.Some? && e.preCheck.value.passed }

  predicate BothPassed(e: Execution) { PreCheckPassed(e) && e.dryRun == Some(true) }

  /** What the status says about the checks and the environment. */
  predicate StatusTellsTruth(ctx: Context, e: Execution) {
    match e.status
    case Created => e.preCheck.None? && e.dryRun.None?
    case PreCheckRunning => e.preCheck.None? && e.dryRun.None?
    case PreCheckFailed => e.preCheck.Some? && !e.preCheck.value.passed
    case DryRunRunning => PreCheckPassed(e) && e.dryRun.None?
    case DryRunFailed => PreCheckPassed(e) && e.dryRun == Some(false)
    case SandboxExecuting => BothPassed(e) && ctx.nonProduction
    case SandboxValidated => BothPassed(e) && ctx.nonProduction
    case Escalated => BothPassed(e) && !ctx.nonProduction
    case _ => BothPassed(e)
  }

  /** The latest manual report has this outcome, and says what the outcome requires. */
  predicate LastReport(ctx: Context, e: Execution, outcome: Manual.ReportStatus) {
    e.manual.Latest? && e.manual.report.status == outcome && Manual.Acceptable(ctx.steps, e.manual.report)
  }

  /** What the status says about manual reports, the observation and the rollback. */
  predicate StatusTellsReport(ctx: Context, e: Execution) {
    match e.status
    case Closed => LastReport(ctx, e, Manual.Succeeded) && e.observation == Passed && e.rollback == NoRollback
    case RollbackRecommended =>
      LastReport(ctx, e, Manual.Failed) && e.observation == Observation.Failed && e.rollback == Recommended
    case PartialSuccess => LastReport(ctx, e, Manual.Partial) && e.observation == Observation.Failed
                           && e.rollback == Recommended
    case RecoveryPending =>
      LastReport(ctx, e, Manual.RecoveryPending) && e.observation == Observation.Pending && e.rollback == NoRollback
    case RolledBack => LastReport(ctx, e, Manual.RolledBack) && e.observation == Passed && e.rollback == Done
    case RollbackFailed =>
      LastReport(ctx, e, Manual.RollbackFailed) && e.observation == Observation.Failed && e.rollback == RollbackDidFail
    case SandboxValidated => e.manual.NoReport? && e.observation == Passed && e.rollback == NoRollback
    case Escalated => e.manual.NoReport? && e.observation == NotObserved && e.rollback in {NoRollback, NotStarted}
    case _ => e.manual.NoReport? && e.observation == NotObserved && e.rollback == NoRollback
  }

  /** And the stored results are what the checks gave. */
  predicate RecordOk(ctx: Context, e: Execution) {
    && StatusTellsTruth(ctx, e) && StatusTellsReport(ctx, e)
    && (e.preCheck.Some? ==> (e.preCheck.value.passed <==> ctx.holds(e.preCheck.value.at)))
    && (e.dryRun.Some? ==> (e.dryRun.value <==> ctx.dryRunPasses))
  }

  predicate LocalOk(ctx: Context, e: Execution, local: Local) {
    && RecordOk(ctx, local.copy) && Phase(local.copy.status) <= Phase(e.status)
    && (local.next.DryRunning? ==> Phase(local.copy.status) >= 2)
    && (local.next.InSandboxRun? ==> Phase(local.copy.status) >= 4)
  }

  predicate Inv(ctx: Context, w: World) {
    && (w.record.None? ==> w.locals == map[])
    && (w.record.Some? ==> RecordOk(ctx, w.record.value))
    && (w.record.Some? ==> forall c :: c in w.locals ==> LocalOk(ctx, w.record.value, w.locals[c]))
  }

  /** What a save that succeeds leaves behind is true, and no step back. */
  predicate Good(ctx: Context, e: Execution, attempt: Attempt) {
    attempt.Attempt? && e.status in attempt.expected ==>
      && RecordOk(ctx, attempt.updated) && Phase(e.status) <= Phase(attempt.updated.status)
      && (attempt.next.DryRunning? ==> Phase(attempt.updated.status) >= 2)
      && (attempt.next.InSandboxRun? ==> Phase(attempt.updated.status) >= 4)
  }

  lemma ResumeIsGood(ctx: Context, e: Execution, copy: Execution, mode: Mode, now: real)
    requires RecordOk(ctx, e) && RecordOk(ctx, copy)
    ensures Good(ctx, e, ResumeAttempt(ctx, copy, mode, now))
  {
  }

  lemma PreCheckIsGood(ctx: Context, e: Execution, copy: Execution, mode: Mode, now: real)
    requires RecordOk(ctx, e) && RecordOk(ctx, copy) && Phase(copy.status) <= Phase(e.status)
    ensures Good(ctx, e, PreCheckAttempt(ctx, copy, mode, now))
  {
  }

  lemma DryRunIsGood(ctx: Context, e: Execution, copy: Execution, mode: Mode)
    requires RecordOk(ctx, e) && RecordOk(ctx, copy) && 2 <= Phase(copy.status) <= Phase(e.status)
    ensures Good(ctx, e, DryRunAttempt(ctx, copy, mode))
  {
  }

  lemma SandboxIsGood(ctx: Context, e: Execution, copy: Execution)
    requires RecordOk(ctx, e) && RecordOk(ctx, copy) && 4 <= Phase(copy.status) <= Phase(e.status)
    ensures Good(ctx, e, SandboxAttempt(copy))
  {
  }

  lemma ReportIsGood(ctx: Context, e: Execution, copy: Execution, report: Manual.Report, now: real)
    requires RecordOk(ctx, e) && RecordOk(ctx, copy)
    ensures Good(ctx, e, ReportAttempt(ctx, copy, report, now))
  {
  }

  lemma AttemptIsGood(ctx: Context, e: Execution, local: Local, now: real)
    requires RecordOk(ctx, e) && LocalOk(ctx, e, local)
    ensures Good(ctx, e, AttemptOf(ctx, local.copy, local.next, now))
  {
    match local.next
    case Found(mode) => ResumeIsGood(ctx, e, local.copy, mode, now);
    case PreChecking(mode) => PreCheckIsGood(ctx, e, local.copy, mode, now);
    case DryRunning(mode) => DryRunIsGood(ctx, e, local.copy, mode);
    case InSandboxRun => SandboxIsGood(ctx, e, local.copy);
    case Reporting(report) => ReportIsGood(ctx, e, local.copy, report, now);
    case Finished =>
  }

  lemma Raised(ctx: Context, w: World, e: Execution, call: nat, local: Local)
    requires Inv(ctx, w) && w.record.Some? && RecordOk(ctx, e) && Phase(w.record.value.status) <= Phase(e.status)
    requires LocalOk(ctx, e, local)
    ensures Inv(ctx, World(Some(e), w.locals[call := local]))
  {
  }

  lemma AdvanceKeeps(ctx: Context, w: World, call: nat, now: real)
    requires Inv(ctx, w)
    ensures Inv(ctx, Apply(ctx, w, Advance(call, now)))
  {
    if call in w.locals && w.locals[call].Holding? {
      var e, local := w.record.value, w.locals[call];
      AttemptIsGood(ctx, e, local, now);
      var attempt := AttemptOf(ctx, local.copy, local.next, now);
      if attempt.Attempt? && e.status in attempt.expected {
        var saved := attempt.updated.(pending := ALL_PROJECTIONS);
        assert RecordOk(ctx, saved);
        Raised(ctx, w, saved, call, Syncing(saved, attempt.next));
      }
    }
  }

  lemma ProjectKeeps(ctx: Context, w: World, call: nat, failed: set<string>)
    requires Inv(ctx, w)
    ensures Inv(ctx, Apply(ctx, w, Project(call, failed)))
  {
    if call in w.locals && w.locals[call].Syncing? {
      var e, local := w.record.value, w.locals[call];
      var updated := local.copy.(pending := failed);
      assert RecordOk(ctx, updated);
      if Writes(w, local.copy, failed) {
        Raised(ctx, w, updated, call, Holding(updated, local.next));
      } else {
        Raised(ctx, w, e, call, if failed == local.copy.pending then Holding(updated, local.next)
                                else Holding(e, local.next));
      }
    }
  }

  lemma StepKeeps(ctx: Context, w: World, step: Step)
    requires Inv(ctx, w)
    ensures Inv(ctx, Apply(ctx, w, step))
  {
    match step
    case Advance(call, now) => AdvanceKeeps(ctx, w, call, now);
    case Project(call, failed) => ProjectKeeps(ctx, w, call, failed);
    case Repair(call) =>
      if w.record.Some? {
        var copy := w.record.value.(pending := {});
        assert RecordOk(ctx, copy);
      }
    case BeginReport(call, report) =>
      if w.record.Some? {
        var copy := w.record.value.(pending := {});
        assert RecordOk(ctx, copy);
      }
    case _ =>
  }

  /** In every reachable state of every interleaving the stored status tells the truth about the
      stored pre-check and dry-run, the latest manual report, the observation and the rollback, and
      the sandbox is entered only off production. */
  lemma {:induction false} EveryRunKeeps(ctx: Context, steps: seq<Step>)
    ensures Inv(ctx, Run(ctx, steps))
  {
    if steps != [] {
      EveryRunKeeps(ctx, steps[..|steps| - 1]);
      StepKeeps(ctx, Run(ctx, steps[..|steps| - 1]), steps[|steps| - 1]);
    }
  }

  /** The moves a stored status can make in one step. */
  predicate MayFollow(before: Status, after: Status) {
    match before
    case Created => after == PreCheckRunning
    case PreCheckRunning => after in {PreCheckFailed, DryRunRunning}
    case DryRunRunning => after in {DryRunFailed, DryRunCompleted, WaitingManual, SandboxExecuting, Escalated}
    case DryRunCompleted => after in {PreCheckFailed, WaitingManual, SandboxExecuting, Escalated}
    case SandboxExecuting => after == SandboxValidated
    case WaitingManual =>
      after in {Closed, RollbackRecommended, PartialSuccess, Status.RecoveryPending, Status.RolledBack,
                Status.RollbackFailed}
    case PartialSuccess =>
      after in {RollbackRecommended, Status.RecoveryPending, Status.RolledBack, Status.RollbackFailed}
    case RollbackRecommended => after in {Status.RecoveryPending, Status.RolledBack, Status.RollbackFailed}
    case RecoveryPending => after in {Closed, RollbackRecommended}
    case RolledBack => after == Status.RecoveryPending
    case RollbackFailed => after in {Status.RecoveryPending, Status.RolledBack}
    case _ => false
  }

  /** A report may be committed exactly where its outcome may follow. */
  lemma ReportFollowsIff(before: Status, report: Manual.ReportStatus)
    ensures before in SourceStatuses(report) <==> MayFollow(before, StatusFromReport(report))
  {
  }

  lemma AttemptMoves(ctx: Context, e: Execution, local: Local, now: real)
    requires RecordOk(ctx, e) && LocalOk(ctx, e, local)
    ensures
      var attempt := AttemptOf(ctx, local.copy, local.next, now);
      attempt.Attempt? && e.status in attempt.expected ==>
        MayFollow(e.status, attempt.updated.status) || (e.status == Escalated && attempt.updated.status == Escalated)
  {
    if local.next.Reporting? {
      ReportFollowsIff(e.status, local.next.report.status);
    }
  }

  lemma AdvanceMoves(ctx: Context, w: World, call: nat, now: real)
    requires Inv(ctx, w) && w.record.Some?
    ensures
      var after := Apply(ctx, w, Advance(call, now)).record;
      after.Some?
      && (after.value.status == w.record.value.status || MayFollow(w.record.value.status, after.value.status))
  {
    if call in w.locals && w.locals[call].Holding? {
      AttemptMoves(ctx, w.record.value, w.locals[call], now);
    }
  }

  lemma OthersStay(ctx: Context, w: World, step: Step)
    requires w.record.Some? && !step.Advance?
    ensures var after := Apply(ctx, w, step).record; after.Some? && after.value.status == w.record.value.status
  {
  }

  lemma EndsAreEnds(before: Status, after: Status)
    requires before in {PreCheckFailed, DryRunFailed, SandboxValidated, Escalated, Closed}
    ensures !MayFollow(before, after)
  {
  }

  /** Whatever the callers do, the stored status moves along these edges only; in particular nothing
      leads out of a failed pre-check, a failed dry-run, or a validated sandbox. */
  lemma StatusMoves(ctx: Context, steps: seq<Step>, step: Step)
    requires Run(ctx, steps).record.Some?
    ensures
      var before := Run(ctx, steps).record.value.status;
      var after := Apply(ctx, Run(ctx, steps), step).record;
      && after.Some? && (after.value.status == before || MayFollow(before, after.value.status))
      && (before in {PreCheckFailed, DryRunFailed, SandboxValidated, Escalated, Closed} ==>
            after.value.status == before)
  {
    EveryRunKeeps(ctx, steps);
    var w := Run(ctx, steps);
    var before := w.record.value.status;
    if step.Advance? {
      AdvanceMoves(ctx, w, step.call, step.now);
    } else {
      OthersStay(ctx, w, step);
    }
    if before in {PreCheckFailed, DryRunFailed, SandboxValidated, Escalated, Closed} {
      EndsAreEnds(before, Apply(ctx, w, step).record.value.status);
    }
  }

  // ------------------------------------------------------- what the plan itself must be

  /** The context of an approved plan. */
  function ContextOf(approval: ApprovalRequest, plan: ChangePlan, ids: nat -> string, render: Json -> string): Context {
    Context(now => PreCheckHolds(Checked(approval, plan, now)),
            DryRunHolds(plan, PlanSteps(plan, ids), render),
            NonProduction(plan),
            set i | 0 <= i < |plan.steps| :: plan.steps[i].stepId)
  }

  lemma NextStatusMatches(mode: Mode, plan: ChangePlan)
    ensures NextStatus(mode, NonProduction(plan)) ==
            match StatusAfterDryRun(mode, plan)
            case Completed => DryRunCompleted
            case WaitingForManual => WaitingManual
            case InSandbox => SandboxExecuting
            case Escalates => Escalated
  {
    SandboxIffNonProduction(mode, plan);
  }

  /** An execution that got past its dry-run belongs to a plan that, when it was checked, met every
      pre-check and dry-run condition; one in the sandbox, to a plan for a known non-production
      environment. */
  lemma PastDryRunIsApproved(approval: ApprovalRequest, plan: ChangePlan, ids: nat -> string,
                             render: Json -> string, steps: seq<Step>)
    requires Run(ContextOf(approval, plan, ids, render), steps).record.Some?
    ensures
      var e := Run(ContextOf(approval, plan, ids, render), steps).record.value;
      && (Phase(e.status) >= 3 && e.status !in {PreCheckFailed, DryRunFailed} ==>
            && e.preCheck.Some? && PreCheckHolds(Checked(approval, plan, e.preCheck.value.at))
            && DryRunHolds(plan, PlanSteps(plan, ids), render))
      && (e.status in {SandboxExecuting, SandboxValidated} ==> NonProduction(plan))
  {
    EveryRunKeeps(ContextOf(approval, plan, ids, render), steps);
  }

  // --------------------------------------------------------------- projection saves

  predicate SameFact(a: Execution, b: Execution) { a.(pending := {}) == b.(pending := {}) }

  /** A repair that succeeds is not stored: the pending projections stay as they were, and only what
      failed replaces them. */
  lemma CleanRepairIsNotStored(ctx: Context, w: World, call: nat, failed: set<string>)
    requires w.record.Some? && call !in w.locals && w.record.value.pending != {}
    ensures
      var after := Apply(ctx, Apply(ctx, w, Repair(call)), Project(call, failed)).record;
      after == if failed == {} then w.record else Some(w.record.value.(pending := failed))
  {
  }

  /** A read repairs exactly what has projections pending, and stores nothing by itself. */
  lemma RepairsIff(ctx: Context, w: World, call: nat)
    requires w.record.Some? && call !in w.locals
    ensures
      var after := Apply(ctx, w, Repair(call));
      && after.record == w.record
      && (call in after.locals <==> w.record.value.pending != {})
      && (call in after.locals ==> after.locals == w.locals[call := Syncing(w.record.value.(pending := {}), Finished)])
  {
  }

  /** A report recorded from a stale copy loses those recorded in between: the stored result becomes
      that of all reports so far exactly when the copy has the same latest report and the same
      nineteen before it. */
  lemma ReportKeepsHistoryIff(ctx: Context, w: World, call: nat, now: real, report: Manual.Report)
    requires w.record.Some? && call in w.locals && w.locals[call] == Holding(w.locals[call].copy, Reporting(report))
    requires ctx.holds(now) && Manual.Acceptable(ctx.steps, report)
    requires w.locals[call].copy.status in SourceStatuses(report.status)
             && w.record.value.status in SourceStatuses(report.status)
    ensures
      var after := Apply(ctx, w, Advance(call, now)).record;
      && after.Some?
      && (after.value.manual == Manual.Push(w.record.value.manual, report) <==>
            Manual.SamePast(w.locals[call].copy.manual, w.record.value.manual))
  {
    Manual.PushSameIff(w.locals[call].copy.manual, w.record.value.manual, report);
  }
}
