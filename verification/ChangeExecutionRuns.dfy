/** Facts of an execution that some runs lose: what callers may ask for, and how many of them ask at
    once, decides exactly whether any run can. */
module ChangeExecutionRuns {

  import opened ChangePlans
  import opened ChangeChecks
  import opened ChangeExecutions
  import opened Basics
  import Manual = ManualResults

  /** What callers may do: the modes of start calls, the outcomes of manual reports, and who calls.
      One caller makes one call at a time, and any of them may be cut off. */
  datatype Usage = Usage(modes: set<Mode>, reports: set<Manual.ReportStatus>, calls: set<nat>)

  predicate Follows(step: Step, use: Usage) {
    && step.call in use.calls
    && (step.Start? ==> step.mode in use.modes)
    && (step.BeginReport? ==> step.report.status in use.reports)
  }

  predicate RunFollows(steps: seq<Step>, use: Usage) { forall i :: 0 <= i < |steps| ==> Follows(steps[i], use) }

  predicate OneCaller(use: Usage) { forall c, d :: c in use.calls && d in use.calls ==> c == d }

  // ---------------------------------------------------------------- how runs are built

  /** `w` is reached by a run that keeps to the usage. */
  predicate Reaches(ctx: Context, use: Usage, steps: seq<Step>, w: World) {
    RunFollows(steps, use) && Run(ctx, steps) == w
  }

  lemma Extend(ctx: Context, use: Usage, steps: seq<Step>, w: World, step: Step, v: World) returns (longer: seq<Step>)
    requires Reaches(ctx, use, steps, w) && Follows(step, use) && Apply(ctx, w, step) == v
    ensures Reaches(ctx, use, longer, v) && longer == steps + [step]
  {
    longer := steps + [step];
    assert longer[..|longer| - 1] == steps;
  }

  function One(call: nat, local: Local): map<nat, Local> { map[call := local] }

  /** Commits the next step of a call that is alone, and syncs it. */
  lemma CommitAndSync(ctx: Context, use: Usage, steps: seq<Step>, call: nat, copy: Execution, next: Next, now: real)
    returns (longer: seq<Step>)
    requires Reaches(ctx, use, steps, World(Some(copy), One(call, Holding(copy, next)))) && call in use.calls
    requires AttemptOf(ctx, copy, next, now).Attempt? && copy.status in AttemptOf(ctx, copy, next, now).expected
    ensures
      var attempt := AttemptOf(ctx, copy, next, now);
      var e := attempt.updated.(pending := {});
      Reaches(ctx, use, longer, World(Some(e), One(call, Holding(e, attempt.next))))
      && longer == steps + [Advance(call, now)] + [Project(call, {})]
  {
    var attempt := AttemptOf(ctx, copy, next, now);
    var e := attempt.updated.(pending := ALL_PROJECTIONS);
    var w := World(Some(copy), One(call, Holding(copy, next)));
    var v := World(Some(e), One(call, Syncing(e, attempt.next)));
    assert Apply(ctx, w, Advance(call, now)).locals == v.locals;
    longer := Extend(ctx, use, steps, w, Advance(call, now), v);
    var synced := e.(pending := {});
    var u := World(Some(synced), One(call, Holding(synced, attempt.next)));
    assert Apply(ctx, v, Project(call, {})).locals == u.locals;
    longer := Extend(ctx, use, longer, v, Project(call, {}), u);
  }

  /** An execution created under one mode and carried on under another. */
  function Created(mode: Mode): Execution { NewExecution(mode) }

  function Checking(mode: Mode): Execution { NewExecution(mode).(status := PreCheckRunning) }

  function DryRunReady(mode: Mode, now: real): Execution {
    Checking(mode).(status := Status.DryRunRunning, preCheck := Some(PreCheck(true, now)))
  }

  /** A call that found a created execution, up to the point where its dry-run is about to be saved. */
  lemma ReachDryRunFrom(ctx: Context, use: Usage, start: seq<Step>, call: nat, stored: Mode, mode: Mode, now: real)
    returns (steps: seq<Step>)
    requires ctx.holds(now) && call in use.calls
    requires Reaches(ctx, use, start, World(Some(Created(stored)), One(call, Holding(Created(stored), Found(mode)))))
    ensures Reaches(ctx, use, steps,
              World(Some(DryRunReady(stored, now)), One(call, Holding(DryRunReady(stored, now), DryRunning(mode)))))
    ensures Committed(ctx, steps) == Committed(ctx, start)
  {
    var first := CommitAndSync(ctx, use, start, call, Created(stored), Found(mode), now);
    NothingCommitted(ctx, start, first, call, now, Found(mode));
    steps := CommitAndSync(ctx, use, first, call, Checking(stored), PreChecking(mode), now);
    NothingCommitted(ctx, first, steps, call, now, PreChecking(mode));
  }

  lemma ReachDryRun(ctx: Context, use: Usage, call: nat, mode: Mode, now: real) returns (steps: seq<Step>)
    requires ctx.holds(now) && mode in use.modes && call in use.calls
    ensures Reaches(ctx, use, steps,
              World(Some(DryRunReady(mode, now)), One(call, Holding(DryRunReady(mode, now), DryRunning(mode)))))
    ensures Committed(ctx, steps) == []
  {
    var start := ReachCreated(ctx, use, call, mode);
    steps := ReachDryRunFrom(ctx, use, start, call, mode, mode, now);
  }

  /** A call is cut off, and its copy is gone. */
  lemma ReachCrash(ctx: Context, use: Usage, steps: seq<Step>, w: World, call: nat) returns (longer: seq<Step>)
    requires Reaches(ctx, use, steps, w) && call in use.calls
    ensures Reaches(ctx, use, longer, Drop(w, call)) && Committed(ctx, longer) == Committed(ctx, steps)
  {
    CommittedSnoc(ctx, steps, Crash(call));
    longer := Extend(ctx, use, steps, w, Crash(call), Drop(w, call));
  }

  lemma ReachCreated(ctx: Context, use: Usage, call: nat, mode: Mode) returns (steps: seq<Step>)
    requires mode in use.modes && call in use.calls
    ensures Reaches(ctx, use, steps, World(Some(Created(mode)), One(call, Holding(Created(mode), Found(mode)))))
    ensures Committed(ctx, steps) == []
  {
    var w := World(Some(Created(mode)), One(call, Holding(Created(mode), Found(mode))));
    assert Apply(ctx, EMPTY, Start(call, mode)).locals == w.locals;
    steps := Extend(ctx, use, [], EMPTY, Start(call, mode), w);
    assert steps[..0] == [] && Committed(ctx, steps) == [];
  }

  /** The next call finds what an earlier one has created. */
  lemma ReachFound(ctx: Context, use: Usage, steps: seq<Step>, call: nat, e: Execution, mode: Mode)
    returns (longer: seq<Step>)
    requires Reaches(ctx, use, steps, World(Some(e), map[])) && mode in use.modes && call in use.calls
    ensures Reaches(ctx, use, longer, World(Some(e), One(call, Holding(e, Found(mode)))))
  {
    var found := World(Some(e), One(call, Holding(e, Found(mode))));
    assert Apply(ctx, World(Some(e), map[]), Start(call, mode)).locals == found.locals;
    longer := Extend(ctx, use, steps, World(Some(e), map[]), Start(call, mode), found);
  }

  // ----------------------------------------------------- the reports that a run commits

  /** The step commits a manual report: the call goes on after saving it. */
  predicate Commits(ctx: Context, w: World, step: Step) {
    && step.Advance? && step.call in w.locals && w.locals[step.call].Holding? && w.locals[step.call].next.Reporting?
    && step.call in Apply(ctx, w, step).locals
  }

  /** The manual reports committed in a run, in order. */
  function Committed(ctx: Context, steps: seq<Step>): seq<Manual.Report> {
    if steps == [] then []
    else
      var init, last := steps[..|steps| - 1], steps[|steps| - 1];
      var w := Run(ctx, init);
      Committed(ctx, init) + if Commits(ctx, w, last) then [w.locals[last.call].next.report] else []
  }

  lemma CommittedSnoc(ctx: Context, steps: seq<Step>, step: Step)
    ensures
      var w := Run(ctx, steps);
      Committed(ctx, steps + [step]) ==
        Committed(ctx, steps) + if Commits(ctx, w, step) then [w.locals[step.call].next.report] else []
  {
    assert (steps + [step])[..|steps|] == steps;
  }

  /** In every run a report is committed exactly when its outcome may follow the status its call has
      read and the one stored now, the plan still holds, and it says what its outcome requires about
      the approved steps.  A refused one changes nothing. */
  lemma CommitsIff(ctx: Context, steps: seq<Step>, call: nat, now: real)
    requires call in Run(ctx, steps).locals && Run(ctx, steps).locals[call].Holding?
    requires Run(ctx, steps).locals[call].next.Reporting?
    ensures
      var w := Run(ctx, steps);
      var report := w.locals[call].next.report;
      && w.record.Some?
      && (Commits(ctx, w, Advance(call, now)) <==>
            && MayFollow(w.locals[call].copy.status, StatusFromReport(report.status))
            && MayFollow(w.record.value.status, StatusFromReport(report.status))
            && ctx.holds(now) && Manual.Acceptable(ctx.steps, report))
      && (!Commits(ctx, w, Advance(call, now)) ==> Apply(ctx, w, Advance(call, now)) == Drop(w, call))
  {
    EveryRunKeeps(ctx, steps);
    var w := Run(ctx, steps);
    ReportFollowsIff(w.locals[call].copy.status, w.locals[call].next.report.status);
    ReportFollowsIff(w.record.value.status, w.locals[call].next.report.status);
  }

  /** What a committed report leaves stored: it stands on top of the reports the call had read, and
      the mode and the checks stay those of its copy. */
  lemma CommitStores(ctx: Context, steps: seq<Step>, call: nat, now: real)
    requires Commits(ctx, Run(ctx, steps), Advance(call, now))
    ensures
      var w := Run(ctx, steps);
      var copy, report := w.locals[call].copy, w.locals[call].next.report;
      var after := Apply(ctx, w, Advance(call, now)).record;
      && after.Some? && LastReport(ctx, after.value, report.status)
      && after.value.manual == Manual.Push(copy.manual, report)
      && after.value.pending == {"incident_state", "report", "trace"}
      && after.value.mode == copy.mode && after.value.preCheck == copy.preCheck && after.value.dryRun == copy.dryRun
  {
    EveryRunKeeps(ctx, steps);
  }

  /** A call that carries on a completed dry-run stores the mode it was asked for; no other start of a
      call changes the mode. */
  lemma ResumedModeIsStored(ctx: Context, w: World, call: nat, now: real)
    requires w.record.Some? && call in w.locals && w.locals[call].Holding? && w.locals[call].next.Found?
    requires call in Apply(ctx, w, Advance(call, now)).locals
    ensures
      var after := Apply(ctx, w, Advance(call, now)).record;
      && after.Some?
      && after.value.mode == if after.value.status in {PreCheckRunning, PreCheckFailed} then w.locals[call].copy.mode
                             else w.locals[call].next.mode
  {
  }

  predicate CommitsAt(ctx: Context, steps: seq<Step>, i: nat) {
    i < |steps| && Commits(ctx, Run(ctx, steps[..i]), steps[i])
  }

  /** Every report that a run commits is acceptable, and is committed while the plan holds. */
  lemma CommittedWasChecked(ctx: Context, steps: seq<Step>, i: nat)
    requires CommitsAt(ctx, steps, i)
    ensures
      var w := Run(ctx, steps[..i]);
      var report := w.locals[steps[i].call].next.report;
      && Manual.Acceptable(ctx.steps, report) && ctx.holds(steps[i].now)
      && w.record.Some? && MayFollow(w.record.value.status, StatusFromReport(report.status))
  {
    CommitsIff(ctx, steps[..i], steps[i].call, steps[i].now);
  }

  lemma {:induction false} CommittedAreAcceptable(ctx: Context, steps: seq<Step>)
    ensures forall r :: r in Committed(ctx, steps) ==> Manual.Acceptable(ctx.steps, r)
  {
    if steps != [] {
      var n := |steps| - 1;
      CommittedAreAcceptable(ctx, steps[..n]);
      if Commits(ctx, Run(ctx, steps[..n]), steps[n]) {
        CommittedWasChecked(ctx, steps, n);
      }
    }
  }

  /** An execution is closed only by an acceptable report of success, and then each approved step has
      exactly one result, which is a success. */
  lemma ClosedMeansSucceeded(ctx: Context, steps: seq<Step>)
    requires Run(ctx, steps).record.Some? && Run(ctx, steps).record.value.status == Closed
    ensures
      var e := Run(ctx, steps).record.value;
      && e.manual.Latest? && e.manual.report.status == Manual.Succeeded && Manual.Acceptable(ctx.steps, e.manual.report)
      && (ctx.steps != {} ==> |e.manual.report.results| == |ctx.steps|)
      && (ctx.steps != {} ==> Manual.AllAre(e.manual.report.results, Manual.StepSucceeded))
  {
    EveryRunKeeps(ctx, steps);
    if ctx.steps != {} {
      Manual.AcceptedIsBijection(ctx.steps, Run(ctx, steps).record.value.manual.report);
    }
  }

  /** Committing anything but a report, and syncing it, commits no report. */
  lemma NothingCommitted(ctx: Context, steps: seq<Step>, longer: seq<Step>, call: nat, now: real, next: Next)
    requires longer == steps + [Advance(call, now)] + [Project(call, {})] && !next.Reporting?
    requires call in Run(ctx, steps).locals && Run(ctx, steps).locals[call].next == next
    ensures Committed(ctx, longer) == Committed(ctx, steps)
  {
    CommittedSnoc(ctx, steps, Advance(call, now));
    CommittedSnoc(ctx, steps + [Advance(call, now)], Project(call, {}));
  }

  /** A report up to its commit: it holds a copy of what is stored. */
  lemma ReachLoaded(ctx: Context, use: Usage, steps: seq<Step>, w: World, call: nat, report: Manual.Report)
    returns (longer: seq<Step>)
    requires Reaches(ctx, use, steps, w) && w.record.Some? && call !in w.locals && call in use.calls
    requires report.status in use.reports
    ensures
      var copy := w.record.value.(pending := {});
      Reaches(ctx, use, longer, World(w.record, w.locals[call := Holding(copy, Reporting(report))]))
    ensures Committed(ctx, longer) == Committed(ctx, steps)
  {
    var copy := w.record.value.(pending := {});
    var v := Apply(ctx, w, BeginReport(call, report));
    longer := Extend(ctx, use, steps, w, BeginReport(call, report), v);
    CommittedSnoc(ctx, steps, BeginReport(call, report));
    var u := World(w.record, w.locals[call := Holding(copy, Reporting(report))]);
    if w.record.value.pending != {} {
      CommittedSnoc(ctx, longer, Project(call, {}));
      assert Apply(ctx, v, Project(call, {})).locals == u.locals;
      longer := Extend(ctx, use, longer, v, Project(call, {}), u);
    }
  }

  /** Its commit, with its projections still to be synced: from the copy, whatever is stored now. */
  lemma ReachCommit(ctx: Context, use: Usage, steps: seq<Step>, w: World, call: nat, copy: Execution,
                    report: Manual.Report, now: real)
    returns (longer: seq<Step>)
    requires Reaches(ctx, use, steps, w) && call in use.calls && ctx.holds(now) && Manual.Acceptable(ctx.steps, report)
    requires call in w.locals && w.locals[call] == Holding(copy, Reporting(report)) && w.record.Some?
    requires copy.status in SourceStatuses(report.status) && w.record.value.status in SourceStatuses(report.status)
    ensures
      var e := Recorded(copy, report);
      Reaches(ctx, use, longer, World(Some(e), w.locals[call := Syncing(e, Finished)]))
    ensures Committed(ctx, longer) == Committed(ctx, steps) + [report]
  {
    var e := Recorded(copy, report);
    CommittedSnoc(ctx, steps, Advance(call, now));
    longer := Extend(ctx, use, steps, w, Advance(call, now), World(Some(e), w.locals[call := Syncing(e, Finished)]));
  }

  /** A report from loading to its commit. */
  lemma ReachReport(ctx: Context, use: Usage, steps: seq<Step>, w: World, call: nat, report: Manual.Report, now: real)
    returns (longer: seq<Step>)
    requires Reaches(ctx, use, steps, w) && w.record.Some? && call !in w.locals && call in use.calls && ctx.holds(now)
    requires report.status in use.reports && w.record.value.status in SourceStatuses(report.status)
    requires Manual.Acceptable(ctx.steps, report)
    ensures
      var e := Recorded(w.record.value, report);
      Reaches(ctx, use, longer, World(Some(e), w.locals[call := Syncing(e, Finished)]))
    ensures Committed(ctx, longer) == Committed(ctx, steps) + [report]
  {
    var copy := w.record.value.(pending := {});
    var loaded := World(w.record, w.locals[call := Holding(copy, Reporting(report))]);
    longer := ReachLoaded(ctx, use, steps, w, call, report);
    longer := ReachCommit(ctx, use, longer, loaded, call, copy, report, now);
    var e := Recorded(copy, report);
    assert e == Recorded(w.record.value, report);
    assert loaded.locals[call := Syncing(e, Finished)] == w.locals[call := Syncing(e, Finished)];
  }

  /** In any run an acceptable report by a new call can be committed wherever its outcome may follow. */
  lemma AcceptableIsCommitted(ctx: Context, use: Usage, steps: seq<Step>, call: nat, report: Manual.Report, now: real)
    returns (longer: seq<Step>)
    requires RunFollows(steps, use) && call in use.calls && report.status in use.reports
    requires Run(ctx, steps).record.Some? && call !in Run(ctx, steps).locals
    requires MayFollow(Run(ctx, steps).record.value.status, StatusFromReport(report.status))
    requires ctx.holds(now) && Manual.Acceptable(ctx.steps, report)
    ensures RunFollows(longer, use) && Committed(ctx, longer) == Committed(ctx, steps) + [report]
    ensures Run(ctx, longer).record.Some?
    ensures Run(ctx, longer).record.value.manual == Manual.Push(Run(ctx, steps).record.value.manual, report)
    ensures LastReport(ctx, Run(ctx, longer).record.value, report.status)
  {
    ReportFollowsIff(Run(ctx, steps).record.value.status, report.status);
    longer := ReachReport(ctx, use, steps, Run(ctx, steps), call, report, now);
  }

  predicate ManualFrom(m: Manual.ManualRecord, reports: seq<Manual.Report>) {
    m.Latest? ==> m.report in reports && forall r :: r in m.history ==> r in reports
  }

  lemma PushFrom(m: Manual.ManualRecord, report: Manual.Report, reports: seq<Manual.Report>)
    requires ManualFrom(m, reports)
    ensures ManualFrom(Manual.Push(m, report), reports + [report])
  {
    assert report in reports + [report];
    if m.Latest? {
      forall r | r in Manual.Push(m, report).history ensures r in reports + [report] {
        assert r in m.history + [m.report];
      }
    }
  }

  predicate AllManualFrom(w: World, reports: seq<Manual.Report>) {
    && (w.record.None? ==> w.locals == map[])
    && (w.record.Some? ==> ManualFrom(w.record.value.manual, reports))
    && forall c :: c in w.locals ==> ManualFrom(w.locals[c].copy.manual, reports)
  }

  lemma StepManualFrom(ctx: Context, w: World, step: Step, reports: seq<Manual.Report>)
    requires AllManualFrom(w, reports)
    ensures AllManualFrom(Apply(ctx, w, step),
              reports + if Commits(ctx, w, step) then [w.locals[step.call].next.report] else [])
  {
    if Commits(ctx, w, step) {
      var local := w.locals[step.call];
      PushFrom(local.copy.manual, local.next.report, reports);
      AttemptManual(ctx, local.copy, local.next, step.now);
      assert forall m: Manual.ManualRecord :: ManualFrom(m, reports) ==> ManualFrom(m, reports + [local.next.report]);
    } else {
      assert reports + [] == reports;
      if step.Advance? && step.call in w.locals && w.locals[step.call].Holding? {
        AttemptManual(ctx, w.locals[step.call].copy, w.locals[step.call].next, step.now);
      }
    }
  }

  /** Nothing is stored as a manual report that the run did not commit. */
  lemma {:induction false} StoredWasCommitted(ctx: Context, steps: seq<Step>)
    ensures AllManualFrom(Run(ctx, steps), Committed(ctx, steps))
  {
    if steps != [] {
      StoredWasCommitted(ctx, steps[..|steps| - 1]);
      StepManualFrom(ctx, Run(ctx, steps[..|steps| - 1]), steps[|steps| - 1], Committed(ctx, steps[..|steps| - 1]));
    }
  }

  function Waiting(now: real): Execution { DryRunReady(ManualRecord, now).(status := WaitingManual,
                   dryRun := Some(true)) }

  /** An execution that waits for its manual result, with nobody holding a copy. */
  lemma ReachWaiting(ctx: Context, use: Usage, call: nat, now: real) returns (steps: seq<Step>)
    requires ctx.holds(now) && ctx.dryRunPasses && ManualRecord in use.modes && call in use.calls
    ensures Reaches(ctx, use, steps, World(Some(Waiting(now)), map[])) && Committed(ctx, steps) == []
  {
    var before := ReachDryRun(ctx, use, call, ManualRecord, now);
    var ready := DryRunReady(ManualRecord, now);
    steps := CommitAndSync(ctx, use, before, call, ready, DryRunning(ManualRecord), now);
    NothingCommitted(ctx, before, steps, call, now, DryRunning(ManualRecord));
    var w := World(Some(Waiting(now)), One(call, Holding(Waiting(now), Finished)));
    assert Drop(w, call).locals == map[];
    steps := ReachCrash(ctx, use, steps, w, call);
  }

  // ----------------------------------------------------------------------- one caller

  /** The only copy there is, if any, is that of the one caller, and it is up to date. */
  predicate Solo(w: World, call: nat) {
    && w.locals.Keys <= {call}
    && (call in w.locals ==> w.record.Some? && SameFact(w.locals[call].copy, w.record.value))
  }

  lemma SoloStep(ctx: Context, w: World, step: Step, call: nat)
    requires Solo(w, call) && step.call == call
    ensures Solo(Apply(ctx, w, step), call)
    ensures step.Project? && w.record.Some? ==>
              Apply(ctx, w, step).record.Some? && SameFact(Apply(ctx, w, step).record.value, w.record.value)
  {
  }

  lemma {:induction false} SoloRun(ctx: Context, use: Usage, steps: seq<Step>, call: nat)
    requires RunFollows(steps, use) && OneCaller(use) && call in use.calls
    ensures Solo(Run(ctx, steps), call)
  {
    if steps != [] {
      SoloRun(ctx, use, steps[..|steps| - 1], call);
      SoloStep(ctx, Run(ctx, steps[..|steps| - 1]), steps[|steps| - 1], call);
    }
  }

  // --------------------------------------------------------- syncs that change a fact

  /** An order along which the status moves unless a recovery that is pending can be reported failed,
      or a sandbox run can escalate. */
  function Order(status: Status): nat {
    match status
    case Created => 0
    case PreCheckRunning => 1
    case DryRunRunning => 2
    case DryRunCompleted => 3
    case SandboxExecuting => 4
    case WaitingManual => 5
    case PartialSuccess => 6
    case RollbackRecommended => 7
    case RollbackFailed => 8
    case RolledBack => 9
    case RecoveryPending => 10
    case _ => 11
  }

  /** Neither can a pending recovery be reported failed, nor a sandbox run escalate. */
  predicate InOrder(ctx: Context, use: Usage) {
    && !(ManualRecord in use.modes && Manual.Failed in use.reports && Manual.RecoveryPending in use.reports)
    && (ctx.nonProduction || Sandbox !in use.modes)
  }

  predicate UpToDate(e: Execution, local: Local) {
    Order(local.copy.status) < Order(e.status) || SameFact(local.copy, e)
  }

  predicate NextFollows(next: Next, use: Usage) {
    match next
    case Found(mode) => mode in use.modes
    case PreChecking(mode) => mode in use.modes
    case DryRunning(mode) => mode in use.modes
    case InSandboxRun => Sandbox in use.modes
    case Reporting(report) => report.status in use.reports
    case Finished => true
  }

  /** Waits for a manual result, or has one. */
  predicate AwaitsReport(status: Status) {
    status in {WaitingManual, PartialSuccess, RollbackRecommended, RollbackFailed, RolledBack, Status.RecoveryPending}
  }

  predicate StatusFollows(status: Status, use: Usage) {
    && status != Escalated && (AwaitsReport(status) ==> ManualRecord in use.modes)
    && (status == Status.RecoveryPending ==> Manual.RecoveryPending in use.reports)
  }

  predicate Forward(ctx: Context, use: Usage, w: World) {
    && Inv(ctx, w)
    && (w.record.Some? ==> StatusFollows(w.record.value.status, use))
    && (w.record.Some? ==> forall c :: c in w.locals ==>
          UpToDate(w.record.value, w.locals[c]) && NextFollows(w.locals[c].next, use))
  }

  /** What a save leaves behind is further on, and still within what callers may ask for. */
  predicate Rises(e: Execution, attempt: Attempt, use: Usage) {
    attempt.Attempt? && e.status in attempt.expected ==>
      Order(e.status) < Order(attempt.updated.status) && StatusFollows(attempt.updated.status, use)
      && NextFollows(attempt.next, use)
  }

  lemma ChecksRise(ctx: Context, use: Usage, e: Execution, copy: Execution, mode: Mode, now: real)
    requires InOrder(ctx, use) && StatusFollows(e.status, use) && mode in use.modes
    ensures Rises(e, ResumeAttempt(ctx, copy, mode, now), use)
    ensures Rises(e, PreCheckAttempt(ctx, copy, mode, now), use)
    ensures Rises(e, DryRunAttempt(ctx, copy, mode), use)
    ensures Rises(e, SandboxAttempt(copy), use)
  {
  }

  lemma ReportRises(ctx: Context, use: Usage, e: Execution, copy: Execution, report: Manual.Report, now: real)
    requires InOrder(ctx, use) && StatusFollows(e.status, use) && report.status in use.reports
    ensures Rises(e, ReportAttempt(ctx, copy, report, now), use)
  {
  }

  lemma AttemptRises(ctx: Context, use: Usage, e: Execution, local: Local, now: real)
    requires InOrder(ctx, use) && StatusFollows(e.status, use) && NextFollows(local.next, use)
    ensures Rises(e, AttemptOf(ctx, local.copy, local.next, now), use)
  {
    match local.next
    case Found(mode) => ChecksRise(ctx, use, e, local.copy, mode, now);
    case PreChecking(mode) => ChecksRise(ctx, use, e, local.copy, mode, now);
    case DryRunning(mode) => ChecksRise(ctx, use, e, local.copy, mode, now);
    case InSandboxRun => ChecksRise(ctx, use, e, local.copy, Sandbox, now);
    case Reporting(report) => ReportRises(ctx, use, e, local.copy, report, now);
    case Finished =>
  }

  lemma AdvanceForward(ctx: Context, use: Usage, w: World, call: nat, now: real)
    requires InOrder(ctx, use) && Forward(ctx, use, w) && call in w.locals && w.locals[call].Holding? && w.record.Some?
    ensures Forward(ctx, use, Apply(ctx, w, Advance(call, now)))
  {
    StepKeeps(ctx, w, Advance(call, now));
    AttemptRises(ctx, use, w.record.value, w.locals[call], now);
    var attempt := AttemptOf(ctx, w.locals[call].copy, w.locals[call].next, now);
    if attempt.Attempt? && w.record.value.status in attempt.expected {
      var e := attempt.updated.(pending := ALL_PROJECTIONS);
      forall c | c in w.locals && c != call ensures UpToDate(e, w.locals[c]) {
        assert UpToDate(w.record.value, w.locals[c]);
      }
    }
  }

  lemma ProjectForward(ctx: Context, use: Usage, w: World, call: nat, failed: set<string>)
    requires Forward(ctx, use, w) && w.record.Some?
    ensures Forward(ctx, use, Apply(ctx, w, Project(call, failed)))
    ensures Apply(ctx, w, Project(call, failed)).record.Some?
    ensures SameFact(Apply(ctx, w, Project(call, failed)).record.value, w.record.value)
  {
    StepKeeps(ctx, w, Project(call, failed));
    if call in w.locals && w.locals[call].Syncing? {
      assert UpToDate(w.record.value, w.locals[call]) && NextFollows(w.locals[call].next, use);
      var after := Apply(ctx, w, Project(call, failed));
      assert SameFact(after.record.value, w.record.value);
      forall c | c in after.locals
        ensures UpToDate(after.record.value, after.locals[c]) && NextFollows(after.locals[c].next, use)
      {
        assert c != call ==> UpToDate(w.record.value, w.locals[c]) && NextFollows(w.locals[c].next, use);
      }
    }
  }

  /** Loading a copy, or losing one. */
  lemma ReadForward(ctx: Context, use: Usage, w: World, step: Step)
    requires Forward(ctx, use, w) && Follows(step, use) && w.record.Some? && !step.Advance? && !step.Project?
    requires Inv(ctx, Apply(ctx, w, step))
    ensures Forward(ctx, use, Apply(ctx, w, step))
  {
  }

  lemma StepKeepsForward(ctx: Context, use: Usage, w: World, step: Step)
    requires InOrder(ctx, use) && Forward(ctx, use, w) && Follows(step, use)
    ensures Forward(ctx, use, Apply(ctx, w, step))
  {
    StepKeeps(ctx, w, step);
    if w.record.Some? {
      match step
      case Advance(call, now) =>
        if call in w.locals && w.locals[call].Holding? {
          AdvanceForward(ctx, use, w, call, now);
        }
      case Project(call, failed) => ProjectForward(ctx, use, w, call, failed);
      case _ => ReadForward(ctx, use, w, step);
    }
  }

  lemma {:induction false} ForwardRun(ctx: Context, use: Usage, steps: seq<Step>)
    requires InOrder(ctx, use) && RunFollows(steps, use)
    ensures Forward(ctx, use, Run(ctx, steps))
  {
    if steps != [] {
      ForwardRun(ctx, use, steps[..|steps| - 1]);
      StepKeepsForward(ctx, use, Run(ctx, steps[..|steps| - 1]), steps[|steps| - 1]);
    }
  }

  /** Syncing projections after this run changes nothing but which projections are pending. */
  predicate SyncIsHarmless(ctx: Context, steps: seq<Step>, call: nat, failed: set<string>) {
    Run(ctx, steps).record.Some? ==>
      var after := Apply(ctx, Run(ctx, steps), Project(call, failed)).record;
      after.Some? && SameFact(after.value, Run(ctx, steps).record.value)
  }

  ghost predicate SyncsAreHarmless(ctx: Context, use: Usage) {
    forall steps, call: nat, failed: set<string> ::
      RunFollows(steps, use) && call in use.calls ==> SyncIsHarmless(ctx, steps, call, failed)
  }

  /** Over every run of callers that keep to a usage, syncing projections — by whom and however late —
      changes no fact, exactly when there is one caller, or a pending recovery cannot be reported
      failed and a sandbox run cannot escalate. */
  lemma SyncsAreHarmlessIff(ctx: Context, use: Usage, now: real)
    requires ctx.holds(now) && ctx.dryRunPasses
    ensures SyncsAreHarmless(ctx, use) <==> OneCaller(use) || InOrder(ctx, use)
  {
    if OneCaller(use) || InOrder(ctx, use) {
      forall steps, call: nat, failed: set<string> | RunFollows(steps, use) && call in use.calls
        ensures SyncIsHarmless(ctx, steps, call, failed)
      {
        SyncHarmless(ctx, use, steps, call, failed);
      }
    } else {
      var c, d :| c in use.calls && d in use.calls && c != d;
      if ManualRecord in use.modes && Manual.Failed in use.reports && Manual.RecoveryPending in use.reports {
        var steps := LateSyncErasesReports(ctx, use, c, d, now);
        assert !SyncIsHarmless(ctx, steps, c, {});
      } else {
        var steps := LateRepairErasesRollback(ctx, use, c, d, now);
        assert !SyncIsHarmless(ctx, steps, c, {"trace"});
      }
    }
  }

  lemma SyncHarmless(ctx: Context, use: Usage, steps: seq<Step>, call: nat, failed: set<string>)
    requires OneCaller(use) || InOrder(ctx, use)
    requires RunFollows(steps, use) && call in use.calls
    ensures SyncIsHarmless(ctx, steps, call, failed)
  {
    if OneCaller(use) {
      SoloRun(ctx, use, steps, call);
      SoloStep(ctx, Run(ctx, steps), Project(call, failed), call);
    } else {
      ForwardRun(ctx, use, steps);
      if Run(ctx, steps).record.Some? {
        ProjectForward(ctx, use, Run(ctx, steps), call, failed);
      }
    }
  }

  /** Three reports, the first one's sync delayed until the status has come round: the two recorded
      after it are erased. */
  lemma LateSyncErasesReports(ctx: Context, use: Usage, c: nat, d: nat, now: real) returns (steps: seq<Step>)
    requires ctx.holds(now) && ctx.dryRunPasses && ManualRecord in use.modes
    requires Manual.Failed in use.reports && Manual.RecoveryPending in use.reports
    requires c in use.calls && d in use.calls && c != d
    ensures RunFollows(steps, use) && Run(ctx, steps).record.Some?
    ensures var after := Apply(ctx, Run(ctx, steps), Project(c, {})).record;
            after.Some? && !SameFact(after.value, Run(ctx, steps).record.value)
  {
    var recovery, failure := Manual.Report(Manual.RecoveryPending, [], ""), Manual.Report(Manual.Failed, [], "");
    steps := ReachWaiting(ctx, use, d, now);
    var e1 := Recorded(Waiting(now), recovery);
    var e2 := Recorded(e1, failure);
    var e3 := Recorded(e2, recovery);
    var late := One(c, Syncing(e1, Finished));
    steps := ReachReport(ctx, use, steps, World(Some(Waiting(now)), map[]), c, recovery, now);
    assert map[][c := Syncing(e1, Finished)] == late;
    steps := ReachReport(ctx, use, steps, World(Some(e1), late), d, failure, now);
    assert late[d := Syncing(e2, Finished)] - {d} == late;
    steps := ReachCrash(ctx, use, steps, World(Some(e2), late[d := Syncing(e2, Finished)]), d);
    steps := ReachReport(ctx, use, steps, World(Some(e2), late), d, recovery, now);
    LateSync(ctx, Run(ctx, steps), c, e1);
    assert e1.manual == Manual.Latest(recovery, []) && |e3.manual.history| == 2;
  }

  lemma LateSync(ctx: Context, w: World, c: nat, copy: Execution)
    requires c in w.locals && w.locals[c] == Syncing(copy, Finished) && copy.pending != {}
    requires w.record.Some? && w.record.value.status == copy.status
    ensures Apply(ctx, w, Project(c, {})).record == Some(copy.(pending := {}))
  {
  }

  /** A repair that read an escalated execution before its rollback note was saved, and syncs with
      something failing after: the note is erased. */
  lemma LateRepairErasesRollback(ctx: Context, use: Usage, c: nat, d: nat, now: real) returns (steps: seq<Step>)
    requires ctx.holds(now) && ctx.dryRunPasses && Sandbox in use.modes && !ctx.nonProduction
    requires c in use.calls && d in use.calls && c != d
    ensures RunFollows(steps, use) && Run(ctx, steps).record.Some?
    ensures var after := Apply(ctx, Run(ctx, steps), Project(c, {"trace"})).record;
            after.Some? && !SameFact(after.value, Run(ctx, steps).record.value)
  {
    var ready := DryRunReady(Sandbox, now);
    var e := ready.(status := Escalated, dryRun := Some(true), pending := ALL_PROJECTIONS);
    var synced := e.(pending := {});
    steps := ReachDryRun(ctx, use, d, Sandbox, now);
    var w1 := Escalating(ctx, ready, d, e, now);
    steps := Extend(ctx, use, steps, World(Some(ready), One(d, Holding(ready, DryRunning(Sandbox)))), Advance(d, now),
                    w1);
    var w4 := NoteThenRepair(ctx, e, c, d, now);
    var w2 := Put(w1, c, Syncing(synced, Finished));
    var w3 := World(Some(synced), w2.locals[d := Holding(synced, InSandboxRun)]);
    steps := Extend(ctx, use, steps, w1, Repair(c), w2);
    steps := Extend(ctx, use, steps, w2, Project(d, {}), w3);
    steps := Extend(ctx, use, steps, w3, Advance(d, now), w4);
  }

  lemma Escalating(ctx: Context, ready: Execution, d: nat, e: Execution, now: real) returns (w: World)
    requires ctx.dryRunPasses && !ctx.nonProduction && ready.status == Status.DryRunRunning
    requires e == ready.(status := Escalated, dryRun := Some(true), pending := ALL_PROJECTIONS)
    ensures w == World(Some(e), One(d, Syncing(e, InSandboxRun)))
    ensures w == Apply(ctx, World(Some(ready), One(d, Holding(ready, DryRunning(Sandbox)))), Advance(d, now))
  {
    w := Apply(ctx, World(Some(ready), One(d, Holding(ready, DryRunning(Sandbox)))), Advance(d, now));
    assert w.locals == One(d, Syncing(e, InSandboxRun));
  }

  /** The repair reads, the note is saved, the repair syncs. */
  lemma NoteThenRepair(ctx: Context, e: Execution, c: nat, d: nat, now: real) returns (w: World)
    requires e.status == Escalated && e.pending == ALL_PROJECTIONS && e.rollback == NoRollback && c != d
    ensures
      var synced := e.(pending := {});
      var w1 := World(Some(e), One(d, Syncing(e, InSandboxRun)));
      var w2 := Put(w1, c, Syncing(synced, Finished));
      var w3 := World(Some(synced), w2.locals[d := Holding(synced, InSandboxRun)]);
      && Apply(ctx, w1, Repair(c)) == w2 && Apply(ctx, w2, Project(d, {})) == w3 && Apply(ctx, w3, Advance(d, now)) == w
    ensures w.record.Some?
    ensures var after := Apply(ctx, w, Project(c, {"trace"})).record;
            after.Some? && !SameFact(after.value, w.record.value)
  {
    var synced := e.(pending := {});
    var w1 := World(Some(e), One(d, Syncing(e, InSandboxRun)));
    var w2 := Put(w1, c, Syncing(synced, Finished));
    var w3 := World(Some(synced), w2.locals[d := Holding(synced, InSandboxRun)]);
    w := Apply(ctx, w3, Advance(d, now));
    assert w.record.value.rollback == NotStarted && w.locals[c] == Syncing(synced, Finished);
  }

  // ------------------------------------------------------------ reports that are lost

  /** What is stored is the latest of all reports committed so far, with the ones before it. */
  predicate ReportsKept(ctx: Context, steps: seq<Step>) {
    Run(ctx, steps).record.Some? ==> Run(ctx, steps).record.value.manual == Manual.PushAll(Committed(ctx, steps))
  }

  ghost predicate ReportsAreKept(ctx: Context, use: Usage) {
    forall steps: seq<Step> :: RunFollows(steps, use) ==> ReportsKept(ctx, steps)
  }

  /** One outcome can be reported on top of another. */
  predicate CanFollow(use: Usage) {
    exists first, second :: first in use.reports && second in use.reports
                            && StatusFromReport(first) in SourceStatuses(second)
  }

  /** Over every run of callers that keep to a usage the stored result is that of all reports the run
      committed, exactly when there is one caller, or no manual record, or no two outcomes of which
      one can be reported on top of the other. */
  lemma ReportsAreKeptIff(ctx: Context, use: Usage, now: real)
    requires ctx.holds(now) && ctx.dryRunPasses
    ensures ReportsAreKept(ctx, use) <==> OneCaller(use) || ManualRecord !in use.modes || !CanFollow(use)
  {
    if OneCaller(use) || ManualRecord !in use.modes || !CanFollow(use) {
      forall steps: seq<Step> | RunFollows(steps, use) ensures ReportsKept(ctx, steps) {
        if steps == [] {
        } else if OneCaller(use) {
          assert Follows(steps[0], use);
          SoloKeepsReports(ctx, use, steps, steps[0].call);
        } else {
          FirstReportIsLast(ctx, use, steps);
        }
      }
    } else {
      var c, d :| c in use.calls && d in use.calls && c != d;
      var steps := StaleReportLoses(ctx, use, c, d, now);
      assert !ReportsKept(ctx, steps);
    }
  }

  /** Two callers load the same copy; the second report to be committed is pushed onto that copy, and
      the first one is gone. */
  lemma StaleReportLoses(ctx: Context, use: Usage, c: nat, d: nat, now: real) returns (steps: seq<Step>)
    requires ctx.holds(now) && ctx.dryRunPasses && ManualRecord in use.modes && CanFollow(use)
    requires c in use.calls && d in use.calls && c != d
    ensures RunFollows(steps, use) && |Committed(ctx, steps)| == 2 && Run(ctx, steps).record.Some?
    ensures Run(ctx, steps).record.value.manual == Manual.PushAll([Committed(ctx, steps)[1]])
    ensures !ReportsKept(ctx, steps)
  {
    var first, second :| first in use.reports && second in use.reports
                         && StatusFromReport(first) in SourceStatuses(second);
    var early := Manual.AcceptableReport(ctx.steps, first);
    var stale := Manual.AcceptableReport(ctx.steps, second);
    steps := ReachStale(ctx, use, c, d, early, stale, now);
    TwoReports(early, stale);
  }

  lemma TwoReports(early: Manual.Report, stale: Manual.Report)
    ensures Manual.PushAll([stale]) == Manual.Latest(stale, [])
    ensures Manual.PushAll([early, stale]) == Manual.Latest(stale, [early])
  {
    Manual.HistoryIsLastTwenty([early, stale]);
    assert [early, stale][..1] == [early] && [stale][..0] == [];
  }

  lemma ReachStale(ctx: Context, use: Usage, c: nat, d: nat, early: Manual.Report, stale: Manual.Report, now: real)
    returns (steps: seq<Step>)
    requires ctx.holds(now) && ctx.dryRunPasses && ManualRecord in use.modes
    requires c in use.calls && d in use.calls && c != d
    requires early.status in use.reports && Manual.Acceptable(ctx.steps, early)
    requires stale.status in use.reports && Manual.Acceptable(ctx.steps, stale)
    requires StatusFromReport(early.status) in SourceStatuses(stale.status)
    ensures RunFollows(steps, use) && Committed(ctx, steps) == [early, stale]
    ensures Run(ctx, steps).record.Some? && Run(ctx, steps).record.value.manual == Manual.Latest(stale, [])
  {
    var copy := Waiting(now).(pending := {});
    var held := One(c, Holding(copy, Reporting(stale)));
    var e := Recorded(Waiting(now), early);
    steps := ReachWaiting(ctx, use, d, now);
    steps := ReachLoaded(ctx, use, steps, World(Some(Waiting(now)), map[]), c, stale);
    assert map[][c := Holding(copy, Reporting(stale))] == held;
    WaitingTakesAny(early.status);
    steps := ReachReport(ctx, use, steps, World(Some(Waiting(now)), held), d, early, now);
    WaitingTakesAny(stale.status);
    steps := ReachCommit(ctx, use, steps, World(Some(e), held[d := Syncing(e, Finished)]), c, copy, stale, now);
    assert Committed(ctx, steps) == [early, stale];
  }

  lemma WaitingTakesAny(status: Manual.ReportStatus)
    ensures WaitingManual in SourceStatuses(status)
  {
  }

  lemma {:induction false} SoloKeepsReports(ctx: Context, use: Usage, steps: seq<Step>, call: nat)
    requires RunFollows(steps, use) && OneCaller(use) && call in use.calls
    ensures ReportsKept(ctx, steps) && Solo(Run(ctx, steps), call)
    ensures Run(ctx, steps).record.None? ==> Committed(ctx, steps) == []
  {
    SoloRun(ctx, use, steps, call);
    if steps != [] {
      var init, last := steps[..|steps| - 1], steps[|steps| - 1];
      SoloKeepsReports(ctx, use, init, call);
      SoloManual(ctx, Run(ctx, init), last, call);
      PushOne(ctx, steps);
    }
  }

  lemma PushOne(ctx: Context, steps: seq<Step>)
    requires steps != []
    ensures
      var init, last := steps[..|steps| - 1], steps[|steps| - 1];
      var w := Run(ctx, init);
      Manual.PushAll(Committed(ctx, steps)) ==
        if Commits(ctx, w, last) then Manual.Push(Manual.PushAll(Committed(ctx, init)), w.locals[last.call].next.report)
        else Manual.PushAll(Committed(ctx, init))
  {
    var init, last := steps[..|steps| - 1], steps[|steps| - 1];
    var w := Run(ctx, init);
    if Commits(ctx, w, last) {
      var all := Committed(ctx, init) + [w.locals[last.call].next.report];
      assert Committed(ctx, steps) == all && all[..|all| - 1] == Committed(ctx, init);
    } else {
      assert Committed(ctx, init) + [] == Committed(ctx, init);
    }
  }

  /** One step of one caller pushes exactly the report it commits. */
  lemma SoloManual(ctx: Context, w: World, step: Step, call: nat)
    requires Solo(w, call) && step.call == call
    ensures
      var after := Apply(ctx, w, step).record;
      && (w.record.None? && after.Some? ==> after.value.manual == Manual.NoReport && !Commits(ctx, w, step))
      && (w.record.None? ==> !Commits(ctx, w, step))
      && (w.record.Some? ==> after.Some?)
      && (w.record.Some? && Commits(ctx, w, step) ==>
            after.value.manual == Manual.Push(w.record.value.manual, w.locals[call].next.report))
      && (w.record.Some? && !Commits(ctx, w, step) ==> after.value.manual == w.record.value.manual)
  {
    if step.Advance? && call in w.locals && w.locals[call].Holding? && w.record.Some? {
      assert w.locals[call].copy.manual == w.record.value.manual;
      AttemptManual(ctx, w.locals[call].copy, w.locals[call].next, step.now);
    } else if w.record.Some? && call in w.locals {
      assert w.locals[call].copy.manual == w.record.value.manual;
    }
  }

  lemma AttemptManual(ctx: Context, copy: Execution, next: Next, now: real)
    ensures
      var attempt := AttemptOf(ctx, copy, next, now);
      attempt.Attempt? ==>
        attempt.updated.manual == if next.Reporting? then Manual.Push(copy.manual, next.report) else copy.manual
  {
  }

  // ------------------------------------- outcomes of which none follows another

  predicate IsReported(status: Status) {
    status in {Closed, RollbackRecommended, PartialSuccess, Status.RecoveryPending, RolledBack, RollbackFailed}
  }

  predicate NotReported(e: Execution) { e.manual == Manual.NoReport && !IsReported(e.status) }

  /** Nothing reported yet; or one report, which the stored execution shows. */
  predicate Shows(e: Execution, use: Usage, reports: seq<Manual.Report>) {
    && (reports == [] ==> NotReported(e) && (ManualRecord !in use.modes ==> e.status != WaitingManual))
    && (reports != [] ==>
          && |reports| == 1 && reports[0].status in use.reports && ManualRecord in use.modes
          && e.manual == Manual.Latest(reports[0], []) && e.status == StatusFromReport(reports[0].status))
  }

  /** A copy is from before any report, or shows the one there is. */
  predicate CopyShows(e: Execution, local: Local, use: Usage) {
    && (NotReported(local.copy) || (local.copy.manual == e.manual && local.copy.status == e.status))
    && NextFollows(local.next, use)
  }

  predicate AtMostOne(w: World, use: Usage, reports: seq<Manual.Report>) {
    && (w.record.None? ==> reports == [] && w.locals == map[])
    && (w.record.Some? ==> Shows(w.record.value, use, reports))
    && (w.record.Some? ==> forall c :: c in w.locals ==> CopyShows(w.record.value, w.locals[c], use))
  }

  predicate Lone(use: Usage) { ManualRecord !in use.modes || !CanFollow(use) }

  /** A commit that is not a report happens before any report, and shows none. */
  lemma CheckShows(ctx: Context, use: Usage, e: Execution, local: Local, now: real, reports: seq<Manual.Report>)
    requires Shows(e, use, reports) && CopyShows(e, local, use) && !local.next.Reporting?
    ensures
      var attempt := AttemptOf(ctx, local.copy, local.next, now);
      attempt.Attempt? && e.status in attempt.expected ==>
        reports == [] && Shows(attempt.updated, use, []) && NextFollows(attempt.next, use)
  {
  }

  /** A report is committed only as the first, from a copy without one. */
  lemma ReportShows(ctx: Context, use: Usage, e: Execution, local: Local, now: real, reports: seq<Manual.Report>)
    requires Shows(e, use, reports) && CopyShows(e, local, use) && local.next.Reporting? && Lone(use)
    ensures
      var attempt := ReportAttempt(ctx, local.copy, local.next.report, now);
      attempt.Attempt? && e.status in attempt.expected ==>
        reports == [] && Shows(attempt.updated, use, [local.next.report])
  {
    var report := local.next.report;
    if reports != [] {
      assert e.status in SourceStatuses(report.status) ==> CanFollow(use);
    }
  }

  lemma AdvanceShows(ctx: Context, use: Usage, w: World, call: nat, now: real, reports: seq<Manual.Report>)
    requires AtMostOne(w, use, reports) && Lone(use) && call in w.locals && w.locals[call].Holding?
    ensures
      var step := Advance(call, now);
      AtMostOne(Apply(ctx, w, step), use, reports + if Commits(ctx, w, step) then [w.locals[call].next.report] else [])
  {
    var e, local := w.record.value, w.locals[call];
    assert CopyShows(e, local, use);
    if local.next.Reporting? {
      ReportShows(ctx, use, e, local, now, reports);
    } else {
      CheckShows(ctx, use, e, local, now, reports);
    }
    var attempt := AttemptOf(ctx, local.copy, local.next, now);
    if attempt.Attempt? && e.status in attempt.expected {
      assert reports == [];
      forall c | c in w.locals && c != call
        ensures NotReported(w.locals[c].copy) && NextFollows(w.locals[c].next, use)
      {
        assert CopyShows(e, w.locals[c], use);
      }
    }
    assert reports + [] == reports;
  }

  lemma LoneStep(ctx: Context, use: Usage, w: World, step: Step, reports: seq<Manual.Report>)
    requires AtMostOne(w, use, reports) && Lone(use) && Follows(step, use)
    ensures AtMostOne(Apply(ctx, w, step), use,
              reports + if Commits(ctx, w, step) then [w.locals[step.call].next.report] else [])
  {
    assert reports + [] == reports;
    match step
    case Advance(call, now) =>
      if call in w.locals && w.locals[call].Holding? {
        AdvanceShows(ctx, use, w, call, now, reports);
      }
    case Project(call, failed) =>
      if call in w.locals && w.locals[call].Syncing? {
        assert CopyShows(w.record.value, w.locals[call], use);
        ProjectShows(ctx, use, w, call, failed, reports);
      }
    case _ =>
  }

  lemma ProjectShows(ctx: Context, use: Usage, w: World, call: nat, failed: set<string>, reports: seq<Manual.Report>)
    requires AtMostOne(w, use, reports) && call in w.locals && w.locals[call].Syncing?
    ensures AtMostOne(Apply(ctx, w, Project(call, failed)), use, reports)
  {
    var e, local := w.record.value, w.locals[call];
    assert CopyShows(e, local, use);
    var after := Apply(ctx, w, Project(call, failed));
    assert after.record.value.manual == e.manual && after.record.value.status == e.status;
    forall c | c in after.locals ensures CopyShows(after.record.value, after.locals[c], use) {
      assert c != call ==> CopyShows(e, w.locals[c], use);
    }
  }

  /** Where no outcome follows another, the first report is the last. */
  lemma {:induction false} FirstReportIsLast(ctx: Context, use: Usage, steps: seq<Step>)
    requires RunFollows(steps, use) && Lone(use)
    ensures AtMostOne(Run(ctx, steps), use, Committed(ctx, steps)) && ReportsKept(ctx, steps)
  {
    if steps != [] {
      var init, last := steps[..|steps| - 1], steps[|steps| - 1];
      FirstReportIsLast(ctx, use, init);
      LoneStep(ctx, use, Run(ctx, init), last, Committed(ctx, init));
    }
    Manual.HistoryIsLastTwenty(Committed(ctx, steps));
  }

  // --------------------------------------------------------------- the stored mode

  /** The stored mode is the one the status belongs to. */
  predicate ModeAgrees(e: Execution) {
    && (e.status == DryRunCompleted ==> e.mode == DryRunOnly)
    && (AwaitsReport(e.status) || e.status == Closed ==> e.mode == ManualRecord)
    && (e.status in {SandboxExecuting, SandboxValidated, Escalated} ==> e.mode == Sandbox)
  }

  predicate ModeKept(ctx: Context, steps: seq<Step>) {
    Run(ctx, steps).record.Some? ==> ModeAgrees(Run(ctx, steps).record.value)
  }

  predicate OneMode(use: Usage) { forall m, n :: m in use.modes && n in use.modes ==> m == n }

  predicate InMode(e: Execution, mode: Mode) { e.mode == mode && ModeAgrees(e) }

  predicate LocalInMode(local: Local, mode: Mode) {
    && InMode(local.copy, mode)
    && match local.next
       case Found(m) => m == mode
       case PreChecking(m) => m == mode
       case DryRunning(m) => m == mode
       case InSandboxRun => mode == Sandbox
       case _ => true
  }

  predicate AllInMode(w: World, mode: Mode) {
    && (w.record.None? ==> w.locals == map[])
    && (w.record.Some? ==> InMode(w.record.value, mode))
    && forall c :: c in w.locals ==> LocalInMode(w.locals[c], mode)
  }

  lemma AttemptInMode(ctx: Context, local: Local, now: real, mode: Mode)
    requires LocalInMode(local, mode)
    ensures
      var attempt := AttemptOf(ctx, local.copy, local.next, now);
      attempt.Attempt? ==> InMode(attempt.updated, mode) && LocalInMode(Syncing(attempt.updated, attempt.next), mode)
  {
  }

  lemma StepInMode(ctx: Context, use: Usage, w: World, step: Step, mode: Mode)
    requires AllInMode(w, mode) && Follows(step, use) && forall m :: m in use.modes ==> m == mode
    ensures AllInMode(Apply(ctx, w, step), mode)
  {
    if step.Advance? && step.call in w.locals && w.locals[step.call].Holding? {
      AttemptInMode(ctx, w.locals[step.call], step.now, mode);
    }
  }

  lemma {:induction false} RunInMode(ctx: Context, use: Usage, steps: seq<Step>, mode: Mode)
    requires RunFollows(steps, use) && forall m :: m in use.modes ==> m == mode
    ensures AllInMode(Run(ctx, steps), mode)
  {
    if steps != [] {
      RunInMode(ctx, use, steps[..|steps| - 1], mode);
      StepInMode(ctx, use, Run(ctx, steps[..|steps| - 1]), steps[|steps| - 1], mode);
    }
  }

  /** In every run the stored mode agrees with the status exactly when all callers ask for the same
      mode. */
  lemma StoredModeAgreesIff(ctx: Context, use: Usage, now: real)
    requires ctx.holds(now) && ctx.dryRunPasses && use.calls != {}
    ensures (forall steps: seq<Step> :: RunFollows(steps, use) ==> ModeKept(ctx, steps)) <==> OneMode(use)
  {
    if OneMode(use) {
      var mode := if m :| m in use.modes then m else DryRunOnly;
      forall steps: seq<Step> | RunFollows(steps, use) ensures ModeKept(ctx, steps) {
        RunInMode(ctx, use, steps, mode);
      }
    } else {
      var m, n :| m in use.modes && n in use.modes && m != n;
      var call :| call in use.calls;
      var steps := StoredModeMayDisagree(ctx, use, call, m, n, now);
      assert !ModeKept(ctx, steps);
    }
  }

  /** A call creates the execution and is cut off; the next one, in another mode, carries it on. */
  lemma StoredModeMayDisagree(ctx: Context, use: Usage, call: nat, m: Mode, n: Mode, now: real)
    returns (steps: seq<Step>)
    requires ctx.holds(now) && ctx.dryRunPasses && call in use.calls && m in use.modes && n in use.modes && m != n
    ensures RunFollows(steps, use) && !ModeKept(ctx, steps)
    ensures Run(ctx, steps).record.Some? && Run(ctx, steps).record.value.mode == m
  {
    steps := ReachCreated(ctx, use, call, m);
    var created := World(Some(Created(m)), One(call, Holding(Created(m), Found(m))));
    assert Drop(created, call).locals == map[];
    steps := ReachCrash(ctx, use, steps, created, call);
    steps := ReachFound(ctx, use, steps, call, Created(m), n);
    steps := ReachDryRunFrom(ctx, use, steps, call, m, n, now);
    steps := CommitAndSync(ctx, use, steps, call, DryRunReady(m, now), DryRunning(n), now);
  }
}
