/** The store of change executions, and one start call run without interference. */
module ChangeExecutionStore {

  import opened ChangePlans
  import opened ChangeChecks
  import opened ChangeExecutions
  import opened TextTools
  import opened Basics

  datatype Row = Row(incidentId: string, planId: string, approvalId: string, execution: Execution)

  type Rows = map<string, Row>

  /** What an execution's identifier is a digest of. */
  function StableId(approvalId: string, planId: string): string { approvalId + ":" + planId }

  predicate SameScope(a: Row, b: Row)
    ensures SameScope(a, b) <==> a.(execution := b.execution) == b
  {
    a.incidentId == b.incidentId && a.planId == b.planId && a.approvalId == b.approvalId
  }

  predicate ScopeTaken(rows: Rows, row: Row) { exists id :: id in rows && SameScope(rows[id], row) }

  predicate Keyed(rows: Rows) { forall id :: id in rows ==> id == StableId(rows[id].approvalId, rows[id].planId) }

  /** There is at most one execution for an approved plan. */
  predicate OnePerApprovedPlan(rows: Rows) {
    forall a, b ::
      a in rows && b in rows && rows[a].approvalId == rows[b].approvalId && rows[a].planId == rows[b].planId ==> a == b
  }

  class ExecutionStore {
    var rows: Rows

    constructor ()
      ensures rows == map[] && Keyed(rows)
    {
      rows := map[];
    }

    method CreateOnce(row: Row) returns (created: bool)
      modifies this
      ensures created <==> !ScopeTaken(old(rows), row) && StableId(row.approvalId, row.planId) !in old(rows)
      ensures rows == if created then old(rows)[StableId(row.approvalId, row.planId) := row] else old(rows)
      ensures Keyed(old(rows)) ==> Keyed(rows) && OnePerApprovedPlan(rows)
    {
      created := !ScopeTaken(rows, row) && StableId(row.approvalId, row.planId) !in rows;
      if created {
        rows := rows[StableId(row.approvalId, row.planId) := row];
      }
    }

    method SaveIfStatus(id: string, execution: Execution, expected: set<Status>) returns (saved: bool)
      modifies this
      ensures saved <==> id in old(rows) && old(rows)[id].execution.status in expected
      ensures rows == if saved then old(rows)[id := old(rows)[id].(execution := execution)] else old(rows)
      ensures Keyed(old(rows)) ==> Keyed(rows) && OnePerApprovedPlan(rows)
    {
      saved := id in rows && rows[id].execution.status in expected;
      if saved {
        rows := rows[id := rows[id].(execution := execution)];
      }
    }

    /** A save whose projections all succeed. */
    method Commit(id: string, attempt: Attempt) returns (saved: bool)
      modifies this
      ensures saved <==> attempt.Attempt? && id in old(rows) && old(rows)[id].execution.status in attempt.expected
      ensures rows == if saved then old(rows)[id := old(rows)[id].(execution := attempt.updated.(pending := {}))]
                      else old(rows)
      ensures Keyed(old(rows)) ==> Keyed(rows)
    {
      saved := false;
      if attempt.Attempt? {
        saved := SaveIfStatus(id, attempt.updated.(pending := {}), attempt.expected);
      }
    }
  }

  /** Approvals without a colon give different plans different identifiers. */
  lemma StableIdTells(a: string, p: string, b: string, q: string)
    requires ':' !in a && ':' !in b && StableId(a, p) == StableId(b, q)
    ensures a == b && p == q
  {
    JoinTells(a, p, b, q, ':');
  }

  /** With a colon in the approval two different pairs can share one, and the second call is then
      answered with the first pair's execution. */
  lemma StableIdClashes()
    ensures StableId("a", "b:c") == StableId("a:b", "c")
  {
    assert "a" + ":" + "b:c" == "a:b:c" == "a:b" + ":" + "c";
  }

  /** `longer` is `id`, a colon and something more. */
  predicate ExtendsByColon(longer: string, id: string) {
    |id| < |longer| && longer[..|id|] == id && longer[|id|] == ':'
  }

  lemma ClashExtends(a: string, p: string, b: string, q: string)
    requires StableId(a, p) == StableId(b, q) && |a| < |b|
    ensures ExtendsByColon(b, a)
  {
    var s, t := a + ":" + p, b + ":" + q;
    assert s[|a|] == ':' && s[..|a|] == a;
    assert t[..|b|] == b && t[..|a|] == b[..|a|] && t[|a|] == b[|a|];
  }

  lemma ExtensionClashes(id: string, longer: string, q: string)
    requires ExtendsByColon(longer, id)
    ensures StableId(id, longer[|id| + 1..] + ":" + q) == StableId(longer, q)
  {
    assert longer == id + ":" + longer[|id| + 1..];
  }

  /** Among these approvals every pair of an approval and a plan has an identifier of its own, exactly
      when no approval's id is another's followed by a colon and more. */
  lemma StableIdTellsIff(approvals: set<string>)
    ensures
      (forall a, p, b, q :: a in approvals && b in approvals && StableId(a, p) == StableId(b, q) ==> a == b && p == q)
      <==> (forall a, b :: a in approvals && b in approvals ==> !ExtendsByColon(b, a))
  {
    forall a, b | a in approvals && b in approvals && ExtendsByColon(b, a)
      ensures exists p, q :: StableId(a, p) == StableId(b, q) && a != b
    {
      ExtensionClashes(a, b, "");
    }
    if forall a, b :: a in approvals && b in approvals ==> !ExtendsByColon(b, a) {
      forall a, p, b, q | a in approvals && b in approvals && StableId(a, p) == StableId(b, q)
        ensures a == b && p == q
      {
        if |a| < |b| {
          ClashExtends(a, p, b, q);
        } else if |b| < |a| {
          ClashExtends(b, q, a, p);
        } else {
          SameLengthTells(a, p, b, q);
        }
      }
    }
  }

  lemma SameLengthTells(a: string, p: string, b: string, q: string)
    requires StableId(a, p) == StableId(b, q) && |a| == |b|
    ensures a == b && p == q
  {
    var s, t := a + ":" + p, b + ":" + q;
    assert s[..|a|] == a && t[..|b|] == b && s[|a| + 1..] == p && t[|b| + 1..] == q;
  }

  // --------------------------------------------------------------- one call, alone

  /** Where a call leaves an execution that passed both checks. */
  function EndStatus(mode: Mode, nonProduction: bool): Status {
    if mode == Sandbox && nonProduction then SandboxValidated else NextStatus(mode, nonProduction)
  }

  /** Where one undisturbed call leaves the execution it found, or created. */
  function StatusAfterStart(ctx: Context, before: Option<Status>, mode: Mode, now: real): Status {
    if before.None? || before.value == Created then
      if !ctx.holds(now) then PreCheckFailed
      else if !ctx.dryRunPasses then DryRunFailed
      else EndStatus(mode, ctx.nonProduction)
    else if before.value == DryRunCompleted && mode != DryRunOnly then
      if !ctx.holds(now) then PreCheckFailed else EndStatus(mode, ctx.nonProduction)
    else before.value
  }

  function FoundStatus(rows: Rows, id: string): Option<Status> {
    if id in rows then Some(rows[id].execution.status) else None
  }

  /** Every other execution is as it was. */
  predicate OthersKept(before: Rows, after: Rows, id: string) {
    after.Keys == before.Keys + {id} && forall other :: other in before && other != id ==> after[other] == before[other]
  }

  method ContinueFromPreCheckRunning(store: ExecutionStore, ctx: Context, id: string, mode: Mode, now: real)
    requires id in store.rows && store.rows[id].execution.status == PreCheckRunning
    modifies store
    ensures OthersKept(old(store.rows), store.rows, id)
    ensures store.rows[id].execution.status == StatusAfterStart(ctx, None, mode, now)
  {
    var _ := store.Commit(id, PreCheckAttempt(ctx, store.rows[id].execution, mode, now));
    if store.rows[id].execution.status == PreCheckFailed { return; }
    var _ := store.Commit(id, DryRunAttempt(ctx, store.rows[id].execution, mode));
    if store.rows[id].execution.status == DryRunFailed { return; }
    if mode == Sandbox {
      RunSandboxExecution(store, ctx, id);
    }
  }

  method RunSandboxExecution(store: ExecutionStore, ctx: Context, id: string)
    requires id in store.rows && store.rows[id].execution.status == NextStatus(Sandbox, ctx.nonProduction)
    modifies store
    ensures OthersKept(old(store.rows), store.rows, id)
    ensures store.rows[id].execution.status == EndStatus(Sandbox, ctx.nonProduction)
  {
    var _ := store.Commit(id, SandboxAttempt(store.rows[id].execution));
  }

  method ResumeDryRunCompleted(store: ExecutionStore, ctx: Context, id: string, mode: Mode, now: real)
    requires id in store.rows && store.rows[id].execution.status == DryRunCompleted && mode != DryRunOnly
    modifies store
    ensures OthersKept(old(store.rows), store.rows, id)
    ensures store.rows[id].execution.status == StatusAfterStart(ctx, Some(DryRunCompleted), mode, now)
  {
    var _ := store.Commit(id, ResumeAttempt(ctx, store.rows[id].execution, mode, now));
    if store.rows[id].execution.status == PreCheckFailed { return; }
    if mode == Sandbox {
      RunSandboxExecution(store, ctx, id);
    }
  }

  method ResumeCreated(store: ExecutionStore, ctx: Context, id: string, mode: Mode, now: real)
    requires id in store.rows && store.rows[id].execution.status == Created
    modifies store
    ensures OthersKept(old(store.rows), store.rows, id)
    ensures store.rows[id].execution.status == StatusAfterStart(ctx, None, mode, now)
  {
    var _ := store.Commit(id, ResumeAttempt(ctx, store.rows[id].execution, mode, now));
    ContinueFromPreCheckRunning(store, ctx, id, mode, now);
  }

  method FindOrCreate(store: ExecutionStore, row: Row) returns (id: string)
    requires Keyed(store.rows)
    modifies store
    ensures id == StableId(row.approvalId, row.planId) && id in store.rows
    ensures store.rows == if id in old(store.rows) then old(store.rows) else old(store.rows)[id := row]
  {
    id := StableId(row.approvalId, row.planId);
    if id !in store.rows {
      var _ := store.CreateOnce(row);
    }
  }

  /** A whole start call without interference: the execution ends where `StatusAfterStart` says, and
      no other execution changes. */
  method StartAfterApproval(store: ExecutionStore, ctx: Context, incidentId: string, planId: string,
                            approvalId: string, mode: Mode, now: real)
    requires Keyed(store.rows)
    requires StableId(approvalId, planId) in store.rows ==>
               SameScope(store.rows[StableId(approvalId, planId)],
                         Row(incidentId, planId, approvalId, NewExecution(mode)))
    modifies store
    ensures OthersKept(old(store.rows), store.rows, StableId(approvalId, planId))
    ensures store.rows[StableId(approvalId, planId)].execution.status ==
            StatusAfterStart(ctx, FoundStatus(old(store.rows), StableId(approvalId, planId)), mode, now)
  {
    var id := FindOrCreate(store, Row(incidentId, planId, approvalId, NewExecution(mode)));
    var execution := store.rows[id].execution;
    if execution.status == Created {
      ResumeCreated(store, ctx, id, mode, now);
    } else if execution.status == DryRunCompleted && mode != DryRunOnly {
      ResumeDryRunCompleted(store, ctx, id, mode, now);
    }
  }

  // ----------------------------------------------- the same call among the calls of a run

  /** What a call does next when nobody comes between its turns. */
  function Turn(w: World, call: nat, now: real, failed: set<string>): Step {
    if call in w.locals && w.locals[call].Holding? then Advance(call, now) else Project(call, failed)
  }

  /** A start and its next turns, whatever projections fail. */
  function LoneRun(ctx: Context, w: World, call: nat, mode: Mode, now: real, failed: nat -> set<string>,
                   turns: nat): World {
    if turns == 0 then Apply(ctx, w, Start(call, mode))
    else
      var before := LoneRun(ctx, w, call, mode, now, failed, turns - 1);
      Apply(ctx, before, Turn(before, call, now, failed(turns)))
  }

  function Rank(next: Next): nat {
    match next
    case Found(_) => 9
    case PreChecking(_) => 7
    case DryRunning(_) => 5
    case InSandboxRun => 3
    case _ => 1
  }

  function TurnsLeft(w: World, call: nat): nat {
    if call !in w.locals then 0 else Rank(w.locals[call].next) + if w.locals[call].Syncing? then 1 else 0
  }

  /** From this status and with this to do next an undisturbed call brings the execution to this end. */
  predicate LeadsTo(ctx: Context, status: Status, next: Next, now: real, end: Status) {
    match next
    case Found(mode) => end == StatusAfterStart(ctx, Some(status), mode, now)
    case PreChecking(mode) => status == PreCheckRunning && end == StatusAfterStart(ctx, None, mode, now)
    case DryRunning(mode) =>
      status == DryRunRunning && end == if ctx.dryRunPasses then EndStatus(mode, ctx.nonProduction) else DryRunFailed
    case InSandboxRun =>
      status == NextStatus(Sandbox, ctx.nonProduction) && end == EndStatus(Sandbox, ctx.nonProduction)
    case Reporting(_) => false
    case Finished => status == end
  }

  lemma AttemptLeads(ctx: Context, copy: Execution, next: Next, now: real, end: Status)
    requires LeadsTo(ctx, copy.status, next, now, end)
    ensures
      match AttemptOf(ctx, copy, next, now)
      case NoAttempt => copy.status == end
      case Attempt(updated, expected, following) =>
        copy.status in expected && LeadsTo(ctx, updated.status, following, now, end) && Rank(following) + 1 < Rank(next)
  {
  }

  /** The call holds what is stored, and the execution is on its way to its end. */
  predicate OnCourse(ctx: Context, w: World, call: nat, now: real, end: Status) {
    && w.record.Some? && (call !in w.locals ==> w.record.value.status == end)
    && (call in w.locals ==> w.locals[call].copy == w.record.value
                             && LeadsTo(ctx, w.record.value.status, w.locals[call].next, now, end))
  }

  lemma AdvanceOnCourse(ctx: Context, w: World, call: nat, now: real, end: Status)
    requires OnCourse(ctx, w, call, now, end) && call in w.locals && w.locals[call].Holding?
    ensures var v := Apply(ctx, w, Advance(call, now));
            OnCourse(ctx, v, call, now, end) && TurnsLeft(v, call) < TurnsLeft(w, call)
            && v.locals - {call} == w.locals - {call}
  {
    AttemptLeads(ctx, w.locals[call].copy, w.locals[call].next, now, end);
  }

  lemma ProjectOnCourse(ctx: Context, w: World, call: nat, now: real, end: Status, failed: set<string>)
    requires OnCourse(ctx, w, call, now, end) && (call in w.locals ==> w.locals[call].Syncing?)
    ensures var v := Apply(ctx, w, Project(call, failed));
            OnCourse(ctx, v, call, now, end) && (TurnsLeft(v, call) < TurnsLeft(w, call) || call !in v.locals)
            && v.locals - {call} == w.locals - {call}
  {
  }

  lemma {:induction false} StaysOnCourse(ctx: Context, w: World, call: nat, mode: Mode, now: real,
                                         failed: nat -> set<string>, turns: nat)
    requires call !in w.locals
    ensures var v := LoneRun(ctx, w, call, mode, now, failed, turns);
            && OnCourse(ctx, v, call, now, StatusAfterStart(ctx, StoredStatus(w), mode, now))
            && (call in v.locals ==> TurnsLeft(v, call) + turns <= 9) && v.locals - {call} == w.locals
  {
    if turns > 0 {
      StaysOnCourse(ctx, w, call, mode, now, failed, turns - 1);
      var before := LoneRun(ctx, w, call, mode, now, failed, turns - 1);
      var end := StatusAfterStart(ctx, StoredStatus(w), mode, now);
      if call in before.locals && before.locals[call].Holding? {
        AdvanceOnCourse(ctx, before, call, now, end);
      } else {
        ProjectOnCourse(ctx, before, call, now, end, failed(turns));
      }
    }
  }

  function StoredStatus(w: World): Option<Status> {
    if w.record.Some? then Some(w.record.value.status) else None
  }

  /** A start among any other calls, none of which takes a turn meanwhile, is over after nine turns and
      leaves the execution where the call alone leaves it; what the others hold is as it was. */
  lemma LoneStartEnds(ctx: Context, w: World, call: nat, mode: Mode, now: real, failed: nat -> set<string>, turns: nat)
    requires call !in w.locals && turns >= 9
    ensures var v := LoneRun(ctx, w, call, mode, now, failed, turns);
            v.locals == w.locals && StoredStatus(v) == Some(StatusAfterStart(ctx, StoredStatus(w), mode, now))
  {
    StaysOnCourse(ctx, w, call, mode, now, failed, turns);
    var v := LoneRun(ctx, w, call, mode, now, failed, turns);
    assert call !in v.locals;
    assert v.locals - {call} == v.locals;
  }

  /** Asking again for the same thing changes nothing, however much later. */
  lemma StartIsIdempotent(ctx: Context, before: Option<Status>, mode: Mode, now: real, later: real)
    ensures
      var once := StatusAfterStart(ctx, before, mode, now);
      StatusAfterStart(ctx, Some(once), mode, later) == once
  {
  }

  /** A dry-run first and the rest later ends where going straight there ends, if the pre-check still
      holds. */
  lemma DryRunFirst(ctx: Context, mode: Mode, now: real, later: real)
    requires ctx.holds(now) <==> ctx.holds(later)
    ensures StatusAfterStart(ctx, Some(StatusAfterStart(ctx, None, DryRunOnly, now)), mode, later)
              == StatusAfterStart(ctx, None, mode, later)
  {
  }
}
