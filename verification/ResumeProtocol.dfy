/** Resuming a paused diagnosis run after an approval, from any number of processes.

    The snapshot store offers create-once and save-if-status; a resume claims the session through
    them, then saves unconditionally while it holds the claim.  A resume that raises marks the
    session failed, whether or not it ever held the claim. */
module ResumeProtocol {

  import opened Basics

  datatype Status =
    | Running | WaitingApproval | ApprovalApproved | Failed
    | ResumeRunning | ApprovalResumed | Ended(name: string)

  /** A session can be claimed when nothing is stored yet, or from three resting statuses. */
  predicate Claimable(status: Option<Status>) {
    status.None? || status.value in {WaitingApproval, ApprovalApproved, Failed}
  }

  function StatusOf(snapshots: map<string, Status>, session: string): Option<Status> {
    if session in snapshots then Some(snapshots[session]) else None
  }

  // ------------------------------------------------------------------ the service's methods

  class SnapshotStore {
    var snapshots: map<string, Status>

    constructor ()
      ensures snapshots == map[]
    {
      snapshots := map[];
    }

    method Create(session: string, status: Status) returns (created: bool)
      modifies this
      ensures created <==> session !in old(snapshots)
      ensures snapshots == if created then old(snapshots)[session := status] else old(snapshots)
    {
      created := session !in snapshots;
      if created {
        snapshots := snapshots[session := status];
      }
    }

    method UpdateIfStatus(session: string, status: Status, expected: set<Status>) returns (updated: bool)
      modifies this
      ensures updated <==> session in old(snapshots) && old(snapshots)[session] in expected
      ensures snapshots == if updated then old(snapshots)[session := status] else old(snapshots)
    {
      updated := session in snapshots && snapshots[session] in expected;
      if updated {
        snapshots := snapshots[session := status];
      }
    }

    method Save(session: string, status: Status)
      modifies this
      ensures snapshots == old(snapshots)[session := status]
    {
      snapshots := snapshots[session := status];
    }
  }

  /** What the world does to one resume: whether validation passes, where the stream is cut, and
      which of its saves reach the store. */
  datatype Script = Script(valid: bool, cutBeforeReport: bool, reportStored: bool, cutBeforeFinal: bool,
                           finalStored: bool)

  datatype Outcome = Conflict | Raised | Resumed

  class ResumeService {
    const store: SnapshotStore
    var activeResumeApprovals: set<string>

    constructor (store: SnapshotStore)
      ensures this.store == store && activeResumeApprovals == {}
    {
      this.store := store;
      activeResumeApprovals := {};
    }

    method ClaimResumeApproval(approval: string) returns (claimed: bool)
      modifies this
      ensures claimed <==> approval !in old(activeResumeApprovals)
      ensures activeResumeApprovals == old(activeResumeApprovals) + {approval}
    {
      claimed := approval !in activeResumeApprovals;
      if claimed {
        activeResumeApprovals := activeResumeApprovals + {approval};
      }
    }

    method ReleaseResumeApproval(approval: string)
      modifies this
      ensures activeResumeApprovals == old(activeResumeApprovals) - {approval}
    {
      activeResumeApprovals := activeResumeApprovals - {approval};
    }

    method ClaimResumeSnapshot(session: string) returns (claimed: bool)
      modifies store
      ensures claimed <==> Claimable(StatusOf(old(store.snapshots), session))
      ensures store.snapshots == if claimed then old(store.snapshots)[session := ResumeRunning]
                                 else old(store.snapshots)
    {
      if session !in store.snapshots {
        claimed := store.Create(session, ResumeRunning);
      } else {
        claimed := store.UpdateIfStatus(session, ResumeRunning, {WaitingApproval, ApprovalApproved, Failed});
      }
    }

    method MarkResumeFailed(session: string)
      modifies store
      ensures store.snapshots ==
              if StatusOf(old(store.snapshots), session) == Some(ResumeRunning)
              then old(store.snapshots)[session := Failed] else old(store.snapshots)
    {
      if session !in store.snapshots || store.snapshots[session] != ResumeRunning {
        return;
      }
      var _ := store.UpdateIfStatus(session, Failed, {ResumeRunning});
    }

    /** The body of a resume.  The middle save is best effort; the last one is required. */
    method ResumeAfterApproval(session: string, script: Script) returns (outcome: Outcome)
      modifies store
      ensures var before := StatusOf(old(store.snapshots), session);
              && (outcome == Conflict <==> script.valid && !Claimable(before))
              && (outcome == Resumed <==>
                    script.valid && Claimable(before) && !script.cutBeforeReport && !script.cutBeforeFinal
                    && script.finalStored)
      ensures outcome == Conflict ==> store.snapshots == old(store.snapshots)
      ensures outcome == Resumed ==> store.snapshots == old(store.snapshots)[session := ApprovalResumed]
      ensures outcome == Raised ==>
                store.snapshots == if script.valid then old(store.snapshots)[session := ResumeRunning]
                                   else old(store.snapshots)
    {
      if !script.valid {
        return Raised;
      }
      var claimed := ClaimResumeSnapshot(session);
      if !claimed {
        return Conflict;
      }
      if script.cutBeforeReport {
        return Raised;
      }
      if script.reportStored {
        store.Save(session, ResumeRunning);
      }
      if script.cutBeforeFinal || !script.finalStored {
        return Raised;
      }
      store.Save(session, ApprovalResumed);
      return Resumed;
    }

    /** Run alone, a resume never leaves the session claimed and always releases the approval; a
        conflict of either kind changes nothing; other sessions are not touched. */
    method ExecuteApprovalResume(session: string, approval: string, script: Script) returns (outcome: Outcome)
      modifies this, store
      ensures approval in old(activeResumeApprovals) ==> outcome == Conflict
      ensures activeResumeApprovals == old(activeResumeApprovals)
      ensures outcome == Conflict ==> store.snapshots == old(store.snapshots)
      ensures outcome == Raised ==> StatusOf(store.snapshots, session) != Some(ResumeRunning)
      ensures outcome == Resumed ==>
                Claimable(StatusOf(old(store.snapshots), session))
                && StatusOf(store.snapshots, session) == Some(ApprovalResumed)
      ensures approval !in old(activeResumeApprovals) && !script.valid
              && StatusOf(old(store.snapshots), session) == Some(ResumeRunning)
              ==> outcome == Raised && StatusOf(store.snapshots, session) == Some(Failed)
      ensures forall other :: other != session ==>
                                StatusOf(store.snapshots, other) == StatusOf(old(store.snapshots), other)
    {
      var claimed := ClaimResumeApproval(approval);
      if !claimed {
        assert activeResumeApprovals == old(activeResumeApprovals);
        return Conflict;
      }
      outcome := ResumeAfterApproval(session, script);
      if outcome == Raised {
        MarkResumeFailed(session);
      }
      ReleaseResumeApproval(approval);
    }
  }

  // ---------------------------------------------------------------- interleaved resumes

  /** Where a raising resume stood when it raised. */
  datatype Stage = BeforeClaim | WhileHolding | AfterCompletion

  datatype Phase = Validating | Claimed | Reported | Completed | Raising(stage: Stage)

  datatype Worker = Worker(process: nat, approval: nat, phase: Phase)

  /** One session: what is stored, and every resume that has entered and not yet released its
      approval. */
  datatype Session = Session(status: Option<Status>, workers: map<nat, Worker>)

  datatype Step =
    | OriginalStart                                  // the diagnosis run creates its first snapshot
    | OriginalSave(status: Status)                   // any later, unconditional save of that run
    | Enter(w: nat, process: nat, approval: nat)
    | Claim(w: nat, seen: Option<Status>)            // the claim, after reading `seen`
    | SaveReport(w: nat, stored: bool)
    | SaveFinal(w: nat, stored: bool)
    | Interrupt(w: nat)                              // cancellation, or any exception
    | MarkFailed(w: nat)
    | Finish(w: nat)
    | Reconcile(read: Status)                        // start-up reconciliation of a stale snapshot
    | Crash(process: nat)

  function With(s: Session, w: nat, phase: Phase): Session
    requires w in s.workers
  {
    s.(workers := s.workers[w := s.workers[w].(phase := phase)])
  }

  function StageOf(phase: Phase): Stage {
    match phase
    case Validating => BeforeClaim
    case Claimed => WhileHolding
    case Reported => WhileHolding
    case Completed => AfterCompletion
    case Raising(stage) => stage
  }

  predicate Enabled(s: Session, step: Step) {
    match step
    case OriginalStart => s.status == None
    case OriginalSave(_) => s.status.Some?
    case Enter(w, process, approval) =>
      w !in s.workers && forall v :: v in s.workers ==>
                                       s.workers[v].process != process || s.workers[v].approval != approval
    case Claim(w, _) => w in s.workers && s.workers[w].phase == Validating
    case SaveReport(w, _) => w in s.workers && s.workers[w].phase == Claimed
    case SaveFinal(w, _) => w in s.workers && s.workers[w].phase == Reported
    case Interrupt(w) => w in s.workers && !s.workers[w].phase.Raising?
    case MarkFailed(w) => w in s.workers && s.workers[w].phase.Raising?
    case Finish(w) => w in s.workers && s.workers[w].phase == Completed
    case Reconcile(read) => read in {Running, ResumeRunning}
    case Crash(_) => true
  }

  /** The claim reads first: nothing there means create-once, anything else means save-if-status. */
  predicate Wins(s: Session, step: Step) {
    && step.Claim? && Enabled(s, step)
    && if step.seen.None? then s.status.None? else s.status.Some? && Claimable(s.status)
  }

  function Apply(s: Session, step: Step): Session {
    if !Enabled(s, step) then s
    else
      match step
      case OriginalStart => s.(status := Some(Running))
      case OriginalSave(status) => s.(status := Some(status))
      case Enter(w, process, approval) => s.(workers := s.workers[w := Worker(process, approval, Validating)])
      case Claim(w, _) =>
        if Wins(s, step) then With(s, w, Claimed).(status := Some(ResumeRunning))
        else s.(workers := s.workers - {w})
      case SaveReport(w, stored) =>
        var t := With(s, w, Reported);
        if stored then t.(status := Some(ResumeRunning)) else t
      case SaveFinal(w, stored) =>
        if stored then With(s, w, Completed).(status := Some(ApprovalResumed))
        else With(s, w, Raising(WhileHolding))
      case Interrupt(w) => With(s, w, Raising(StageOf(s.workers[w].phase)))
      case MarkFailed(w) =>
        var t := s.(workers := s.workers - {w});
        if s.status == Some(ResumeRunning) then t.(status := Some(Failed)) else t
      case Finish(w) => s.(workers := s.workers - {w})
      case Reconcile(read) => if s.status == Some(read) then s.(status := Some(Failed)) else s
      case Crash(process) => s.(workers := map w | w in s.workers && s.workers[w].process != process :: s.workers[w])
  }

  function Run(s: Session, steps: seq<Step>): Session {
    if steps == [] then s else Apply(Run(s, steps[..|steps| - 1]), steps[|steps| - 1])
  }

  predicate Holds(phase: Phase) { phase.Claimed? || phase.Reported? || phase == Raising(WhileHolding) }

  predicate Live(s: Session, w: nat) { w in s.workers && Holds(s.workers[w].phase) }

  /** Has stored the final status and not yet released its approval. */
  predicate Past(s: Session, w: nat) { w in s.workers && StageOf(s.workers[w].phase) == AfterCompletion }

  predicate NobodyLive(s: Session) { forall w :: w in s.workers ==> !Live(s, w) }

  /** The phases a resume goes through. */
  predicate PhaseFollows(before: Phase, after: Phase) {
    match before
    case Validating => after in {Claimed, Raising(BeforeClaim)}
    case Claimed => after in {Reported, Raising(WhileHolding)}
    case Reported => after in {Completed, Raising(WhileHolding)}
    case Completed => after == Raising(AfterCompletion)
    case Raising(_) => false
  }

  /** Whatever the step, a resume keeps its process and its approval, stays in its phase or goes on to
      the next one, and leaves only by losing its claim, by finishing, by raising, or with its process. */
  lemma WorkerMoves(s: Session, step: Step, w: nat)
    requires w in s.workers
    ensures
      var before, t := s.workers[w], Apply(s, step);
      if w in t.workers then
        && t.workers[w].process == before.process && t.workers[w].approval == before.approval
        && (t.workers[w].phase == before.phase || PhaseFollows(before.phase, t.workers[w].phase))
      else
        || step == Crash(before.process) || (step == Finish(w) && before.phase == Completed)
        || (step == MarkFailed(w) && before.phase.Raising?)
        || (step.Claim? && step.w == w && before.phase == Validating)
  {
  }

  /** A resume enters in its first phase, and only while no other one in its process has its approval;
      a process that ends takes exactly its own resumes with it. */
  lemma EntersAndLeaves(s: Session, w: nat, process: nat, approval: nat)
    ensures
      w !in s.workers ==>
        (w in Apply(s, Enter(w, process, approval)).workers <==>
           forall v :: v in s.workers ==> (s.workers[v].process, s.workers[v].approval) != (process, approval))
    ensures
      w !in s.workers && w in Apply(s, Enter(w, process, approval)).workers ==>
        Apply(s, Enter(w, process, approval)) == s.(workers := s.workers[w := Worker(process, approval, Validating)])
    ensures
      var t := Apply(s, Crash(process));
      && t.status == s.status
      && (forall v :: v in t.workers <==> v in s.workers && s.workers[v].process != process)
      && (forall v :: v in t.workers ==> t.workers[v] == s.workers[v])
  {
  }

  /** Who writes the stored status, and what: the original run, a claim that wins, a report or final
      save by the resume whose turn it is, a resume that raises while a resume is running, and a
      reconciliation of a running status that is still stored.  Nothing else does. */
  lemma StatusWrites(s: Session, step: Step)
    ensures
      var t := Apply(s, step);
      && (t.status == s.status
          || (step.OriginalStart? && t.status == Some(Running)) || (step.OriginalSave? && t.status == Some(step.status))
          || (step.Claim? && Claimable(s.status) && t.status == Some(ResumeRunning))
          || (step.SaveReport? && step.stored && t.status == Some(ResumeRunning))
          || (step.SaveFinal? && step.stored && t.status == Some(ApprovalResumed))
          || (step.MarkFailed? && s.status == Some(ResumeRunning) && t.status == Some(Failed))
          || (step.Reconcile? && s.status == Some(step.read) && t.status == Some(Failed)))
      && (step.SaveReport? && step.stored && step.w in s.workers && s.workers[step.w].phase == Claimed ==>
            t.status == Some(ResumeRunning))
      && (step.SaveFinal? && step.stored && step.w in s.workers && s.workers[step.w].phase == Reported ==>
            t.status == Some(ApprovalResumed))
      && (step.MarkFailed? && step.w in s.workers && s.workers[step.w].phase.Raising? ==>
            t.status != Some(ResumeRunning))
      && (step.Reconcile? && step.read in {Running, ResumeRunning} ==> t.status != Some(step.read))
  {
  }

  // ------------------------------------------------------------------ the safety invariant

  ghost predicate Safe(s: Session) {
    && (forall v, w :: Live(s, v) && Live(s, w) ==> v == w)
    && (forall w :: Live(s, w) ==> s.status == Some(ResumeRunning))
    && (forall w :: Past(s, w) ==> s.status == Some(ApprovalResumed))
  }

  /** The original run has done its last save before a resume claims. */
  predicate OriginalIsDone(s: Session, step: Step) {
    step.OriginalSave? ==> NobodyLive(s) && s.status != Some(ApprovalResumed)
  }

  /** Reconciliation fires only when whoever held the session is dead. */
  predicate ReconcilesTheDead(s: Session, step: Step) {
    step.Reconcile? ==> NobodyLive(s)
  }

  /** Only a resume that has held the claim marks it failed. */
  predicate MarksOwnClaim(s: Session, step: Step) {
    step.MarkFailed? && Enabled(s, step) ==> s.workers[step.w].phase != Raising(BeforeClaim)
  }

  predicate Lawful(s: Session, step: Step) {
    OriginalIsDone(s, step) && ReconcilesTheDead(s, step) && MarksOwnClaim(s, step)
  }

  predicate LawfulRun(s: Session, steps: seq<Step>) {
    forall i :: 0 <= i < |steps| ==> Lawful(Run(s, steps[..i]), steps[i])
  }

  /** Only winning a claim makes a resume live, and only the final save takes it past. */
  lemma WhoIsLive(s: Session, step: Step, v: nat)
    ensures Live(Apply(s, step), v) ==> Live(s, v) || (Wins(s, step) && step.w == v)
    ensures Past(Apply(s, step), v) ==> Past(s, v) || (step.SaveFinal? && step.w == v && step.stored && Live(s, v))
  {
  }

  lemma StepKeepsSafe(s: Session, step: Step)
    requires Safe(s) && Lawful(s, step)
    ensures Safe(Apply(s, step))
  {
    var t := Apply(s, step);
    forall v ensures Live(t, v) ==> Live(s, v) || (Wins(s, step) && step.w == v)
             ensures Past(t, v) ==> Past(s, v) || (step.SaveFinal? && step.w == v && step.stored && Live(s, v))
           {
      WhoIsLive(s, step, v);
    }
    if step.SaveFinal? && Enabled(s, step) {
      assert Live(s, step.w) && (step.stored ==> !Live(t, step.w));
    } else if step.MarkFailed? && Enabled(s, step) {
      assert (Live(s, step.w) || Past(s, step.w)) && !Live(t, step.w);
    } else if step.SaveReport? && Enabled(s, step) {
      assert Live(s, step.w);
    }
  }

  lemma LawfulPrefix(s: Session, steps: seq<Step>)
    requires LawfulRun(s, steps) && steps != []
    ensures LawfulRun(s, steps[..|steps| - 1]) && Lawful(Run(s, steps[..|steps| - 1]), steps[|steps| - 1])
  {
    var init := steps[..|steps| - 1];
    forall i | 0 <= i < |init| ensures Lawful(Run(s, init[..i]), init[i]) {
      assert init[..i] == steps[..i] && init[i] == steps[i];
    }
  }

  /** In every interleaving that meets the three hypotheses, at most one resume is live, a live one
      means the stored status is resume_running, and a completed one approval_resumed. */
  lemma {:induction false} AtMostOneLiveResume(status: Option<Status>, steps: seq<Step>)
    requires LawfulRun(Session(status, map[]), steps)
    ensures Safe(Run(Session(status, map[]), steps))
  {
    if steps != [] {
      LawfulPrefix(Session(status, map[]), steps);
      AtMostOneLiveResume(status, steps[..|steps| - 1]);
      StepKeepsSafe(Run(Session(status, map[]), steps[..|steps| - 1]), steps[|steps| - 1]);
    }
  }

  lemma ResumedStays(s: Session, step: Step)
    requires Safe(s) && s.status == Some(ApprovalResumed) && Lawful(s, step)
    ensures Apply(s, step).status == Some(ApprovalResumed) && !Wins(s, step)
  {
    if step.SaveReport? && Enabled(s, step) {
      assert Live(s, step.w);
    } else if step.SaveFinal? && Enabled(s, step) {
      assert Live(s, step.w);
    }
  }

  /** A session that has reached approval_resumed stays there and is never claimed again. */
  lemma {:induction false} ResumedIsNeverReclaimed(s: Session, steps: seq<Step>)
    requires Safe(s) && s.status == Some(ApprovalResumed) && LawfulRun(s, steps)
    ensures Run(s, steps).status == Some(ApprovalResumed) && Safe(Run(s, steps))
    ensures forall i :: 0 <= i < |steps| ==> !Wins(Run(s, steps[..i]), steps[i])
  {
    if steps != [] {
      var init := steps[..|steps| - 1];
      LawfulPrefix(s, steps);
      ResumedIsNeverReclaimed(s, init);
      StepKeepsSafe(Run(s, init), steps[|steps| - 1]);
      ResumedStays(Run(s, init), steps[|steps| - 1]);
      forall i | 0 <= i < |steps| ensures !Wins(Run(s, steps[..i]), steps[i]) {
        if i < |init| {
          assert init[..i] == steps[..i] && init[i] == steps[i];
        }
      }
    }
  }

  // --------------------------------------------------- one process and one approval

  predicate EntersAs(step: Step, process: nat, approval: nat) {
    step.Enter? ==> step.process == process && step.approval == approval
  }

  ghost predicate Alone(s: Session, process: nat, approval: nat) {
    && (forall w :: w in s.workers ==> s.workers[w].process == process && s.workers[w].approval == approval)
    && (forall v, w :: v in s.workers && w in s.workers ==> v == w)
  }

  lemma StepKeepsAlone(s: Session, step: Step, process: nat, approval: nat)
    requires Safe(s) && Alone(s, process, approval) && EntersAs(step, process, approval)
    requires OriginalIsDone(s, step) && ReconcilesTheDead(s, step)
    ensures Safe(Apply(s, step)) && Alone(Apply(s, step), process, approval)
  {
    var t := Apply(s, step);
    assert forall v :: v in t.workers ==> v in s.workers || (step.Enter? && Enabled(s, step) && step.w == v);
    if MarksOwnClaim(s, step) {
      StepKeepsSafe(s, step);
    } else {
      assert t.workers == map[];
    }
  }

  /** When every resume runs in one process for one approval, the in-process claim makes the third
      hypothesis unnecessary. */
  lemma {:induction false} OneProcessNeedsNoMarkDiscipline(status: Option<Status>, steps: seq<Step>, process: nat,
                                                           approval: nat)
    requires forall i :: 0 <= i < |steps| ==> EntersAs(steps[i], process, approval)
    requires forall i :: 0 <= i < |steps| ==>
               var s := Run(Session(status, map[]), steps[..i]);
               OriginalIsDone(s, steps[i]) && ReconcilesTheDead(s, steps[i])
    ensures Safe(Run(Session(status, map[]), steps)) && Alone(Run(Session(status, map[]), steps), process, approval)
  {
    if steps != [] {
      var n := |steps| - 1;
      forall i | 0 <= i < n ensures steps[..n][..i] == steps[..i] {
      }
      OneProcessNeedsNoMarkDiscipline(status, steps[..n], process, approval);
      StepKeepsAlone(Run(Session(status, map[]), steps[..n]), steps[n], process, approval);
    }
  }

  // ------------------------------------------------- which callers can never collide

  type Key = (nat, nat)   // a process and an approval

  predicate EntersWithin(steps: seq<Step>, keys: set<Key>) {
    forall i :: 0 <= i < |steps| && steps[i].Enter? ==> (steps[i].process, steps[i].approval) in keys
  }

  predicate MeetsTwo(s: Session, steps: seq<Step>) {
    forall i :: 0 <= i < |steps| ==>
      OriginalIsDone(Run(s, steps[..i]), steps[i]) && ReconcilesTheDead(Run(s, steps[..i]), steps[i])
  }

  /** All resumes of a run are entered under these keys, and the run meets the first two hypotheses. */
  predicate Admissible(status: Option<Status>, steps: seq<Step>, keys: set<Key>) {
    EntersWithin(steps, keys) && MeetsTwo(Session(status, map[]), steps)
  }

  /** No run can break the safety of a session that waits for its resume, whatever raises and whoever
      marks it failed, exactly when all resumes come from one process for one approval. */
  lemma SafeIffOneKey(status: Option<Status>, keys: set<Key>)
    requires Claimable(status)
    ensures (forall steps: seq<Step> :: Admissible(status, steps, keys) ==> Safe(Run(Session(status, map[]), steps)))
       <==> forall x, y :: x in keys && y in keys ==> x == y
  {
    if x, y :| x in keys && y in keys && x != y {
      var steps := CollidingRun(status, keys, x, y);
      assert !Safe(Run(Session(status, map[]), steps));
    } else {
      var only: Key := if k :| k in keys then k else (0, 0);
      forall steps: seq<Step> | Admissible(status, steps, keys) ensures Safe(Run(Session(status, map[]), steps)) {
        assert forall i :: 0 <= i < |steps| && steps[i].Enter? ==> (steps[i].process, steps[i].approval) == only;
        OneProcessNeedsNoMarkDiscipline(status, steps, only.0, only.1);
      }
    }
  }

  predicate Reaches(status: Option<Status>, keys: set<Key>, steps: seq<Step>, s: Session) {
    Admissible(status, steps, keys) && Run(Session(status, map[]), steps) == s
  }

  lemma Extend(status: Option<Status>, keys: set<Key>, steps: seq<Step>, s: Session, step: Step, t: Session)
    returns (longer: seq<Step>)
    requires Reaches(status, keys, steps, s) && !step.OriginalSave? && !step.Reconcile?
    requires (step.Enter? ==> (step.process, step.approval) in keys) && Apply(s, step) == t
    ensures Reaches(status, keys, longer, t)
  {
    longer := steps + [step];
    var s0 := Session(status, map[]);
    assert longer[..|longer| - 1] == steps;
    forall i | 0 <= i < |longer|
      ensures OriginalIsDone(Run(s0, longer[..i]), longer[i]) && ReconcilesTheDead(Run(s0, longer[..i]), longer[i])
    {
      if i < |steps| {
        assert longer[..i] == steps[..i] && longer[i] == steps[i];
      }
    }
  }

  lemma ReachBothEntered(status: Option<Status>, keys: set<Key>, x: Key, y: Key) returns (steps: seq<Step>)
    requires x in keys && y in keys && x != y
    ensures Reaches(status, keys, steps, Session(status,
              map[0 := Worker(x.0, x.1, Validating), 1 := Worker(y.0, y.1, Validating)]))
  {
    var s0 := Session(status, map[]);
    var s1 := Session(status, map[0 := Worker(x.0, x.1, Validating)]);
    var s2 := Session(status, map[0 := Worker(x.0, x.1, Validating), 1 := Worker(y.0, y.1, Validating)]);
    assert Apply(s0, Enter(0, x.0, x.1)).workers == s1.workers;
    steps := Extend(status, keys, [], s0, Enter(0, x.0, x.1), s1);
    assert Apply(s1, Enter(1, y.0, y.1)).workers == s2.workers;
    steps := Extend(status, keys, steps, s1, Enter(1, y.0, y.1), s2);
  }

  lemma ReachRaised(status: Option<Status>, keys: set<Key>, x: Key, y: Key) returns (steps: seq<Step>)
    requires Claimable(status) && x in keys && y in keys && x != y
    ensures Reaches(status, keys, steps, Session(Some(ResumeRunning),
              map[0 := Worker(x.0, x.1, Claimed), 1 := Worker(y.0, y.1, Raising(BeforeClaim))]))
  {
    var second := Worker(y.0, y.1, Validating);
    var s2 := Session(status, map[0 := Worker(x.0, x.1, Validating), 1 := second]);
    var s3 := Session(Some(ResumeRunning), map[0 := Worker(x.0, x.1, Claimed), 1 := second]);
    var s4 := s3.(workers := map[0 := Worker(x.0, x.1, Claimed), 1 := second.(phase := Raising(BeforeClaim))]);
    steps := ReachBothEntered(status, keys, x, y);
    assert Apply(s2, Claim(0, status)).workers == s3.workers;
    steps := Extend(status, keys, steps, s2, Claim(0, status), s3);
    assert Apply(s3, Interrupt(1)).workers == s4.workers;
    steps := Extend(status, keys, steps, s3, Interrupt(1), s4);
  }

  lemma ReachFailed(status: Option<Status>, keys: set<Key>, x: Key, y: Key) returns (steps: seq<Step>)
    requires Claimable(status) && x in keys && y in keys && x != y
    ensures Reaches(status, keys, steps, Session(Some(Failed), map[0 := Worker(x.0, x.1, Claimed)]))
  {
    var holder := Worker(x.0, x.1, Claimed);
    var s4 := Session(Some(ResumeRunning), map[0 := holder, 1 := Worker(y.0, y.1, Raising(BeforeClaim))]);
    var s5 := Session(Some(Failed), map[0 := holder]);
    steps := ReachRaised(status, keys, x, y);
    assert Apply(s4, MarkFailed(1)).workers == s5.workers;
    steps := Extend(status, keys, steps, s4, MarkFailed(1), s5);
  }

  /** For any two distinct keys: both enter, the first claims, the second raises before its claim and
      marks the first one's failed, and the next resume under the second key claims beside it. */
  lemma CollidingRun(status: Option<Status>, keys: set<Key>, x: Key, y: Key) returns (steps: seq<Step>)
    requires Claimable(status) && x in keys && y in keys && x != y
    ensures Admissible(status, steps, keys)
    ensures Live(Run(Session(status, map[]), steps), 0) && Live(Run(Session(status, map[]), steps), 2)
  {
    var holder := Worker(x.0, x.1, Claimed);
    var s5 := Session(Some(Failed), map[0 := holder]);
    var s6 := s5.(workers := map[0 := holder, 2 := Worker(y.0, y.1, Validating)]);
    var s7 := Session(Some(ResumeRunning), map[0 := holder, 2 := Worker(y.0, y.1, Claimed)]);
    steps := ReachFailed(status, keys, x, y);
    assert Apply(s5, Enter(2, y.0, y.1)).workers == s6.workers;
    steps := Extend(status, keys, steps, s5, Enter(2, y.0, y.1), s6);
    assert Apply(s6, Claim(2, Some(Failed))).workers == s7.workers;
    steps := Extend(status, keys, steps, s6, Claim(2, Some(Failed)), s7);
  }

  // ------------------------------------------------------------ each hypothesis is needed

  /** Two processes; the first has claimed and saved its report, the second has only entered. */
  const TWO_ENTERED := Session(Some(ResumeRunning), map[0 := Worker(0, 0, Reported), 1 := Worker(1, 0, Validating)])

  lemma TwoEnteredIsReached()
    ensures
      var entered := Apply(Apply(Session(Some(WaitingApproval), map[]), Enter(0, 0, 0)), Enter(1, 1, 0));
      && Wins(entered, Claim(0, Some(WaitingApproval)))
      && Apply(Apply(entered, Claim(0, Some(WaitingApproval))), SaveReport(0, true)) == TWO_ENTERED
    ensures Safe(TWO_ENTERED)
  {
    var entered := Apply(Apply(Session(Some(WaitingApproval), map[]), Enter(0, 0, 0)), Enter(1, 1, 0));
    assert entered.workers == map[0 := Worker(0, 0, Validating), 1 := Worker(1, 0, Validating)];
  }

  /** The second process raises before its claim — the stored state no longer waits for the
      approval, so validation refuses it — and marks the first one's claim failed.  The only
      hypothesis this breaks is the third. */
  lemma NonHolderMarks()
    ensures
      var raised := Apply(TWO_ENTERED, Interrupt(1));
      && OriginalIsDone(raised, MarkFailed(1)) && ReconcilesTheDead(raised, MarkFailed(1))
      && !MarksOwnClaim(raised, MarkFailed(1))
      && Apply(raised, MarkFailed(1)) == Session(Some(Failed), map[0 := Worker(0, 0, Reported)])
  {
    var raised := Apply(TWO_ENTERED, Interrupt(1));
    assert raised.workers == map[0 := Worker(0, 0, Reported), 1 := Worker(1, 0, Raising(BeforeClaim))];
  }

  /** A third resume then claims while the first still holds, and the first one's final save declares
      the session resumed while the third is still live. */
  lemma MarkByNonHolderAdmitsTwo()
    ensures
      var marked := Session(Some(Failed), map[0 := Worker(0, 0, Reported)]);
      var both := Apply(Apply(marked, Enter(2, 1, 0)), Claim(2, Some(Failed)));
      var saved := Apply(both, SaveFinal(0, true));
      Live(both, 0) && Live(both, 2) && Live(saved, 2) && saved.status == Some(ApprovalResumed)
  {
    var marked := Session(Some(Failed), map[0 := Worker(0, 0, Reported)]);
    var entered := Apply(marked, Enter(2, 1, 0));
    assert entered.workers == map[0 := Worker(0, 0, Reported), 2 := Worker(1, 0, Validating)];
  }

  /** A late save of the original run, or a reconciliation while the holder lives, does the same. */
  lemma LateSaveOrReconcileAdmitsTwo(other: Step)
    requires other == OriginalSave(WaitingApproval) || other == Reconcile(ResumeRunning)
    ensures
      var both := Apply(Apply(TWO_ENTERED, other), Claim(1, Some(WaitingApproval)));
      Live(both, 0) && Live(both, 1)
  {
    assert Apply(TWO_ENTERED, other).workers == TWO_ENTERED.workers;
  }

  // ----------------------------------------------------------- accounting without hypotheses

  /** The steps after which a session that could not be claimed can be. */
  predicate Reopens(s: Session, step: Step) { !Claimable(s.status) && Claimable(Apply(s, step).status) }

  function Claims(s: Session, steps: seq<Step>): nat {
    if steps == [] then 0
    else
      var init := steps[..|steps| - 1];
      Claims(s, init) + if Wins(Run(s, init), steps[|steps| - 1]) then 1 else 0
  }

  function Reopenings(s: Session, steps: seq<Step>): nat {
    if steps == [] then 0
    else
      var init := steps[..|steps| - 1];
      Reopenings(s, init) + if Reopens(Run(s, init), steps[|steps| - 1]) then 1 else 0
  }

  function Open(status: Option<Status>): nat { if Claimable(status) then 1 else 0 }

  /** Every claim uses up one opening, whatever the interleaving: without any hypothesis the claims
      won are bounded by the openings there have been. */
  lemma {:induction false} ClaimsUseOpenings(s: Session, steps: seq<Step>)
    ensures Claims(s, steps) + Open(Run(s, steps).status) <= Open(s.status) + Reopenings(s, steps)
  {
    if steps != [] {
      var init := steps[..|steps| - 1];
      ClaimsUseOpenings(s, init);
      ClaimCloses(Run(s, init), steps[|steps| - 1]);
    }
  }

  lemma ClaimCloses(s: Session, step: Step)
    ensures Wins(s, step) ==> Claimable(s.status) && !Claimable(Apply(s, step).status)
  {
  }

  /** And these are the only steps that open a claimed session again. */
  lemma WhatReopens(s: Session, step: Step)
    ensures Reopens(s, step) <==>
              || (step.OriginalSave? && !Claimable(s.status) && Claimable(Some(step.status)))
              || (step.MarkFailed? && Enabled(s, step) && s.status == Some(ResumeRunning))
              || (step.Reconcile? && Enabled(s, step) && s.status == Some(step.read))
  {
  }
}
