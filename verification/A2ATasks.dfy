/** Durable task records for agent-to-agent diagnosis requests: duplicates of a message, sent or
    streamed at the same time, share one record and start one diagnosis. */
module A2ATasks {

  import opened A2AMessages
  import opened Basics
  import opened TextTools

  datatype TaskState = Submitted | Working | Completed | TaskFailed

  datatype Record = Record(messageId: string, fingerprint: Envelope, ownerId: string, incidentId: string,
                           state: TaskState)

  /** What a record says about who asked for what; it is fixed at creation. */
  datatype Identity = Identity(messageId: string, fingerprint: Envelope, ownerId: string)

  function IdentityOf(r: Record): Identity { Identity(r.messageId, r.fingerprint, r.ownerId) }

  const DIAGNOSIS := "diagnosis"

  /** What a task id is a digest of. */
  function TaskId(kind: string, messageId: string): string { kind + ['\0'] + messageId }

  /** Kinds have no null character, so a task id stands for one kind and one message. */
  lemma TaskIdTells(kind: string, m: string, other: string, n: string)
    requires '\0' !in kind && '\0' !in other && TaskId(kind, m) == TaskId(other, n)
    ensures kind == other && m == n
  {
    JoinTells(kind, m, other, n, '\0');
  }

  predicate Matches(r: Record, e: Envelope) { r.messageId == e.messageId && r.fingerprint == FingerprintOf(e) }

  type Records = map<string, Record>

  /** An update of an existing record is refused unless its identity is the stored one. */
  function SaveRecord(records: Records, id: string, r: Record): Option<Records> {
    if id in records && IdentityOf(records[id]) != IdentityOf(r) then None else Some(records[id := r])
  }

  class TaskStore {
    var records: Records

    constructor ()
      ensures records == map[]
    {
      records := map[];
    }

    method Create(id: string, r: Record) returns (created: bool)
      modifies this
      ensures created <==> id !in old(records)
      ensures records == if created then old(records)[id := r] else old(records)
    {
      created := id !in records;
      if created {
        records := records[id := r];
      }
    }

    method Save(id: string, r: Record) returns (saved: bool)
      modifies this
      ensures saved <==> SaveRecord(old(records), id, r).Some?
      ensures records == if saved then SaveRecord(old(records), id, r).value else old(records)
    {
      var updated := SaveRecord(records, id, r);
      saved := updated.Some?;
      if saved {
        records := updated.value;
      }
    }
  }

  // ------------------------------------------------------------------ concurrent requests

  /** A request between two store operations: about to create its record, having created it and
      about to run its diagnosis, running it, or about to save a record it has read the owner of. */
  datatype Local =
    | Creating(envelope: Envelope)
    | Accepted(envelope: Envelope)
    | Diagnosing(envelope: Envelope)
    | Saving(envelope: Envelope, ownerId: string, state: TaskState)

  /** `started` counts the diagnoses begun for a task. */
  datatype World = World(records: Records, started: map<string, nat>, locals: map<nat, Local>)

  datatype Step =
    | Look(call: nat, envelope: Envelope, refreshes: bool)       // send or stream: find the record
    | Create(call: nat, incidentId: string)
    | Begin(call: nat)                                           // past the first event: run the diagnosis
    | EndDiagnosis(call: nat, state: TaskState)                  // a result or a failure to save
    | Refresh(call: nat, id: string, state: TaskState)           // a task query that saves what it shows
    | Save(call: nat, incidentId: string)
    | Crash(call: nat)

  function IdFor(e: Envelope): string { TaskId(DIAGNOSIS, e.messageId) }

  function Drop(w: World, call: nat): World { w.(locals := w.locals - {call}) }

  function Put(w: World, call: nat, local: Local): World { w.(locals := w.locals[call := local]) }

  function Started(w: World, id: string): nat { if id in w.started then w.started[id] else 0 }

  /** The envelope rebuilt from a record, when only the record is at hand. */
  function EnvelopeFrom(r: Record): Envelope { r.fingerprint.(messageId := r.messageId) }

  function Apply(w: World, step: Step): World {
    match step
    case Look(call, envelope, refreshes) =>
      if call in w.locals then w
      else if IdFor(envelope) !in w.records then Put(w, call, Creating(envelope))
      else if Matches(w.records[IdFor(envelope)], envelope) && refreshes
      then Put(w, call, Saving(envelope, w.records[IdFor(envelope)].ownerId, w.records[IdFor(envelope)].state))
      else w
    case Create(call, incidentId) =>
      if call in w.locals && w.locals[call].Creating? then
        var e := w.locals[call].envelope;
        var owner := OwnerOf(e.messageId);
        if IdFor(e) in w.records || owner.None? then Drop(w, call)
        else
          World(w.records[IdFor(e) := Record(e.messageId, FingerprintOf(e), owner.value, incidentId, Submitted)],
                w.started, w.locals[call := Accepted(e)])
      else w
    case Begin(call) =>
      if call in w.locals && w.locals[call].Accepted? then
        var e := w.locals[call].envelope;
        World(w.records, w.started[IdFor(e) := Started(w, IdFor(e)) + 1], w.locals[call := Diagnosing(e)])
      else w
    case EndDiagnosis(call, state) =>
      if call in w.locals && w.locals[call].Diagnosing? && IdFor(w.locals[call].envelope) in w.records then
        var e := w.locals[call].envelope;
        if Matches(w.records[IdFor(e)], e) then Put(w, call, Saving(e, w.records[IdFor(e)].ownerId, state))
        else Drop(w, call)
      else w
    case Refresh(call, id, state) =>
      if call !in w.locals && id in w.records && id == TaskId(DIAGNOSIS, w.records[id].messageId)
      then Put(w, call, Saving(EnvelopeFrom(w.records[id]), w.records[id].ownerId, state)) else w
    case Save(call, incidentId) =>
      if call in w.locals && w.locals[call].Saving? then
        var local := w.locals[call];
        var r := Record(local.envelope.messageId, FingerprintOf(local.envelope), local.ownerId, incidentId,
                        local.state);
        var saved := SaveRecord(w.records, IdFor(local.envelope), r);
        Drop(if saved.Some? then w.(records := saved.value) else w, call)
      else w
    case Crash(call) => Drop(w, call)
  }

  const EMPTY := World(map[], map[], map[])

  function RunFrom(w: World, steps: seq<Step>): World {
    if steps == [] then w else Apply(RunFrom(w, steps[..|steps| - 1]), steps[|steps| - 1])
  }

  function Run(steps: seq<Step>): World { RunFrom(EMPTY, steps) }

  predicate LocalOk(records: Records, local: Local) {
    local.Creating? ||
    (&& IdFor(local.envelope) in records && Matches(records[IdFor(local.envelope)], local.envelope)
     && (local.Saving? ==> records[IdFor(local.envelope)].ownerId == local.ownerId))
  }

  /** What a call does first: it goes on to create a record when there is none, goes on to save an
      existing one that is its own request if it is to refresh it, and otherwise is done. */
  lemma LooksUp(w: World, call: nat, e: Envelope, refreshes: bool)
    requires call !in w.locals
    ensures
      var v := Apply(w, Look(call, e, refreshes));
      && v.records == w.records && v.started == w.started
      && (call in v.locals <==> IdFor(e) !in w.records || (refreshes && Matches(w.records[IdFor(e)], e)))
      && (call in v.locals && IdFor(e) !in w.records ==> v.locals == w.locals[call := Creating(e)])
      && (call in v.locals && IdFor(e) in w.records ==>
            v.locals == w.locals[call := Saving(e, w.records[IdFor(e)].ownerId, w.records[IdFor(e)].state)])
      && (call !in v.locals ==> v == w)
  {
  }

  /** A record sits under its message's task id and belongs to whom the message names. */
  predicate RecordOk(id: string, r: Record) {
    id == TaskId(DIAGNOSIS, r.messageId) && r.fingerprint.messageId == "" && OwnerOf(r.messageId) == Some(r.ownerId)
  }

  /** The call has created the record and not yet begun the diagnosis. */
  predicate Holds(w: World, call: nat, id: string) {
    call in w.locals && w.locals[call].Accepted? && IdFor(w.locals[call].envelope) == id
  }

  /** Only recorded diagnoses have been started, each of them once; one whose creator still holds it
      has not been started, and has one creator. */
  ghost predicate StartsOk(w: World) {
    && w.started.Keys <= w.records.Keys
    && (forall id :: id in w.started ==> w.started[id] == 1)
    && (forall c, id :: Holds(w, c, id) ==> id !in w.started)
    && (forall c, d, id :: Holds(w, c, id) && Holds(w, d, id) ==> c == d)
  }

  ghost predicate Inv(w: World) {
    && StartsOk(w)
    && (forall id :: id in w.records ==> RecordOk(id, w.records[id]))
    && (forall c :: c in w.locals ==> LocalOk(w.records, w.locals[c]))
  }

  /** No record disappears or changes identity. */
  predicate SameIdentities(before: Records, after: Records) {
    forall id :: id in before ==> id in after && IdentityOf(after[id]) == IdentityOf(before[id])
  }

  /** A step that gives one caller something to hold. */
  lemma PutKeeps(w: World, call: nat, local: Local)
    requires Inv(w) && LocalOk(w.records, local) && !local.Accepted?
    ensures Inv(Put(w, call, local)) && SameIdentities(w.records, Put(w, call, local).records)
  {
    HoldersKept(w, Put(w, call, local), call);
  }

  /** Nobody new holds a record, and nothing was started. */
  lemma HoldersKept(w: World, v: World, call: nat)
    requires StartsOk(w) && v.started == w.started && w.records.Keys <= v.records.Keys
    requires forall c :: c in v.locals && v.locals[c].Accepted? ==> c in w.locals && v.locals[c] == w.locals[c]
    ensures StartsOk(v)
  {
    assert forall c, id :: Holds(v, c, id) ==> Holds(w, c, id);
  }

  lemma StepKeeps(w: World, step: Step)
    requires Inv(w)
    ensures Inv(Apply(w, step)) && SameIdentities(w.records, Apply(w, step).records)
  {
    match step
    case Save(call, incidentId) =>
      if call in w.locals && w.locals[call].Saving? {
        SaveKeeps(w, call, incidentId);
      }
    case Create(call, incidentId) =>
      if call in w.locals && w.locals[call].Creating? {
        CreateKeeps(w, call, incidentId);
      }
    case Begin(call) =>
      if call in w.locals && w.locals[call].Accepted? {
        BeginKeeps(w, call);
      }
    case Look(call, e, refreshes) =>
      if IdFor(e) !in w.records {
        PutKeeps(w, call, Creating(e));
      } else if Matches(w.records[IdFor(e)], e) {
        PutKeeps(w, call, Saving(e, w.records[IdFor(e)].ownerId, w.records[IdFor(e)].state));
      }
    case Refresh(call, id, state) =>
      if id in w.records {
        PutKeeps(w, call, Saving(EnvelopeFrom(w.records[id]), w.records[id].ownerId, state));
      }
    case EndDiagnosis(call, state) =>
      if call in w.locals && w.locals[call].Diagnosing? {
        var e := w.locals[call].envelope;
        assert LocalOk(w.records, w.locals[call]);
        PutKeeps(w, call, Saving(e, w.records[IdFor(e)].ownerId, state));
      }
    case Crash(call) => HoldersKept(w, Drop(w, call), call);
  }

  lemma BeginKeeps(w: World, call: nat)
    requires Inv(w) && call in w.locals && w.locals[call].Accepted?
    ensures Inv(Apply(w, Begin(call)))
  {
    var after := Apply(w, Begin(call));
    var id := IdFor(w.locals[call].envelope);
    assert LocalOk(w.records, w.locals[call]) && Holds(w, call, id);
    assert forall c, k :: Holds(after, c, k) ==> Holds(w, c, k) && c != call;
  }

  lemma SaveKeeps(w: World, call: nat, incidentId: string)
    requires Inv(w) && call in w.locals && w.locals[call].Saving?
    ensures Inv(Apply(w, Save(call, incidentId)))
    ensures SameIdentities(w.records, Apply(w, Save(call, incidentId)).records)
  {
    assert LocalOk(w.records, w.locals[call]);
    var after := Apply(w, Save(call, incidentId));
    assert after.records.Keys == w.records.Keys;
    forall c | c in after.locals ensures LocalOk(after.records, after.locals[c]) {
      assert LocalOk(w.records, w.locals[c]);
    }
    HoldersKept(w, after, call);
  }

  lemma CreateKeeps(w: World, call: nat, incidentId: string)
    requires Inv(w) && call in w.locals && w.locals[call].Creating?
    ensures Inv(Apply(w, Create(call, incidentId)))
    ensures SameIdentities(w.records, Apply(w, Create(call, incidentId)).records)
  {
    var after := Apply(w, Create(call, incidentId));
    var id := IdFor(w.locals[call].envelope);
    forall c | c in after.locals ensures LocalOk(after.records, after.locals[c]) {
      if c != call {
        assert LocalOk(w.records, w.locals[c]);
      }
    }
    if after.records == w.records {
      HoldersKept(w, after, call);
    } else {
      NewHolder(w, after, call, id);
    }
  }

  /** A call that has created a record holds it alone. */
  lemma NewHolder(w: World, after: World, call: nat, id: string)
    requires Inv(w) && id !in w.records && id in after.records
    requires after.started == w.started && w.records.Keys <= after.records.Keys
    requires Holds(after, call, id) && forall c :: c in after.locals && c != call ==>
                                                     c in w.locals && after.locals[c] == w.locals[c]
    ensures StartsOk(after)
  {
    forall c, k | Holds(after, c, k) ensures if c == call then k == id else Holds(w, c, k) && k in w.records {
      if c != call {
        assert LocalOk(w.records, w.locals[c]);
      }
    }
  }

  lemma {:induction false} EveryRunKeeps(steps: seq<Step>)
    ensures Inv(Run(steps))
  {
    if steps != [] {
      EveryRunKeeps(steps[..|steps| - 1]);
      StepKeeps(Run(steps[..|steps| - 1]), steps[|steps| - 1]);
    }
  }

  /** However many duplicates are sent and streamed at once, a task's diagnosis starts at most once. */
  lemma StartsAtMostOnce(steps: seq<Step>, id: string)
    ensures Started(Run(steps), id) <= 1
  {
    EveryRunKeeps(steps);
  }

  // --------------------------------------------------------- which records are started

  /** The step creates the record of the id; the step starts its diagnosis. */
  predicate Creates(w: World, step: Step, id: string) {
    step.Create? && id !in w.records && id in Apply(w, step).records
  }

  predicate Starts(w: World, step: Step, id: string) { step.Begin? && Holds(w, step.call, id) }

  /** Starting is the creator's own next move: nothing else, whoever asks and however often, starts a
      diagnosis. */
  lemma OnlyBeginStarts(w: World, step: Step, id: string)
    requires Inv(w)
    ensures id in Apply(w, step).started <==> id in w.started || Starts(w, step, id)
  {
  }

  /** Who holds a record it created keeps holding it until it begins or is gone. */
  lemma HolderStays(w: World, step: Step, call: nat, id: string)
    requires Inv(w) && Holds(w, call, id) && step != Crash(call) && step != Begin(call)
    ensures Holds(Apply(w, step), call, id)
  {
  }

  lemma OnlyCreatingHolds(w: World, step: Step, call: nat, id: string)
    requires Inv(w) && Holds(Apply(w, step), call, id) && !Holds(w, call, id)
    ensures Creates(w, step, id) && step.call == call
  {
  }

  /** Call `c` created the record of `id` at step `i` and was not gone before step `j`. */
  predicate CreatedBy(steps: seq<Step>, i: nat, j: nat, id: string) {
    && i < j <= |steps| && Creates(Run(steps[..i]), steps[i], id)
    && forall k :: i < k < j ==> steps[k] != Crash(steps[i].call)
  }

  predicate BegunBy(steps: seq<Step>, i: nat, j: nat, id: string) {
    j < |steps| && CreatedBy(steps, i, j, id) && steps[j] == Begin(steps[i].call)
  }

  lemma CreatedByPrefix(steps: seq<Step>, n: nat, i: nat, j: nat, id: string)
    requires j <= n <= |steps|
    ensures CreatedBy(steps[..n], i, j, id) <==> CreatedBy(steps, i, j, id)
  {
    if i < j {
      assert steps[..n][..i] == steps[..i] && steps[..n][i] == steps[i];
    }
  }

  /** The last step of a run, in terms of the runs alone. */
  lemma LastStarts(steps: seq<Step>, id: string)
    requires steps != []
    ensures var init, last := steps[..|steps| - 1], steps[|steps| - 1];
            id in Run(steps).started <==> id in Run(init).started || Starts(Run(init), last, id)
  {
    EveryRunKeeps(steps[..|steps| - 1]);
    OnlyBeginStarts(Run(steps[..|steps| - 1]), steps[|steps| - 1], id);
  }

  lemma LastHolds(steps: seq<Step>, call: nat, id: string)
    requires steps != []
    ensures
      var init, last := steps[..|steps| - 1], steps[|steps| - 1];
      && (Holds(Run(init), call, id) && last != Crash(call) && last != Begin(call) ==> Holds(Run(steps), call, id))
      && (Holds(Run(steps), call, id) && Holds(Run(init), call, id) ==> last != Crash(call))
      && (Holds(Run(steps), call, id) && !Holds(Run(init), call, id) ==>
            Creates(Run(init), last, id) && last.call == call)
      && (Creates(Run(init), last, id) ==> Holds(Run(steps), last.call, id))
  {
    var init, last := steps[..|steps| - 1], steps[|steps| - 1];
    EveryRunKeeps(init);
    if Holds(Run(steps), call, id) && !Holds(Run(init), call, id) {
      OnlyCreatingHolds(Run(init), last, call, id);
    } else if Holds(Run(init), call, id) && last != Crash(call) && last != Begin(call) {
      HolderStays(Run(init), last, call, id);
    }
    if Creates(Run(init), last, id) {
      CreatorIsHolder(Run(init), last, id);
    }
  }

  lemma CreatorIsHolder(w: World, step: Step, id: string)
    requires Creates(w, step, id)
    ensures Holds(Apply(w, step), step.call, id)
  {
  }

  /** Whoever holds a record has created it and has not been gone since. */
  lemma {:induction false} HolderCreated(steps: seq<Step>, call: nat, id: string) returns (i: nat)
    requires Holds(Run(steps), call, id)
    ensures CreatedBy(steps, i, |steps|, id) && steps[i].call == call
  {
    assert steps != [];
    var n := |steps| - 1;
    LastHolds(steps, call, id);
    if Holds(Run(steps[..n]), call, id) {
      i := HolderCreated(steps[..n], call, id);
      CreatedByPrefix(steps, n, i, n, id);
    } else {
      i := n;
    }
  }

  /** A creator that has not been gone since holds its record, or has begun. */
  lemma {:induction false} CreatorHolds(steps: seq<Step>, i: nat, id: string)
    requires CreatedBy(steps, i, |steps|, id)
    ensures Holds(Run(steps), steps[i].call, id) || id in Run(steps).started
  {
    var n := |steps| - 1;
    LastHolds(steps, steps[i].call, id);
    LastStarts(steps, id);
    if i < n {
      CreatedByPrefix(steps, n, i, n, id);
      CreatorHolds(steps[..n], i, id);
    }
  }

  lemma {:induction false} StartedWasBegun(steps: seq<Step>, id: string) returns (i: nat, j: nat)
    requires id in Run(steps).started
    ensures BegunBy(steps, i, j, id)
  {
    assert steps != [];
    var n := |steps| - 1;
    LastStarts(steps, id);
    if id in Run(steps[..n]).started {
      i, j := StartedWasBegun(steps[..n], id);
      CreatedByPrefix(steps, n, i, j, id);
    } else {
      i := HolderCreated(steps[..n], steps[n].call, id);
      j := n;
      CreatedByPrefix(steps, n, i, n, id);
    }
  }

  lemma {:induction false} BegunIsStarted(steps: seq<Step>, id: string, i: nat, j: nat)
    requires BegunBy(steps, i, j, id)
    ensures id in Run(steps).started
  {
    var n := |steps| - 1;
    LastStarts(steps, id);
    CreatedByPrefix(steps, n, i, j, id);
    if j < n {
      BegunIsStarted(steps[..n], id, i, j);
    } else {
      CreatorHolds(steps[..n], i, id);
    }
  }

  /** A recorded diagnosis has been started exactly when its creator, having created the record, was
      not gone before it began. */
  lemma StartedIffCreatorBegan(steps: seq<Step>, id: string)
    ensures id in Run(steps).started <==> exists i: nat, j: nat :: BegunBy(steps, i, j, id)
  {
    if id in Run(steps).started {
      var i, j := StartedWasBegun(steps, id);
    } else if i: nat, j: nat :| BegunBy(steps, i, j, id) {
      BegunIsStarted(steps, id, i, j);
      assert false;
    }
  }

  predicate Awaited(w: World, id: string) { exists c :: c in w.locals && Holds(w, c, id) }

  lemma {:induction false} RunFromKeeps(w: World, steps: seq<Step>)
    requires Inv(w)
    ensures Inv(RunFrom(w, steps))
  {
    if steps != [] {
      RunFromKeeps(w, steps[..|steps| - 1]);
      StepKeeps(RunFrom(w, steps[..|steps| - 1]), steps[|steps| - 1]);
    }
  }

  lemma RecordsStay(w: World, step: Step, id: string)
    requires Inv(w) && id in w.records
    ensures id in Apply(w, step).records
  {
    StepKeeps(w, step);
  }

  lemma {:induction false} NeverStarted(w: World, steps: seq<Step>, id: string)
    requires Inv(w) && id in w.records && id !in w.started && !Awaited(w, id)
    ensures id in RunFrom(w, steps).records && id !in RunFrom(w, steps).started && !Awaited(RunFrom(w, steps), id)
  {
    if steps != [] {
      var init, last := steps[..|steps| - 1], steps[|steps| - 1];
      var v := RunFrom(w, init);
      NeverStarted(w, init, id);
      RunFromKeeps(w, init);
      OnlyBeginStarts(v, last, id);
      RecordsStay(v, last, id);
      forall c | c in Apply(v, last).locals ensures !Holds(Apply(v, last), c, id) {
        if Holds(Apply(v, last), c, id) {
          OnlyCreatingHolds(v, last, c, id);
        }
      }
    }
  }

  predicate StartedBy(w: World, more: seq<Step>, id: string) { id in RunFrom(w, more).started }

  /** What can still become of a record whose diagnosis has not been started: some continuation starts
      it exactly when the call that created it is still there.  Retries of the message change nothing
      about that. */
  lemma CanStillStartIff(steps: seq<Step>, id: string)
    requires id in Run(steps).records && id !in Run(steps).started
    ensures (exists more: seq<Step> :: StartedBy(Run(steps), more, id)) <==> Awaited(Run(steps), id)
  {
    EveryRunKeeps(steps);
    var w := Run(steps);
    if Awaited(w, id) {
      var c :| c in w.locals && Holds(w, c, id);
      var more := [Begin(c)];
      assert more[..0] == [] && RunFrom(w, []) == w && RunFrom(w, more) == Apply(w, Begin(c));
      assert StartedBy(w, more, id);
    } else {
      forall more: seq<Step> ensures !StartedBy(w, more, id) {
        NeverStarted(w, more, id);
      }
    }
  }

  /** The first request goes away at the event that accepts it: the record stays, and neither the
      retry that follows nor anything after it ever starts the diagnosis. */
  lemma OrphanRun(e: Envelope, more: seq<Step>)
    requires OwnerOf(e.messageId).Some?
    ensures
      var w := RunFrom(Run([Look(0, e, false), Create(0, ""), Crash(0), Look(1, e, true)]), more);
      IdFor(e) in w.records && Started(w, IdFor(e)) == 0
  {
    var steps := [Look(0, e, false), Create(0, ""), Crash(0), Look(1, e, true)];
    var id := IdFor(e);
    var looked := Apply(EMPTY, steps[0]);
    var created := Apply(looked, steps[1]);
    var gone := Apply(created, steps[2]);
    assert looked.locals == map[0 := Creating(e)] && created.locals == map[0 := Accepted(e)] && gone.locals == map[];
    assert Run(steps[..0]) == EMPTY;
    assert steps[..1][..0] == steps[..0] && Run(steps[..1]) == looked;
    assert steps[..2][..1] == steps[..1] && Run(steps[..2]) == created;
    assert steps[..3][..2] == steps[..2] && Run(steps[..3]) == gone;
    assert steps[..4] == steps && Run(steps) == Apply(gone, steps[3]);
    EveryRunKeeps(steps);
    NeverStarted(Run(steps), more, id);
  }

  // ------------------------------------------------------------------------- identities

  /** Between any two points of a run a record keeps its message, its fingerprint and its owner. */
  lemma {:induction false} IdentityNeverChanges(steps: seq<Step>, i: nat)
    requires i <= |steps|
    ensures SameIdentities(Run(steps[..i]).records, Run(steps).records)
  {
    if i == |steps| {
      assert steps[..i] == steps;
    } else {
      var init := steps[..|steps| - 1];
      assert init[..i] == steps[..i];
      IdentityNeverChanges(init, i);
      EveryRunKeeps(init);
      StepKeeps(Run(init), steps[|steps| - 1]);
    }
  }

  /** The owner of a record is the principal the message was scoped to, exactly when the principal's
      identifier has no colon. */
  lemma OwnerIsPrincipalIff(steps: seq<Step>, id: string, principal: string, messageId: string)
    requires id in Run(steps).records && Run(steps).records[id].messageId == ScopedId(principal, messageId)
    ensures Run(steps).records[id].ownerId == principal <==> ':' !in principal
  {
    EveryRunKeeps(steps);
    assert RecordOk(id, Run(steps).records[id]);
    OwnerReadBackIff(principal, messageId);
  }

  /** A message id used again with a different request gets nowhere: it neither saves nor starts
      anything once the record is there. */
  lemma DifferentRequestIsRefused(w: World, call: nat, e: Envelope, refreshes: bool)
    requires call !in w.locals && IdFor(e) in w.records && !Matches(w.records[IdFor(e)], e)
    ensures Apply(w, Look(call, e, refreshes)) == w
  {
  }

  /** A save is never refused in a reachable state: whoever saves has read the record's own identity. */
  lemma SavesAreAccepted(steps: seq<Step>, call: nat, incidentId: string)
    requires call in Run(steps).locals && Run(steps).locals[call].Saving?
    ensures
      var w := Run(steps);
      var id := IdFor(w.locals[call].envelope);
      id in Apply(w, Save(call, incidentId)).records
      && Apply(w, Save(call, incidentId)).records[id].state == w.locals[call].state
  {
    EveryRunKeeps(steps);
    assert LocalOk(Run(steps).records, Run(steps).locals[call]);
  }
}
