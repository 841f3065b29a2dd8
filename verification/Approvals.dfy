/** The lifecycle of approval requests over a store shared by any number of callers.

    The store creates once per idempotency key, saves a decision only while the request is pending,
    and otherwise overwrites a request only with a copy of the same status.  Callers hold copies
    between those operations. */
module Approvals {

  import opened ChangePlans
  import opened Basics

  const DECISION_PROJECTIONS := {"incident_state", "trace", "report"}
  const CREATION_PROJECTIONS := {"incident_state", "trace"}

  datatype Decision = Approve | Reject | Cancel

  function StatusFor(decision: Decision): ApprovalStatus {
    match decision
    case Approve => Approved
    case Reject => Rejected
    case Cancel => Cancelled
  }

  function PlanStatusFor(status: ApprovalStatus): PlanStatus {
    match status
    case Approved => PlanApproved
    case Rejected => PlanRejected
    case _ => PlanCancelled
  }

  // ------------------------------------------------------- what the service computes

  /** A new request gets its plan's fingerprint; one that names another is refused. */
  function WithPlanFingerprint(r: ApprovalRequest): Option<ApprovalRequest> {
    if r.plan.None? then Some(r)
    else if r.fingerprint != Missing && r.fingerprint != Of(r.plan.value) then None
    else Some(r.(fingerprint := Of(r.plan.value)))
  }

  /** It is refused exactly when it has a plan and names the fingerprint of something else. */
  lemma FingerprintedIff(r: ApprovalRequest)
    ensures WithPlanFingerprint(r).Some? <==>
              r.plan.None? || r.fingerprint == Missing || r.fingerprint == Of(r.plan.value)
    ensures WithPlanFingerprint(r).Some? ==>
              WithPlanFingerprint(r).value == if r.plan.None? then r else r.(fingerprint := Of(r.plan.value))
  {
  }

  function Decided(r: ApprovalRequest, status: ApprovalStatus, at: real, actor: string): ApprovalRequest {
    var plan := if r.plan.Some? then Some(r.plan.value.(status := PlanStatusFor(status))) else None;
    r.(status := status, decidedAt := Some(at), decidedBy := actor, plan := plan,
       fingerprint := if plan.Some? then Of(plan.value) else r.fingerprint,
       projectionPending := DECISION_PROJECTIONS)
  }

  /** What a decision on a copy would store: nothing when it is refused, a cancellation when the
      request has expired. */
  function Resolve(copy: ApprovalRequest, decision: Decision, at: real, actor: string): Option<ApprovalRequest> {
    if copy.status != Pending then None
    else if ApprovalExpired(copy, at) then Some(Decided(copy, Cancelled, at, "system"))
    else if copy.plan.Some? && copy.fingerprint != Of(copy.plan.value) then None
    else Some(Decided(copy, StatusFor(decision), at, actor))
  }

  /** A decision on an unexpired request gives it, and its plan, the status of that name; one on an
      expired request cancels it, whoever decides what.  It names who decided and when, binds the plan
      as it now is, owes every projection, and leaves the rest of the request alone. */
  lemma DecisionGives(r: ApprovalRequest, decision: Decision, at: real, actor: string)
    requires Resolve(r, decision, at, actor).Some?
    ensures
      var d := Resolve(r, decision, at, actor).value;
      && r.status == Pending && d.decidedAt == Some(at)
      && d.decidedBy == (if ApprovalExpired(r, at) then "system" else actor)
      && (d.status == Approved <==> decision == Approve && !ApprovalExpired(r, at))
      && (d.status == Rejected <==> decision == Reject && !ApprovalExpired(r, at))
      && (d.status == Cancelled <==> decision == Cancel || ApprovalExpired(r, at))
      && d.projectionPending == {"incident_state", "trace", "report"}
      && (d.plan.Some? <==> r.plan.Some?) && (d.plan.Some? ==> d.fingerprint == Of(d.plan.value))
      && (d.plan.Some? ==> d.plan.value.(status := r.plan.value.status) == r.plan.value)
      && (d.plan.Some? ==> (d.plan.value.status == PlanApproved <==> d.status == Approved))
      && (d.plan.Some? ==> (d.plan.value.status == PlanRejected <==> d.status == Rejected))
      && (d.plan.Some? ==> (d.plan.value.status == PlanCancelled <==> d.status == Cancelled))
      && d.(status := r.status, decidedAt := r.decidedAt, decidedBy := r.decidedBy, plan := r.plan,
            fingerprint := r.fingerprint, projectionPending := r.projectionPending) == r
      && (d.plan.None? ==> d.fingerprint == r.fingerprint)
  {
  }

  // -------------------------------------------------------------------- the store

  type Requests = map<string, ApprovalRequest>

  /** Some pending request was created under the key. */
  predicate KeyTaken(requests: Requests, keys: map<string, string>, key: string) {
    exists id :: id in requests && id in keys && keys[id] == key && requests[id].status == Pending
  }

  class ApprovalStore {
    var requests: Requests
    var keys: map<string, string>

    constructor ()
      ensures requests == map[] && keys == map[]
    {
      requests, keys := map[], map[];
    }

    method CreateOnce(r: ApprovalRequest, key: string) returns (created: bool)
      modifies this
      ensures created <==> !KeyTaken(old(requests), old(keys), key) && r.approvalId !in old(requests)
      ensures requests == if created then old(requests)[r.approvalId := r] else old(requests)
      ensures keys == if created then old(keys)[r.approvalId := key] else old(keys)
    {
      created := !KeyTaken(requests, keys, key) && r.approvalId !in requests;
      if created {
        requests, keys := requests[r.approvalId := r], keys[r.approvalId := key];
      }
    }

    method SaveDecisionIfPending(r: ApprovalRequest) returns (saved: bool)
      modifies this`requests
      ensures saved <==> r.approvalId in old(requests) && old(requests)[r.approvalId].status == Pending
      ensures requests == if saved then old(requests)[r.approvalId := r] else old(requests)
    {
      saved := r.approvalId in requests && requests[r.approvalId].status == Pending;
      if saved {
        requests := requests[r.approvalId := r];
      }
    }

    method Save(r: ApprovalRequest)
      modifies this`requests
      ensures requests == Saved(old(requests), r)
    {
      if r.approvalId !in requests || requests[r.approvalId].status == r.status {
        requests := requests[r.approvalId := r];
      }
    }
  }

  /** An upsert that leaves a request of another status alone. */
  function Saved(requests: Requests, r: ApprovalRequest): Requests {
    if r.approvalId !in requests || requests[r.approvalId].status == r.status then requests[r.approvalId := r]
    else requests
  }

  /** A pending request is stored under this id. */
  predicate Decidable(requests: Requests, id: string) {
    id in requests && requests[id].approvalId == id && requests[id].status == Pending
  }

  /** Deciding one request without interference: an expired one is cancelled instead, and nothing
      else changes. */
  method DecideRequest(store: ApprovalStore, id: string, decision: Decision, now: real, actor: string)
    returns (accepted: bool)
    modifies store`requests
    ensures accepted <==>
            && Decidable(old(store.requests), id) && !ApprovalExpired(old(store.requests)[id], now)
            && (old(store.requests)[id].plan.Some? ==>
                  old(store.requests)[id].fingerprint == Of(old(store.requests)[id].plan.value))
    ensures accepted ==>
              store.requests
                == old(store.requests)[id := Decided(old(store.requests)[id], StatusFor(decision), now, actor)]
    ensures Decidable(old(store.requests), id) && ApprovalExpired(old(store.requests)[id], now) ==>
              store.requests == old(store.requests)[id := Decided(old(store.requests)[id], Cancelled, now, "system")]
    ensures !accepted && !(Decidable(old(store.requests), id) && ApprovalExpired(old(store.requests)[id], now)) ==>
              store.requests == old(store.requests)
  {
    if id !in store.requests || store.requests[id].approvalId != id {
      return false;
    }
    var copy := store.requests[id];
    var resolved := Resolve(copy, decision, now, actor);
    if resolved.None? {
      return false;
    }
    var saved := store.SaveDecisionIfPending(resolved.value);
    accepted := saved && !ApprovalExpired(copy, now);
  }

  predicate StillPending(r: ApprovalRequest, now: real) { r.status == Pending && !ApprovalExpired(r, now) }

  function Active(requests: Requests, ids: seq<string>, now: real): seq<string>
    requires forall i :: 0 <= i < |ids| ==> ids[i] in requests
  {
    if ids == [] then []
    else
      var last := ids[|ids| - 1];
      Active(requests, ids[..|ids| - 1], now) + if StillPending(requests[last], now) then [last] else []
  }

  /** A request after the expired ones have been cancelled. */
  function Swept(r: ApprovalRequest, now: real): ApprovalRequest {
    if r.status == Pending && ApprovalExpired(r, now) then Decided(r, Cancelled, now, "system") else r
  }

  /** What is listed are the requests that are pending and whose window has not passed, in order. */
  lemma {:induction false} ActiveIs(requests: Requests, ids: seq<string>, now: real) returns (at: seq<nat>)
    requires forall i :: 0 <= i < |ids| ==> ids[i] in requests
    ensures |at| == |Active(requests, ids, now)|
    ensures forall i, j :: 0 <= i < j < |at| ==> at[i] < at[j]
    ensures forall i :: 0 <= i < |at| ==> at[i] < |ids| && ids[at[i]] == Active(requests, ids, now)[i]
    ensures forall k: nat :: k < |ids| ==>
              (k in at <==> requests[ids[k]].status == Pending
                            && now - requests[ids[k]].createdAt <= requests[ids[k]].expiresInSeconds as real)
  {
    at := [];
    if ids != [] {
      var n := |ids| - 1;
      var before := ActiveIs(requests, ids[..n], now);
      at := before + if StillPending(requests[ids[n]], now) then [n] else [];
      forall k: nat | k < n ensures k in at <==> k in before {
      }
      assert n !in before;
    }
  }

  /** A request whose window has passed while it was pending is cancelled by the system; any other one
      stays as it is. */
  lemma SweptIs(r: ApprovalRequest, now: real)
    ensures
      if r.status == Pending && now - r.createdAt > r.expiresInSeconds as real then
        && Swept(r, now).status == Cancelled && Swept(r, now).decidedBy == "system"
        && Swept(r, now).decidedAt == Some(now)
        && forall decision, actor :: Resolve(r, decision, now, actor) == Some(Swept(r, now))
      else Swept(r, now) == r
  {
  }

  /** Listing what is pending cancels every listed request that has expired, and returns the others
      in order. */
  method ListPending(store: ApprovalStore, ids: seq<string>, now: real) returns (active: seq<string>)
    requires forall i :: 0 <= i < |ids| ==> ids[i] in store.requests
    requires forall i, j :: 0 <= i < j < |ids| ==> ids[i] != ids[j]
    requires forall id :: id in store.requests ==> store.requests[id].approvalId == id
    modifies store`requests
    ensures active == Active(old(store.requests), ids, now)
    ensures store.requests.Keys == old(store.requests).Keys
    ensures forall id :: id in store.requests ==>
              store.requests[id] == if id in ids then Swept(old(store.requests)[id], now) else old(store.requests)[id]
  {
    active := [];
    var i := 0;
    while i < |ids|
      invariant 0 <= i <= |ids|
      invariant active == Active(old(store.requests), ids[..i], now)
      invariant store.requests.Keys == old(store.requests).Keys
      invariant forall id :: id in store.requests ==>
                  store.requests[id] == if id in ids[..i] then Swept(old(store.requests)[id], now)
                                        else old(store.requests)[id]
    {
      var id := ids[i];
      var r := store.requests[id];
      assert id !in ids[..i] && r == old(store.requests)[id];
      assert ids[..i + 1] == ids[..i] + [id];
      if r.status == Pending {
        if ApprovalExpired(r, now) {
          var _ := store.SaveDecisionIfPending(Decided(r, Cancelled, now, "system"));
        } else {
          active := active + [id];
        }
      }
      i := i + 1;
    }
    assert ids[..|ids|] == ids;
  }

  // --------------------------------------------------------- interleaved callers

  /** What a caller holds between two store operations. */
  datatype Local =
    | Read(copy: ApprovalRequest)
    | Syncing(copy: ApprovalRequest)
    | Deciding(copy: ApprovalRequest, updated: ApprovalRequest)

  datatype World = World(requests: Requests, keys: map<string, string>, locals: map<nat, Local>)

  datatype Step =
    | Create(caller: nat, request: ApprovalRequest, key: string)
    | Fetch(caller: nat, id: string)
    | Repair(caller: nat)
    | Check(caller: nat, decision: Decision, at: real, actor: string)   // decide or cancel, up to the save
    | CancelExpired(caller: nat, at: real)                           // the same from listing pending ones
    | Commit(caller: nat)
    | Project(caller: nat, failed: set<string>)                      // sync the projections and save

  function Put(w: World, caller: nat, local: Local): World { w.(locals := w.locals[caller := local]) }

  function Drop(w: World, caller: nat): World { w.(locals := w.locals - {caller}) }

  function Apply(w: World, step: Step): World {
    match step
    case Create(caller, request, key) =>
      var stamped := WithPlanFingerprint(request);
      if request.status != Pending || stamped.None? || KeyTaken(w.requests, w.keys, key)
         || request.approvalId in w.requests then w
      else
        var r := stamped.value.(projectionPending := CREATION_PROJECTIONS);
        Put(w.(requests := w.requests[r.approvalId := r], keys := w.keys[r.approvalId := key]), caller, Syncing(r))
    case Fetch(caller, id) => if id in w.requests then Put(w, caller, Read(w.requests[id])) else w
    case Repair(caller) =>
      if caller in w.locals && w.locals[caller].Read? && w.locals[caller].copy.projectionPending != {}
      then Put(w, caller, Syncing(w.locals[caller].copy.(projectionPending := {}))) else w
    case Check(caller, decision, at, actor) =>
      if caller in w.locals && w.locals[caller].Read? then
        var resolved := Resolve(w.locals[caller].copy, decision, at, actor);
        if resolved.Some? then Put(w, caller, Deciding(w.locals[caller].copy, resolved.value)) else Drop(w, caller)
      else w
    case CancelExpired(caller, at) =>
      if caller in w.locals && w.locals[caller].Read? && w.locals[caller].copy.status == Pending
         && ApprovalExpired(w.locals[caller].copy, at)
      then Put(w, caller, Deciding(w.locals[caller].copy, Decided(w.locals[caller].copy, Cancelled, at, "system")))
      else w
    case Commit(caller) =>
      if caller in w.locals && w.locals[caller].Deciding? then
        var r := w.locals[caller].updated;
        if r.approvalId in w.requests && w.requests[r.approvalId].status == Pending
        then Put(w.(requests := w.requests[r.approvalId := r]), caller, Syncing(r)) else Drop(w, caller)
      else w
    case Project(caller, failed) =>
      if caller in w.locals && w.locals[caller].Syncing? then
        var copy := w.locals[caller].copy;
        var r := copy.(projectionPending := failed);
        Put(if r.projectionPending != copy.projectionPending then w.(requests := Saved(w.requests, r))
            else w, caller, Read(r))
      else w
  }

  const NOTHING := World(map[], map[], map[])

  function Run(steps: seq<Step>): World {
    if steps == [] then NOTHING else Apply(Run(steps[..|steps| - 1]), steps[|steps| - 1])
  }

  // ------------------------------------------------------------------ what steps do

  /** A request is created exactly when it is pending and rightly fingerprinted, its id is new, and no
      pending request was created under its key. */
  lemma CreatesIff(w: World, caller: nat, request: ApprovalRequest, key: string)
    requires w.keys.Keys == w.requests.Keys
    ensures
      var v := Apply(w, Create(caller, request, key));
      v != w <==>
        && request.status == Pending && WithPlanFingerprint(request).Some? && request.approvalId !in w.requests
        && forall id :: id in w.requests && w.keys[id] == key ==> w.requests[id].status != Pending
    ensures
      var v := Apply(w, Create(caller, request, key));
      v != w ==>
        && v.keys == w.keys[request.approvalId := key]
        && v.requests == w.requests[request.approvalId :=
             WithPlanFingerprint(request).value.(projectionPending := {"incident_state", "trace"})]
  {
    var v := Apply(w, Create(caller, request, key));
    if request.approvalId !in w.requests && request.approvalId in v.requests {
      assert v != w;
    }
  }

  /** Somebody who lists cancels, in the system's name, exactly what it has read as pending and expired. */
  lemma CancelsIff(w: World, caller: nat, at: real)
    requires caller in w.locals && w.locals[caller].Read?
    ensures
      var copy := w.locals[caller].copy;
      var v := Apply(w, CancelExpired(caller, at));
      if copy.status == Pending && at - copy.createdAt > copy.expiresInSeconds as real then
        && v.requests == w.requests && v.keys == w.keys && v.locals.Keys == w.locals.Keys
        && v.locals[caller].Deciding? && v.locals[caller].copy == copy
        && v.locals[caller].updated.status == Cancelled && v.locals[caller].updated.decidedBy == "system"
        && v.locals[caller].updated.decidedAt == Some(at)
      else v == w
  {
  }

  /** A read repairs exactly what has projections pending, and stores nothing by itself. */
  lemma RepairsIff(w: World, caller: nat)
    requires caller in w.locals && w.locals[caller].Read?
    ensures
      var copy := w.locals[caller].copy;
      Apply(w, Repair(caller)) ==
        if copy.projectionPending == {} then w
        else w.(locals := w.locals[caller := Syncing(copy.(projectionPending := {}))])
  {
  }

  // --------------------------------------------------------------- what every run keeps

  /** Two requests that differ at most in the projections still to be written. */
  predicate SameFact(a: ApprovalRequest, b: ApprovalRequest) {
    a.(projectionPending := {}) == b.(projectionPending := {})
  }

  /** `b` is a decision on `a`; other than a cancellation only if `a` had not expired. */
  predicate DecisionOn(a: ApprovalRequest, b: ApprovalRequest) {
    && a.status == Pending && b.status != Pending && b.decidedAt.Some?
    && SameFact(b, Decided(a, b.status, b.decidedAt.value, b.decidedBy))
    && (b.status != Cancelled ==> !ApprovalExpired(a, b.decidedAt.value))
  }

  predicate Evolves(a: ApprovalRequest, b: ApprovalRequest) { SameFact(a, b) || DecisionOn(a, b) }

  /** The request's fingerprint covers its plan; a decided request and its plan agree. */
  predicate Coherent(r: ApprovalRequest) {
    r.plan.Some? ==>
      && r.fingerprint == Of(r.plan.value)
      && (r.status != Pending ==> r.plan.value.status == PlanStatusFor(r.status))
  }

  /** A copy is either up to date, apart from projections, or a pending one of a decided request. */
  predicate CopyOf(requests: Requests, copy: ApprovalRequest) {
    && copy.approvalId in requests && Coherent(copy)
    && Evolves(copy, requests[copy.approvalId])
  }

  predicate LocalOk(requests: Requests, local: Local) {
    && CopyOf(requests, local.copy)
    && (local.Deciding? ==> DecisionOn(local.copy, local.updated))
  }

  predicate RequestsOk(requests: Requests, keys: map<string, string>) {
    forall id :: id in requests ==> requests[id].approvalId == id && Coherent(requests[id]) && id in keys
  }

  predicate PendingBoth(requests: Requests, a: string, b: string) {
    a in requests && b in requests && requests[a].status == Pending && requests[b].status == Pending
  }

  predicate OnePerKey(requests: Requests, keys: map<string, string>) {
    forall a, b :: a in keys && b in keys && PendingBoth(requests, a, b) && keys[a] == keys[b] ==> a == b
  }

  predicate LocalsOk(requests: Requests, locals: map<nat, Local>) {
    forall c :: c in locals ==> LocalOk(requests, locals[c])
  }

  predicate Inv(w: World) {
    RequestsOk(w.requests, w.keys) && OnePerKey(w.requests, w.keys) && LocalsOk(w.requests, w.locals)
  }

  lemma DecisionFacts(a: ApprovalRequest, b: ApprovalRequest)
    requires DecisionOn(a, b)
    ensures b.approvalId == a.approvalId && Coherent(b)
    ensures a.plan.Some? ==> b.plan.Some? && b.plan.value.(status := a.plan.value.status) == a.plan.value
  {
  }

  lemma EvolvesTransitive(a: ApprovalRequest, b: ApprovalRequest, c: ApprovalRequest)
    requires Evolves(a, b) && Evolves(b, c)
    ensures Evolves(a, c)
  {
  }

  /** Replacing one stored request by what it evolves to keeps every copy good. */
  lemma StoreKeeps(requests: Requests, r: ApprovalRequest, local: Local)
    requires r.approvalId in requests ==> Evolves(requests[r.approvalId], r)
    requires LocalOk(requests, local)
    ensures LocalOk(requests[r.approvalId := r], local)
  {
    if local.copy.approvalId == r.approvalId {
      EvolvesTransitive(local.copy, requests[r.approvalId], r);
    }
  }

  lemma LocalsKeep(requests: Requests, r: ApprovalRequest, locals: map<nat, Local>)
    requires r.approvalId in requests ==> Evolves(requests[r.approvalId], r)
    requires LocalsOk(requests, locals)
    ensures LocalsOk(requests[r.approvalId := r], locals)
  {
    forall c | c in locals ensures LocalOk(requests[r.approvalId := r], locals[c]) {
      StoreKeeps(requests, r, locals[c]);
    }
  }

  lemma RequestsKeep(requests: Requests, keys: map<string, string>, r: ApprovalRequest)
    requires RequestsOk(requests, keys) && OnePerKey(requests, keys)
    requires r.approvalId in requests && Evolves(requests[r.approvalId], r) && Coherent(r)
    ensures RequestsOk(requests[r.approvalId := r], keys) && OnePerKey(requests[r.approvalId := r], keys)
  {
    assert r.status == Pending ==> requests[r.approvalId].status == Pending;
    var after := requests[r.approvalId := r];
    forall a, b | a in keys && b in keys && PendingBoth(after, a, b) && keys[a] == keys[b] ensures a == b {
      assert PendingBoth(requests, a, b);
    }
  }

  lemma ResolvesToDecision(copy: ApprovalRequest, decision: Decision, at: real, actor: string)
    ensures var resolved := Resolve(copy, decision, at, actor); resolved.Some? ==> DecisionOn(copy, resolved.value)
  {
  }

  /** The invariant after replacing a stored request and one caller's local. */
  lemma Replaced(w: World, r: ApprovalRequest, caller: nat, local: Local)
    requires Inv(w) && r.approvalId in w.requests && Evolves(w.requests[r.approvalId], r) && Coherent(r)
    requires local == Read(r) || local == Syncing(r)
    ensures Inv(Put(w.(requests := w.requests[r.approvalId := r]), caller, local))
    ensures StoreEvolves(w, w.(requests := w.requests[r.approvalId := r]))
  {
    RequestsKeep(w.requests, w.keys, r);
    LocalsKeep(w.requests, r, w.locals);
    assert LocalOk(w.requests[r.approvalId := r], local);
  }

  lemma CommitKeeps(w: World, caller: nat)
    requires Inv(w)
    ensures Inv(Apply(w, Commit(caller))) && StoreEvolves(w, Apply(w, Commit(caller)))
  {
    if caller in w.locals && w.locals[caller].Deciding? {
      var copy, r := w.locals[caller].copy, w.locals[caller].updated;
      assert LocalOk(w.requests, w.locals[caller]);
      DecisionFacts(copy, r);
      if w.requests[r.approvalId].status == Pending {
        assert DecisionOn(w.requests[r.approvalId], r);
        Replaced(w, r, caller, Syncing(r));
      }
    }
  }

  lemma ProjectKeeps(w: World, caller: nat, failed: set<string>)
    requires Inv(w)
    ensures Inv(Apply(w, Project(caller, failed))) && SameFacts(w.requests, Apply(w, Project(caller, failed)).requests)
  {
    if caller in w.locals && w.locals[caller].Syncing? {
      var copy := w.locals[caller].copy;
      var r := copy.(projectionPending := failed);
      assert LocalOk(w.requests, w.locals[caller]);
      ProjectedCopy(w.requests, copy, r);
      if w.requests[r.approvalId].status == r.status && r.projectionPending != copy.projectionPending {
        Replaced(w, r, caller, Read(r));
      }
    }
  }

  lemma ProjectedCopy(requests: Requests, copy: ApprovalRequest, r: ApprovalRequest)
    requires CopyOf(requests, copy) && SameFact(copy, r)
    ensures CopyOf(requests, r)
    ensures requests[r.approvalId].status == r.status ==> SameFact(requests[r.approvalId], r)
  {
    EvolvesTransitive(r, copy, requests[copy.approvalId]);
  }

  /** The same requests, apart from projections. */
  predicate SameFacts(before: Requests, after: Requests) {
    forall id :: id in before ==> id in after && SameFact(before[id], after[id])
  }

  lemma CreateKeeps(w: World, caller: nat, request: ApprovalRequest, key: string)
    requires Inv(w)
    ensures Inv(Apply(w, Create(caller, request, key))) && StoreEvolves(w, Apply(w, Create(caller, request, key)))
  {
    var stamped := WithPlanFingerprint(request);
    if !(request.status != Pending || stamped.None? || KeyTaken(w.requests, w.keys, key)
         || request.approvalId in w.requests) {
      var r := stamped.value.(projectionPending := CREATION_PROJECTIONS);
      assert Coherent(r) && r.approvalId == request.approvalId;
      LocalsKeep(w.requests, r, w.locals);
      var after, keys := w.requests[r.approvalId := r], w.keys[r.approvalId := key];
      forall a, b | a in keys && b in keys && PendingBoth(after, a, b) && keys[a] == keys[b] ensures a == b {
        assert a != r.approvalId && b != r.approvalId ==> PendingBoth(w.requests, a, b);
      }
    }
  }

  /** No stored request disappears, and each evolves. */
  predicate StoreEvolves(w: World, v: World) {
    forall id :: id in w.requests ==> id in v.requests && Evolves(w.requests[id], v.requests[id])
  }

  /** Steps that touch one caller's copy only. */
  lemma LocalStepKeeps(w: World, caller: nat, local: Local)
    requires Inv(w) && LocalOk(w.requests, local)
    ensures Inv(Put(w, caller, local)) && StoreEvolves(w, Put(w, caller, local))
    ensures Inv(Drop(w, caller)) && StoreEvolves(w, Drop(w, caller))
  {
  }

  lemma CheckKeeps(w: World, caller: nat, decision: Decision, at: real, actor: string)
    requires Inv(w) && caller in w.locals && w.locals[caller].Read?
    ensures Inv(Apply(w, Check(caller, decision, at, actor)))
            && StoreEvolves(w, Apply(w, Check(caller, decision, at, actor)))
  {
    var copy := w.locals[caller].copy;
    assert LocalOk(w.requests, w.locals[caller]);
    ResolvesToDecision(copy, decision, at, actor);
    var resolved := Resolve(copy, decision, at, actor);
    LocalStepKeeps(w, caller, if resolved.Some? then Deciding(copy, resolved.value) else Read(copy));
  }

  lemma StepKeeps(w: World, step: Step)
    requires Inv(w)
    ensures Inv(Apply(w, step)) && StoreEvolves(w, Apply(w, step))
  {
    match step
    case Create(caller, request, key) => CreateKeeps(w, caller, request, key);
    case Commit(caller) => CommitKeeps(w, caller);
    case Project(caller, failed) => ProjectKeeps(w, caller, failed);
    case Check(caller, decision, at, actor) =>
      if caller in w.locals && w.locals[caller].Read? {
        CheckKeeps(w, caller, decision, at, actor);
      }
    case CancelExpired(caller, at) =>
      if caller in w.locals && w.locals[caller].Read? && w.locals[caller].copy.status == Pending {
        var copy := w.locals[caller].copy;
        assert LocalOk(w.requests, w.locals[caller]);
        LocalStepKeeps(w, caller, Deciding(copy, Decided(copy, Cancelled, at, "system")));
      }
    case Repair(caller) =>
      if caller in w.locals && w.locals[caller].Read? {
        var copy := w.locals[caller].copy;
        assert LocalOk(w.requests, w.locals[caller]);
        ProjectedCopy(w.requests, copy, copy.(projectionPending := {}));
        LocalStepKeeps(w, caller, Syncing(copy.(projectionPending := {})));
      }
    case Fetch(caller, id) =>
      if id in w.requests {
        LocalStepKeeps(w, caller, Read(w.requests[id]));
      }
  }

  /** In every interleaving: fingerprints cover plans, decided requests agree with their plans, and
      at most one pending request exists per idempotency key. */
  lemma {:induction false} EveryRunKeeps(steps: seq<Step>)
    ensures Inv(Run(steps))
    ensures forall id :: id in Run(steps).requests ==> Coherent(Run(steps).requests[id])
    ensures forall a, b :: PendingBoth(Run(steps).requests, a, b) && Run(steps).keys[a] == Run(steps).keys[b] ==> a == b
  {
    if steps != [] {
      EveryRunKeeps(steps[..|steps| - 1]);
      StepKeeps(Run(steps[..|steps| - 1]), steps[|steps| - 1]);
    }
  }

  /** Between any two points of a run a request stays what it is, up to projections, or is decided
      once; an expired one can only have been cancelled. */
  lemma {:induction false} DecidedOnce(steps: seq<Step>, i: nat)
    requires i <= |steps|
    ensures StoreEvolves(Run(steps[..i]), Run(steps))
  {
    if i == |steps| {
      assert steps[..i] == steps;
    } else {
      var init := steps[..|steps| - 1];
      assert init[..i] == steps[..i];
      DecidedOnce(init, i);
      EveryRunKeeps(init);
      StepKeeps(Run(init), steps[|steps| - 1]);
      var before, middle, after := Run(steps[..i]), Run(init), Run(steps);
      forall id | id in before.requests
        ensures id in after.requests && Evolves(before.requests[id], after.requests[id])
      {
        EvolvesTransitive(before.requests[id], middle.requests[id], after.requests[id]);
      }
    }
  }

  /** Syncing projections, whoever does it and whatever fails, changes no fact. */
  lemma RepairChangesNoFact(steps: seq<Step>, caller: nat, failed: set<string>)
    ensures SameFacts(Run(steps).requests, Apply(Run(steps), Project(caller, failed)).requests)
  {
    EveryRunKeeps(steps);
    ProjectKeeps(Run(steps), caller, failed);
  }

  /** So the fingerprint assertion before a decision never fails: a decision on an unexpired pending
      copy always goes ahead to the save. */
  lemma FingerprintNeverStopsADecision(steps: seq<Step>, caller: nat, decision: Decision, at: real, actor: string)
    requires caller in Run(steps).locals && Run(steps).locals[caller].Read?
    ensures var copy := Run(steps).locals[caller].copy;
            Resolve(copy, decision, at, actor).Some? <==> copy.status == Pending
  {
    EveryRunKeeps(steps);
    assert LocalOk(Run(steps).requests, Run(steps).locals[caller]);
  }

  /** A repair that succeeds is not stored: its copy already says that nothing is pending, so no save
      follows, and the stored request goes on saying that something is.  Only what failed is. */
  lemma CleanRepairIsNotStored(w: World, caller: nat, id: string, failed: set<string>)
    requires id in w.requests && w.requests[id].projectionPending != {}
    ensures
      var repaired := Apply(Apply(Apply(w, Fetch(caller, id)), Repair(caller)), Project(caller, failed));
      && repaired.locals[caller].copy.projectionPending == failed
      && (failed == {} ==> repaired.requests == w.requests)
      && (failed != {} && w.requests[id].approvalId == id ==>
            repaired.requests == w.requests[id := w.requests[id].(projectionPending := failed)])
  {
    var fetched := Apply(w, Fetch(caller, id));
    var syncing := Apply(fetched, Repair(caller));
    assert syncing.requests == w.requests
           && syncing.locals[caller] == Syncing(w.requests[id].(projectionPending := {}));
  }
}
