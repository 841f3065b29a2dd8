/** Merging node outputs into the run state, and the identity that the durable snapshots show. */
module Checkpoints {

  import opened JsonValues

  type State = map<string, Json>

  const IDENTITY_FIELDS := {"session_id", "trace_id", "incident_id"}
  const ADDITIVE_FIELDS := {
    "past_steps", "executed_steps", "tool_call_records", "gathered_evidence", "progress_events", "errors", "warnings"}

  // ---------------------------------------------------------------------- merging

  function EndsWith(values: seq<Json>, suffix: seq<Json>): (b: bool)
    ensures b <==> exists front: seq<Json> :: values == front + suffix
  {
    var b := |suffix| <= |values| && values[|values| - |suffix|..] == suffix;
    assert b ==> values == values[..|values| - |suffix|] + suffix;
    assert forall front: seq<Json> :: values == front + suffix ==> values[|front|..] == suffix;
    b
  }

  /** The incident identifier a value carries, or "". */
  function IdOf(v: Json, render: Json -> string): string {
    if v.Obj? then TextOf(Field(v.fields, "incident_id"), render) else ""
  }

  predicate Conflicts(existing: Json, incoming: Json, render: Json -> string) {
    IdOf(existing, render) != "" && IdOf(incoming, render) != "" && IdOf(existing, render) != IdOf(incoming, render)
  }

  /** What a key holds after a delta has given it a value. */
  function Combined(merged: State, key: string, value: Json, render: Json -> string): Json {
    if key in IDENTITY_FIELDS && key in merged then merged[key]
    else if key == "incident" && key in merged && merged[key].Obj? && Conflicts(merged[key], value, render)
    then merged[key]
    else if key !in ADDITIVE_FIELDS || !value.Arr? || key !in merged || !merged[key].Arr? then value
    else if EndsWith(merged[key].items, value.items) then merged[key]
    else Arr(merged[key].items + value.items)
  }

  function Merged(base: State, delta: State, render: Json -> string): State {
    map k | k in base.Keys + delta.Keys :: if k in delta then Combined(base, k, delta[k], render) else base[k]
  }

  /** The dictionary that lists the entries in this order. */
  function Dict(entries: seq<(string, Json)>): State {
    if entries == [] then map[]
    else Dict(entries[..|entries| - 1])[entries[|entries| - 1].0 := entries[|entries| - 1].1]
  }

  predicate DistinctKeys(entries: seq<(string, Json)>) {
    forall i, j :: 0 <= i < j < |entries| ==> entries[i].0 != entries[j].0
  }

  lemma {:induction false} DictKeys(entries: seq<(string, Json)>, key: string)
    requires forall j :: 0 <= j < |entries| ==> entries[j].0 != key
    ensures key !in Dict(entries)
  {
    if entries != [] {
      DictKeys(entries[..|entries| - 1], key);
    }
  }

  lemma MergeOne(base: State, sofar: State, key: string, value: Json, render: Json -> string)
    requires key !in sofar
    ensures var merged := Merged(base, sofar, render);
            merged[key := Combined(merged, key, value, render)] == Merged(base, sofar[key := value], render)
  {
  }

  method MergeCheckpointWithNodeOutput(checkpoint: State, entries: seq<(string, Json)>, render: Json -> string)
    returns (merged: State)
    requires DistinctKeys(entries)
    ensures merged == Merged(checkpoint, Dict(entries), render)
  {
    merged := checkpoint;
    assert merged == Merged(checkpoint, Dict(entries[..0]), render);
    var i := 0;
    while i < |entries|
      invariant 0 <= i <= |entries|
      invariant merged == Merged(checkpoint, Dict(entries[..i]), render)
    {
      var key, value := entries[i].0, entries[i].1;
      DictKeys(entries[..i], key);
      MergeOne(checkpoint, Dict(entries[..i]), key, value, render);
      assert entries[..i + 1][..i] == entries[..i];
      merged := merged[key := Combined(merged, key, value, render)];
      i := i + 1;
    }
    assert entries[..|entries|] == entries;
  }

  // ------------------------------------------------------------------- what merging keeps

  /** Identifiers of the run stay; a list of an additive field stays as a prefix; the incident is not
      replaced by one with a different identifier. */
  lemma MergeKeeps(base: State, delta: State, render: Json -> string)
    ensures forall k :: k in base && k in IDENTITY_FIELDS ==> Merged(base, delta, render)[k] == base[k]
    ensures forall k :: k in base && k in ADDITIVE_FIELDS && base[k].Arr? && (k in delta ==> delta[k].Arr?) ==>
              Merged(base, delta, render)[k].Arr? && base[k].items <= Merged(base, delta, render)[k].items
    ensures "incident" in base && IdOf(base["incident"], render) != "" ==>
              IdOf(Merged(base, delta, render)["incident"], render) in {"", IdOf(base["incident"], render)}
  {
  }

  /** What a merge leaves under a key.  Additive lists end with the output's list, which is appended
      whole unless they already ended so; other fields are replaced, except identifiers that are
      there and an incident that another one conflicts with; what the output lacks stays. */
  lemma MergeGives(base: State, delta: State, key: string, render: Json -> string)
    ensures
      var merged := Merged(base, delta, render);
      && merged.Keys == base.Keys + delta.Keys
      && (key in base && key !in delta ==> merged[key] == base[key])
      && (key !in base && key in delta ==> merged[key] == delta[key])
      && (key in base && key in delta && key in {"session_id", "trace_id", "incident_id"} ==> merged[key] == base[key])
    ensures
      var merged := Merged(base, delta, render);
      key in base && key in delta && key in ADDITIVE_FIELDS ==>
        if base[key].Arr? && delta[key].Arr? then
          && merged[key].Arr? && (exists front :: merged[key].items == front + delta[key].items)
          && merged[key].items == if exists front :: base[key].items == front + delta[key].items then base[key].items
                                  else base[key].items + delta[key].items
        else merged[key] == delta[key]
    ensures
      var merged := Merged(base, delta, render);
      key in base && key in delta && key == "incident" ==>
        && (merged[key] == base[key] || merged[key] == delta[key])
        && (IdOf(base[key], render) != "" && IdOf(delta[key], render) !in {"", IdOf(base[key], render)} ==>
              merged[key] == base[key])
        && (IdOf(base[key], render) == "" || IdOf(delta[key], render) in {"", IdOf(base[key], render)} ==>
              merged[key] == delta[key])
    ensures
      var merged := Merged(base, delta, render);
      key in delta && key != "incident" && key !in {"session_id", "trace_id", "incident_id"} + ADDITIVE_FIELDS ==>
        merged[key] == delta[key]
  {
    if key in base && key in delta && base[key].Arr? && delta[key].Arr? {
      assert EndsWith(base[key].items, delta[key].items) <==>
             exists front :: base[key].items == front + delta[key].items;
    }
  }

  /** Merging the same output again changes nothing. */
  lemma RemergeIsNoOp(base: State, delta: State, render: Json -> string)
    ensures Merged(Merged(base, delta, render), delta, render) == Merged(base, delta, render)
  {
    var once := Merged(base, delta, render);
    forall k | k in delta ensures Combined(once, k, delta[k], render) == once[k] {
      CombinedTwice(base, once, k, delta[k], render);
    }
  }

  lemma CombinedTwice(base: State, once: State, k: string, v: Json, render: Json -> string)
    requires k in once && once[k] == Combined(base, k, v, render)
    ensures Combined(once, k, v, render) == once[k]
  {
    if k in ADDITIVE_FIELDS && v.Arr? && once[k].Arr? {
      if k in base && base[k].Arr? && !EndsWith(base[k].items, v.items) {
        assert once[k].items == base[k].items + v.items;
      } else if once[k] == v {
        assert v.items == [] + v.items;
      }
    }
  }

  // --------------------------------------------------------------- durable snapshots

  datatype Snapshot = Snapshot(traceId: string, incidentId: string, incident: map<string, Json>)

  function IncidentFields(state: State): map<string, Json> {
    if "incident" in state && state["incident"].Obj? then state["incident"].fields else map[]
  }

  function FirstText(a: Json, b: Json, fallback: string, render: Json -> string): string {
    if Truthy(a) then TextOf(a, render) else if Truthy(b) then TextOf(b, render) else fallback
  }

  function FromState(state: State, render: Json -> string): Snapshot {
    var incident := IncidentFields(state);
    Snapshot(FirstText(Field(state, "trace_id"), Field(incident, "trace_id"), "trace-unknown", render),
             FirstText(Field(incident, "incident_id"), Field(state, "incident_id"), "incident-unknown", render),
             incident)
  }

  /** What a snapshot shows of a state: a trace id from the state, else from the incident; an incident
      id from the incident, else from the state; and an incident only if it is an object. */
  lemma SnapshotShows(state: State, render: Json -> string)
    ensures
      var s := FromState(state, render);
      var incident := Field(state, "incident");
      && s.incident == (if incident.Obj? then incident.fields else map[])
      && s.traceId == (if Truthy(Field(state, "trace_id")) then TextOf(Field(state, "trace_id"), render)
                       else if Truthy(Field(s.incident, "trace_id")) then TextOf(Field(s.incident, "trace_id"), render)
                       else "trace-unknown")
      && s.incidentId
           == (if Truthy(Field(s.incident, "incident_id")) then TextOf(Field(s.incident, "incident_id"), render)
                          else if Truthy(Field(state, "incident_id")) then TextOf(Field(state, "incident_id"), render)
                          else "incident-unknown")
  {
  }

  /** An incident without identifier gets the stored one.  This happens in the incident object
      itself, which the run state shares. */
  function Healed(state: State, existing: Snapshot): State {
    if "incident" in state && Truthy(state["incident"]) && state["incident"].Obj?
       && !Truthy(Field(state["incident"].fields, "incident_id"))
    then state["incident" := Obj(state["incident"].fields["incident_id" := Str(existing.incidentId)])]
    else state
  }

  function WithIdentity(state: State, existing: Snapshot): State {
    var traced := if Truthy(Field(state, "trace_id")) then state else state["trace_id" := Str(existing.traceId)];
    if !Truthy(Field(traced, "incident")) then
      traced["incident" := Obj(if existing.incident != map[] then existing.incident
                               else map["incident_id" := Str(existing.incidentId)])]
    else Healed(traced, existing)
  }

  /** A run: its state in memory and the snapshot in the store. */
  datatype Durable = Durable(state: State, snapshot: Snapshot)

  function Begin(state: State, render: Json -> string): Durable { Durable(state, FromState(state, render)) }

  function After(d: Durable, delta: State, render: Json -> string): Durable {
    var merged := Merged(d.state, delta, render);
    Durable(Healed(merged, d.snapshot), FromState(WithIdentity(merged, d.snapshot), render))
  }

  function AfterAll(d: Durable, deltas: seq<State>, render: Json -> string): Durable {
    if deltas == [] then d else After(AfterAll(d, deltas[..|deltas| - 1], render), deltas[|deltas| - 1], render)
  }

  predicate HasTrace(d: Durable, trace: string) {
    trace != "" && "trace_id" in d.state && d.state["trace_id"] == Str(trace) && d.snapshot.traceId == trace
  }

  predicate HasIncident(d: Durable, id: string, render: Json -> string) {
    && id != "" && "incident" in d.state && IdOf(d.state["incident"], render) == id
    && d.snapshot.incidentId == id && IdOf(Obj(d.snapshot.incident), render) == id
  }

  lemma FreshRunHasIdentity(state: State, trace: string, id: string, render: Json -> string)
    requires trace != "" && "trace_id" in state && state["trace_id"] == Str(trace)
    requires id != "" && "incident" in state && IdOf(state["incident"], render) == id
    ensures HasTrace(Begin(state, render), trace) && HasIncident(Begin(state, render), id, render)
  {
  }

  /** Before the terminal save, the durable trace id is constant whatever the nodes put out. */
  lemma {:induction false} TraceIsConstant(d: Durable, deltas: seq<State>, trace: string, render: Json -> string)
    requires HasTrace(d, trace)
    ensures HasTrace(AfterAll(d, deltas, render), trace)
  {
    if deltas != [] {
      TraceIsConstant(d, deltas[..|deltas| - 1], trace, render);
      TraceStays(AfterAll(d, deltas[..|deltas| - 1], render), deltas[|deltas| - 1], trace, render);
    }
  }

  lemma TraceStays(d: Durable, delta: State, trace: string, render: Json -> string)
    requires HasTrace(d, trace)
    ensures HasTrace(After(d, delta, render), trace)
  {
    var merged := Merged(d.state, delta, render);
    assert merged["trace_id"] == Str(trace);
  }

  /** A node's output leaves the incident alone or gives a non-empty object for it. */
  predicate KeepsIncident(delta: State) {
    "incident" in delta ==> delta["incident"].Obj? && delta["incident"].fields != map[]
  }

  lemma IncidentStays(d: Durable, delta: State, id: string, render: Json -> string)
    requires HasIncident(d, id, render) && KeepsIncident(delta) && Prints(render)
    ensures HasIncident(After(d, delta, render), id, render)
  {
    var merged := Merged(d.state, delta, render);
    var incident := merged["incident"];
    assert incident.Obj? && incident.fields != map[] && IdOf(incident, render) in {"", id};
    var healed := Healed(merged, d.snapshot)["incident"];
    if !Truthy(Field(incident.fields, "incident_id")) {
      assert healed == Obj(incident.fields["incident_id" := Str(id)]);
    } else {
      assert healed == incident;
    }
    assert WithIdentity(merged, d.snapshot)["incident"] == healed;
  }

  /** Before the terminal save, the durable incident id is constant over any outputs that keep it,
      even when an output brings an incident without identifier or with another one. */
  lemma {:induction false} IncidentIsConstant(d: Durable, deltas: seq<State>, id: string, render: Json -> string)
    requires Prints(render) && HasIncident(d, id, render) && forall i :: 0 <= i < |deltas| ==> KeepsIncident(deltas[i])
    ensures HasIncident(AfterAll(d, deltas, render), id, render)
  {
    if deltas != [] {
      IncidentIsConstant(d, deltas[..|deltas| - 1], id, render);
      IncidentStays(AfterAll(d, deltas[..|deltas| - 1], render), deltas[|deltas| - 1], id, render);
    }
  }

  /** An output that empties the incident leaves the durable id for now, but lets any later output
      put another one in its place. */
  lemma EmptiedIncidentIsReplaced(d: Durable, delta: State, id: string, other: string, render: Json -> string)
    requires HasIncident(d, id, render) && "incident" in delta && !Truthy(delta["incident"]) && other != ""
    ensures After(d, delta, render).snapshot.incidentId == id
    ensures After(After(d, delta, render), map["incident" := Obj(map["incident_id" := Str(other)])],
                  render).snapshot.incidentId == other
  {
    var merged := Merged(d.state, delta, render);
    assert merged["incident"] == delta["incident"];
    var next := After(d, delta, render);
    var replacement := Obj(map["incident_id" := Str(other)]);
    var again := Merged(next.state, map["incident" := replacement], render);
    assert IdOf(delta["incident"], render) == "";
    assert again["incident"] == replacement;
  }

  /** An output that puts something else there loses the id at once. */
  lemma ScalarIncidentLosesId(d: Durable, delta: State, id: string, render: Json -> string)
    requires HasIncident(d, id, render) && "incident" in delta && Truthy(delta["incident"]) && !delta["incident"].Obj?
    requires "incident_id" !in d.state && "incident_id" !in delta
    ensures After(d, delta, render).snapshot.incidentId == "incident-unknown"
  {
    var merged := Merged(d.state, delta, render);
    assert merged["incident"] == delta["incident"] && "incident_id" !in merged;
  }

  /** So the durable incident id survives an output, and every output after it that keeps the
      incident, exactly when that output keeps the incident itself. */
  lemma IncidentSurvivesIff(d: Durable, delta: State, id: string, render: Json -> string)
    requires Prints(render) && HasIncident(d, id, render) && id != "incident-unknown"
    requires "incident_id" !in d.state && "incident_id" !in delta
    ensures KeepsIncident(delta) <==>
            && After(d, delta, render).snapshot.incidentId == id
            && forall next: State :: KeepsIncident(next) ==>
                                       After(After(d, delta, render), next, render).snapshot.incidentId == id
  {
    if KeepsIncident(delta) {
      IncidentStays(d, delta, id, render);
      forall next: State | KeepsIncident(next)
        ensures After(After(d, delta, render), next, render).snapshot.incidentId == id
      {
        IncidentStays(After(d, delta, render), next, id, render);
      }
    } else if Truthy(delta["incident"]) {
      ScalarIncidentLosesId(d, delta, id, render);
    } else {
      var other := id + "x";
      EmptiedIncidentIsReplaced(d, delta, id, other, render);
      var next: State := map["incident" := Obj(map["incident_id" := Str(other)])];
      assert KeepsIncident(next) && other != id;
    }
  }

  // ------------------------------------------------------------------ the terminal save

  /** The graph's own state after an output: additive lists grow, every other field is the last one
      written. */
  function GraphStep(values: State, output: State): State {
    map k | k in values.Keys + output.Keys ::
      if k !in output then values[k]
      else if k in ADDITIVE_FIELDS && k in values && values[k].Arr? && output[k].Arr?
      then Arr(values[k].items + output[k].items)
      else output[k]
  }

  function GraphAll(values: State, outputs: seq<State>): State {
    if outputs == [] then values
    else GraphStep(GraphAll(values, outputs[..|outputs| - 1]), outputs[|outputs| - 1])
  }

  /** What the store shows after the run: the terminal saves store the graph's values, not the merged
      state. */
  function Finished(state: State, outputs: seq<State>, render: Json -> string): Snapshot {
    var before := AfterAll(Begin(state, render), outputs, render).snapshot;
    FromState(WithIdentity(GraphAll(state, outputs), before), render)
  }

  function WrittenBy(output: State, key: string): seq<Json> {
    if key in output then [output[key]] else []
  }

  /** It takes two saves when the report is generated last; both show the same identifiers. */
  lemma TerminalSavesAgree(values: State, before: Snapshot, render: Json -> string)
    requires Prints(render) && before.traceId != "" && before.incidentId != ""
    ensures
      var first := FromState(WithIdentity(values, before), render);
      var second := FromState(WithIdentity(Healed(values, before), first), render);
      second.traceId == first.traceId && second.incidentId == first.incidentId
  {
    var healed := Healed(values, before);
    var first := FromState(WithIdentity(values, before), render);
    assert Field(healed, "trace_id") == Field(values, "trace_id");
    assert Field(healed, "incident_id") == Field(values, "incident_id");
    assert first.traceId != "" && first.incidentId != "";
    if !Truthy(Field(values, "incident")) {
      assert healed == values;
      assert first.incident == if before.incident != map[] then before.incident
                               else map["incident_id" := Str(before.incidentId)];
    } else {
      assert Healed(healed, first) == healed;
    }
  }

  /** The values that the outputs write to a field, in order. */
  function Written(outputs: seq<State>, key: string): seq<Json> {
    if outputs == [] then []
    else Written(outputs[..|outputs| - 1], key) + WrittenBy(outputs[|outputs| - 1], key)
  }

  lemma {:induction false} LastWriteWins(state: State, outputs: seq<State>, key: string)
    requires key !in ADDITIVE_FIELDS
    ensures
      var written := Written(outputs, key);
      Field(GraphAll(state, outputs), key) == if written == [] then Field(state, key) else written[|written| - 1]
  {
    if outputs != [] {
      LastWriteWins(state, outputs[..|outputs| - 1], key);
    }
  }

  /** A run whose first state has these identifiers. */
  predicate Fresh(state: State, trace: string, id: string, render: Json -> string) {
    && trace != "" && Field(state, "trace_id") == Str(trace)
    && id != "" && id != "incident-unknown" && IdOf(Field(state, "incident"), render) == id
  }

  /** Every snapshot of the whole run, from the first to the terminal one, shows the trace id. */
  predicate TraceThroughout(state: State, outputs: seq<State>, trace: string, render: Json -> string) {
    && (forall k :: 0 <= k <= |outputs| ==>
          AfterAll(Begin(state, render), outputs[..k], render).snapshot.traceId == trace)
    && Finished(state, outputs, render).traceId == trace
  }

  /** The trace id is constant over a whole run exactly when the last output that writes one, if any,
      writes the same or an empty one. */
  lemma TraceThroughoutIff(state: State, outputs: seq<State>, trace: string, id: string, render: Json -> string)
    requires Fresh(state, trace, id, render)
    ensures
      var written := Written(outputs, "trace_id");
      TraceThroughout(state, outputs, trace, render) <==>
        written == [] || !Truthy(written[|written| - 1]) || TextOf(written[|written| - 1], render) == trace
  {
    LastWriteWins(state, outputs, "trace_id");
    FreshRunHasIdentity(state, trace, id, render);
    forall k | 0 <= k <= |outputs|
      ensures AfterAll(Begin(state, render), outputs[..k], render).snapshot.traceId == trace
    {
      TraceIsConstant(Begin(state, render), outputs[..k], trace, render);
    }
    assert outputs[..|outputs|] == outputs;
    var before := AfterAll(Begin(state, render), outputs, render).snapshot;
    FilledTrace(GraphAll(state, outputs), before, trace, render);
  }

  lemma FilledTrace(values: State, before: Snapshot, trace: string, render: Json -> string)
    requires trace != "" && before.traceId == trace
    ensures
      var last := Field(values, "trace_id");
      FromState(WithIdentity(values, before), render).traceId == if Truthy(last) then TextOf(last, render) else trace
  {
  }

  /** Another incident than the run's. */
  predicate Foreign(v: Json, id: string, render: Json -> string) {
    IdOf(v, render) != "" && IdOf(v, render) != id
  }

  /** Every snapshot of the whole run, from the first to the terminal one, shows the incident id. */
  predicate IncidentThroughout(state: State, outputs: seq<State>, id: string, render: Json -> string) {
    && IncidentUntilEnd(state, outputs, id, render)
    && Finished(state, outputs, render).incidentId == id
  }

  predicate IncidentUntilEnd(state: State, outputs: seq<State>, id: string, render: Json -> string) {
    forall k :: 0 <= k <= |outputs| ==> IncidentShown(state, outputs[..k], id, render)
  }

  predicate IncidentShown(state: State, outputs: seq<State>, id: string, render: Json -> string) {
    AfterAll(Begin(state, render), outputs, render).snapshot.incidentId == id
  }

  /** Nothing but objects and empty values is written, and no other incident right after an empty
      value. */
  predicate NeverDisplaced(written: seq<Json>, id: string, render: Json -> string) {
    && (forall k :: 0 <= k < |written| ==> written[k].Obj? || !Truthy(written[k]))
    && (forall k :: 0 < k < |written| && Foreign(written[k], id, render) ==> Truthy(written[k - 1]))
  }

  /** No field of the run's state but the incident carries its identifier. */
  predicate WithinSchema(state: State, outputs: seq<State>) {
    "incident_id" !in state && forall k :: 0 <= k < |outputs| ==> "incident_id" !in outputs[k]
  }

  /** The incident in the run state: the run's own, or emptied by the last output that wrote it. */
  predicate IncidentPhase(d: Durable, written: seq<Json>, id: string, render: Json -> string) {
    && "incident" in d.state && "incident_id" !in d.state
    && d.snapshot.incidentId == id && IdOf(Obj(d.snapshot.incident), render) == id
    && (written != [] && !Truthy(written[|written| - 1]) ==> !Truthy(d.state["incident"]))
    && (written == [] || Truthy(written[|written| - 1]) ==> IdOf(d.state["incident"], render) == id)
  }

  lemma NeverDisplacedSnoc(written: seq<Json>, v: Json, id: string, render: Json -> string)
    ensures NeverDisplaced(written + [v], id, render) <==>
            && NeverDisplaced(written, id, render) && (v.Obj? || !Truthy(v))
            && (Foreign(v, id, render) && written != [] ==> Truthy(written[|written| - 1]))
  {
    var longer := written + [v];
    assert forall k :: 0 <= k < |written| ==> longer[k] == written[k];
    if NeverDisplaced(longer, id, render) {
      assert longer[|written|] == v;
      forall k | 0 <= k < |written| ensures written[k].Obj? || !Truthy(written[k]) {
        assert longer[k] == written[k];
      }
      forall k | 0 < k < |written| && Foreign(written[k], id, render) ensures Truthy(written[k - 1]) {
        assert longer[k] == written[k] && longer[k - 1] == written[k - 1];
      }
    }
  }

  /** One output that does not write the incident. */
  lemma UnwrittenStep(d: Durable, output: State, written: seq<Json>, id: string, render: Json -> string)
    requires Prints(render) && id != "" && IncidentPhase(d, written, id, render)
    requires "incident" !in output && "incident_id" !in output
    ensures IncidentPhase(After(d, output, render), written, id, render)
  {
    var merged := Merged(d.state, output, render);
    assert merged["incident"] == d.state["incident"] && "incident_id" !in merged;
    assert Healed(merged, d.snapshot) == merged;
  }

  /** One output that writes it: it keeps the id exactly when it displaces nothing. */
  lemma WrittenStep(d: Durable, output: State, written: seq<Json>, id: string, render: Json -> string)
    requires Prints(render) && id != "" && id != "incident-unknown" && IncidentPhase(d, written, id, render)
    requires "incident" in output && "incident_id" !in output
    ensures
      var v := output["incident"];
      var keeps := (v.Obj? || !Truthy(v))
                   && (Foreign(v, id, render) && written != [] ==> Truthy(written[|written| - 1]));
      && (After(d, output, render).snapshot.incidentId == id <==> keeps)
      && (keeps ==> IncidentPhase(After(d, output, render), written + [v], id, render))
  {
    var v := output["incident"];
    var merged := Merged(d.state, output, render);
    assert "incident_id" !in merged;
    var held := d.state["incident"];
    if Truthy(held) && Foreign(v, id, render) {
      assert merged["incident"] == held;
    } else {
      if !Truthy(held) {
        FalsyHasNoId(held, render);
      }
      assert merged["incident"] == v;
    }
    StoredIncident(merged, d.snapshot, id, render);
    assert (written + [v])[|written|] == v;
  }

  /** What a save shows of a merged state, by what its incident is. */
  lemma StoredIncident(merged: State, before: Snapshot, id: string, render: Json -> string)
    requires Prints(render) && id != "" && "incident" in merged && "incident_id" !in merged
    requires before.incidentId == id && IdOf(Obj(before.incident), render) == id
    ensures
      var v := merged["incident"];
      var shown := FromState(WithIdentity(merged, before), render);
      && (!Truthy(v) ==>
            shown.incidentId == id && IdOf(Obj(shown.incident), render) == id && Healed(merged, before) == merged)
      && (Truthy(v) && v.Obj? && IdOf(v, render) == "" ==>
            shown.incidentId == id && IdOf(Obj(shown.incident), render) == id
            && IdOf(Healed(merged, before)["incident"], render) == id)
      && (Truthy(v) && v.Obj? && IdOf(v, render) != "" ==>
            shown.incidentId == IdOf(v, render) && IdOf(Obj(shown.incident), render) == IdOf(v, render)
            && Healed(merged, before) == merged)
      && (Truthy(v) && !v.Obj? ==> shown.incidentId == "incident-unknown")
  {
    var v := merged["incident"];
    var filled := WithIdentity(merged, before);
    assert "incident_id" !in filled;
    if !Truthy(v) {
      assert filled["incident"] == Obj(before.incident);
    } else if v.Obj? && IdOf(v, render) == "" {
      assert !Truthy(Field(v.fields, "incident_id"));
      assert filled["incident"] == Obj(v.fields["incident_id" := Str(id)]);
    }
  }

  lemma FalsyHasNoId(v: Json, render: Json -> string)
    requires !Truthy(v)
    ensures IdOf(v, render) == ""
  {
    if v.Obj? {
      assert v.fields == map[];
    }
  }

  /** One output, while nothing has been displaced. */
  lemma PhaseStep(d: Durable, output: State, written: seq<Json>, id: string, render: Json -> string)
    requires Prints(render) && id != "" && id != "incident-unknown" && IncidentPhase(d, written, id, render)
    requires "incident_id" !in output && NeverDisplaced(written, id, render)
    ensures
      var longer := written + WrittenBy(output, "incident");
      && (After(d, output, render).snapshot.incidentId == id <==> NeverDisplaced(longer, id, render))
      && (NeverDisplaced(longer, id, render) ==> IncidentPhase(After(d, output, render), longer, id, render))
  {
    if "incident" in output {
      NeverDisplacedSnoc(written, output["incident"], id, render);
      WrittenStep(d, output, written, id, render);
    } else {
      assert written + WrittenBy(output, "incident") == written;
      UnwrittenStep(d, output, written, id, render);
    }
  }

  lemma {:induction false} UntilEnd(state: State, outputs: seq<State>, trace: string, id: string,
                                    render: Json -> string)
    requires Prints(render) && Fresh(state, trace, id, render) && WithinSchema(state, outputs)
    ensures
      var written := Written(outputs, "incident");
      && (IncidentUntilEnd(state, outputs, id, render) <==> NeverDisplaced(written, id, render))
      && (NeverDisplaced(written, id, render) ==>
            IncidentPhase(AfterAll(Begin(state, render), outputs, render), written, id, render))
  {
    if outputs == [] {
      FreshRunHasIdentity(state, trace, id, render);
      assert forall k :: 0 <= k <= |outputs| ==> outputs[..k] == [];
    } else {
      var init, last := outputs[..|outputs| - 1], outputs[|outputs| - 1];
      var written := Written(init, "incident");
      UntilEnd(state, init, trace, id, render);
      UntilEndSnoc(state, outputs, id, render);
      if NeverDisplaced(written, id, render) {
        PhaseStep(AfterAll(Begin(state, render), init, render), last, written, id, render);
      } else {
        NeverDisplacedAgain(written, WrittenBy(last, "incident"), id, render);
      }
    }
  }

  lemma NeverDisplacedAgain(written: seq<Json>, more: seq<Json>, id: string, render: Json -> string)
    requires |more| <= 1 && !NeverDisplaced(written, id, render)
    ensures !NeverDisplaced(written + more, id, render)
  {
    if more == [] {
      assert written + more == written;
    } else {
      NeverDisplacedSnoc(written, more[0], id, render);
      assert more == [more[0]];
    }
  }

  lemma UntilEndSnoc(state: State, outputs: seq<State>, id: string, render: Json -> string)
    requires outputs != []
    ensures IncidentUntilEnd(state, outputs, id, render) <==>
            && IncidentUntilEnd(state, outputs[..|outputs| - 1], id, render)
            && IncidentShown(state, outputs, id, render)
  {
    PrefixesSnoc(outputs, prefix => IncidentShown(state, prefix, id, render));
  }

  lemma PrefixesSnoc(outputs: seq<State>, shown: seq<State> -> bool)
    requires outputs != []
    ensures var init := outputs[..|outputs| - 1];
            (forall k :: 0 <= k <= |outputs| ==> shown(outputs[..k])) <==>
            (forall k :: 0 <= k <= |init| ==> shown(init[..k])) && shown(outputs)
  {
    var n := |outputs| - 1;
    assert outputs[..n + 1] == outputs;
    assert forall k :: 0 <= k <= n ==> outputs[..n][..k] == outputs[..k];
  }

  /** The incident id is constant over a whole run exactly when the outputs never displace it and the
      last one that writes an incident, if any, does not write another. */
  lemma IncidentThroughoutIff(state: State, outputs: seq<State>, trace: string, id: string, render: Json -> string)
    requires Prints(render) && Fresh(state, trace, id, render) && WithinSchema(state, outputs)
    ensures
      var written := Written(outputs, "incident");
      IncidentThroughout(state, outputs, id, render) <==>
        NeverDisplaced(written, id, render) && (written != [] ==> !Foreign(written[|written| - 1], id, render))
  {
    var written := Written(outputs, "incident");
    UntilEnd(state, outputs, trace, id, render);
    if NeverDisplaced(written, id, render) {
      GraphIncident(state, outputs, trace, id, render);
      FilledIncident(GraphAll(state, outputs), AfterAll(Begin(state, render), outputs, render).snapshot, id, render);
    }
  }

  /** The terminal save shows the graph's incident when that has an identifier. */
  lemma FilledIncident(values: State, before: Snapshot, id: string, render: Json -> string)
    requires Prints(render) && id != "" && "incident" in values && "incident_id" !in values
    requires before.incidentId == id && IdOf(Obj(before.incident), render) == id
    requires values["incident"].Obj? || !Truthy(values["incident"])
    ensures
      FromState(WithIdentity(values, before), render).incidentId == id <==> !Foreign(values["incident"], id, render)
  {
    StoredIncident(values, before, id, render);
    if !Truthy(values["incident"]) {
      FalsyHasNoId(values["incident"], render);
    }
  }

  /** The graph's incident at the end is the last one written. */
  lemma GraphIncident(state: State, outputs: seq<State>, trace: string, id: string, render: Json -> string)
    requires Fresh(state, trace, id, render) && WithinSchema(state, outputs)
    requires NeverDisplaced(Written(outputs, "incident"), id, render)
    ensures
      var written, values := Written(outputs, "incident"), GraphAll(state, outputs);
      && "incident" in values && "incident_id" !in values
      && (values["incident"].Obj? || !Truthy(values["incident"]))
      && (Foreign(values["incident"], id, render) <==> written != [] && Foreign(written[|written| - 1], id, render))
  {
    LastWriteWins(state, outputs, "incident");
    GraphWithin(state, outputs);
  }

  lemma {:induction false} GraphWithin(state: State, outputs: seq<State>)
    requires WithinSchema(state, outputs) && "incident" in state
    ensures "incident" in GraphAll(state, outputs) && "incident_id" !in GraphAll(state, outputs)
  {
    if outputs != [] {
      GraphWithin(state, outputs[..|outputs| - 1]);
    }
  }

  /** The outputs that fail: the merge ignores another trace or incident, the terminal save does not. */
  lemma ForeignOutputIsStored(state: State, trace: string, id: string, other: string, render: Json -> string)
    requires Prints(render) && Fresh(state, trace, id, render) && "incident_id" !in state
    requires other != "" && other != trace && other != id
    ensures
      var output: State := map["trace_id" := Str(other), "incident" := Obj(map["incident_id" := Str(other)])];
      var kept := AfterAll(Begin(state, render), [output], render).snapshot;
      var final := Finished(state, [output], render);
      kept.traceId == trace && kept.incidentId == id && final.traceId == other && final.incidentId == other
  {
    var output: State := map["trace_id" := Str(other), "incident" := Obj(map["incident_id" := Str(other)])];
    var outputs := [output];
    assert outputs[..0] == [];
    FreshRunHasIdentity(state, trace, id, render);
    TraceIsConstant(Begin(state, render), outputs, trace, render);
    IncidentIsConstant(Begin(state, render), outputs, id, render);
    LastWriteWins(state, outputs, "trace_id");
    LastWriteWins(state, outputs, "incident");
    GraphWithin(state, outputs);
    assert Written(outputs[..0], "trace_id") == [] && Written(outputs[..0], "incident") == [];
    var before := AfterAll(Begin(state, render), outputs, render).snapshot;
    FilledTrace(GraphAll(state, outputs), before, trace, render);
    StoredIncident(GraphAll(state, outputs), before, id, render);
  }
}
