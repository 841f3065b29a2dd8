/** Incoming agent-to-agent messages: parsing, and scoping a message to its authenticated principal. */
module A2AMessages {

  import opened JsonValues
  import opened Basics
  import opened TextTools

  type Fields = map<string, Json>

  const MESSAGE_ID_MAX_LENGTH := 256
  const TASK_ID_MAX_LENGTH := 256
  const CONTEXT_ID_MAX_LENGTH := 128
  const TEXT_MAX_LENGTH := 8000
  const PARTS_MAX_ITEMS := 100
  const PRINCIPAL_KEY := "__autooncall_principal"
  const ADMIN_KEY := "__autooncall_admin"

  /** A parsed message.  Its request fingerprint is a digest of every field but the message id. */
  datatype Envelope = Envelope(messageId: string, taskId: string, contextId: string, text: string, data: Fields,
                               metadata: Fields)

  function FingerprintOf(e: Envelope): Envelope { e.(messageId := "") }

  // ---------------------------------------------------------------------------- parsing

  function FieldsOf(v: Json): Fields { if v.Obj? then v.fields else map[] }

  /** `a or b or ...`, as the text of the first true value. */
  function FirstTrue(values: seq<Json>, render: Json -> string): string {
    if values == [] then "" else if Truthy(values[0]) then TextOf(values[0], render) else FirstTrue(values[1..], render)
  }

  function ParamsOf(payload: Fields): Fields {
    if Field(payload, "params").Obj? then payload["params"].fields else payload
  }

  function MessageOf(params: Fields): Fields {
    if Field(params, "message").Obj? then params["message"].fields else params
  }

  function PartsOf(message: Fields): seq<Json> {
    if Field(message, "parts").Arr? then message["parts"].items else []
  }

  function KindOf(part: Fields, render: Json -> string): string {
    FirstTrue([Field(part, "kind"), Field(part, "type")], render)
  }

  /** A part of this kind, or of no kind. */
  predicate IsPart(part: Json, kind: string, render: Json -> string) {
    part.Obj? && KindOf(part.fields, render) in {kind, ""}
  }

  /** The data a part contributes. */
  function DataOf(part: Json, render: Json -> string): Fields {
    if IsPart(part, "data", render) then FieldsOf(Field(part.fields, "data")) else map[]
  }

  function DataFromParts(parts: seq<Json>, render: Json -> string): Fields {
    if parts == [] then map[]
    else DataFromParts(parts[..|parts| - 1], render) + DataOf(parts[|parts| - 1], render)
  }

  predicate HasText(part: Json, render: Json -> string) {
    IsPart(part, "text", render) && Truthy(Field(part.fields, "text"))
  }

  function TextOfPart(part: Json, render: Json -> string): string
    requires HasText(part, render)
  {
    TextOf(part.fields["text"], render)
  }

  function TextsOf(parts: seq<Json>, render: Json -> string): seq<string> {
    if parts == [] then []
    else
      var before, part := TextsOf(parts[..|parts| - 1], render), parts[|parts| - 1];
      if HasText(part, render) then before + [TextOfPart(part, render)] else before
  }

  function TextFromParts(parts: seq<Json>, render: Json -> string): string { Join(TextsOf(parts, render), "\n") }

  /** A part is of a kind when its `kind`, or without one its `type`, says so or neither says anything. */
  predicate SaysKind(part: Fields, kind: string, render: Json -> string) {
    if "kind" in part && Truthy(part["kind"]) then TextOf(part["kind"], render) in {kind, ""}
    else if "type" in part && Truthy(part["type"]) then TextOf(part["type"], render) in {kind, ""}
    else true
  }

  /** What a part contributes: its data when it is an object and of that kind, its text when it is true
      and of that kind. */
  lemma PartGives(part: Json, render: Json -> string)
    ensures
      DataOf(part, render) == if part.Obj? && SaysKind(part.fields, "data", render) && "data" in part.fields
                                 && part.fields["data"].Obj? then part.fields["data"].fields else map[]
    ensures
      HasText(part, render) <==> part.Obj? && SaysKind(part.fields, "text", render) && "text" in part.fields
                                 && Truthy(part.fields["text"])
  {
    if part.Obj? {
      var kind, type_ := Field(part.fields, "kind"), Field(part.fields, "type");
      assert [kind, type_][1..] == [type_] && [type_][1..] == [];
      assert FirstTrue([type_], render) == TextOf(type_, render);
      assert KindOf(part.fields, render) == if Truthy(kind) then TextOf(kind, render) else TextOf(type_, render);
    }
  }

  /** `parts[i]` is the last part whose data has the key. */
  predicate LastWith(parts: seq<Json>, i: nat, key: string, render: Json -> string) {
    i < |parts| && key in DataOf(parts[i], render) && forall j :: i < j < |parts| ==> key !in DataOf(parts[j], render)
  }

  /** A key has the value that the last data part naming it gives it, and only keys that some data
      part names are there. */
  lemma {:induction false} LastDataPartWins(parts: seq<Json>, key: string, render: Json -> string)
    ensures key in DataFromParts(parts, render) <==> exists i :: LastWith(parts, i, key, render)
    ensures forall i: nat :: LastWith(parts, i, key, render) ==>
              key in DataFromParts(parts, render) && DataFromParts(parts, render)[key] == DataOf(parts[i], render)[key]
  {
    if parts != [] {
      var n := |parts| - 1;
      var init := parts[..n];
      LastDataPartWins(init, key, render);
      if key in DataOf(parts[n], render) {
        assert LastWith(parts, n, key, render);
        assert forall i: nat :: LastWith(parts, i, key, render) ==> i == n;
      } else {
        assert forall i: nat :: i < n ==> init[i] == parts[i];
        assert forall i: nat :: LastWith(parts, i, key, render) <==> LastWith(init, i, key, render);
      }
    }
  }

  /** These are the positions of the text parts, in order. */
  predicate TextPositions(at: seq<nat>, parts: seq<Json>, render: Json -> string) {
    && (forall a, b :: 0 <= a < b < |at| ==> at[a] < at[b])
    && (forall a :: 0 <= a < |at| ==> at[a] < |parts|)
    && (forall i: nat :: i < |parts| ==> (i in at <==> HasText(parts[i], render)))
  }

  /** The texts at these positions. */
  function TextsAt(at: seq<nat>, parts: seq<Json>, render: Json -> string): seq<string>
    requires TextPositions(at, parts, render)
  {
    assert forall a :: 0 <= a < |at| ==> at[a] in at;
    seq(|at|, a requires 0 <= a < |at| => TextOfPart(parts[at[a]], render))
  }

  lemma SomePosition(at: seq<nat>, parts: seq<Json>, render: Json -> string)
    requires TextPositions(at, parts, render) && at != []
    ensures parts != []
  {
    assert at[0] < |parts|;
  }

  lemma PositionsInit(at: seq<nat>, parts: seq<Json>, render: Json -> string)
    requires TextPositions(at, parts, render) && parts != []
    ensures
      var n := |parts| - 1;
      if HasText(parts[n], render)
      then at != [] && at[|at| - 1] == n && TextPositions(at[..|at| - 1], parts[..n], render)
      else TextPositions(at, parts[..n], render)
  {
    var n := |parts| - 1;
    if HasText(parts[n], render) {
      assert n in at;
      LastIsLargest(at, n);
      var front := at[..|at| - 1];
      assert forall i: nat :: i < n ==> (i in front <==> i in at);
    } else {
      assert n !in at;
      assert forall a :: 0 <= a < |at| ==> at[a] in at;
    }
  }

  lemma LastIsLargest(at: seq<nat>, n: nat)
    requires forall a, b :: 0 <= a < b < |at| ==> at[a] < at[b]
    requires (forall a :: 0 <= a < |at| ==> at[a] <= n) && n in at
    ensures at[|at| - 1] == n
    ensures forall i: nat :: i != n ==> (i in at[..|at| - 1] <==> i in at)
  {
    var k, last :| 0 <= k < |at| && at[k] == n && last == at[|at| - 1];
    assert last <= n && k == |at| - 1;
    assert at == at[..k] + [n];
  }

  /** The text is the texts of the text parts, in order, joined by newlines. */
  lemma TextIsJoined(parts: seq<Json>, at: seq<nat>, render: Json -> string)
    requires TextPositions(at, parts, render)
    ensures TextFromParts(parts, render) == Join(TextsAt(at, parts, render), "\n")
  {
    TextsAreAt(parts, at, render);
  }

  lemma {:induction false} TextsAreAt(parts: seq<Json>, at: seq<nat>, render: Json -> string)
    requires TextPositions(at, parts, render)
    ensures TextsOf(parts, render) == TextsAt(at, parts, render)
  {
    if parts == [] {
      if at != [] {
        SomePosition(at, parts, render);
      }
    } else {
      var n := |parts| - 1;
      var init := parts[..n];
      PositionsInit(at, parts, render);
      if HasText(parts[n], render) {
        var front := at[..|at| - 1];
        TextsAreAt(init, front, render);
        assert TextsAt(at, parts, render) == TextsAt(front, init, render) + [TextOfPart(parts[n], render)];
      } else {
        TextsAreAt(init, at, render);
        assert TextsAt(at, parts, render) == TextsAt(at, init, render);
      }
    }
  }

  method CollectData(parts: seq<Json>, render: Json -> string) returns (data: Fields)
    ensures data == DataFromParts(parts, render)
  {
    data := map[];
    var i := 0;
    while i < |parts|
      invariant 0 <= i <= |parts|
      invariant data == DataFromParts(parts[..i], render)
    {
      assert parts[..i + 1][..i] == parts[..i];
      if parts[i].Obj? {
        var part := parts[i].fields;
        if KindOf(part, render) in {"data", ""} {
          data := data + FieldsOf(Field(part, "data"));
        }
      }
      i := i + 1;
    }
    assert parts[..|parts|] == parts;
  }

  method CollectTexts(parts: seq<Json>, render: Json -> string) returns (texts: seq<string>)
    ensures texts == TextsOf(parts, render)
  {
    texts := [];
    var i := 0;
    while i < |parts|
      invariant 0 <= i <= |parts|
      invariant texts == TextsOf(parts[..i], render)
    {
      assert parts[..i + 1][..i] == parts[..i];
      if parts[i].Obj? {
        var part := parts[i].fields;
        if KindOf(part, render) in {"text", ""} && Truthy(Field(part, "text")) {
          texts := texts + [TextOf(part["text"], render)];
        }
      }
      i := i + 1;
    }
    assert parts[..|parts|] == parts;
  }

  predicate HasControl(text: string) { exists i :: 0 <= i < |text| && (text[i] < ' ' || text[i] == 127 as char) }

  predicate ValidIdentifier(text: string, max: nat) { |text| <= max && !HasControl(text) }

  predicate RoleOk(message: Fields, params: Fields, render: Json -> string) {
    Lower(Strip(FirstTrue([Field(message, "role"), Field(params, "role")], render))) in {"", "role_user", "user"}
  }

  function RawMessageId(message: Fields, params: Fields, render: Json -> string): string {
    FirstTrue([Field(message, "messageId"), Field(message, "message_id"), Field(params, "messageId"),
               Field(params, "message_id")], render)
  }

  function EnvelopeOf(params: Fields, message: Fields, render: Json -> string): Envelope {
    var parts := PartsOf(message);
    var data := FieldsOf(Field(params, "data")) + DataFromParts(parts, render);
    Envelope(
      Strip(RawMessageId(message, params, render)),
      Strip(FirstTrue([Field(message, "taskId"), Field(message, "task_id"), Field(params, "taskId"),
                       Field(params, "task_id"), Field(data, "task_id"), Field(data, "session_id")], render)),
      Strip(FirstTrue([Field(message, "contextId"), Field(message, "context_id"), Field(params, "contextId"),
                       Field(params, "context_id"), Field(data, "context_id"), Field(data, "incident_id")], render)),
      Strip(FirstTrue([Field(params, "text"), Field(message, "text"), Str(TextFromParts(parts, render))], render)),
      data,
      FieldsOf(Field(params, "metadata")) + FieldsOf(Field(message, "metadata")) + FieldsOf(Field(data, "metadata")))
  }

  predicate Acceptable(e: Envelope) {
    && e.messageId != "" && ValidIdentifier(e.messageId, MESSAGE_ID_MAX_LENGTH)
    && ValidIdentifier(e.taskId, TASK_ID_MAX_LENGTH) && ValidIdentifier(e.contextId, CONTEXT_ID_MAX_LENGTH)
    && |e.text| <= TEXT_MAX_LENGTH && !HasControl(e.text)
  }

  function Parse(payload: Fields, render: Json -> string): Option<Envelope> {
    var params := ParamsOf(payload);
    var message := MessageOf(params);
    if !RoleOk(message, params, render) || |PartsOf(message)| > PARTS_MAX_ITEMS then None
    else
      var e := EnvelopeOf(params, message, render);
      if Acceptable(e) then Some(e) else None
  }

  // ------------------------------------------------------------- what parsing answers

  /** `values[i]` is the first true one. */
  predicate FirstAt(values: seq<Json>, i: nat) {
    i < |values| && Truthy(values[i]) && forall j :: 0 <= j < i ==> !Truthy(values[j])
  }

  /** `text` is the first true value, stripped, or empty when none is true. */
  ghost predicate IsFirst(text: string, values: seq<Json>, render: Json -> string) {
    && (forall i: nat :: FirstAt(values, i) ==> text == Strip(TextOf(values[i], render)))
    && ((forall i :: 0 <= i < |values| ==> !Truthy(values[i])) ==> text == "")
  }

  lemma {:induction false} FirstTrueIs(values: seq<Json>, render: Json -> string)
    ensures IsFirst(Strip(FirstTrue(values, render)), values, render)
  {
    if values != [] {
      FirstTrueIs(values[1..], render);
      if !Truthy(values[0]) {
        forall i: nat | FirstAt(values, i)
          ensures Strip(FirstTrue(values, render)) == Strip(TextOf(values[i], render))
        {
          assert FirstAt(values[1..], i - 1);
        }
        assert forall i :: 0 < i < |values| ==> values[1..][i - 1] == values[i];
      } else {
        assert forall i: nat :: FirstAt(values, i) ==> i == 0;
      }
    }
  }

  /** The parameters of a request, its message and the message's parts: nested objects, or else the
      object around them; no parts when they are no list. */
  predicate Nested(payload: Fields, params: Fields, message: Fields, parts: seq<Json>) {
    && (if "params" in payload && payload["params"].Obj? then payload["params"] == Obj(params) else params == payload)
    && (if "message" in params && params["message"].Obj? then params["message"] == Obj(message) else message == params)
    && (if "parts" in message && message["parts"].Arr? then message["parts"] == Arr(parts) else parts == [])
  }

  /** The values under two spellings of a name in the message, and then in the parameters. */
  function Spelled(message: Fields, params: Fields, name: string, other: string): seq<Json> {
    [Field(message, name), Field(message, other), Field(params, name), Field(params, other)]
  }

  /** `value` is what the last of the objects that have the key gives it. */
  ghost predicate LastGives(sources: seq<Fields>, key: string, value: Json) {
    exists i :: 0 <= i < |sources| && key in sources[i] && value == sources[i][key]
                && forall j :: i < j < |sources| ==> key !in sources[j]
  }

  ghost predicate IsMerge(merged: Fields, sources: seq<Fields>) {
    forall key ::
      && (key in merged <==> exists i :: 0 <= i < |sources| && key in sources[i])
      && (key in merged ==> LastGives(sources, key, merged[key]))
  }

  lemma MergeOfTwo(a: Fields, b: Fields)
    ensures IsMerge(a + b, [a, b])
  {
    var sources := [a, b];
    assert sources[0] == a && sources[1] == b;
    forall key | key in a + b ensures LastGives(sources, key, (a + b)[key]) {
      if key in b {
        assert key in sources[1];
      } else {
        assert key in sources[0];
      }
    }
  }

  lemma MergeOfThree(a: Fields, b: Fields, c: Fields)
    ensures IsMerge(a + b + c, [a, b, c])
  {
    var sources := [a, b, c];
    assert sources[0] == a && sources[1] == b && sources[2] == c;
    forall key | key in a + b + c ensures LastGives(sources, key, (a + b + c)[key]) {
      if key in c {
        assert key in sources[2];
      } else if key in b {
        assert key in sources[1];
      } else {
        assert key in sources[0];
      }
    }
  }

  /** Where each part of an envelope comes from: the data from the parameters and, before them, from
      the parts; the metadata from the parameters, the message and the data, later ones winning; a
      text or an identifier from the first place that gives a true one. */
  ghost predicate Envelops(e: Envelope, params: Fields, message: Fields, parts: seq<Json>,
                           render: Json -> string)
  {
    && IsMerge(e.data, [FieldsOf(Field(params, "data")), DataFromParts(parts, render)])
    && IsMerge(e.metadata, [FieldsOf(Field(params, "metadata")), FieldsOf(Field(message, "metadata")),
                            FieldsOf(Field(e.data, "metadata"))])
    && IsFirst(e.messageId, Spelled(message, params, "messageId", "message_id"), render)
    && IsFirst(e.taskId, Spelled(message, params, "taskId", "task_id")
                         + [Field(e.data, "task_id"), Field(e.data, "session_id")], render)
    && IsFirst(e.contextId, Spelled(message, params, "contextId", "context_id")
                            + [Field(e.data, "context_id"), Field(e.data, "incident_id")], render)
    && IsFirst(e.text, [Field(params, "text"), Field(message, "text"),
                        Str(TextFromParts(parts, render))], render)
  }

  lemma FirstOfSix(v: seq<Json>, w: seq<Json>, render: Json -> string)
    requires |v| == 4 && |w| == 2
    ensures IsFirst(Strip(FirstTrue([v[0], v[1], v[2], v[3], w[0], w[1]], render)), v + w, render)
  {
    assert [v[0], v[1], v[2], v[3], w[0], w[1]] == v + w;
    FirstTrueIs(v + w, render);
  }

  lemma EnvelopeIds(params: Fields, message: Fields, render: Json -> string)
    ensures
      var e := EnvelopeOf(params, message, render);
      && IsFirst(e.messageId, Spelled(message, params, "messageId", "message_id"), render)
      && IsFirst(e.taskId, Spelled(message, params, "taskId", "task_id")
                           + [Field(e.data, "task_id"), Field(e.data, "session_id")], render)
      && IsFirst(e.contextId, Spelled(message, params, "contextId", "context_id")
                              + [Field(e.data, "context_id"), Field(e.data, "incident_id")], render)
  {
    var data := FieldsOf(Field(params, "data")) + DataFromParts(PartsOf(message), render);
    FirstTrueIs(Spelled(message, params, "messageId", "message_id"), render);
    FirstOfSix(Spelled(message, params, "taskId", "task_id"), [Field(data, "task_id"), Field(data, "session_id")],
               render);
    FirstOfSix(Spelled(message, params, "contextId", "context_id"),
               [Field(data, "context_id"), Field(data, "incident_id")], render);
  }

  lemma EnvelopeEnvelops(params: Fields, message: Fields, render: Json -> string)
    ensures Envelops(EnvelopeOf(params, message, render), params, message, PartsOf(message), render)
  {
    var data := FieldsOf(Field(params, "data")) + DataFromParts(PartsOf(message), render);
    EnvelopeIds(params, message, render);
    MergeOfTwo(FieldsOf(Field(params, "data")), DataFromParts(PartsOf(message), render));
    MergeOfThree(FieldsOf(Field(params, "metadata")), FieldsOf(Field(message, "metadata")),
                 FieldsOf(Field(data, "metadata")));
    FirstTrueIs([Field(params, "text"), Field(message, "text"), Str(TextFromParts(PartsOf(message), render))], render);
  }

  /** A message from a user, or from nobody in particular. */
  ghost predicate FromUser(params: Fields, message: Fields, render: Json -> string) {
    exists role: string :: IsFirst(role, [Field(message, "role"), Field(params, "role")], render)
                           && Lower(role) in {"", "user", "role_user"}
  }

  predicate Printable(text: string, max: nat) {
    |text| <= max && forall i :: 0 <= i < |text| ==> text[i] as int >= 32 && text[i] as int != 127
  }

  ghost predicate WithinLimits(e: Envelope) {
    && e.messageId != "" && Printable(e.messageId, 256) && Printable(e.taskId, 256)
    && Printable(e.contextId, 128) && Printable(e.text, 8000)
  }

  lemma IsFirstOnce(a: string, b: string, values: seq<Json>, render: Json -> string)
    requires IsFirst(a, values, render) && IsFirst(b, values, render)
    ensures a == b
  {
    if i: nat :| FirstAt(values, i) {
    } else {
      NoneTrue(values, |values|);
    }
  }

  lemma {:induction false} NoneTrue(values: seq<Json>, n: nat)
    requires n <= |values| && forall i: nat :: !FirstAt(values, i)
    ensures forall i :: 0 <= i < n ==> !Truthy(values[i])
  {
    if n > 0 {
      NoneTrue(values, n - 1);
      assert !FirstAt(values, n - 1);
    }
  }

  lemma EnvelopeOnce(a: Envelope, b: Envelope, params: Fields, message: Fields, parts: seq<Json>,
                     render: Json -> string)
    requires Envelops(a, params, message, parts, render) && Envelops(b, params, message, parts, render)
    ensures a == b
  {
    MergeOnce(a.data, b.data, [FieldsOf(Field(params, "data")), DataFromParts(parts, render)]);
    MergeOnce(a.metadata, b.metadata, [FieldsOf(Field(params, "metadata")), FieldsOf(Field(message, "metadata")),
                                       FieldsOf(Field(a.data, "metadata"))]);
    IsFirstOnce(a.messageId, b.messageId, Spelled(message, params, "messageId", "message_id"), render);
    IsFirstOnce(a.taskId, b.taskId, Spelled(message, params, "taskId", "task_id")
                                    + [Field(a.data, "task_id"), Field(a.data, "session_id")], render);
    IsFirstOnce(a.contextId, b.contextId, Spelled(message, params, "contextId", "context_id")
                                          + [Field(a.data, "context_id"), Field(a.data, "incident_id")], render);
    IsFirstOnce(a.text, b.text, [Field(params, "text"), Field(message, "text"),
                                 Str(TextFromParts(parts, render))], render);
  }

  lemma MergeOnce(a: Fields, b: Fields, sources: seq<Fields>)
    requires IsMerge(a, sources) && IsMerge(b, sources)
    ensures a == b
  {
    assert forall key :: key in a <==> key in b;
    forall key | key in a ensures a[key] == b[key] {
      assert LastGives(sources, key, a[key]) && LastGives(sources, key, b[key]);
    }
  }

  /** Parsing answers an envelope exactly when the payload comes from a user, has at most a hundred
      parts and keeps to the limits, and then the one that the payload gives. */
  lemma ParsesIff(payload: Fields, params: Fields, message: Fields, parts: seq<Json>, e: Envelope,
                  render: Json -> string)
    requires Nested(payload, params, message, parts) && Envelops(e, params, message, parts, render)
    ensures Parse(payload, render) ==
            if FromUser(params, message, render) && |parts| <= 100 && WithinLimits(e) then Some(e) else None
  {
    assert PartsOf(message) == parts;
    EnvelopeEnvelops(params, message, render);
    EnvelopeOnce(e, EnvelopeOf(params, message, render), params, message, parts, render);
    RoleIs(params, message, render);
    LimitsAre(e);
    ParseShape(payload, params, message, parts, e, render);
  }

  lemma ParseShape(payload: Fields, params: Fields, message: Fields, parts: seq<Json>, e: Envelope,
                   render: Json -> string)
    requires Nested(payload, params, message, parts) && e == EnvelopeOf(params, message, render)
    ensures Parse(payload, render) ==
            if RoleOk(message, params, render) && |parts| <= 100 && Acceptable(e) then Some(e) else None
  {
    assert ParamsOf(payload) == params && MessageOf(params) == message && PartsOf(message) == parts;
  }

  lemma LimitsAre(e: Envelope)
    ensures Acceptable(e) <==> WithinLimits(e)
  {
  }

  lemma RoleIs(params: Fields, message: Fields, render: Json -> string)
    ensures RoleOk(message, params, render) <==> FromUser(params, message, render)
  {
    var roles := [Field(message, "role"), Field(params, "role")];
    var role := Strip(FirstTrue(roles, render));
    FirstTrueIs(roles, render);
    forall other: string | IsFirst(other, roles, render) ensures other == role {
      IsFirstOnce(other, role, roles, render);
    }
  }

  // ---------------------------------------------------------------------------- scoping

  function ScopedId(principal: string, messageId: string): string { "principal:" + principal + ":" + messageId }

  /** What the server puts into a message's metadata: who sent it, and whether that is an admin. */
  function Stamps(principal: string, admin: bool): Fields {
    map[PRINCIPAL_KEY := Str(principal)] + if admin then map[ADMIN_KEY := Bool(true)] else map[]
  }

  /** The message with its identity replaced; `message_id` gives way to `messageId`. */
  function ScopedMessage(message: Fields, principal: string, admin: bool, messageId: string): Fields {
    message["messageId" := Str(ScopedId(principal, messageId))]
           ["metadata" := Obj(FieldsOf(Field(message, "metadata")) + Stamps(principal, admin))] - {"message_id"}
  }

  function ScopedParams(params: Fields, principal: string, admin: bool, messageId: string): Fields {
    if Field(params, "message").Obj?
    then params["message" := Obj(ScopedMessage(params["message"].fields, principal, admin, messageId))]
    else ScopedMessage(params, principal, admin, messageId)
  }

  /** Refuses what parsing refuses, and message metadata that is neither an object nor empty. */
  function Scope(payload: Fields, principal: string, admin: bool, render: Json -> string): Option<Fields> {
    var envelope := Parse(payload, render);
    var params := ParamsOf(payload);
    var metadata := Field(MessageOf(params), "metadata");
    if envelope.None? || (Truthy(metadata) && !metadata.Obj?) then None
    else
      var scoped := ScopedParams(params, principal, admin, envelope.value.messageId);
      Some(if Field(payload, "params").Obj? then payload["params" := Obj(scoped)] else scoped)
  }

  /** A payload is scoped exactly when it parses and its message's metadata is an object or empty. */
  lemma ScopesIff(payload: Fields, params: Fields, message: Fields, parts: seq<Json>, principal: string, admin: bool,
                  render: Json -> string)
    requires Nested(payload, params, message, parts)
    ensures Scope(payload, principal, admin, render).Some? <==>
            && Parse(payload, render).Some?
            && (!Truthy(Field(message, "metadata")) || Field(message, "metadata").Obj?)
  {
  }

  /** Every field of the message but the four that carry its identity. */
  ghost predicate SameBut(a: Fields, b: Fields) {
    forall k :: k !in {"messageId", "message_id", "metadata", "message"} ==> Field(a, k) == Field(b, k)
  }

  lemma ScopedMessageKeeps(message: Fields, principal: string, admin: bool, messageId: string)
    ensures
      var scoped := ScopedMessage(message, principal, admin, messageId);
      && SameBut(scoped, message) && Field(scoped, "message") == Field(message, "message")
      && Field(scoped, "messageId") == Str(ScopedId(principal, messageId))
      && FieldsOf(Field(scoped, "metadata")) == FieldsOf(Field(message, "metadata")) + Stamps(principal, admin)
  {
    var scoped := ScopedMessage(message, principal, admin, messageId);
    forall k | k !in {"messageId", "message_id", "metadata"} ensures Field(scoped, k) == Field(message, k) {
    }
  }

  lemma ScopedParamsShape(params: Fields, principal: string, admin: bool, messageId: string)
    ensures
      var scoped := ScopedParams(params, principal, admin, messageId);
      MessageOf(scoped) == ScopedMessage(MessageOf(params), principal, admin, messageId) && SameBut(scoped, params)
  {
    ScopedMessageKeeps(params, principal, admin, messageId);
  }

  /** What parsing finds in a scoped payload. */
  lemma ScopedShape(payload: Fields, principal: string, admin: bool, render: Json -> string)
    requires Scope(payload, principal, admin, render).Some?
    ensures
      var scoped := Scope(payload, principal, admin, render).value;
      var messageId := Parse(payload, render).value.messageId;
      && ParamsOf(scoped) == ScopedParams(ParamsOf(payload), principal, admin, messageId)
      && MessageOf(ParamsOf(scoped)) == ScopedMessage(MessageOf(ParamsOf(payload)), principal, admin, messageId)
      && SameBut(ParamsOf(scoped), ParamsOf(payload))
  {
    var messageId := Parse(payload, render).value.messageId;
    ScopedParamsShape(ParamsOf(payload), principal, admin, messageId);
    var scoped := ScopedParams(ParamsOf(payload), principal, admin, messageId);
    assert Field(scoped, "params") == Field(ParamsOf(payload), "params");
  }

  /** Changing only identity fields leaves the role, the parts, and every other part of the envelope. */
  lemma SameEnvelope(params: Fields, message: Fields, p: Fields, m: Fields, render: Json -> string)
    requires SameBut(p, params) && SameBut(m, message)
    ensures RoleOk(m, p, render) == RoleOk(message, params, render) && PartsOf(m) == PartsOf(message)
    ensures
      var a, b := EnvelopeOf(p, m, render), EnvelopeOf(params, message, render);
      a.taskId == b.taskId && a.contextId == b.contextId && a.text == b.text && a.data == b.data
  {
    assert Field(m, "parts") == Field(message, "parts");
    assert Field(m, "role") == Field(message, "role") && Field(p, "role") == Field(params, "role");
    assert Field(p, "data") == Field(params, "data");
    assert Field(m, "text") == Field(message, "text") && Field(p, "text") == Field(params, "text");
    assert Field(m, "taskId") == Field(message, "taskId") && Field(p, "taskId") == Field(params, "taskId");
    assert Field(m, "task_id") == Field(message, "task_id") && Field(p, "task_id") == Field(params, "task_id");
    assert Field(m, "contextId") == Field(message, "contextId") && Field(p, "contextId") == Field(params, "contextId");
    assert Field(m, "context_id") == Field(message, "context_id")
           && Field(p, "context_id") == Field(params, "context_id");
  }

  lemma ScopedMetadata(params: Fields, message: Fields, data: Fields, principal: string, admin: bool)
    ensures
      var mine := FieldsOf(Field(data, "metadata"));
      var scoped := FieldsOf(Field(message, "metadata")) + Stamps(principal, admin);
      var whole := FieldsOf(Field(params, "metadata")) + FieldsOf(Field(message, "metadata")) + mine;
      && FieldsOf(Field(params, "metadata")) + scoped + mine == whole + Stamps(principal, admin) + mine
      && (params == message ==> scoped + scoped + mine == whole + Stamps(principal, admin) + mine)
  {
    StampedBetween(FieldsOf(Field(params, "metadata")), FieldsOf(Field(message, "metadata")), Stamps(principal, admin),
                   FieldsOf(Field(data, "metadata")));
  }

  lemma StampedBetween(a: Fields, b: Fields, stamps: Fields, mine: Fields)
    ensures a + (b + stamps) + mine == a + b + mine + stamps + mine
    ensures (b + stamps) + (b + stamps) + mine == b + b + mine + stamps + mine
  {
  }

  /** The envelope a scoped message should parse to: the message id prefixed, the server's entries
      added to the metadata — unless the message's own data has metadata that gives them, which
      then wins. */
  function ScopedEnvelope(e: Envelope, principal: string, admin: bool): Envelope {
    e.(messageId := ScopedId(principal, e.messageId),
       metadata := e.metadata + Stamps(principal, admin) + FieldsOf(Field(e.data, "metadata")))
  }

  lemma ScopedIdIsTrimmed(principal: string, messageId: string)
    requires messageId != "" && Trimmed(messageId)
    ensures Strip(ScopedId(principal, messageId)) == ScopedId(principal, messageId)
  {
    var id := ScopedId(principal, messageId);
    assert id[0] == 'p' && id[|id| - 1] == messageId[|messageId| - 1];
    StripFixes(id);
  }

  /** Parsing a scoped payload gives the scoped envelope, as long as its message id is still a valid
      identifier. */
  lemma ParseScoped(payload: Fields, principal: string, admin: bool, render: Json -> string)
    requires Scope(payload, principal, admin, render).Some?
    ensures
      var e := Parse(payload, render).value;
      Parse(Scope(payload, principal, admin, render).value, render) ==
        if ValidIdentifier(ScopedId(principal, e.messageId), MESSAGE_ID_MAX_LENGTH)
        then Some(ScopedEnvelope(e, principal, admin))
        else None
  {
    var e := Parse(payload, render).value;
    var scoped := Scope(payload, principal, admin, render).value;
    var params, message := ParamsOf(payload), MessageOf(ParamsOf(payload));
    var p, m := ParamsOf(scoped), MessageOf(ParamsOf(scoped));
    ScopedShape(payload, principal, admin, render);
    ScopedMessageKeeps(message, principal, admin, e.messageId);
    SameEnvelope(params, message, p, m, render);
    assert e.data == EnvelopeOf(p, m, render).data;
    ScopedMessageId(message, params, p, m, principal, e.messageId, render);
    ScopedMetadata(params, message, e.data, principal, admin);
    ScopedParamsMetadata(payload, principal, admin, render);
    assert EnvelopeOf(p, m, render) == ScopedEnvelope(e, principal, admin);
  }

  lemma ScopedMessageId(message: Fields, params: Fields, p: Fields, m: Fields, principal: string,
                        messageId: string, render: Json -> string)
    requires messageId == Strip(RawMessageId(message, params, render)) && messageId != ""
    requires Field(m, "messageId") == Str(ScopedId(principal, messageId))
    ensures Strip(RawMessageId(m, p, render)) == ScopedId(principal, messageId)
  {
    StripFixes(RawMessageId(message, params, render));
    ScopedIdIsTrimmed(principal, messageId);
  }

  lemma ScopedParamsMetadata(payload: Fields, principal: string, admin: bool, render: Json -> string)
    requires Scope(payload, principal, admin, render).Some?
    ensures
      var p := ParamsOf(Scope(payload, principal, admin, render).value);
      var params := ParamsOf(payload);
      Field(p, "metadata") == Field(if Field(params, "message").Obj? then params else MessageOf(p), "metadata")
  {
    ScopedShape(payload, principal, admin, render);
  }

  predicate IsAdmin(e: Envelope) { Truthy(Field(e.metadata, ADMIN_KEY)) }

  /** Whether the metadata that is read names the authenticated principal, and says that it is an
      admin exactly if it is one: as far as the principal goes iff the metadata inside the message's
      data names nobody else; for an admin iff that metadata does not deny it; for anybody else iff
      the metadata of the payload as it came does not claim it. */
  lemma MetadataTellsIff(payload: Fields, principal: string, admin: bool, render: Json -> string)
    requires Scope(payload, principal, admin, render).Some?
    requires Parse(Scope(payload, principal, admin, render).value, render).Some?
    ensures
      var sent := Parse(payload, render).value;
      var read := Parse(Scope(payload, principal, admin, render).value, render).value;
      var mine := FieldsOf(Field(sent.data, "metadata"));
      && (Field(read.metadata, PRINCIPAL_KEY) == Str(principal) <==>
            PRINCIPAL_KEY !in mine || mine[PRINCIPAL_KEY] == Str(principal))
      && (IsAdmin(read) == admin <==>
            if admin then ADMIN_KEY !in mine || Truthy(mine[ADMIN_KEY]) else !IsAdmin(sent))
  {
    ParseScoped(payload, principal, admin, render);
    var sent := Parse(payload, render).value;
    SentMetadata(payload, render);
    EnvelopeTellsIff(sent, ScopedEnvelope(sent, principal, admin), principal, admin);
  }

  /** The metadata inside the data is part of all metadata, and wins there. */
  lemma SentMetadata(payload: Fields, render: Json -> string)
    requires Parse(payload, render).Some?
    ensures MineWins(Parse(payload, render).value)
  {
  }

  ghost predicate MineWins(e: Envelope) {
    var mine := FieldsOf(Field(e.data, "metadata"));
    forall k :: k in mine ==> Field(e.metadata, k) == mine[k]
  }

  lemma EnvelopeTellsIff(sent: Envelope, read: Envelope, principal: string, admin: bool)
    requires MineWins(sent) && read == ScopedEnvelope(sent, principal, admin)
    ensures
      var mine := FieldsOf(Field(sent.data, "metadata"));
      && (Field(read.metadata, PRINCIPAL_KEY) == Str(principal) <==>
            PRINCIPAL_KEY !in mine || mine[PRINCIPAL_KEY] == Str(principal))
      && (IsAdmin(read) == admin <==>
            if admin then ADMIN_KEY !in mine || Truthy(mine[ADMIN_KEY]) else !IsAdmin(sent))
  {
    var mine := FieldsOf(Field(sent.data, "metadata"));
    assert ADMIN_KEY[13] != PRINCIPAL_KEY[13];
    assert Field(read.metadata, ADMIN_KEY) == if ADMIN_KEY in mine then mine[ADMIN_KEY]
                                              else if admin then Bool(true) else Field(sent.metadata, ADMIN_KEY);
  }

  // ------------------------------------------------------------------------------ owners

  /** The text up to the first colon, or nothing when there is none. */
  function UpToColon(text: string): Option<string> {
    if text == "" then None
    else if text[0] == ':' then Some("")
    else
      var rest := UpToColon(text[1..]);
      if rest.None? then None else Some([text[0]] + rest.value)
  }

  const PREFIX := "principal:"

  /** The owner a message id names: none without the prefix, and an error without a second colon. */
  function OwnerOf(messageId: string): Option<string> {
    if |messageId| >= |PREFIX| && messageId[..|PREFIX|] == PREFIX then UpToColon(messageId[|PREFIX|..]) else Some("")
  }

  lemma {:induction false} UpToColonIs(before: string, after: string)
    requires ':' !in before
    ensures UpToColon(before + ":" + after) == Some(before)
  {
    var text := before + ":" + after;
    if before != "" {
      assert text[1..] == before[1..] + ":" + after && text[0] == before[0] != ':';
      UpToColonIs(before[1..], after);
      assert [before[0]] + before[1..] == before;
    }
  }

  lemma {:induction false} UpToColonHasNone(text: string)
    ensures UpToColon(text).Some? ==> ':' !in UpToColon(text).value
  {
    if text != "" && text[0] != ':' {
      UpToColonHasNone(text[1..]);
    }
  }

  /** The owner read back from a scoped message id is the principal exactly when the principal's
      identifier has no colon. */
  lemma OwnerReadBackIff(principal: string, messageId: string)
    ensures OwnerOf(ScopedId(principal, messageId)) == Some(principal) <==> ':' !in principal
  {
    var id := ScopedId(principal, messageId);
    assert id[..|PREFIX|] == PREFIX && id[|PREFIX|..] == principal + ":" + messageId;
    if ':' !in principal {
      UpToColonIs(principal, messageId);
    } else {
      UpToColonHasNone(id[|PREFIX|..]);
    }
  }

  /** Two principals without colon never share a scoped message id. */
  lemma ScopedIdTells(p: string, m: string, q: string, n: string)
    requires ':' !in p && ':' !in q && ScopedId(p, m) == ScopedId(q, n)
    ensures p == q && m == n
  {
    assert ScopedId(p, m)[|PREFIX|..] == p + ":" + m && ScopedId(q, n)[|PREFIX|..] == q + ":" + n;
    JoinTells(p, m, q, n, ':');
  }
}
