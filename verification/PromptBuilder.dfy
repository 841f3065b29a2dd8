/** Rendering an alert as bounded JSON: priority fields first, each cut to the largest common
    length that fits, then as many optional fields as the budget still allows. */
module PromptBuilder {
  import opened ContextBudget

  // ------------------------------------------------------------------------------ JSON

  function Hex(n: int): char
    requires 0 <= n < 16
  {
    "0123456789abcdef"[n]
  }

  /** json.dumps(..., ensure_ascii=False) on one character of a string. */
  function Escape(c: char): (e: string)
    ensures 1 <= |e| <= 6
  {
    if c == '\"' then "\\\""
    else if c == '\\' then "\\\\"
    else if c == '\n' then "\\n"
    else if c == '\r' then "\\r"
    else if c == '\t' then "\\t"
    else if c as int == 8 then "\\b"
    else if c as int == 12 then "\\f"
    else if c as int < 32 then "\\u00" + [Hex(c as int / 16), Hex(c as int % 16)]
    else [c]
  }

  /** The texts of all characters, one after the other. */
  function Spell(s: string, esc: char -> string): string {
    if s == [] then [] else Spell(s[..|s| - 1], esc) + esc(s[|s| - 1])
  }

  function Quote(s: string): string { "\"" + Spell(s, Escape) + "\"" }

  /** A field value: a string, or anything else already rendered at its place. */
  datatype Value = Str(text: string) | Other(json: string)

  datatype Field = Field(key: string, value: Value)

  function Spaces(n: nat): string { seq(n, i => ' ') }

  function Item(b: Budget, f: Field): string {
    "\n" + Spaces(b.indent) + Quote(f.key) + ": "
    + match f.value case Str(s) => Quote(s) case Other(json) => json
  }

  function Items(b: Budget, fields: seq<Field>): string {
    if fields == [] then []
    else
      var n := |fields| - 1;
      Items(b, fields[..n]) + (if n > 0 then "," else "") + Item(b, fields[n])
  }

  function Json(b: Budget, fields: seq<Field>): string {
    if fields == [] then "{}" else "{" + Items(b, fields) + "\n}"
  }

  // -------------------------------------------------------- width as the limit grows

  function Sum(s: string, w: char -> nat): nat {
    if s == [] then 0 else Sum(s[..|s| - 1], w) + w(s[|s| - 1])
  }

  lemma {:induction false} SumAppend(a: string, b: string, w: char -> nat)
    ensures Sum(a + b, w) == Sum(a, w) + Sum(b, w)
  {
    if b == [] {
      assert a + b == a;
    } else {
      assert (a + b)[..|a + b| - 1] == a + b[..|b| - 1];
      SumAppend(a, b[..|b| - 1], w);
    }
  }

  lemma {:induction false} SpellWidth(s: string, esc: char -> string, w: char -> nat)
    requires forall c :: |esc(c)| == 1 + w(c)
    ensures |Spell(s, esc)| == |s| + Sum(s, w)
  {
    if s != [] {
      SpellWidth(s[..|s| - 1], esc, w);
    }
  }

  /** What escaping adds to a character, and to a text. */
  function Extra(c: char): nat { |Escape(c)| - 1 }

  function Excess(s: string): nat { Sum(s, Extra) }

  function Rendered(s: string): nat { |s| + Excess(s) }

  lemma RenderedWidth(s: string)
    ensures |Quote(s)| == 2 + Rendered(s)
  {
    SpellWidth(s, Escape, Extra);
  }

  lemma ShortLimitGrows(b: Budget, s: string, limit: nat, w: char -> nat)
    requires Sum(b.marker, w) <= 1 && limit <= |b.marker| && limit < |s|
    ensures var t, u := Text(b, s, limit, false), Text(b, s, limit + 1, false);
            |t| + Sum(t, w) <= |u| + Sum(u, w)
  {
    var m := b.marker;
    assert m == m[..limit] + m[limit..];
    SumAppend(m[..limit], m[limit..], w);
    if |s| > limit + 1 {
      if limit < |m| {
        assert m[..limit + 1] == m[..limit] + [m[limit]];
        SumAppend(m[..limit], [m[limit]], w);
      } else {
        assert m[..limit] == m;
        SumAppend(s[..1], m, w);
      }
    }
  }

  lemma LongLimitGrows(b: Budget, s: string, limit: nat, w: char -> nat)
    requires Sum(b.marker, w) <= 1 && |b.marker| < limit < |s|
    ensures var t, u := Text(b, s, limit, false), Text(b, s, limit + 1, false);
            |t| + Sum(t, w) <= |u| + Sum(u, w)
  {
    var k := limit - |b.marker|;
    SumAppend(s[..k], b.marker, w);
    if |s| > limit + 1 {
      assert s[..k + 1] == s[..k] + [s[k]];
      SumAppend(s[..k + 1], b.marker, w);
      SumAppend(s[..k], [s[k]], w);
    } else {
      assert s == s[..k] + s[k..];
      SumAppend(s[..k], s[k..], w);
    }
  }

  function Width(b: Budget, s: string, limit: nat): nat { Rendered(Text(b, s, limit, false)) }

  /** Raising the limit by one never shortens the rendered text of a single string, provided
      escaping adds at most one character to the marker.  The critical step is the last one, where
      the marker disappears and the whole text appears. */
  lemma WidthGrows(b: Budget, s: string, limit: nat)
    requires Excess(b.marker) <= 1
    ensures Width(b, s, limit) <= Width(b, s, limit + 1)
  {
    if limit < |s| {
      if limit <= |b.marker| {
        ShortLimitGrows(b, s, limit, Extra);
      } else {
        LongLimitGrows(b, s, limit, Extra);
      }
    }
  }

  ghost predicate NeverShrinks(b: Budget) {
    forall s, limit: nat :: Width(b, s, limit) <= Width(b, s, limit + 1)
  }

  lemma {:induction false} PlainText(s: string, w: char -> nat)
    requires forall i :: 0 <= i < |s| ==> w(s[i]) == 0
    ensures Sum(s, w) == 0
  {
    if s != [] {
      PlainText(s[..|s| - 1], w);
    }
  }

  /** The rendered width is monotone in the limit, over all texts, exactly for markers to which
      escaping adds at most one character. */
  lemma WidthMonotoneIff(b: Budget)
    ensures NeverShrinks(b) <==> Excess(b.marker) <= 1
  {
    if Excess(b.marker) <= 1 {
      forall s, limit: nat ensures Width(b, s, limit) <= Width(b, s, limit + 1) {
        WidthGrows(b, s, limit);
      }
    } else {
      var n := |b.marker|;
      var s: string := seq(n + 1, i => 'a');
      PlainText(s, Extra);
      assert Text(b, s, n, false) == b.marker[..n] == b.marker;
      assert Width(b, s, n) > Width(b, s, n + 1);
    }
  }

  /** The repository's own marker qualifies: only its newline is escaped. */
  lemma DefaultMarkerQualifies()
    ensures Excess(DEFAULT_MARKER) == 1
  {
    var rest: string := "...<truncated>";
    assert DEFAULT_MARKER == "\n" + rest;
    SumAppend("\n", rest, Extra);
    PlainText(rest, Extra);
    assert Sum("\n", Extra) == Sum("", Extra) + Extra('\n');
  }

  // ------------------------------------------------------------------- priority fields

  function Shorten(b: Budget, f: Field, limit: nat): Field {
    match f.value case Str(s) => f.(value := Str(Text(b, s, limit, false))) case Other(_) => f
  }

  /** Every string value cut to `limit`; keys, order and other values stay. */
  function Candidate(b: Budget, fields: seq<Field>, limit: nat): (r: seq<Field>)
    ensures |r| == |fields|
    ensures forall i :: 0 <= i < |r| ==> r[i] == Shorten(b, fields[i], limit)
  {
    seq(|fields|, i requires 0 <= i < |fields| => Shorten(b, fields[i], limit))
  }

  function Total(b: Budget, fields: seq<Field>, limit: nat): nat { |Json(b, Candidate(b, fields, limit))| }

  lemma ItemGrows(b: Budget, f: Field, limit: nat)
    requires Excess(b.marker) <= 1
    ensures |Item(b, Shorten(b, f, limit))| <= |Item(b, Shorten(b, f, limit + 1))|
  {
    if f.value.Str? {
      WidthGrows(b, f.value.text, limit);
      RenderedWidth(Text(b, f.value.text, limit, false));
      RenderedWidth(Text(b, f.value.text, limit + 1, false));
    }
  }

  lemma {:induction false} ItemsGrow(b: Budget, fields: seq<Field>, limit: nat)
    requires Excess(b.marker) <= 1
    ensures |Items(b, Candidate(b, fields, limit))| <= |Items(b, Candidate(b, fields, limit + 1))|
  {
    if fields != [] {
      var n := |fields| - 1;
      ItemsGrow(b, fields[..n], limit);
      assert Candidate(b, fields, limit)[..n] == Candidate(b, fields[..n], limit);
      assert Candidate(b, fields, limit + 1)[..n] == Candidate(b, fields[..n], limit + 1);
      ItemGrows(b, fields[n], limit);
    }
  }

  lemma TotalStep(b: Budget, fields: seq<Field>, limit: nat)
    requires Excess(b.marker) <= 1
    ensures Total(b, fields, limit) <= Total(b, fields, limit + 1)
  {
    ItemsGrow(b, fields, limit);
  }

  /** The length of the rendered JSON as a function of the common per-field limit. */
  function WidthOf(b: Budget, fields: seq<Field>): nat -> nat { (k: nat) => Total(b, fields, k) }

  ghost predicate Monotone(width: nat -> nat) { forall k: nat :: width(k) <= width(k + 1) }

  lemma {:induction false} Ascending(f: nat -> nat, low: nat, high: nat)
    requires low <= high && Monotone(f)
    ensures f(low) <= f(high)
    decreases high - low
  {
    if low < high {
      Ascending(f, low, high - 1);
      assert f(high - 1) <= f(high - 1 + 1);
    }
  }

  lemma WidthOfStep(b: Budget, fields: seq<Field>, k: nat)
    requires Excess(b.marker) <= 1
    ensures WidthOf(b, fields)(k) <= WidthOf(b, fields)(k + 1)
  {
    TotalStep(b, fields, k);
  }

  /** The rendered JSON never gets shorter as the per-field limit grows. */
  lemma JsonWidthMonotone(b: Budget, fields: seq<Field>)
    requires Excess(b.marker) <= 1
    ensures Monotone(WidthOf(b, fields))
  {
    var width := WidthOf(b, fields);
    forall k: nat ensures width(k) <= width(k + 1) {
      WidthOfStep(b, fields, k);
    }
  }

  function Longest(fields: seq<Field>): nat {
    if fields == [] then 0
    else
      var rest := Longest(fields[..|fields| - 1]);
      match fields[|fields| - 1].value
      case Str(s) => if |s| > rest then |s| else rest
      case Other(_) => rest
  }

  predicate HasText(fields: seq<Field>) { exists i :: 0 <= i < |fields| && fields[i].value.Str? }

  lemma {:induction false} LongestBounds(fields: seq<Field>)
    ensures forall i :: 0 <= i < |fields| && fields[i].value.Str? ==> |fields[i].value.text| <= Longest(fields)
  {
    if fields != [] {
      LongestBounds(fields[..|fields| - 1]);
    }
  }

  lemma WholeAtLongest(b: Budget, fields: seq<Field>, limit: nat)
    requires limit >= Longest(fields)
    ensures Candidate(b, fields, limit) == fields
  {
    LongestBounds(fields);
  }

  /** `best` fits — or is zero, when nothing does — and no larger length of all fits. */
  ghost predicate Largest(width: nat -> nat, limit: nat, best: nat) {
    && (best == 0 || width(best) <= limit)
    && forall k: nat :: k > best ==> width(k) > limit
  }

  /** The fields as they are if they fit or hold no string; nothing if there is nothing or no room
      at all; otherwise all strings cut to one common length that fits, if any does — and for a
      marker with a monotone width that is the largest such length. */
  ghost predicate Fitted(b: Budget, fields: seq<Field>, limit: nat, r: seq<Field>) {
    if fields == [] || limit == 0 then r == []
    else if |Json(b, fields)| <= limit || !HasText(fields) then r == fields
    else exists best: nat :: r == Candidate(b, fields, best) && BestLength(b, fields, limit, best)
  }

  ghost predicate BestLength(b: Budget, fields: seq<Field>, limit: nat, best: nat) {
    && (best == 0 || WidthOf(b, fields)(best) <= limit)
    && (Excess(b.marker) <= 1 ==> Largest(WidthOf(b, fields), limit, best))
  }

  /** The binary search over the common length; `width` renders a candidate and measures it.  For
      every monotone width the result is the optimum over all lengths. */
  method SearchLength(width: nat -> nat, longest: nat, limit: nat) returns (best: nat)
    requires width(longest + 1) > limit
    ensures best == 0 || width(best) <= limit
    ensures Monotone(width) ==> Largest(width, limit, best)
  {
    var low: int, high: int := 0, longest;
    best := 0;
    while low <= high
      invariant 0 <= low <= high + 1
      invariant best == if low == 0 then 0 else low - 1
      invariant low == 0 || width(best) <= limit
      invariant width(high + 1) > limit
      decreases high + 1 - low
    {
      var mid := (low + high) / 2;
      if width(mid) > limit {
        high := mid - 1;
      } else {
        best := mid;
        low := mid + 1;
      }
    }
    if Monotone(width) {
      forall k: nat | k > best ensures width(k) > limit {
        Ascending(width, high + 1, k);
      }
    }
  }

  method FitPriorityFields(b: Budget, fields: seq<Field>, limit: nat) returns (r: seq<Field>)
    ensures Fitted(b, fields, limit, r)
  {
    if fields == [] || limit == 0 {
      return [];
    }
    if |Json(b, fields)| <= limit {
      return fields;
    }
    if !HasText(fields) {
      return fields;
    }
    WholeAtLongest(b, fields, Longest(fields) + 1);
    var best := SearchLength(WidthOf(b, fields), Longest(fields), limit);
    if Excess(b.marker) <= 1 {
      JsonWidthMonotone(b, fields);
    }
    r := Candidate(b, fields, best);
    assert BestLength(b, fields, limit, best);
  }

  // -------------------------------------------------------------------- the whole text

  function Select(fields: seq<Field>, key: string): seq<Field> {
    if fields == [] then []
    else if fields[0].key == key then [fields[0]]
    else Select(fields[1..], key)
  }

  /** The fields whose key has priority, in priority order. */
  function Priority(fields: seq<Field>, keys: seq<string>): seq<Field> {
    if keys == [] then [] else Select(fields, keys[0]) + Priority(fields, keys[1..])
  }

  function Optional(fields: seq<Field>, keys: seq<string>): seq<Field> {
    if fields == [] then []
    else if fields[0].key in keys then Optional(fields[1..], keys)
    else [fields[0]] + Optional(fields[1..], keys)
  }

  function Keys(fields: seq<Field>): seq<string> { seq(|fields|, i requires 0 <= i < |fields| => fields[i].key) }

  predicate DistinctKeys(fields: seq<Field>) {
    forall i, j :: 0 <= i < j < |fields| ==> fields[i].key != fields[j].key
  }

  predicate DistinctTexts(keys: seq<string>) { forall i, j :: 0 <= i < j < |keys| ==> keys[i] != keys[j] }

  lemma {:induction false} SelectIs(fields: seq<Field>, key: string)
    requires DistinctKeys(fields)
    ensures |Select(fields, key)| <= 1
    ensures forall f :: f in Select(fields, key) <==> f in fields && f.key == key
  {
    if fields != [] {
      SelectIs(fields[1..], key);
      assert forall f :: f in fields <==> f == fields[0] || f in fields[1..];
      if fields[0].key == key {
        assert forall f :: f in fields[1..] ==> f.key != key;
      }
    }
  }

  predicate Rising(at: seq<nat>) { forall i, j :: 0 <= i < j < |at| ==> at[i] < at[j] }

  function Shift(at: seq<nat>): (r: seq<nat>)
    ensures |r| == |at| && forall i :: 0 <= i < |at| ==> r[i] == at[i] + 1
  {
    seq(|at|, i requires 0 <= i < |at| => at[i] + 1)
  }

  /** The priority fields are exactly the fields whose key has priority. */
  lemma {:induction false} PriorityIs(fields: seq<Field>, keys: seq<string>)
    requires DistinctKeys(fields)
    ensures forall f :: f in Priority(fields, keys) <==> f in fields && f.key in keys
  {
    if keys != [] {
      SelectIs(fields, keys[0]);
      PriorityIs(fields, keys[1..]);
    }
  }

  /** The selected fields have the keys at these places, in order. */
  predicate Places(at: seq<nat>, keys: seq<string>, selected: seq<Field>) {
    && |at| == |selected| && Rising(at)
    && forall i :: 0 <= i < |at| ==> at[i] < |keys| && keys[at[i]] == selected[i].key
  }

  lemma PlacesBehind(at: seq<nat>, keys: seq<string>, selected: seq<Field>)
    requires keys != [] && Places(at, keys[1..], selected)
    ensures Places(Shift(at), keys, selected)
    ensures forall f: Field :: f.key == keys[0] ==> Places([0] + Shift(at), keys, [f] + selected)
  {
  }

  /** They come in the order of the keys. */
  lemma {:induction false} PriorityInOrder(fields: seq<Field>, keys: seq<string>) returns (at: seq<nat>)
    requires DistinctKeys(fields)
    ensures Places(at, keys, Priority(fields, keys))
  {
    at := [];
    if keys != [] {
      SelectIs(fields, keys[0]);
      var first, rest := Select(fields, keys[0]), Priority(fields, keys[1..]);
      at := PriorityInOrder(fields, keys[1..]);
      PlacesBehind(at, keys, rest);
      if first == [] {
        at := Shift(at);
        assert first + rest == rest;
      } else {
        at := [0] + Shift(at);
        assert first[0] in first && first == [first[0]];
      }
    }
  }

  /** The optional fields are exactly the others. */
  lemma {:induction false} OptionalIs(fields: seq<Field>, keys: seq<string>)
    ensures forall f :: f in Optional(fields, keys) <==> f in fields && f.key !in keys
  {
    if fields != [] {
      OptionalIs(fields[1..], keys);
    }
  }

  /** They come in the order of the alert. */
  lemma {:induction false} OptionalInOrder(fields: seq<Field>, keys: seq<string>) returns (at: seq<nat>)
    ensures Places(at, Keys(fields), Optional(fields, keys))
  {
    at := [];
    if fields != [] {
      at := OptionalInOrder(fields[1..], keys);
      assert Keys(fields)[1..] == Keys(fields[1..]);
      PlacesBehind(at, Keys(fields), Optional(fields[1..], keys));
      at := if fields[0].key in keys then Shift(at) else [0] + Shift(at);
    }
  }

  lemma {:induction false} DistinctOnce(fields: seq<Field>)
    requires DistinctKeys(fields)
    ensures forall f :: multiset(fields)[f] == if f in fields then 1 else 0
  {
    if fields != [] {
      DistinctOnce(fields[1..]);
      assert fields == [fields[0]] + fields[1..];
      assert fields[0] !in fields[1..];
    }
  }

  lemma PriorityIsDistinct(fields: seq<Field>, keys: seq<string>)
    requires DistinctKeys(fields) && DistinctTexts(keys)
    ensures DistinctKeys(Priority(fields, keys))
  {
    var at := PriorityInOrder(fields, keys);
    var priority := Priority(fields, keys);
    forall i, j | 0 <= i < j < |priority| ensures priority[i].key != priority[j].key {
      assert at[i] < at[j];
    }
  }

  lemma OptionalIsDistinct(fields: seq<Field>, keys: seq<string>)
    requires DistinctKeys(fields)
    ensures DistinctKeys(Optional(fields, keys))
  {
    var at := OptionalInOrder(fields, keys);
    var optional := Optional(fields, keys);
    forall i, j | 0 <= i < j < |optional| ensures optional[i].key != optional[j].key {
      assert at[i] < at[j];
    }
  }

  /** Together the two parts are the alert's fields, each once. */
  lemma PartsAreWhole(fields: seq<Field>, keys: seq<string>)
    requires DistinctKeys(fields) && DistinctTexts(keys)
    ensures multiset(Priority(fields, keys)) + multiset(Optional(fields, keys)) == multiset(fields)
  {
    PriorityIs(fields, keys);
    OptionalIs(fields, keys);
    PriorityIsDistinct(fields, keys);
    OptionalIsDistinct(fields, keys);
    OnceEach(fields, Priority(fields, keys), Optional(fields, keys), keys);
  }

  lemma OnceEach(fields: seq<Field>, priority: seq<Field>, optional: seq<Field>, keys: seq<string>)
    requires DistinctKeys(fields) && DistinctKeys(priority) && DistinctKeys(optional)
    requires forall f :: f in priority <==> f in fields && f.key in keys
    requires forall f :: f in optional <==> f in fields && f.key !in keys
    ensures multiset(priority) + multiset(optional) == multiset(fields)
  {
    DistinctOnce(fields);
    DistinctOnce(priority);
    DistinctOnce(optional);
  }

  lemma JsonAppend(b: Budget, fields: seq<Field>, f: Field)
    ensures |Json(b, fields)| <= |Json(b, fields + [f])|
  {
    assert (fields + [f])[..|fields|] == fields;
  }

  function Min(a: nat, b: nat): nat { if a <= b then a else b }

  /** The length of the rendered JSON with the first `k` optional fields behind `base`. */
  function WidthWith(b: Budget, base: seq<Field>, optional: seq<Field>): nat -> nat {
    (k: nat) => |Json(b, base + optional[..Min(k, |optional|)])|
  }

  lemma WidthWithStep(b: Budget, base: seq<Field>, optional: seq<Field>, k: nat)
    ensures WidthWith(b, base, optional)(k) <= WidthWith(b, base, optional)(k + 1)
  {
    if k < |optional| {
      assert base + optional[..k + 1] == (base + optional[..k]) + [optional[k]];
      JsonAppend(b, base + optional[..k], optional[k]);
    }
  }

  lemma FillWidthMonotone(b: Budget, base: seq<Field>, optional: seq<Field>)
    ensures Monotone(WidthWith(b, base, optional))
  {
    var width := WidthWith(b, base, optional);
    forall k: nat ensures width(k) <= width(k + 1) {
      WidthWithStep(b, base, optional, k);
    }
  }

  /** The first `k` of `count` fit, and no longer run of them does. */
  ghost predicate Filled(width: nat -> nat, count: nat, room: nat, k: nat) {
    && k <= count && (k > 0 ==> width(k) <= room && width(0) <= room)
    && forall j :: k < j <= count ==> width(j) > room
  }

  /** Adds optional fields one by one until the first that does not fit. */
  method FillOptional(width: nat -> nat, count: nat, room: nat) returns (k: nat)
    requires Monotone(width)
    ensures Filled(width, count, room, k)
  {
    k := 0;
    while k < count && width(k + 1) <= room
      invariant k <= count && (k > 0 ==> width(k) <= room)
    {
      k := k + 1;
    }
    forall j: nat | k < j <= count ensures width(j) > room {
      Ascending(width, k + 1, j);
    }
    Ascending(width, 0, k);
  }

  function Room(b: Budget, limit: nat): nat { if limit > |b.marker| then limit - |b.marker| else 0 }

  /** `r` is cut from the fitted priority fields followed by the longest run of optional fields that
      fits, with the marker behind.  Nothing of that is lost when the priority fields fit their
      share of the limit. */
  ghost predicate Assembled(b: Budget, fields: seq<Field>, keys: seq<string>, limit: nat, r: string,
                            base: seq<Field>, k: nat) {
    var optional := Optional(fields, keys);
    && Fitted(b, Priority(fields, keys), Room(b, limit), base)
    && Filled(WidthWith(b, base, optional), |optional|, Room(b, limit), k)
    && var whole := Json(b, base + optional[..k]) + b.marker;
       && r == (if |whole| <= limit then whole else whole[..limit])
       && (|Json(b, base)| <= Room(b, limit) ==> r == whole)
       && (|Json(b, base)| > Room(b, limit) ==> k == 0)
  }

  /** The field is there whole, or with its string cut. */
  predicate KeptAs(b: Budget, f: Field, best: nat, base: seq<Field>) { f in base || Shorten(b, f, best) in base }

  predicate AllKept(b: Budget, fields: seq<Field>, keys: seq<string>, best: nat, base: seq<Field>) {
    forall i :: 0 <= i < |fields| && fields[i].key in keys ==> KeptAs(b, fields[i], best, base)
  }

  /** Every priority field of the alert is among the fitted ones. */
  ghost predicate PriorityKept(b: Budget, fields: seq<Field>, keys: seq<string>, base: seq<Field>) {
    exists best: nat :: AllKept(b, fields, keys, best, base)
  }

  lemma FittedKeeps(b: Budget, priority: seq<Field>, limit: nat, base: seq<Field>) returns (best: nat)
    requires Fitted(b, priority, limit, base) && limit > 0
    ensures forall i :: 0 <= i < |priority| ==> KeptAs(b, priority[i], best, base)
  {
    best := 0;
    if base != priority {
      best :| base == Candidate(b, priority, best) && BestLength(b, priority, limit, best);
      forall i | 0 <= i < |priority| ensures KeptAs(b, priority[i], best, base) {
        assert base[i] == Shorten(b, priority[i], best);
      }
    }
  }

  lemma FittedKeepsPriority(b: Budget, fields: seq<Field>, keys: seq<string>, limit: nat, base: seq<Field>)
    requires DistinctKeys(fields) && limit > 0 && Fitted(b, Priority(fields, keys), limit, base)
    ensures PriorityKept(b, fields, keys, base)
  {
    PriorityIs(fields, keys);
    var best := FittedKeeps(b, Priority(fields, keys), limit, base);
    assert AllKept(b, fields, keys, best, base) by {
      forall i | 0 <= i < |fields| && fields[i].key in keys ensures KeptAs(b, fields[i], best, base) {
        assert fields[i] in Priority(fields, keys);
      }
    }
  }

  /** The alert within `limit` characters: whole if it fits, assembled otherwise, and then with every
      priority field it has as soon as there is any room beside the marker. */
  method FormatPriorityJson(b: Budget, fields: seq<Field>, keys: seq<string>, limit: nat) returns (r: string)
    ensures |r| <= limit
    ensures |Json(b, fields)| <= limit ==> r == Json(b, fields)
    ensures |Json(b, fields)| > limit ==>
              exists base, k: nat :: Assembled(b, fields, keys, limit, r, base, k)
                && (Room(b, limit) > 0 && DistinctKeys(fields) ==> PriorityKept(b, fields, keys, base))
  {
    var full := Json(b, fields);
    if |full| <= limit {
      return full;
    }
    var room := Room(b, limit);
    var base := FitPriorityFields(b, Priority(fields, keys), room);
    var optional := Optional(fields, keys);
    FillWidthMonotone(b, base, optional);
    var k := FillOptional(WidthWith(b, base, optional), |optional|, room);
    var whole := Json(b, base + optional[..k]) + b.marker;
    r := if |whole| <= limit then whole else whole[..limit];
    assert base + optional[..0] == base;
    JsonNotEmpty(b, base);
    if room > 0 && DistinctKeys(fields) {
      FittedKeepsPriority(b, fields, keys, room, base);
    }
    assert Assembled(b, fields, keys, limit, r, base, k);
  }

  lemma JsonNotEmpty(b: Budget, fields: seq<Field>)
    ensures |Json(b, fields)| >= 2
  {
  }

  // ------------------------------------------------------------------- nothing is dropped

  lemma ShortenKeepsKeys(b: Budget, fields: seq<Field>, limit: nat)
    ensures Keys(Candidate(b, fields, limit)) == Keys(fields)
  {
    var r := Candidate(b, fields, limit);
    forall i | 0 <= i < |r| ensures Keys(r)[i] == Keys(fields)[i] {
      assert r[i].key == fields[i].key;
    }
  }

  /** What the fitting gives back: everything when that fits or no string can be cut, and otherwise a
      text within the limit unless not even the empty strings fit. */
  lemma FittedTells(b: Budget, fields: seq<Field>, limit: nat, r: seq<Field>)
    requires Fitted(b, fields, limit, r) && fields != [] && limit > 0
    ensures |Json(b, fields)| <= limit || (forall i :: 0 <= i < |fields| ==> fields[i].value.Other?) ==> r == fields
    ensures (exists i :: 0 <= i < |fields| && fields[i].value.Str?) ==>
              |Json(b, r)| <= limit || r == Candidate(b, fields, 0)
  {
    if |Json(b, fields)| > limit && HasText(fields) {
      var best: nat :| r == Candidate(b, fields, best) && BestLength(b, fields, limit, best);
    }
  }

  /** The room for fields and the marker make up the limit, unless the marker alone exceeds it. */
  lemma RoomIs(b: Budget, limit: nat)
    ensures |b.marker| <= limit ==> Room(b, limit) + |b.marker| == limit
    ensures |b.marker| > limit ==> Room(b, limit) == 0
  {
  }

  /** Every present priority key survives the fitting, in priority order, as soon as there is any
      room, and values other than strings are kept whole. */
  lemma PriorityKeysSurvive(b: Budget, fields: seq<Field>, limit: nat, r: seq<Field>)
    requires Fitted(b, fields, limit, r) && limit > 0
    ensures Keys(r) == Keys(fields)
    ensures forall i :: 0 <= i < |r| && fields[i].value.Other? ==> r[i] == fields[i]
  {
    if r != fields {
      var best: nat :| r == Candidate(b, fields, best) && BestLength(b, fields, limit, best);
      ShortenKeepsKeys(b, fields, best);
    }
  }
}
