/** The bounded progress log of a diagnosis snapshot.

    Every save carries a few events — only the new one, or an older tail with the new one behind —
    and merges them by cursor into the events already stored, keeping the last twenty.  The
    question is when the stored window is the end of the full log of everything ever saved. */
module ProgressLog {

  import opened Basics

  const MAX_PROGRESS_EVENTS: nat := 20

  datatype Event = Event(cursor: string, payload: string)

  /** The events of a state to which one progress event is added. */
  function WithProgress(previous: seq<Event>, e: Event): seq<Event> {
    Last(previous + [e], MAX_PROGRESS_EVENTS)
  }

  // ----------------------------------------------------------------- merging by cursor

  /** An insertion-ordered dictionary from cursor to event, as the sequence of its events. */
  function Find(d: seq<Event>, cursor: string): nat {
    if d == [] || d[0].cursor == cursor then 0 else 1 + Find(d[1..], cursor)
  }

  lemma {:induction false} FindFirst(d: seq<Event>, cursor: string)
    ensures Find(d, cursor) <= |d|
    ensures forall k :: 0 <= k < Find(d, cursor) ==> d[k].cursor != cursor
    ensures Find(d, cursor) < |d| ==> d[Find(d, cursor)].cursor == cursor
  {
    if d != [] && d[0].cursor != cursor {
      FindFirst(d[1..], cursor);
      assert forall k :: 1 <= k < |d| ==> d[k] == d[1..][k - 1];
    }
  }

  /** Assigning to a key keeps the position of a key that is already there. */
  function Assign(d: seq<Event>, e: Event): seq<Event> {
    var i := Find(d, e.cursor);
    if i < |d| then d[i := e] else d + [e]
  }

  function ByCursor(items: seq<Event>): seq<Event> {
    if items == [] then []
    else
      var e := items[|items| - 1];
      var d := ByCursor(items[..|items| - 1]);
      if e.cursor == "" then d else Assign(d, e)
  }

  function Cursorless(items: seq<Event>): seq<Event> {
    if items == [] then []
    else
      var e := items[|items| - 1];
      Cursorless(items[..|items| - 1]) + if e.cursor == "" then [e] else []
  }

  function Merged(existing: seq<Event>, incoming: seq<Event>): seq<Event> {
    if incoming == [] then existing
    else
      Last(Cursorless(existing + incoming) + ByCursor(existing + incoming), MAX_PROGRESS_EVENTS)
  }

  lemma MergeStep(items: seq<Event>, i: nat)
    requires i < |items|
    ensures items[i].cursor == "" ==>
              ByCursor(items[..i + 1]) == ByCursor(items[..i])
              && Cursorless(items[..i + 1]) == Cursorless(items[..i]) + [items[i]]
    ensures items[i].cursor != "" ==>
              ByCursor(items[..i + 1]) == Assign(ByCursor(items[..i]), items[i])
              && Cursorless(items[..i + 1]) == Cursorless(items[..i])
  {
    assert items[..i + 1][..i] == items[..i];
  }

  method MergeExistingProgress(existing: seq<Event>, incoming: seq<Event>) returns (events: seq<Event>)
    ensures events == Merged(existing, incoming)
  {
    if incoming == [] {
      return existing;
    }
    var items := existing + incoming;
    var mergedByCursor: seq<Event>, cursorless: seq<Event> := [], [];
    var i := 0;
    while i < |items|
      invariant 0 <= i <= |items|
      invariant mergedByCursor == ByCursor(items[..i]) && cursorless == Cursorless(items[..i])
    {
      MergeStep(items, i);
      if items[i].cursor != "" {
        mergedByCursor := Assign(mergedByCursor, items[i]);
      } else {
        cursorless := cursorless + [items[i]];
      }
      i := i + 1;
    }
    assert items[..|items|] == items;
    events := Last(cursorless + mergedByCursor, MAX_PROGRESS_EVENTS);
  }

  // ------------------------------------------------------------------- what merging does

  predicate Fresh(log: seq<Event>, e: Event) {
    e.cursor != "" && forall i :: 0 <= i < |log| ==> log[i].cursor != e.cursor
  }

  /** Every event has a cursor, and no two share one. */
  predicate Distinct(log: seq<Event>) {
    log == [] || (Distinct(log[..|log| - 1]) && Fresh(log[..|log| - 1], log[|log| - 1]))
  }

  lemma {:induction false} DistinctPairs(log: seq<Event>)
    requires Distinct(log)
    ensures forall i, j :: 0 <= i < j < |log| ==> log[i].cursor != log[j].cursor
  {
    if log != [] {
      var n := |log| - 1;
      DistinctPairs(log[..n]);
      assert forall i :: 0 <= i < n ==> log[..n][i] == log[i];
    }
  }

  lemma DistinctAppend(log: seq<Event>, e: Event)
    ensures Distinct(log + [e]) <==> Distinct(log) && Fresh(log, e)
  {
    assert (log + [e])[..|log|] == log;
  }

  lemma {:induction false} DistinctSlice(log: seq<Event>, a: nat, b: nat)
    requires Distinct(log) && a <= b <= |log|
    ensures Distinct(log[a..b])
  {
    if a < b {
      var n := |log| - 1;
      var init, last := log[..n], log[n];
      if b == |log| {
        DistinctSlice(init, a, n);
        assert log[a..b] == init[a..n] + [last];
        assert Fresh(init[a..n], last);
        DistinctAppend(init[a..n], last);
      } else {
        DistinctSlice(init, a, b);
        assert init[a..b] == log[a..b];
      }
    }
  }

  predicate Has(d: seq<Event>, cursor: string) { exists i :: 0 <= i < |d| && d[i].cursor == cursor }

  /** The events of `items` that the dictionary does not know yet. */
  function Missing(d: seq<Event>, items: seq<Event>): seq<Event> {
    if items == [] then []
    else
      var e := items[|items| - 1];
      Missing(d, items[..|items| - 1]) + if Has(d, e.cursor) then [] else [e]
  }

  /** What `items` says about known cursors is what the dictionary already says. */
  predicate Agrees(d: seq<Event>, items: seq<Event>) {
    forall i :: 0 <= i < |items| && Has(d, items[i].cursor) ==> items[i] in d
  }

  predicate AllIn(items: seq<Event>, d: seq<Event>) { forall i :: 0 <= i < |items| ==> items[i] in d }

  lemma {:induction false} MissingFrom(d: seq<Event>, items: seq<Event>)
    ensures forall i :: 0 <= i < |Missing(d, items)| ==>
                          Missing(d, items)[i] in items && !Has(d, Missing(d, items)[i].cursor)
    ensures Missing(d, items) == [] <==> forall i :: 0 <= i < |items| ==> Has(d, items[i].cursor)
  {
    if items != [] {
      MissingFrom(d, items[..|items| - 1]);
    }
  }

  lemma {:induction false} CursorlessAppend(a: seq<Event>, b: seq<Event>)
    ensures Cursorless(a + b) == Cursorless(a) + Cursorless(b)
  {
    if b == [] {
      assert a + b == a;
    } else {
      assert (a + b)[..|a + b| - 1] == a + b[..|b| - 1];
      CursorlessAppend(a, b[..|b| - 1]);
    }
  }

  lemma AssignKnown(d: seq<Event>, more: seq<Event>, e: Event)
    requires Distinct(d) && e in d
    ensures Assign(d + more, e) == d + more
  {
    DistinctPairs(d);
    var k :| 0 <= k < |d| && d[k] == e;
    FindFirst(d + more, e.cursor);
    var i := Find(d + more, e.cursor);
    assert (d + more)[k] == e && (i < |d| ==> (d + more)[i] == d[i]);
  }

  lemma AssignNew(d: seq<Event>, e: Event)
    requires !Has(d, e.cursor)
    ensures Assign(d, e) == d + [e]
  {
    FindFirst(d, e.cursor);
  }

  lemma AssignUnknown(d: seq<Event>, missing: seq<Event>, items: seq<Event>, e: Event)
    requires !Has(d, e.cursor) && Fresh(items, e)
    requires forall i :: 0 <= i < |missing| ==> missing[i] in items
    ensures Assign(d + missing, e) == d + (missing + [e])
  {
    forall i | 0 <= i < |d + missing| ensures (d + missing)[i].cursor != e.cursor {
      if i >= |d| {
        assert (d + missing)[i] == missing[i - |d|];
      }
    }
    AssignNew(d + missing, e);
    assert (d + missing) + [e] == d + (missing + [e]);
  }

  lemma {:induction false} DistinctIsItsDictionary(d: seq<Event>)
    requires Distinct(d)
    ensures ByCursor(d) == d && Cursorless(d) == []
  {
    if d != [] {
      var n := |d| - 1;
      DistinctIsItsDictionary(d[..n]);
      AssignNew(d[..n], d[n]);
      assert d == d[..n] + [d[n]];
    }
  }

  /** Merging a list into a log keeps the log in place and appends the unknown events in order. */
  lemma {:induction false} MergeAppendsMissing(d: seq<Event>, items: seq<Event>)
    requires Distinct(d) && Distinct(items) && Agrees(d, items)
    ensures ByCursor(d + items) == d + Missing(d, items)
  {
    if items == [] {
      assert d + items == d;
      DistinctIsItsDictionary(d);
    } else {
      var n := |items| - 1;
      var e, init := items[n], items[..n];
      DistinctAppend(init, e);
      assert init + [e] == items;
      MergeAppendsMissing(d, init);
      MissingFrom(d, init);
      assert (d + items)[..|d + items| - 1] == d + init && (d + items)[|d + items| - 1] == e;
      if Has(d, e.cursor) {
        AssignKnown(d, Missing(d, init), e);
      } else {
        AssignUnknown(d, Missing(d, init), init, e);
      }
    }
  }

  // ------------------------------------------------------------------ the stored window

  function Window(log: seq<Event>): seq<Event> { Last(log, MAX_PROGRESS_EVENTS) }

  /** Everything the save carries besides its new event is still in the stored window. */
  predicate CarriesKnown(stored: seq<Event>, previous: seq<Event>, e: Event) {
    var incoming := WithProgress(previous, e);
    forall i :: 0 <= i < |incoming| - 1 ==> incoming[i] in stored
  }

  lemma WindowDistinct(log: seq<Event>)
    requires Distinct(log)
    ensures Distinct(Window(log)) && (forall e :: e in Window(log) ==> e in log)
  {
    if |log| > MAX_PROGRESS_EVENTS {
      DistinctSlice(log, |log| - MAX_PROGRESS_EVENTS, |log|);
      assert Window(log) == log[|log| - MAX_PROGRESS_EVENTS..|log|];
    }
  }

  lemma CarriedShape(previous: seq<Event>, e: Event)
    requires Distinct(previous) && Fresh(previous, e)
    ensures WithProgress(previous, e) == Last(previous, MAX_PROGRESS_EVENTS - 1) + [e]
    ensures Distinct(Last(previous, MAX_PROGRESS_EVENTS - 1))
    ensures Distinct(Last(previous, MAX_PROGRESS_EVENTS - 1) + [e])
  {
    var carried := Last(previous, MAX_PROGRESS_EVENTS - 1);
    if |previous| > MAX_PROGRESS_EVENTS - 1 {
      var a := |previous| - (MAX_PROGRESS_EVENTS - 1);
      DistinctSlice(previous, a, |previous|);
      assert carried == previous[a..|previous|];
    }
    DistinctAppend(carried, e);
  }

  lemma MergeKnown(d: seq<Event>, items: seq<Event>)
    requires Distinct(d) && Distinct(items) && AllIn(items, d)
    ensures Missing(d, items) == [] && Agrees(d, items)
    ensures ByCursor(d + items) == d && Cursorless(d + items) == []
  {
    MissingFrom(d, items);
    MergeAppendsMissing(d, items);
    CursorlessAppend(d, items);
    DistinctIsItsDictionary(d);
    DistinctIsItsDictionary(items);
  }

  lemma MissingSnoc(stored: seq<Event>, carried: seq<Event>, e: Event)
    requires Agrees(stored, carried) && Fresh(stored, e)
    ensures Missing(stored, carried + [e]) == Missing(stored, carried) + [e]
    ensures Agrees(stored, carried + [e])
  {
    var items := carried + [e];
    assert items[..|items| - 1] == carried && items[|items| - 1] == e;
    assert forall i :: 0 <= i < |carried| ==> items[i] == carried[i];
  }

  lemma MergeDistinct(stored: seq<Event>, items: seq<Event>, missing: seq<Event>)
    requires Distinct(stored) && Distinct(items) && Agrees(stored, items) && missing == Missing(stored, items)
    ensures Cursorless(stored + items) + ByCursor(stored + items) == stored + missing
  {
    MergeAppendsMissing(stored, items);
    CursorlessAppend(stored, items);
    DistinctIsItsDictionary(stored);
    DistinctIsItsDictionary(items);
    assert [] + ByCursor(stored + items) == stored + missing;
  }

  lemma MergeShape(stored: seq<Event>, carried: seq<Event>, e: Event, missing: seq<Event>)
    requires Distinct(stored) && Distinct(carried + [e]) && Agrees(stored, carried) && Fresh(stored, e)
    requires missing == Missing(stored, carried)
    ensures Merged(stored, carried + [e]) == Last(stored + missing + [e], MAX_PROGRESS_EVENTS)
  {
    MissingSnoc(stored, carried, e);
    MergeDistinct(stored, carried + [e], missing + [e]);
    assert stored + (missing + [e]) == stored + missing + [e];
  }

  lemma MergeCarried(stored: seq<Event>, carried: seq<Event>, e: Event)
    requires Distinct(stored) && Distinct(carried) && Distinct(carried + [e]) && Fresh(stored, e)
    requires AllIn(carried, stored)
    ensures Merged(stored, carried + [e]) == Last(stored + [e], MAX_PROGRESS_EVENTS)
  {
    MergeKnown(stored, carried);
    MergeShape(stored, carried, e, []);
    assert stored + [] == stored;
  }

  lemma CarriedKnown(stored: seq<Event>, previous: seq<Event>, e: Event)
    requires CarriesKnown(stored, previous, e)
    requires WithProgress(previous, e) == Last(previous, MAX_PROGRESS_EVENTS - 1) + [e]
    ensures AllIn(Last(previous, MAX_PROGRESS_EVENTS - 1), stored)
  {
    var carried := Last(previous, MAX_PROGRESS_EVENTS - 1);
    forall i | 0 <= i < |carried| ensures carried[i] in stored {
      assert WithProgress(previous, e)[i] == carried[i];
    }
  }

  /** One save keeps the stored events equal to the end of the log. */
  lemma SaveExtendsWindow(log: seq<Event>, previous: seq<Event>, e: Event)
    requires Distinct(log) && Fresh(log, e) && Distinct(previous) && Fresh(previous, e)
    requires CarriesKnown(Window(log), previous, e)
    ensures Merged(Window(log), WithProgress(previous, e)) == Window(log + [e])
    ensures Distinct(log + [e])
  {
    WindowDistinct(log);
    CarriedShape(previous, e);
    DistinctAppend(log, e);
    var carried := Last(previous, MAX_PROGRESS_EVENTS - 1);
    CarriedKnown(Window(log), previous, e);
    MergeCarried(Window(log), carried, e);
    LastStep(log, e, MAX_PROGRESS_EVENTS);
  }

  datatype Save = Save(previous: seq<Event>, event: Event)

  function Stored(initial: seq<Event>, saves: seq<Save>): seq<Event> {
    if saves == [] then initial
    else
      var s := saves[|saves| - 1];
      Merged(Stored(initial, saves[..|saves| - 1]), WithProgress(s.previous, s.event))
  }

  function Saved(saves: seq<Save>): seq<Event> {
    if saves == [] then [] else Saved(saves[..|saves| - 1]) + [saves[|saves| - 1].event]
  }

  predicate GoodSave(initial: seq<Event>, saves: seq<Save>, k: nat)
    requires k < |saves|
  {
    var s := saves[k];
    && Distinct(s.previous) && Fresh(s.previous, s.event) && Fresh(initial + Saved(saves[..k]), s.event)
    && CarriesKnown(Stored(Window(initial), saves[..k]), s.previous, s.event)
  }

  lemma GoodPrefix(initial: seq<Event>, saves: seq<Save>, n: nat)
    requires n < |saves| && forall k :: 0 <= k < |saves| ==> GoodSave(initial, saves, k)
    ensures forall k :: 0 <= k < n ==> GoodSave(initial, saves[..n], k)
  {
    forall k: nat | k < n ensures GoodSave(initial, saves[..n], k) {
      assert saves[..n][..k] == saves[..k] && GoodSave(initial, saves, k);
    }
  }

  /** Over any sequence of saves with fresh cursors, each carrying nothing but events that are still
      stored, the stored events are the last twenty of the full log, in order, with distinct
      cursors. */
  lemma {:induction false} StoredIsEndOfLog(initial: seq<Event>, saves: seq<Save>)
    requires Distinct(initial) && forall k :: 0 <= k < |saves| ==> GoodSave(initial, saves, k)
    ensures Stored(Window(initial), saves) == Window(initial + Saved(saves))
    ensures Distinct(initial + Saved(saves))
  {
    if saves == [] {
      assert initial + [] == initial;
    } else {
      var n := |saves| - 1;
      GoodPrefix(initial, saves, n);
      StoredIsEndOfLog(initial, saves[..n]);
      assert GoodSave(initial, saves, n);
      StoredStep(initial, Saved(saves[..n]), Stored(Window(initial), saves[..n]), saves[n]);
    }
  }

  lemma StoredStep(initial: seq<Event>, saved: seq<Event>, stored: seq<Event>, s: Save)
    requires Distinct(initial + saved) && stored == Window(initial + saved)
    requires Distinct(s.previous) && Fresh(s.previous, s.event) && Fresh(initial + saved, s.event)
    requires CarriesKnown(stored, s.previous, s.event)
    ensures Merged(stored, WithProgress(s.previous, s.event)) == Window(initial + (saved + [s.event]))
    ensures Distinct(initial + (saved + [s.event]))
  {
    SaveExtendsWindow(initial + saved, s.previous, s.event);
    assert initial + saved + [s.event] == initial + (saved + [s.event]);
  }

  /** The run path, where a save carries only its new event, always qualifies. */
  lemma NewEventAloneIsGood(stored: seq<Event>, e: Event)
    ensures CarriesKnown(stored, [], e)
  {
  }

  // -------------------------------------------------------------------- lagging tails

  /** A save whose tail was read `|later|` saves ago extends the stored window correctly exactly
      when it lags by at most one save, or the window has not overflowed yet, or the tail is empty. */
  lemma LaggingTailIff(log: seq<Event>, later: seq<Event>, e: Event)
    requires Distinct(log + later) && Fresh(log + later, e)
    ensures Merged(Window(log + later), WithProgress(Window(log), e)) == Window(log + later + [e])
       <==> |later| <= 1 || |log| + |later| <= MAX_PROGRESS_EVENTS || log == []
  {
    var full := log + later;
    LaggingTailShape(log, later, e);
    var a: nat := if |log| < MAX_PROGRESS_EVENTS then 0 else |log| - (MAX_PROGRESS_EVENTS - 1);
    var w: nat := if |full| <= MAX_PROGRESS_EVENTS then 0 else |full| - MAX_PROGRESS_EVENTS;
    TailOf(log, e, a);
    var b := |log|;
    assert full[a..b] == log[a..];
    if a >= w || log == [] {
      LaggingTailFits(full, Window(log), e, a, b, w);
    } else {
      LaggingTailMisplaces(full, e, a, b, w);
    }
  }

  lemma TailOf(log: seq<Event>, e: Event, a: nat)
    requires a == if |log| < MAX_PROGRESS_EVENTS then 0 else |log| - (MAX_PROGRESS_EVENTS - 1)
    ensures WithProgress(Window(log), e) == log[a..] + [e]
  {
  }

  lemma LaggingTailShape(log: seq<Event>, later: seq<Event>, e: Event)
    requires Distinct(log + later) && Fresh(log + later, e)
    ensures Distinct(Window(log)) && Fresh(Window(log), e)
  {
    DistinctPrefix(log, later, e);
    WindowDistinct(log);
  }

  lemma DistinctPrefix(log: seq<Event>, later: seq<Event>, e: Event)
    requires Distinct(log + later) && Fresh(log + later, e)
    ensures Distinct(log) && Fresh(log, e)
  {
    DistinctSlice(log + later, 0, |log|);
    assert (log + later)[0..|log|] == log;
    assert forall i :: 0 <= i < |log| ==> log[i] == (log + later)[i];
  }

  /** One half: while nothing the tail holds has left the window, the tail adds nothing. */
  lemma LaggingTailFits(full: seq<Event>, previous: seq<Event>, e: Event, a: nat, b: nat, w: nat)
    requires Distinct(full) && Fresh(full, e) && Distinct(previous) && Fresh(previous, e)
    requires a <= b <= |full| && (w <= a || a == b)
    requires w == if |full| <= MAX_PROGRESS_EVENTS then 0 else |full| - MAX_PROGRESS_EVENTS
    requires WithProgress(previous, e) == full[a..b] + [e]
    ensures Merged(Window(full), full[a..b] + [e]) == Window(full + [e])
  {
    TailStillStored(full, a, b, w);
    assert CarriesKnown(Window(full), previous, e) by {
      assert forall i :: 0 <= i < b - a ==> WithProgress(previous, e)[i] == full[a..b][i];
    }
    SaveExtendsWindow(full, previous, e);
  }

  lemma TailStillStored(full: seq<Event>, a: nat, b: nat, w: nat)
    requires a <= b <= |full| && (w <= a || a == b)
    requires w == if |full| <= MAX_PROGRESS_EVENTS then 0 else |full| - MAX_PROGRESS_EVENTS
    ensures forall i :: 0 <= i < b - a ==> full[a..b][i] in Window(full)
  {
    forall i | 0 <= i < b - a ensures full[a..b][i] in Window(full) {
      assert full[a..b][i] == full[a + i] == Window(full)[a + i - w];
    }
  }

  lemma EvictedUnknown(full: seq<Event>, w: nat, a: nat)
    requires Distinct(full) && a < w <= |full|
    ensures !Has(full[w..], full[a].cursor)
  {
    DistinctPairs(full);
    assert forall j :: 0 <= j < |full[w..]| ==> full[w..][j] == full[w + j];
  }

  lemma SlicesAgree(full: seq<Event>, w: nat, a: nat, b: nat)
    requires Distinct(full) && a <= b <= |full| && w <= |full|
    ensures Agrees(full[w..], full[a..b])
  {
    DistinctPairs(full);
    var stored, part := full[w..], full[a..b];
    forall i | 0 <= i < |part| && Has(stored, part[i].cursor) ensures part[i] in stored {
      var j :| 0 <= j < |stored| && stored[j].cursor == part[i].cursor;
      assert stored[j] == full[w + j] && part[i] == full[a + i];
    }
  }

  lemma SomethingMissing(stored: seq<Event>, carried: seq<Event>)
    requires carried != [] && !Has(stored, carried[0].cursor)
    ensures var missing := Missing(stored, carried);
            missing != [] && !Has(stored, missing[|missing| - 1].cursor)
  {
    MissingFrom(stored, carried);
  }

  lemma SlicesOfLog(full: seq<Event>, e: Event, w: nat, a: nat, b: nat)
    requires Distinct(full) && Fresh(full, e) && a < b <= |full| && a < w <= |full|
    ensures Distinct(full[w..]) && Fresh(full[w..], e) && Distinct(full[a..b] + [e])
    ensures Agrees(full[w..], full[a..b]) && !Has(full[w..], full[a..b][0].cursor)
  {
    assert full[w..|full|] == full[w..];
    DistinctSlice(full, a, b);
    DistinctSlice(full, w, |full|);
    DistinctAppend(full[a..b], e);
    SlicesAgree(full, w, a, b);
    EvictedUnknown(full, w, a);
  }

  lemma MisplacedMerge(stored: seq<Event>, carried: seq<Event>, e: Event)
    requires Distinct(stored) && Distinct(carried + [e]) && Agrees(stored, carried) && Fresh(stored, e)
    requires |stored| == MAX_PROGRESS_EVENTS && carried != [] && !Has(stored, carried[0].cursor)
    ensures Merged(stored, carried + [e]) != stored[1..] + [e]
  {
    var missing := Missing(stored, carried);
    SomethingMissing(stored, carried);
    MergeShape(stored, carried, e, missing);
    Misplaced(stored, e, missing);
  }

  /** The other half: an event that has left the window comes back behind younger ones. */
  lemma LaggingTailMisplaces(full: seq<Event>, e: Event, a: nat, b: nat, w: nat)
    requires Distinct(full) && Fresh(full, e)
    requires a < b <= |full| && a < w == |full| - MAX_PROGRESS_EVENTS
    ensures Merged(Window(full), full[a..b] + [e]) != Window(full + [e])
  {
    SlicesOfLog(full, e, w, a, b);
    MisplacedMerge(full[w..], full[a..b], e);
    NextWindow(full, e, w);
  }

  lemma NextWindow(full: seq<Event>, e: Event, w: nat)
    requires w == |full| - MAX_PROGRESS_EVENTS
    ensures Window(full + [e]) == full[w..][1..] + [e] && Window(full) == full[w..]
  {
  }

  lemma Misplaced(stored: seq<Event>, e: Event, missing: seq<Event>)
    requires |stored| == MAX_PROGRESS_EVENTS && missing != [] && !Has(stored, missing[|missing| - 1].cursor)
    ensures Last(stored + missing + [e], MAX_PROGRESS_EVENTS) != stored[1..] + [e]
  {
    var r := Last(stored + missing + [e], MAX_PROGRESS_EVENTS);
    assert r[MAX_PROGRESS_EVENTS - 2] == missing[|missing| - 1];
    assert (stored[1..] + [e])[MAX_PROGRESS_EVENTS - 2] == stored[MAX_PROGRESS_EVENTS - 1];
  }

  /** The resume path: the claim and the report both carry the tail read before the claim, and the
      final save carries what the report save carried.  All three land in order. */
  lemma ResumeSavesInOrder(log: seq<Event>, claimed: Event, reported: Event, completed: Event)
    requires Distinct(log + [claimed] + [reported] + [completed])
    ensures
      var tail := Window(log);
      var s1 := Merged(tail, WithProgress(tail, claimed));
      var s2 := Merged(s1, WithProgress(tail, reported));
      var s3 := Merged(s2, WithProgress(WithProgress(tail, reported), completed));
      && s1 == Window(log + [claimed])
      && s2 == Window(log + [claimed] + [reported])
      && s3 == Window(log + [claimed] + [reported] + [completed])
  {
    var log1 := log + [claimed];
    var log2 := log1 + [reported];
    DistinctAppend(log2, completed);
    DistinctAppend(log1, reported);
    DistinctAppend(log, claimed);
    assert log + [] == log;
    LaggingTailIff(log, [], claimed);
    LaggingTailIff(log, [claimed], reported);
    CompletedSave(log, claimed, reported, completed);
  }

  lemma CompletedSave(log: seq<Event>, claimed: Event, reported: Event, completed: Event)
    requires Distinct(log + [claimed] + [reported]) && Fresh(log + [claimed] + [reported], completed)
    ensures Merged(Window(log + [claimed] + [reported]), WithProgress(WithProgress(Window(log), reported), completed))
         == Window(log + [claimed] + [reported] + [completed])
  {
    var log2 := log + [claimed] + [reported];
    DistinctAppend(log + [claimed], reported);
    DistinctAppend(log, claimed);
    WindowDistinct(log);
    FreshInside(log + [claimed], Window(log), reported);
    CarriedShape(Window(log), reported);
    var previous := WithProgress(Window(log), reported);
    FreshInside(log2, previous, completed);
    ReportCarries(log, claimed, reported, completed);
    SaveExtendsWindow(log2, previous, completed);
  }

  lemma FreshInside(log: seq<Event>, part: seq<Event>, e: Event)
    requires Fresh(log, e) && forall x :: x in part ==> x in log
    ensures Fresh(part, e)
  {
    assert forall i :: 0 <= i < |part| ==> part[i] in log;
  }

  /** What the final save carries is still stored after the report. */
  lemma ReportCarries(log: seq<Event>, claimed: Event, reported: Event, completed: Event)
    ensures CarriesKnown(Window(log + [claimed] + [reported]), WithProgress(Window(log), reported), completed)
  {
    var n := MAX_PROGRESS_EVENTS;
    LastSnoc(Window(log), reported, n);
    LastOfLast(log, n, n - 1);
    LastSnoc(Last(log, n - 1) + [reported], completed, n);
    LastSnoc(Last(log, n - 1), reported, n - 1);
    LastOfLast(log, n - 1, n - 2);
    var carried := Last(log, n - 2) + [reported];
    assert WithProgress(WithProgress(Window(log), reported), completed) == carried + [completed];
    LastSnoc(log + [claimed], reported, n);
    LastSnoc(log, claimed, n - 1);
    assert Window(log + [claimed] + [reported]) == Last(log, n - 2) + [claimed] + [reported];
    assert forall i :: 0 <= i < |carried| ==> (carried + [completed])[i] == carried[i];
  }

  // ------------------------------------------------------------------ repeated cursors

  lemma ReassignInPlace(d: seq<Event>, e: Event, at: nat)
    requires Distinct(d) && at < |d| && d[at].cursor == e.cursor
    ensures Assign(d, e) == d[at := e]
  {
    DistinctPairs(d);
    FindFirst(d, e.cursor);
    assert Find(d, e.cursor) <= at;
  }

  lemma {:induction false} CursorsOfDistinct(d: seq<Event>, at: nat)
    requires Distinct(d) && at < |d|
    ensures d[at].cursor != ""
  {
    if at < |d| - 1 {
      CursorsOfDistinct(d[..|d| - 1], at);
    }
  }

  lemma MergeRepeated(d: seq<Event>, carried: seq<Event>, e: Event, at: nat)
    requires Distinct(d) && Distinct(carried) && AllIn(carried, d)
    requires at < |d| && d[at].cursor == e.cursor
    ensures Merged(d, carried + [e]) == Last(d[at := e], MAX_PROGRESS_EVENTS)
  {
    MergeKnown(d, carried);
    CursorsOfDistinct(d, at);
    ReassignInPlace(d, e, at);
    var items := d + carried;
    assert d + (carried + [e]) == items + [e];
    assert (items + [e])[..|items|] == items;
    assert Cursorless(items + [e]) == [] && ByCursor(items + [e]) == d[at := e];
    assert [] + d[at := e] == d[at := e];
  }

  /** A cursor that is used again, such as the one of a failed resume, updates its event where it
      stands as long as it is still stored. */
  lemma RepeatedCursorInPlace(log: seq<Event>, e: Event, at: nat)
    requires Distinct(log) && at < |Window(log)| && Window(log)[at].cursor == e.cursor
    ensures Merged(Window(log), WithProgress(Window(log), e)) == Window(log)[at := e]
  {
    var d := Window(log);
    WindowDistinct(log);
    var a: nat := if |d| <= MAX_PROGRESS_EVENTS - 1 then 0 else |d| - (MAX_PROGRESS_EVENTS - 1);
    var carried := d[a..|d|];
    assert WithProgress(d, e) == carried + [e];
    DistinctSlice(d, a, |d|);
    MergeRepeated(d, carried, e, at);
  }
}
