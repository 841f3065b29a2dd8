/** The process-local circuit breaker that guards one dependency.

    `Apply` is the transition of one locked method, `Run` the breaker after a whole
    history of calls.  The class updates its fields in place and is tied to `Apply`;
    the lemmas compare `Run` with what can be read off the history alone. */
module CircuitBreakers {

  datatype Circuit = Closed | Open | HalfOpen

  datatype Config = Config(threshold: int, recovery: real)

  datatype Breaker = Breaker(failures: nat, state: Circuit, openedAt: real, probe: bool)

  /** The public operations; every one of them takes the lock for its whole body. */
  datatype Op = ReadState | Acquire | Allow | Success | Failure | Release | NonRetryable

  /** One call, with the monotonic clock it read and the caller that made it. */
  datatype Event = Event(op: Op, at: real, caller: nat)

  const FRESH := Breaker(0, Closed, 0.0, false)

  function Advance(c: Config, b: Breaker, now: real): Breaker {
    if b.state.Open? && now - b.openedAt >= c.recovery then b.(state := HalfOpen) else b
  }

  predicate Granted(c: Config, b: Breaker, now: real) {
    var a := Advance(c, b, now);
    a.state.Closed? || (a.state.HalfOpen? && !a.probe)
  }

  function Apply(c: Config, b: Breaker, op: Op, now: real): Breaker {
    match op
    case ReadState => Advance(c, b, now)
    case Allow => Advance(c, b, now)
    case Acquire =>
      var a := Advance(c, b, now);
      if a.state.HalfOpen? && !a.probe then a.(probe := true) else a
    case Success => b.(failures := 0, state := Closed, probe := false)
    case Failure =>
      if b.state.HalfOpen? || b.failures + 1 >= c.threshold
      then Breaker(b.failures + 1, Open, now, false)
      else b.(failures := b.failures + 1, probe := false)
    case Release => b.(probe := false)
    case NonRetryable =>
      if b.state.HalfOpen? then Breaker(b.failures + 1, Open, now, false) else b.(probe := false)
  }

  function Run(c: Config, h: seq<Event>): Breaker {
    if h == [] then FRESH
    else var e := h[|h| - 1]; Apply(c, Run(c, h[..|h| - 1]), e.op, e.at)
  }

  /** Every report frees the probe, in whatever state, and is the only thing that does; and nothing but
      time and reports moves the circuit. */
  lemma ReportsFreeTheProbe(c: Config, b: Breaker, op: Op, now: real)
    ensures op in {Success, Failure, Release, NonRetryable} ==> !Apply(c, b, op, now).probe
    ensures op in {ReadState, Allow, Acquire} && b.probe ==> Apply(c, b, op, now).probe
    ensures op in {ReadState, Allow, Acquire} ==>
              Apply(c, b, op, now).failures == b.failures && Apply(c, b, op, now).openedAt == b.openedAt
    ensures op == Release ==> Apply(c, b, op, now) == b.(probe := false)
  {
  }

  class CircuitBreaker {
    const config: Config
    var failures: nat
    var state: Circuit
    var openedAt: real
    var probe: bool

    function Value(): Breaker
      reads this
    {
      Breaker(failures, state, openedAt, probe)
    }

    constructor (threshold: int, recovery: real)
      ensures Value() == FRESH && config == Config(threshold, recovery)
    {
      config := Config(threshold, recovery);
      failures, state, openedAt, probe := 0, Closed, 0.0, false;
    }

    method AdvanceRecoveryState(now: real)
      modifies this
      ensures Value() == Advance(config, old(Value()), now)
    {
      if state == Open && now - openedAt >= config.recovery {
        state := HalfOpen;
      }
    }

    method State(now: real) returns (s: Circuit)
      modifies this
      ensures Value() == Apply(config, old(Value()), ReadState, now) && s == state
    {
      AdvanceRecoveryState(now);
      s := state;
    }

    method TryAcquireRequest(now: real) returns (ok: bool)
      modifies this
      ensures Value() == Apply(config, old(Value()), Acquire, now)
      ensures ok == Granted(config, old(Value()), now)
    {
      AdvanceRecoveryState(now);
      if state == Open {
        return false;
      }
      if state == HalfOpen {
        if probe {
          return false;
        }
        probe := true;
      }
      return true;
    }

    method AllowRequest(now: real) returns (ok: bool)
      modifies this
      ensures Value() == Apply(config, old(Value()), Allow, now)
      ensures ok == Granted(config, old(Value()), now)
    {
      AdvanceRecoveryState(now);
      ok := state == Closed || (state == HalfOpen && !probe);
    }

    method RecordSuccess(now: real)
      modifies this
      ensures Value() == Apply(config, old(Value()), Success, now)
    {
      failures := 0;
      probe := false;
      if state != Closed {
        state := Closed;
      }
    }

    method RecordFailure(now: real)
      modifies this
      ensures Value() == Apply(config, old(Value()), Failure, now)
    {
      failures := failures + 1;
      probe := false;
      if state == HalfOpen || failures >= config.threshold {
        openedAt := now;
        if state != Open {
          state := Open;
        }
      }
    }

    method ReleaseRequest(now: real)
      modifies this
      ensures Value() == Apply(config, old(Value()), Release, now)
    {
      probe := false;
    }

    method RecordNonRetryableFailure(now: real)
      modifies this
      ensures Value() == Apply(config, old(Value()), NonRetryable, now)
    {
      probe := false;
      if state == HalfOpen {
        failures := failures + 1;
        openedAt := now;
        state := Open;
      }
    }
  }

  // ---------------------------------------------------------------- reading the history

  predicate Monotone(h: seq<Event>) {
    forall i, j :: 0 <= i < j < |h| ==> h[i].at <= h[j].at
  }

  /** A call that counts as a failure: every `record_failure`, and a non-retryable failure
      reported while the circuit is half-open. */
  predicate Counted(c: Config, h: seq<Event>, i: nat)
    requires i < |h|
  {
    h[i].op.Failure? || (h[i].op.NonRetryable? && Run(c, h[..i]).state.HalfOpen?)
  }

  /** The number of counted failures after the last success. */
  function FailureCount(c: Config, h: seq<Event>): nat {
    if h == [] then 0
    else
      var n := |h| - 1;
      if h[n].op.Success? then 0
      else FailureCount(c, h[..n]) + if Counted(c, h, n) then 1 else 0
  }

  predicate NoSuccessSince(h: seq<Event>, i: nat) {
    forall k :: i <= k < |h| ==> !h[k].op.Success?
  }

  /** `i` is the most recent counted failure and no success came after it. */
  predicate LatestFailure(c: Config, h: seq<Event>, i: nat) {
    && i < |h| && Counted(c, h, i) && NoSuccessSince(h, i)
    && forall k :: i < k < |h| ==> !Counted(c, h, k)
  }

  function Limit(c: Config): nat { if c.threshold < 1 then 1 else c.threshold }

  lemma CountedPrefix(c: Config, h: seq<Event>, n: nat, i: nat)
    requires i < n <= |h|
    ensures Counted(c, h[..n], i) == Counted(c, h, i)
  {
    assert h[..n][..i] == h[..i];
  }

  lemma LatestExtends(c: Config, h: seq<Event>, i: nat)
    requires |h| > 0 && LatestFailure(c, h[..|h| - 1], i)
    requires !h[|h| - 1].op.Success? && !Counted(c, h, |h| - 1)
    ensures LatestFailure(c, h, i)
  {
    var n := |h| - 1;
    forall k | i <= k < n ensures Counted(c, h[..n], k) == Counted(c, h, k) && h[..n][k] == h[k] {
      CountedPrefix(c, h, n, k);
    }
  }

  /** The circuit is closed exactly while fewer than the threshold failures were counted since
      the last success, and otherwise it remembers the time of the latest counted failure. */
  lemma {:induction false} BreakerRefinesHistory(c: Config, h: seq<Event>) returns (i: nat)
    ensures Run(c, h).failures == FailureCount(c, h)
    ensures Run(c, h).state.Closed? <==> FailureCount(c, h) < Limit(c)
    ensures !Run(c, h).state.Closed? ==> LatestFailure(c, h, i) && Run(c, h).openedAt == h[i].at
    ensures Run(c, h).probe ==> Run(c, h).state.HalfOpen?
  {
    i := 0;
    if h != [] {
      var n := |h| - 1;
      i := BreakerRefinesHistory(c, h[..n]);
      if Counted(c, h, n) {
        i := n;
      } else if !h[n].op.Success? && !Run(c, h[..n]).state.Closed? {
        LatestExtends(c, h, i);
      }
    }
  }

  /** While half-open, the recovery timeout has already passed at the last event. */
  lemma {:induction false} HalfOpenIsLate(c: Config, h: seq<Event>)
    requires Run(c, h).state.HalfOpen? && Monotone(h)
    ensures |h| > 0 && h[|h| - 1].at - Run(c, h).openedAt >= c.recovery
  {
    if h != [] {
      var n := |h| - 1;
      if Run(c, h[..n]).state.HalfOpen? {
        HalfOpenIsLate(c, h[..n]);
        assert h[n - 1].at <= h[n].at;
      }
    }
  }

  /** Who is admitted, from the history alone: everyone while closed; after the circuit opened,
      nobody before the recovery timeout has passed since the latest counted failure, and then
      one caller for every time the probe is free. */
  lemma AdmissionCharacterised(c: Config, h: seq<Event>, now: real) returns (i: nat)
    requires Monotone(h) && (|h| > 0 ==> h[|h| - 1].at <= now)
    ensures FailureCount(c, h) < Limit(c) ==> Granted(c, Run(c, h), now)
    ensures FailureCount(c, h) >= Limit(c) ==>
              && LatestFailure(c, h, i)
              && (Granted(c, Run(c, h), now) <==> now - h[i].at >= c.recovery && !Run(c, h).probe)
  {
    i := BreakerRefinesHistory(c, h);
    if Run(c, h).state.HalfOpen? {
      HalfOpenIsLate(c, h);
    }
  }

  /** No admission within the recovery timeout of any failure that still counts. */
  lemma NoEarlyAdmission(c: Config, h: seq<Event>, now: real, k: nat)
    requires Monotone(h) && (|h| > 0 ==> h[|h| - 1].at <= now)
    requires FailureCount(c, h) >= Limit(c) && Granted(c, Run(c, h), now)
    requires k < |h| && Counted(c, h, k)
    ensures now >= h[k].at + c.recovery
  {
    var i := AdmissionCharacterised(c, h, now);
    assert k <= i;
    assert k < i ==> h[k].at <= h[i].at;
  }

  // ------------------------------------------------------------------ half-open episodes

  /** `seg` stays inside one half-open episode that `pre` had opened or is about to enter. */
  predicate Episode(c: Config, pre: seq<Event>, seg: seq<Event>) {
    && !Run(c, pre).state.Closed?
    && forall k :: 1 <= k <= |seg| ==> Run(c, pre + seg[..k]).state.HalfOpen?
  }

  function Grants(c: Config, pre: seq<Event>, seg: seq<Event>): nat {
    if seg == [] then 0
    else
      var n := |seg| - 1;
      Grants(c, pre, seg[..n])
      + if seg[n].op.Acquire? && Granted(c, Run(c, pre + seg[..n]), seg[n].at) then 1 else 0
  }

  /** Releases, of those that actually freed a reserved probe when `clearing`. */
  function Releases(c: Config, pre: seq<Event>, seg: seq<Event>, clearing: bool): nat {
    if seg == [] then 0
    else
      var n := |seg| - 1;
      Releases(c, pre, seg[..n], clearing)
      + if seg[n].op.Release? && (clearing ==> Run(c, pre + seg[..n]).probe) then 1 else 0
  }

  function Bit(b: bool): nat { if b then 1 else 0 }

  lemma ProbeStep(c: Config, b: Breaker, e: Event)
    requires !b.state.Closed? && (b.probe ==> b.state.HalfOpen?)
    requires Apply(c, b, e.op, e.at).state.HalfOpen?
    ensures Bit(b.probe) + Bit(e.op.Acquire? && Granted(c, b, e.at))
         == Bit(Apply(c, b, e.op, e.at).probe) + Bit(e.op.Release? && b.probe)
  {
  }

  /** Probe accounting inside one half-open episode: an exact balance between admissions,
      releases that freed the probe, and the flag. */
  lemma {:induction false} ProbeBalance(c: Config, pre: seq<Event>, seg: seq<Event>)
    requires Episode(c, pre, seg)
    ensures Bit(Run(c, pre).probe) + Grants(c, pre, seg)
         == Bit(Run(c, pre + seg).probe) + Releases(c, pre, seg, true)
    ensures Releases(c, pre, seg, true) <= Releases(c, pre, seg, false)
    ensures Grants(c, pre, seg) <= 1 + Releases(c, pre, seg, false)
  {
    if seg == [] {
      assert pre + seg == pre;
    } else {
      var n := |seg| - 1;
      var init := seg[..n];
      forall k | 1 <= k <= n ensures Run(c, pre + init[..k]).state.HalfOpen? {
        assert init[..k] == seg[..k];
      }
      ProbeBalance(c, pre, init);
      assert pre + seg == (pre + init) + [seg[n]];
      RunExtend(c, pre + init, seg[n]);
      assert seg[..|seg|] == seg && init[..n] == init;
      var i := BreakerRefinesHistory(c, pre + init);
      assert n == 0 ==> pre + init == pre;
      ProbeStep(c, Run(c, pre + init), seg[n]);
    }
  }

  // ------------------------------------------------------------------------ probe owners

  function NextProbes(c: Config, b: Breaker, held: set<nat>, e: Event): set<nat> {
    var kept := if b.state.HalfOpen? then held else {};
    if !Apply(c, b, e.op, e.at).state.HalfOpen? then {}
    else if e.op.Acquire? && Granted(c, b, e.at) then kept + {e.caller}
    else if e.op.Release? then kept - {e.caller}
    else kept
  }

  /** The callers admitted as a probe of the current half-open episode that have not reported. */
  function Probes(c: Config, h: seq<Event>): set<nat> {
    if h == [] then {}
    else
      var n := |h| - 1;
      NextProbes(c, Run(c, h[..n]), Probes(c, h[..n]), h[n])
  }

  /** A release by a caller that does not hold the reserved probe. */
  predicate StaleRelease(c: Config, h: seq<Event>, e: Event) {
    e.op.Release? && Run(c, h).probe && e.caller !in Probes(c, h)
  }

  predicate NoStaleRelease(c: Config, h: seq<Event>) {
    forall k :: 0 <= k < |h| ==> !StaleRelease(c, h[..k], h[k])
  }

  /** The flag and the set of probes agree. */
  ghost predicate Matched(b: Breaker, held: set<nat>) {
    && (b.probe ==> b.state.HalfOpen? && exists p :: held == {p})
    && (!b.probe ==> held == {})
  }

  lemma MatchedStep(c: Config, b: Breaker, held: set<nat>, e: Event)
    requires Matched(b, held) && !(e.op.Release? && b.probe && e.caller !in held)
    ensures Matched(Apply(c, b, e.op, e.at), NextProbes(c, b, held, e))
  {
    if b.probe {
      var p :| held == {p};
      if e.op.Release? {
        assert held - {e.caller} == {};
      }
    } else if e.op.Acquire? {
      assert {} + {e.caller} == {e.caller};
    }
  }

  lemma {:induction false} ProbesMatch(c: Config, h: seq<Event>)
    requires NoStaleRelease(c, h)
    ensures Matched(Run(c, h), Probes(c, h))
  {
    if h != [] {
      var n := |h| - 1;
      forall k | 0 <= k < n ensures !StaleRelease(c, h[..n][..k], h[..n][k]) {
        assert h[..n][..k] == h[..k] && h[..n][k] == h[k];
      }
      ProbesMatch(c, h[..n]);
      assert !StaleRelease(c, h[..n], h[n]);
      MatchedStep(c, Run(c, h[..n]), Probes(c, h[..n]), h[n]);
    }
  }

  /** The flag is the whole truth about probes as long as nobody releases another's probe. */
  lemma SingleProbe(c: Config, h: seq<Event>)
    requires NoStaleRelease(c, h)
    ensures |Probes(c, h)| == Bit(Run(c, h).probe)
  {
    ProbesMatch(c, h);
  }

  lemma RunExtend(c: Config, h: seq<Event>, e: Event)
    ensures Run(c, h + [e]) == Apply(c, Run(c, h), e.op, e.at)
    ensures Probes(c, h + [e]) == NextProbes(c, Run(c, h), Probes(c, h), e)
  {
    assert (h + [e])[..|h|] == h;
  }

  lemma NextAdmission(c: Config, b: Breaker, p: nat, e: Event, next: Event)
    requires b.probe && b.state.HalfOpen? && Apply(c, b, e.op, e.at).state.HalfOpen?
    requires next.op.Acquire? && next.caller != p
    ensures
      var after := NextProbes(c, Apply(c, b, e.op, e.at), NextProbes(c, b, {p}, e), next);
      if e.op.Release? && e.caller != p then after == {p, next.caller} else |after| <= 1
  {
    var mid := NextProbes(c, b, {p}, e);
    var b1 := Apply(c, b, e.op, e.at);
    if e.op.Release? && e.caller != p {
      assert mid == {p} && !b1.probe;
    } else if e.op.Release? {
      assert mid == {};
      assert NextProbes(c, b1, {}, next) == {next.caller};
    } else {
      assert mid == {p} && b1.probe;
      assert NextProbes(c, b1, {p}, next) == {p};
    }
  }

  /** Exactly a stale release lets a second probe in beside the first: with one probe out,
      the next admission after event `e` inside the episode leaves a single probe in flight
      if and only if `e` was not a stale release. */
  lemma SecondProbeIffStaleRelease(c: Config, h: seq<Event>, e: Event, next: Event)
    requires NoStaleRelease(c, h) && Run(c, h).probe
    requires Run(c, h + [e]).state.HalfOpen?
    requires next.op.Acquire? && next.caller !in Probes(c, h)
    ensures |Probes(c, h + [e] + [next])| <= 1 <==> !StaleRelease(c, h, e)
  {
    RunExtend(c, h, e);
    RunExtend(c, h + [e], next);
    ProbesMatch(c, h);
    var p :| Probes(c, h) == {p};
    NextAdmission(c, Run(c, h), p, e, next);
    assert p != next.caller;
    assert |{p, next.caller}| == 2;
  }

  /** The trace behind it: callers 0 and 1 enter while closed, 1 fails, 2 becomes the probe after
      the timeout, 0 is cancelled and releases, and 3 is admitted beside 2. */
  lemma TwoProbesTrace() returns (c: Config, h: seq<Event>)
    ensures Monotone(h) && Run(c, h).state.HalfOpen? && Probes(c, h) == {2, 3}
    ensures forall i :: 0 <= i < |h| && h[i].op.Acquire? ==> Granted(c, Run(c, h[..i]), h[i].at)
  {
    c := Config(1, 30.0);
    h := [Event(Acquire, 0.0, 0), Event(Acquire, 0.0, 1), Event(Failure, 1.0, 1),
          Event(Acquire, 31.0, 2), Event(Release, 32.0, 0), Event(Acquire, 33.0, 3)];
    assert h[..1] == [h[0]] && h[..2] == [h[0], h[1]] && h[..3] == [h[0], h[1], h[2]];
    assert h[..4] == [h[0], h[1], h[2], h[3]] && h[..5] == [h[0], h[1], h[2], h[3], h[4]];
    assert forall k :: 0 < k <= 6 ==> h[..k][..k - 1] == h[..k - 1] && h[..k][k - 1] == h[k - 1];
    assert h[..6] == h;
    assert Run(c, h[..1]) == FRESH;
    assert Run(c, h[..2]) == FRESH;
    assert Run(c, h[..3]) == Breaker(1, Open, 1.0, false);
    assert Run(c, h[..4]) == Breaker(1, HalfOpen, 1.0, true);
    assert Run(c, h[..5]) == Breaker(1, HalfOpen, 1.0, false);
    assert Run(c, h[..6]) == Breaker(1, HalfOpen, 1.0, true);
    assert Probes(c, h[..4]) == {2};
    assert Probes(c, h[..5]) == {2};
  }
}
