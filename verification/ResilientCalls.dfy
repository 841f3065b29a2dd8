/** The attempt loops around a guarded dependency: the async and the blocking resilient wrapper,
    the bounded blocking call and the MCP retry interceptor.

    Time is ideal: a timeout fires exactly when it is due and computing takes no time.  What the
    dependency does on each attempt is an arbitrary environment.  Each loop is a method proved
    against a recursive function; the lemmas are about that function. */
module ResilientCalls {
  import opened CircuitBreakers

  type Duration = r: real | 0.0 <= r

  datatype Policy = Policy(timeout: real, maxAttempts: int, retryDelay: real)

  predicate Valid(p: Policy) {
    p.timeout > 0.0 && p.maxAttempts >= 1 && p.retryDelay >= 0.0
  }

  /** How the dependency answers.  `Fatal` is a base exception other than task cancellation. */
  datatype Outcome = Returned | Raised(retryable: bool) | RaisedTimeout(retryable: bool) | Cancelled | Fatal

  /** `cut`, when present, interrupts the sleep before the next attempt. */
  datatype Attempt = Attempt(slotWait: Duration, submitFails: bool, duration: Duration, outcome: Outcome,
                             timeoutRetryable: bool, cut: Cut)
  datatype Cut = Whole | After(elapsed: Duration)

  type Environment = nat -> Attempt

  datatype Exit =
    | InvalidPolicy
    | CircuitOpen
    | Value
    | Error(timedOut: bool, retryable: bool)
    | BudgetExhausted
    | CapacityExhausted
    | SubmitFailed
    | CancelledInCall
    | CutInBackoff
    | FatalError
    | Incomplete

  /** What one accepted call did: how and when it ended, how often it invoked the dependency, and
      what it reported back to the breaker. */
  datatype Trace = Trace(exit: Exit, ended: real, calls: nat, reports: seq<Event>)

  function Min(a: real, b: real): real { if a <= b then a else b }

  function Pow2(n: nat): (r: real)
    ensures r >= 1.0
  {
    if n == 0 then 1.0 else 2.0 * Pow2(n - 1)
  }

  /** Exponential backoff after attempt `k`, capped by what is left of the budget. */
  function Backoff(p: Policy, k: nat, remaining: real): (d: real)
    requires Valid(p) && k >= 1 && remaining >= 0.0
    ensures 0.0 <= d <= remaining && (p.retryDelay == 0.0 ==> d == 0.0)
    ensures p.retryDelay > 0.0 && remaining > 0.0 ==> d > 0.0
    ensures p.retryDelay >= remaining ==> d == remaining
  {
    var scaled := p.retryDelay * Pow2(k - 1);
    assert scaled >= p.retryDelay by { ScaleUp(p.retryDelay, Pow2(k - 1)); }
    Min(scaled, remaining)
  }

  lemma ScaleUp(x: real, y: real)
    requires x >= 0.0 && y >= 1.0
    ensures x * y >= x && (x == 0.0 ==> x * y == 0.0)
  {
    assert x * y - x == x * (y - 1.0);
  }

  /** Only a sleep can be cut short, and a delay of zero is not slept. */
  predicate CutShort(a: Attempt, delay: real) { delay > 0.0 && a.cut.After? && a.cut.elapsed <= delay }

  function AddCalls(t: Trace, n: nat): Trace { t.(calls := t.calls + n) }

  /** One round of an attempt loop: it ends the call, or asks for another attempt at an instant. */
  datatype Round = Done(trace: Trace) | Again(at: real)

  /** The breaker after the reports of a call, of which there is at most one. */
  function AfterReports(c: Config, b: Breaker, reports: seq<Event>): Breaker {
    if |reports| == 0 then b else Apply(c, b, reports[0].op, reports[0].at)
  }

  /** The breaker after more events, by whomever. */
  function Later(c: Config, b: Breaker, events: seq<Event>): Breaker {
    if events == [] then b
    else
      var e := events[|events| - 1];
      Apply(c, Later(c, b, events[..|events| - 1]), e.op, e.at)
  }

  lemma {:induction false} LaterIsRun(c: Config, h: seq<Event>, events: seq<Event>)
    ensures Later(c, Run(c, h), events) == Run(c, h + events)
  {
    if events == [] {
      assert h + events == h;
    } else {
      var init, e := events[..|events| - 1], events[|events| - 1];
      LaterIsRun(c, h, init);
      RunSnoc(c, h + init, e);
      assert h + events == h + init + [e];
    }
  }

  lemma RunSnoc(c: Config, h: seq<Event>, e: Event)
    ensures Run(c, h + [e]) == Apply(c, Run(c, h), e.op, e.at)
  {
    assert (h + [e])[..|h|] == h;
  }

  lemma {:induction false} LaterAppend(c: Config, b: Breaker, first: seq<Event>, second: seq<Event>)
    ensures Later(c, b, first + second) == Later(c, Later(c, b, first), second)
  {
    if second == [] {
      assert first + second == first;
    } else {
      assert (first + second)[..|first + second| - 1] == first + second[..|second| - 1];
      LaterAppend(c, b, first, second[..|second| - 1]);
    }
  }

  /** What other callers do to the breaker before each round of a call. */
  type Others = nat -> seq<Event>

  function Upto(others: Others, k: nat): seq<Event> { if k == 0 then [] else Upto(others, k - 1) + others(k) }

  /** The breaker's history over one call: nothing for an invalid policy; otherwise the admission
      request and, once admitted, what others did meanwhile and then the call's own report. */
  function CallHistory(t: Trace, meanwhile: seq<Event>, who: nat, start: real): seq<Event> {
    if t.exit.InvalidPolicy? then []
    else if t.exit.CircuitOpen? then [Event(Acquire, start, who)]
    else [Event(Acquire, start, who)] + meanwhile + t.reports
  }

  /** Other callers' operations, one after the other. */
  method Interfere(breaker: CircuitBreaker, events: seq<Event>)
    modifies breaker
    ensures breaker.Value() == Later(breaker.config, old(breaker.Value()), events)
  {
    var i := 0;
    while i < |events|
      invariant 0 <= i <= |events|
      invariant breaker.Value() == Later(breaker.config, old(breaker.Value()), events[..i])
    {
      assert events[..i + 1][..i] == events[..i];
      match events[i].op {
        case ReadState => var _ := breaker.State(events[i].at);
        case Acquire => var _ := breaker.TryAcquireRequest(events[i].at);
        case Allow => var _ := breaker.AllowRequest(events[i].at);
        case Success => breaker.RecordSuccess(events[i].at);
        case Failure => breaker.RecordFailure(events[i].at);
        case Release => breaker.ReleaseRequest(events[i].at);
        case NonRetryable => breaker.RecordNonRetryableFailure(events[i].at);
      }
      i := i + 1;
    }
    assert events[..|events|] == events;
  }

  lemma OneLater(c: Config, b: Breaker, events: seq<Event>)
    requires |events| <= 1
    ensures Later(c, b, events) == AfterReports(c, b, events)
  {
    if |events| == 1 {
      assert events[..0] == [];
    }
  }

  /** The breaker after what others did before the first `k` rounds. */
  function AfterOthers(c: Config, b: Breaker, others: Others, k: nat): Breaker {
    if k == 0 then b else Later(c, AfterOthers(c, b, others, k - 1), others(k))
  }

  lemma {:induction false} OthersHistory(c: Config, b: Breaker, others: Others, k: nat)
    ensures AfterOthers(c, b, others, k) == Later(c, b, Upto(others, k))
  {
    if k > 0 {
      OthersHistory(c, b, others, k - 1);
      LaterAppend(c, b, Upto(others, k - 1), others(k));
    }
  }

  /** An admitted call's admission, and then its rounds. */
  lemma AdmittedHistory(c: Config, b: Breaker, t: Trace, others: Others, k: nat, who: nat, start: real)
    requires !t.exit.InvalidPolicy? && !t.exit.CircuitOpen? && |t.reports| <= 1
    ensures AfterReports(c, AfterOthers(c, Apply(c, b, Acquire, start), others, k), t.reports)
              == Later(c, b, CallHistory(t, Upto(others, k), who, start))
  {
    var e := Event(Acquire, start, who);
    var meanwhile := Upto(others, k);
    OneLater(c, b, [e]);
    OthersHistory(c, Apply(c, b, Acquire, start), others, k);
    OneLater(c, Later(c, Apply(c, b, Acquire, start), meanwhile), t.reports);
    LaterAppend(c, b, [e], meanwhile);
    LaterAppend(c, b, [e] + meanwhile, t.reports);
  }

  // ------------------------------------------------------------------ the async wrapper

  function AsyncEffect(a: Attempt, remaining: real): (real, Outcome) {
    if a.duration <= remaining then (a.duration, a.outcome)
    else (remaining, RaisedTimeout(a.timeoutRetryable))
  }

  function AsyncRound(p: Policy, a: Attempt, who: nat, deadline: real, k: nat, now: real): Round
    requires Valid(p) && k >= 1
  {
    var remaining := deadline - now;
    if remaining <= 0.0 then Done(Trace(BudgetExhausted, now, 0, [Event(Failure, now, who)]))
    else
      var (elapsed, outcome) := AsyncEffect(a, remaining);
      var t := now + elapsed;
      match outcome
      case Returned => Done(Trace(Value, t, 1, [Event(Success, t, who)]))
      case Cancelled => Done(Trace(CancelledInCall, t, 1, [Event(Release, t, who)]))
      case Fatal => Done(Trace(FatalError, t, 1, []))
      case _ =>
        if k >= p.maxAttempts || !outcome.retryable then
          Done(Trace(Error(outcome.RaisedTimeout?, outcome.retryable), t, 1,
                     [Event(if outcome.retryable then Failure else NonRetryable, t, who)]))
        else
          var delay := Backoff(p, k, remaining);
          if CutShort(a, delay) then Done(Trace(CutInBackoff, t + a.cut.elapsed, 1, []))
          else Again(t + delay)
  }

  function AsyncRun(p: Policy, env: Environment, who: nat, deadline: real, k: nat, now: real): Trace
    requires Valid(p) && k >= 1
    decreases p.maxAttempts + 1 - k
  {
    if k > p.maxAttempts then Trace(Incomplete, now, 0, [])
    else
      match AsyncRound(p, env(k), who, deadline, k, now)
      case Done(trace) => trace
      case Again(at) => AddCalls(AsyncRun(p, env, who, deadline, k + 1, at), 1)
  }

  /** The whole async call, from policy validation and admission on. */
  function AsyncCall(c: Config, b: Breaker, p: Policy, env: Environment, who: nat, start: real): Trace {
    if !Valid(p) then Trace(InvalidPolicy, start, 0, [])
    else if !Granted(c, b, start) then Trace(CircuitOpen, start, 0, [])
    else AsyncRun(p, env, who, start + p.timeout, 1, start)
  }

  /** The body of the async attempt loop. */
  method AsyncAttempt(breaker: CircuitBreaker, p: Policy, a: Attempt, who: nat, deadline: real, k: nat, now: real)
    returns (round: Round)
    requires Valid(p) && k >= 1
    modifies breaker
    ensures round == AsyncRound(p, a, who, deadline, k, now)
    ensures breaker.Value() == if round.Again? then old(breaker.Value())
                               else AfterReports(breaker.config, old(breaker.Value()), round.trace.reports)
  {
    var remaining := deadline - now;
    if remaining <= 0.0 {
      breaker.RecordFailure(now);
      return Done(Trace(BudgetExhausted, now, 0, [Event(Failure, now, who)]));
    }
    var (elapsed, outcome) := AsyncEffect(a, remaining);
    var t := now + elapsed;
    match outcome {
      case Returned =>
        breaker.RecordSuccess(t);
        return Done(Trace(Value, t, 1, [Event(Success, t, who)]));
      case Cancelled =>
        breaker.ReleaseRequest(t);
        return Done(Trace(CancelledInCall, t, 1, [Event(Release, t, who)]));
      case Fatal =>
        return Done(Trace(FatalError, t, 1, []));
      case _ =>
        if k >= p.maxAttempts || !outcome.retryable {
          var op := NonRetryable;
          if outcome.retryable {
            breaker.RecordFailure(t);
            op := Failure;
          } else {
            breaker.RecordNonRetryableFailure(t);
          }
          return Done(Trace(Error(outcome.RaisedTimeout?, outcome.retryable), t, 1, [Event(op, t, who)]));
        }
        var delay := Backoff(p, k, remaining);
        if CutShort(a, delay) {
          return Done(Trace(CutInBackoff, t + a.cut.elapsed, 1, []));
        }
        return Again(t + delay);
    }
  }

  /** What one round contributes to the whole trace, of which `k - 1` rounds are over. */
  lemma AsyncUnfold(p: Policy, env: Environment, who: nat, deadline: real, k: nat, now: real, whole: Trace)
    requires Valid(p) && 1 <= k <= p.maxAttempts
    requires whole == AddCalls(AsyncRun(p, env, who, deadline, k, now), k - 1)
    ensures
      match AsyncRound(p, env(k), who, deadline, k, now)
      case Done(trace) =>
        whole == AddCalls(trace, k - 1) && |trace.reports| <= 1 && !trace.exit.InvalidPolicy?
        && !trace.exit.CircuitOpen?
      case Again(at) => whole == AddCalls(AsyncRun(p, env, who, deadline, k + 1, at), k)
  {
  }

  /** One round, after what others did before it; the whole trace is `whole`. */
  method AsyncTurn(breaker: CircuitBreaker, p: Policy, env: Environment, others: Others, who: nat, deadline: real,
                   k: nat, now: real, ghost b: Breaker, ghost whole: Trace)
    returns (round: Round)
    requires Valid(p) && 1 <= k <= p.maxAttempts
    requires breaker.Value() == AfterOthers(breaker.config, b, others, k - 1)
    requires whole == AddCalls(AsyncRun(p, env, who, deadline, k, now), k - 1)
    modifies breaker
    ensures round.Again? ==>
              && breaker.Value() == AfterOthers(breaker.config, b, others, k)
              && whole == AddCalls(AsyncRun(p, env, who, deadline, k + 1, round.at), k)
    ensures round.Done? ==>
              && |round.trace.reports| <= 1
              && breaker.Value()
                   == AfterReports(breaker.config, AfterOthers(breaker.config, b, others, k), round.trace.reports)
              && whole == AddCalls(round.trace, k - 1) && !whole.exit.InvalidPolicy? && !whole.exit.CircuitOpen?
  {
    Interfere(breaker, others(k));
    AsyncUnfold(p, env, who, deadline, k, now, whole);
    round := AsyncAttempt(breaker, p, env(k), who, deadline, k, now);
  }

  /** The attempt loop of an admitted call, among other callers of the breaker. */
  method AsyncAttempts(breaker: CircuitBreaker, p: Policy, env: Environment, others: Others, who: nat,
                       deadline: real, start: real)
    returns (t: Trace, ghost rounds: nat)
    requires Valid(p)
    modifies breaker
    ensures t == AsyncRun(p, env, who, deadline, 1, start) && !t.exit.InvalidPolicy? && !t.exit.CircuitOpen?
    ensures |t.reports| <= 1
    ensures breaker.Value()
              == AfterReports(breaker.config, AfterOthers(breaker.config, old(breaker.Value()), others, rounds),
                              t.reports)
  {
    var now: real, k: nat := start, 1;
    ghost var b := breaker.Value();
    ghost var whole := AsyncRun(p, env, who, deadline, k, now);
    while k <= p.maxAttempts
      invariant 1 <= k <= p.maxAttempts + 1
      invariant breaker.Value() == AfterOthers(breaker.config, b, others, k - 1)
      invariant whole == AddCalls(AsyncRun(p, env, who, deadline, k, now), k - 1)
    {
      var round := AsyncTurn(breaker, p, env, others, who, deadline, k, now, b, whole);
      if round.Done? {
        return AddCalls(round.trace, k - 1), k;
      }
      now, k := round.at, k + 1;
    }
    return Trace(Incomplete, now, k - 1, []), k - 1;
  }

  /** What others do to the breaker while the call runs changes neither its course nor its report. */
  method CallWithResilience(breaker: CircuitBreaker, p: Policy, env: Environment, others: Others, who: nat, start: real)
    returns (t: Trace, ghost rounds: nat)
    modifies breaker
    ensures t == AsyncCall(breaker.config, old(breaker.Value()), p, env, who, start)
    ensures breaker.Value()
              == Later(breaker.config, old(breaker.Value()), CallHistory(t, Upto(others, rounds), who, start))
  {
    if !Valid(p) {
      return Trace(InvalidPolicy, start, 0, []), 0;
    }
    ghost var b := breaker.Value();
    var admitted := breaker.TryAcquireRequest(start);
    if !admitted {
      OneLater(breaker.config, b, [Event(Acquire, start, who)]);
      return Trace(CircuitOpen, start, 0, []), 0;
    }
    t, rounds := AsyncAttempts(breaker, p, env, others, who, start + p.timeout, start);
    AdmittedHistory(breaker.config, b, t, others, rounds, who, start);
  }

  // --------------------------------------------------------------- the blocking wrapper

  function SyncRound(p: Policy, a: Attempt, who: nat, deadline: real, k: nat, now: real): Round
    requires Valid(p) && k >= 1
  {
    var remaining := deadline - now;
    if remaining <= 0.0 then Done(Trace(BudgetExhausted, now, 0, [Event(Failure, now, who)]))
    else if a.slotWait > remaining then
      Done(Trace(CapacityExhausted, now + remaining, 0, [Event(Failure, now + remaining, who)]))
    else if a.submitFails then
      Done(Trace(SubmitFailed, now + a.slotWait, 0, [Event(Release, now + a.slotWait, who)]))
    else
      var t := now + a.slotWait + Min(a.duration, remaining);
      if a.duration > remaining || a.outcome.RaisedTimeout? then
        Done(Trace(Error(true, true), t, 1, [Event(Failure, t, who)]))
      else if a.outcome.Returned? then Done(Trace(Value, t, 1, [Event(Success, t, who)]))
      else if a.outcome.Cancelled? || a.outcome.Fatal? then Done(Trace(FatalError, t, 1, []))
      else if k >= p.maxAttempts || !a.outcome.retryable then
        Done(Trace(Error(false, a.outcome.retryable), t, 1,
                   [Event(if a.outcome.retryable then Failure else NonRetryable, t, who)]))
      else
        var left := deadline - t;
        var delay := Backoff(p, k, if left > 0.0 then left else 0.0);
        if CutShort(a, delay) then Done(Trace(CutInBackoff, t + a.cut.elapsed, 1, []))
        else Again(t + delay)
  }

  function SyncRun(p: Policy, env: Environment, who: nat, deadline: real, k: nat, now: real): Trace
    requires Valid(p) && k >= 1
    decreases p.maxAttempts + 1 - k
  {
    if k > p.maxAttempts then Trace(Incomplete, now, 0, [])
    else
      match SyncRound(p, env(k), who, deadline, k, now)
      case Done(trace) => trace
      case Again(at) => AddCalls(SyncRun(p, env, who, deadline, k + 1, at), 1)
  }

  function SyncCall(c: Config, b: Breaker, p: Policy, env: Environment, who: nat, start: real): Trace {
    if !Valid(p) then Trace(InvalidPolicy, start, 0, [])
    else if !Granted(c, b, start) then Trace(CircuitOpen, start, 0, [])
    else SyncRun(p, env, who, start + p.timeout, 1, start)
  }

  /** The body of the blocking attempt loop. */
  method SyncAttempt(breaker: CircuitBreaker, p: Policy, a: Attempt, who: nat, deadline: real, k: nat, now: real)
    returns (round: Round)
    requires Valid(p) && k >= 1
    modifies breaker
    ensures round == SyncRound(p, a, who, deadline, k, now)
    ensures breaker.Value() == if round.Again? then old(breaker.Value())
                               else AfterReports(breaker.config, old(breaker.Value()), round.trace.reports)
  {
    var remaining := deadline - now;
    if remaining <= 0.0 {
      breaker.RecordFailure(now);
      return Done(Trace(BudgetExhausted, now, 0, [Event(Failure, now, who)]));
    }
    if a.slotWait > remaining {
      breaker.RecordFailure(now + remaining);
      return Done(Trace(CapacityExhausted, now + remaining, 0, [Event(Failure, now + remaining, who)]));
    }
    var t := now + a.slotWait;
    if a.submitFails {
      breaker.ReleaseRequest(t);
      return Done(Trace(SubmitFailed, t, 0, [Event(Release, t, who)]));
    }
    t := t + Min(a.duration, remaining);
    if a.duration > remaining || a.outcome.RaisedTimeout? {
      breaker.RecordFailure(t);
      return Done(Trace(Error(true, true), t, 1, [Event(Failure, t, who)]));
    }
    if a.outcome.Returned? {
      breaker.RecordSuccess(t);
      return Done(Trace(Value, t, 1, [Event(Success, t, who)]));
    }
    if a.outcome.Cancelled? || a.outcome.Fatal? {
      return Done(Trace(FatalError, t, 1, []));
    }
    if k >= p.maxAttempts || !a.outcome.retryable {
      var op := NonRetryable;
      if a.outcome.retryable {
        breaker.RecordFailure(t);
        op := Failure;
      } else {
        breaker.RecordNonRetryableFailure(t);
      }
      return Done(Trace(Error(false, a.outcome.retryable), t, 1, [Event(op, t, who)]));
    }
    var left := deadline - t;
    var delay := Backoff(p, k, if left > 0.0 then left else 0.0);
    if CutShort(a, delay) {
      return Done(Trace(CutInBackoff, t + a.cut.elapsed, 1, []));
    }
    return Again(t + delay);
  }

  /** What one round contributes to the whole trace, of which `k - 1` rounds are over. */
  lemma SyncUnfold(p: Policy, env: Environment, who: nat, deadline: real, k: nat, now: real, whole: Trace)
    requires Valid(p) && 1 <= k <= p.maxAttempts
    requires whole == AddCalls(SyncRun(p, env, who, deadline, k, now), k - 1)
    ensures
      match SyncRound(p, env(k), who, deadline, k, now)
      case Done(trace) =>
        whole == AddCalls(trace, k - 1) && |trace.reports| <= 1 && !trace.exit.InvalidPolicy?
        && !trace.exit.CircuitOpen?
      case Again(at) => whole == AddCalls(SyncRun(p, env, who, deadline, k + 1, at), k)
  {
  }

  /** One round, after what others did before it; the whole trace is `whole`. */
  method SyncTurn(breaker: CircuitBreaker, p: Policy, env: Environment, others: Others, who: nat, deadline: real,
                  k: nat, now: real, ghost b: Breaker, ghost whole: Trace)
    returns (round: Round)
    requires Valid(p) && 1 <= k <= p.maxAttempts
    requires breaker.Value() == AfterOthers(breaker.config, b, others, k - 1)
    requires whole == AddCalls(SyncRun(p, env, who, deadline, k, now), k - 1)
    modifies breaker
    ensures round.Again? ==>
              && breaker.Value() == AfterOthers(breaker.config, b, others, k)
              && whole == AddCalls(SyncRun(p, env, who, deadline, k + 1, round.at), k)
    ensures round.Done? ==>
              && |round.trace.reports| <= 1
              && breaker.Value()
                   == AfterReports(breaker.config, AfterOthers(breaker.config, b, others, k), round.trace.reports)
              && whole == AddCalls(round.trace, k - 1) && !whole.exit.InvalidPolicy? && !whole.exit.CircuitOpen?
  {
    Interfere(breaker, others(k));
    SyncUnfold(p, env, who, deadline, k, now, whole);
    round := SyncAttempt(breaker, p, env(k), who, deadline, k, now);
  }

  /** The attempt loop of an admitted call, among other callers of the breaker. */
  method SyncAttempts(breaker: CircuitBreaker, p: Policy, env: Environment, others: Others, who: nat,
                      deadline: real, start: real)
    returns (t: Trace, ghost rounds: nat)
    requires Valid(p)
    modifies breaker
    ensures t == SyncRun(p, env, who, deadline, 1, start) && !t.exit.InvalidPolicy? && !t.exit.CircuitOpen?
    ensures |t.reports| <= 1
    ensures breaker.Value()
              == AfterReports(breaker.config, AfterOthers(breaker.config, old(breaker.Value()), others, rounds),
                              t.reports)
  {
    var now: real, k: nat := start, 1;
    ghost var b := breaker.Value();
    ghost var whole := SyncRun(p, env, who, deadline, k, now);
    while k <= p.maxAttempts
      invariant 1 <= k <= p.maxAttempts + 1
      invariant breaker.Value() == AfterOthers(breaker.config, b, others, k - 1)
      invariant whole == AddCalls(SyncRun(p, env, who, deadline, k, now), k - 1)
    {
      var round := SyncTurn(breaker, p, env, others, who, deadline, k, now, b, whole);
      if round.Done? {
        return AddCalls(round.trace, k - 1), k;
      }
      now, k := round.at, k + 1;
    }
    return Trace(Incomplete, now, k - 1, []), k - 1;
  }

  /** What others do to the breaker while the call runs changes neither its course nor its report. */
  method CallSyncWithResilience(breaker: CircuitBreaker, p: Policy, env: Environment, others: Others, who: nat,
                                start: real)
    returns (t: Trace, ghost rounds: nat)
    modifies breaker
    ensures t == SyncCall(breaker.config, old(breaker.Value()), p, env, who, start)
    ensures breaker.Value()
              == Later(breaker.config, old(breaker.Value()), CallHistory(t, Upto(others, rounds), who, start))
  {
    if !Valid(p) {
      return Trace(InvalidPolicy, start, 0, []), 0;
    }
    ghost var b := breaker.Value();
    var admitted := breaker.TryAcquireRequest(start);
    if !admitted {
      OneLater(breaker.config, b, [Event(Acquire, start, who)]);
      return Trace(CircuitOpen, start, 0, []), 0;
    }
    t, rounds := SyncAttempts(breaker, p, env, others, who, start + p.timeout, start);
    AdmittedHistory(breaker.config, b, t, others, rounds, who, start);
  }

  // ------------------------------------------------------- settling the reservation

  /** The reports a caller owes for its reservation, by the way its call ended. */
  function Settlement(exit: Exit): seq<Op> {
    match exit
    case Value => [Success]
    case Error(_, retryable) => [if retryable then Failure else NonRetryable]
    case BudgetExhausted => [Failure]
    case CapacityExhausted => [Failure]
    case SubmitFailed => [Release]
    case CancelledInCall => [Release]
    case _ => []
  }

  predicate ReportsOutcome(t: Trace, who: nat) {
    && |t.reports| == |Settlement(t.exit)|
    && (|t.reports| == 1 ==> t.reports[0] == Event(Settlement(t.exit)[0], t.ended, who))
  }

  lemma {:induction false} AsyncLoop(p: Policy, env: Environment, who: nat, deadline: real, k: nat, now: real)
    requires Valid(p) && 1 <= k <= p.maxAttempts && now <= deadline + p.timeout
    requires deadline - now <= p.timeout
    ensures var t := AsyncRun(p, env, who, deadline, k, now);
      && ReportsOutcome(t, who) && !t.exit.Incomplete? && !t.exit.InvalidPolicy? && !t.exit.CircuitOpen?
      && t.calls <= p.maxAttempts + 1 - k
      && now <= t.ended <= deadline + p.timeout
      && (p.maxAttempts == 1 || p.retryDelay == 0.0 ==> t.ended <= (if now <= deadline then deadline else now))
    decreases p.maxAttempts - k
  {
    var round := AsyncRound(p, env(k), who, deadline, k, now);
    if round.Again? {
      AsyncLoop(p, env, who, deadline, k + 1, round.at);
    }
  }

  /** An admitted async call always ends, invokes the dependency at most `maxAttempts` times,
      is over by twice the timeout, and reports to the breaker exactly once — except when it is
      cut off inside the backoff sleep or dies of a fatal error, and then not at all. */
  lemma AsyncCallSettles(p: Policy, env: Environment, who: nat, start: real)
    requires Valid(p)
    ensures var t := AsyncRun(p, env, who, start + p.timeout, 1, start);
      && ReportsOutcome(t, who) && !t.exit.Incomplete?
      && (|t.reports| == 1 <==> !t.exit.CutInBackoff? && !t.exit.FatalError?)
      && t.calls <= p.maxAttempts
      && start <= t.ended <= start + 2.0 * p.timeout
  {
    AsyncLoop(p, env, who, start + p.timeout, 1, start);
  }

  lemma {:induction false} SyncLoop(p: Policy, env: Environment, who: nat, deadline: real, k: nat, now: real)
    requires Valid(p) && 1 <= k <= p.maxAttempts && now <= deadline + p.timeout
    requires deadline - now <= p.timeout
    ensures var t := SyncRun(p, env, who, deadline, k, now);
      && ReportsOutcome(t, who) && !t.exit.Incomplete? && !t.exit.InvalidPolicy? && !t.exit.CircuitOpen?
      && t.calls <= p.maxAttempts + 1 - k
      && now <= t.ended <= deadline + p.timeout
      && ((forall i :: env(i).slotWait == 0.0) ==> t.ended <= (if now <= deadline then deadline else now))
    decreases p.maxAttempts - k
  {
    var round := SyncRound(p, env(k), who, deadline, k, now);
    if round.Again? {
      SyncLoop(p, env, who, deadline, k + 1, round.at);
    }
  }

  /** The same for the blocking wrapper. */
  lemma SyncCallSettles(p: Policy, env: Environment, who: nat, start: real)
    requires Valid(p)
    ensures var t := SyncRun(p, env, who, start + p.timeout, 1, start);
      && ReportsOutcome(t, who) && !t.exit.Incomplete?
      && (|t.reports| == 1 <==> !t.exit.CutInBackoff? && !t.exit.FatalError?)
      && t.calls <= p.maxAttempts
      && start <= t.ended <= start + 2.0 * p.timeout
  {
    SyncLoop(p, env, who, start + p.timeout, 1, start);
  }

  // ------------------------------------------------ when the reservation is always settled

  /** The dependency dies of no base exception, unless it is the cancellation of its own call. */
  ghost predicate NeverFatal(env: Environment) { forall k :: !env(k).outcome.Fatal? }

  /** Nor of that, where the call is blocking. */
  ghost predicate NeverFatalBlocking(env: Environment) {
    forall k :: !env(k).outcome.Fatal? && !env(k).outcome.Cancelled?
  }

  predicate AsyncDischarges(p: Policy, who: nat, start: real, env: Environment)
    requires Valid(p)
  {
    |AsyncRun(p, env, who, start + p.timeout, 1, start).reports| == 1
  }

  predicate SyncDischarges(p: Policy, who: nat, start: real, env: Environment)
    requires Valid(p)
  {
    |SyncRun(p, env, who, start + p.timeout, 1, start).reports| == 1
  }

  /** Fails retryably at once; the sleep after it is cut short at once. */
  const CUT: Environment := (k: nat) => Attempt(0.0, false, 0.0, Raised(true), true, After(0.0))

  /** Cut in the first backoff, a call reports nothing: the reservation is never given back. */
  lemma CutLeavesReservation(p: Policy, who: nat, start: real)
    requires Valid(p) && p.maxAttempts >= 2 && p.retryDelay > 0.0
    ensures AsyncRun(p, CUT, who, start + p.timeout, 1, start) == Trace(CutInBackoff, start, 1, [])
    ensures SyncRun(p, CUT, who, start + p.timeout, 1, start) == Trace(CutInBackoff, start, 1, [])
  {
    assert Backoff(p, 1, p.timeout) > 0.0;
    assert AsyncEffect(CUT(1), p.timeout) == (0.0, Raised(true));
  }

  lemma {:induction false} AsyncNeverCut(p: Policy, env: Environment, who: nat, deadline: real, k: nat, now: real)
    requires Valid(p) && 1 <= k <= p.maxAttempts && (p.maxAttempts == 1 || p.retryDelay == 0.0)
    requires NeverFatal(env) && now <= deadline + p.timeout && deadline - now <= p.timeout
    ensures |AsyncRun(p, env, who, deadline, k, now).reports| == 1
    decreases p.maxAttempts - k
  {
    var round := AsyncRound(p, env(k), who, deadline, k, now);
    if round.Again? {
      AsyncNeverCut(p, env, who, deadline, k + 1, round.at);
    }
  }

  lemma {:induction false} SyncNeverCut(p: Policy, env: Environment, who: nat, deadline: real, k: nat, now: real)
    requires Valid(p) && 1 <= k <= p.maxAttempts && (p.maxAttempts == 1 || p.retryDelay == 0.0)
    requires NeverFatalBlocking(env) && now <= deadline + p.timeout && deadline - now <= p.timeout
    ensures |SyncRun(p, env, who, deadline, k, now).reports| == 1
    decreases p.maxAttempts - k
  {
    var round := SyncRound(p, env(k), who, deadline, k, now);
    if round.Again? {
      SyncNeverCut(p, env, who, deadline, k + 1, round.at);
    }
  }

  /** Every admitted async call reports exactly once, whatever the dependency does short of dying,
      exactly when the policy never sleeps. */
  lemma AsyncDischargesIff(p: Policy, who: nat, start: real)
    requires Valid(p)
    ensures (forall env :: NeverFatal(env) ==> AsyncDischarges(p, who, start, env)) <==>
              p.maxAttempts == 1 || p.retryDelay == 0.0
  {
    if p.maxAttempts == 1 || p.retryDelay == 0.0 {
      forall env | NeverFatal(env) ensures AsyncDischarges(p, who, start, env) {
        AsyncNeverCut(p, env, who, start + p.timeout, 1, start);
      }
    } else {
      CutLeavesReservation(p, who, start);
      assert NeverFatal(CUT) && !AsyncDischarges(p, who, start, CUT);
    }
  }

  /** The same for the blocking wrapper, whose sleep is cut by an interrupt. */
  lemma SyncDischargesIff(p: Policy, who: nat, start: real)
    requires Valid(p)
    ensures (forall env :: NeverFatalBlocking(env) ==> SyncDischarges(p, who, start, env)) <==>
              p.maxAttempts == 1 || p.retryDelay == 0.0
  {
    if p.maxAttempts == 1 || p.retryDelay == 0.0 {
      forall env | NeverFatalBlocking(env) ensures SyncDischarges(p, who, start, env) {
        SyncNeverCut(p, env, who, start + p.timeout, 1, start);
      }
    } else {
      CutLeavesReservation(p, who, start);
      assert NeverFatalBlocking(CUT) && !SyncDischarges(p, who, start, CUT);
    }
  }

  // --------------------------------------------------------- a probe nobody reports for

  predicate Stuck(b: Breaker) { b.state.HalfOpen? && b.probe }

  /** Reads, questions and admission requests. */
  predicate Quiet(e: Event) { e.op.ReadState? || e.op.Allow? || e.op.Acquire? }

  lemma {:induction false} StuckStays(c: Config, b: Breaker, events: seq<Event>)
    requires Stuck(b) && forall i :: 0 <= i < |events| ==> Quiet(events[i])
    ensures Later(c, b, events) == b
  {
    if events != [] {
      StuckStays(c, b, events[..|events| - 1]);
    }
  }

  /** A reserved half-open probe ends exactly with a report: as long as there are only reads,
      questions and requests nobody is admitted, at any time, and any report by anyone frees it. */
  lemma ProbeEndsIffReported(c: Config, b: Breaker, e: Event)
    requires Stuck(b)
    ensures Stuck(Apply(c, b, e.op, e.at)) <==> Quiet(e)
    ensures forall now: real :: !Granted(c, b, now)
  {
  }

  /** One call of either wrapper. */
  datatype Call = Call(blocking: bool, p: Policy, env: Environment, who: nat, start: real)

  function TraceOf(c: Config, b: Breaker, call: Call): Trace {
    if call.blocking then SyncCall(c, b, call.p, call.env, call.who, call.start)
    else AsyncCall(c, b, call.p, call.env, call.who, call.start)
  }

  function AfterCalls(c: Config, b: Breaker, calls: seq<Call>): Breaker {
    if calls == [] then b
    else
      var call := calls[|calls| - 1];
      var before := AfterCalls(c, b, calls[..|calls| - 1]);
      Later(c, before, CallHistory(TraceOf(c, before, call), [], call.who, call.start))
  }

  /** A probe cut in its backoff shuts the dependency off for good: the breaker it leaves never
      changes again, and however many calls of either wrapper follow, at whatever times, none of them
      invokes the dependency. */
  lemma {:induction false} CutProbeShutsOut(c: Config, b: Breaker, p: Policy, who: nat, start: real,
                                            calls: seq<Call>, next: Call)
    requires Valid(p) && p.maxAttempts >= 2 && p.retryDelay > 0.0
    requires Advance(c, b, start).state.HalfOpen? && Granted(c, b, start)
    ensures
      var t := AsyncCall(c, b, p, CUT, who, start);
      var left := Later(c, b, CallHistory(t, [], who, start));
      && Stuck(left) && AfterCalls(c, left, calls) == left
      && TraceOf(c, AfterCalls(c, left, calls), next).calls == 0
      && (Valid(next.p) ==> TraceOf(c, AfterCalls(c, left, calls), next).exit.CircuitOpen?)
  {
    CutLeavesReservation(p, who, start);
    var t := AsyncCall(c, b, p, CUT, who, start);
    var e := Event(Acquire, start, who);
    assert t == Trace(CutInBackoff, start, 1, []);
    assert [e] + [] + [] == [e];
    OneLater(c, b, [e]);
    var left := Later(c, b, CallHistory(t, [], who, start));
    assert left == Apply(c, b, Acquire, start);
    StuckCalls(c, left, calls);
  }

  lemma {:induction false} StuckCalls(c: Config, b: Breaker, calls: seq<Call>)
    requires Stuck(b)
    ensures AfterCalls(c, b, calls) == b
  {
    if calls != [] {
      var call := calls[|calls| - 1];
      StuckCalls(c, b, calls[..|calls| - 1]);
      var history := CallHistory(TraceOf(c, b, call), [], call.who, call.start);
      assert forall i :: 0 <= i < |history| ==> Quiet(history[i]);
      StuckStays(c, b, history);
    }
  }

  // -------------------------------------------------------- when one timeout is enough

  /** Every attempt fails retryably after exactly `d`, without waiting for a worker slot. */
  function Failing(d: Duration): Environment {
    (k: nat) => Attempt(0.0, false, d, Raised(true), true, Whole)
  }

  lemma FailingOvershoots(p: Policy, who: nat, start: real)
    requires Valid(p) && p.maxAttempts >= 2
    ensures AsyncRun(p, Failing(p.timeout), who, start + p.timeout, 1, start).ended
         == start + p.timeout + Backoff(p, 1, p.timeout)
  {
    var t := start + p.timeout + Backoff(p, 1, p.timeout);
    assert AsyncEffect(Failing(p.timeout)(1), p.timeout) == (p.timeout, Raised(true));
    assert AsyncRun(p, Failing(p.timeout), who, start + p.timeout, 2, t).ended == t;
  }

  predicate AsyncInTime(p: Policy, who: nat, start: real, env: Environment)
    requires Valid(p)
  {
    AsyncRun(p, env, who, start + p.timeout, 1, start).ended <= start + p.timeout
  }

  /** The async wrapper keeps its total budget in every environment exactly when it never sleeps:
      with one attempt or without a retry delay. */
  lemma AsyncBudgetHoldsIff(p: Policy, who: nat, start: real)
    requires Valid(p)
    ensures (forall env :: AsyncInTime(p, who, start, env)) <==> p.maxAttempts == 1 || p.retryDelay == 0.0
  {
    if p.maxAttempts == 1 || p.retryDelay == 0.0 {
      forall env ensures AsyncInTime(p, who, start, env) {
        AsyncLoop(p, env, who, start + p.timeout, 1, start);
      }
    } else {
      FailingOvershoots(p, who, start);
      assert !AsyncInTime(p, who, start, Failing(p.timeout));
    }
  }

  /** Twice the timeout is reached, so the bound of `AsyncCallSettles` cannot be improved. */
  lemma AsyncDoubleBudgetIsReached(p: Policy, who: nat, start: real)
    requires Valid(p) && p.maxAttempts >= 2 && p.retryDelay >= p.timeout
    ensures AsyncRun(p, Failing(p.timeout), who, start + p.timeout, 1, start).ended == start + 2.0 * p.timeout
  {
    FailingOvershoots(p, who, start);
  }

  ghost predicate WaitsAtMost(env: Environment, w: real) { forall k :: env(k).slotWait <= w }

  predicate SyncInTime(p: Policy, who: nat, start: real, env: Environment)
    requires Valid(p)
  {
    SyncRun(p, env, who, start + p.timeout, 1, start).ended <= start + p.timeout
  }

  /** The blocking wrapper keeps its budget exactly when nobody can be made to wait for a slot. */
  lemma SyncBudgetHoldsIff(p: Policy, who: nat, start: real, w: Duration)
    requires Valid(p)
    ensures (forall env :: WaitsAtMost(env, w) ==> SyncInTime(p, who, start, env)) <==> w == 0.0
  {
    if w == 0.0 {
      forall env | WaitsAtMost(env, w) ensures SyncInTime(p, who, start, env) {
        SyncLoop(p, env, who, start + p.timeout, 1, start);
      }
    } else {
      var wait: Duration := Min(w, p.timeout);
      var env: Environment := (k: nat) => Attempt(wait, false, p.timeout, Returned, true, Whole);
      assert WaitsAtMost(env, w);
      assert SyncRun(p, env, who, start + p.timeout, 1, start).ended == start + wait + p.timeout;
      assert !SyncInTime(p, who, start, env);
    }
  }

  // ------------------------------------------------------------ the bounded blocking call

  datatype BoundedExit = InvalidTimeout | NoCapacity | CallTimedOut | Finished

  const POLL := 0.01

  function PollsLeft(deadline: real, now: real): nat {
    if now >= deadline then 0 else 1 + ((deadline - now) / POLL).Floor
  }

  lemma PollProgress(deadline: real, now: real)
    requires now < deadline
    ensures PollsLeft(deadline, now + Min(POLL, deadline - now)) < PollsLeft(deadline, now)
  {
    if deadline - now > POLL {
      assert (deadline - (now + POLL)) / POLL == (deadline - now) / POLL - 1.0;
    }
  }

  /** The instant a slot is obtained, or the deadline if every poll until then fails. */
  function AcquireAt(free: nat -> bool, poll: nat, deadline: real, now: real): (bool, real)
    decreases PollsLeft(deadline, now)
  {
    if free(poll) then (true, now)
    else if now >= deadline then (false, now)
    else
      PollProgress(deadline, now);
      AcquireAt(free, poll + 1, deadline, now + Min(POLL, deadline - now))
  }

  lemma {:induction false} AcquireInTime(free: nat -> bool, poll: nat, deadline: real, now: real)
    requires now <= deadline
    ensures now <= AcquireAt(free, poll, deadline, now).1 <= deadline
    decreases PollsLeft(deadline, now)
  {
    if !free(poll) && now < deadline {
      PollProgress(deadline, now);
      AcquireInTime(free, poll + 1, deadline, now + Min(POLL, deadline - now));
    }
  }

  /** The bounded call polls for a slot and then waits for the job, all within one deadline. */
  method RunBoundedSyncCall(free: nat -> bool, duration: Duration, timeout: real, start: real)
    returns (exit: BoundedExit, ended: real)
    ensures exit.InvalidTimeout? <==> timeout <= 0.0
    ensures timeout > 0.0 ==> start <= ended <= start + timeout
    ensures timeout > 0.0 ==> var (got, at) := AcquireAt(free, 0, start + timeout, start);
      && (exit.NoCapacity? <==> !got)
      && (exit.Finished? <==> got && at < start + timeout && duration <= start + timeout - at)
      && (exit.Finished? ==> ended == at + duration)
      && (!exit.Finished? ==> ended == start + timeout)
  {
    if timeout <= 0.0 {
      return InvalidTimeout, start;
    }
    var deadline := start + timeout;
    AcquireInTime(free, 0, deadline, start);
    var poll := 0;
    ended := start;
    while !free(poll)
      invariant start <= ended <= deadline
      invariant AcquireAt(free, 0, deadline, start) == AcquireAt(free, poll, deadline, ended)
      decreases PollsLeft(deadline, ended)
    {
      if deadline - ended <= 0.0 {
        return NoCapacity, ended;
      }
      PollProgress(deadline, ended);
      ended := ended + Min(POLL, deadline - ended);
      poll := poll + 1;
    }
    var remaining := deadline - ended;
    if remaining <= 0.0 {
      return CallTimedOut, ended;
    }
    if duration > remaining {
      return CallTimedOut, ended + remaining;
    }
    return Finished, ended + duration;
  }

  // --------------------------------------------------------- the MCP retry interceptor

  datatype ToolOutcome = ToolResult | ToolError(retryable: bool) | ToolCancelled

  datatype ToolAttempt = ToolAttempt(duration: Duration, outcome: ToolOutcome)

  datatype ToolExit = InvalidArguments | Succeeded | ErrorResult(budget: bool) | ToolTaskCancelled

  datatype ToolTrace = ToolTrace(exit: ToolExit, ended: real, calls: nat)

  function MaxToolAttempts(readOnly: bool, maxRetries: int): int { if readOnly then maxRetries else 1 }

  function ToolRun(readOnly: bool, maxRetries: int, delay: Duration, env: nat -> ToolAttempt,
                   deadline: real, k: nat, now: real): ToolTrace
    decreases MaxToolAttempts(readOnly, maxRetries) - k
  {
    var remaining := deadline - now;
    var a := env(k);
    if remaining <= 0.0 then ToolTrace(ErrorResult(true), now, 1)
    else if a.duration > remaining then ToolTrace(ErrorResult(true), now + remaining, 1)
    else
      var t := now + a.duration;
      match a.outcome
      case ToolResult => ToolTrace(Succeeded, t, 1)
      case ToolCancelled => ToolTrace(ToolTaskCancelled, t, 1)
      case ToolError(retryable) =>
        var wait := delay * Pow2(k);
        if !readOnly || !retryable || k + 1 >= maxRetries || t + wait >= deadline then
          ToolTrace(ErrorResult(false), t, 1)
        else
          var rest := ToolRun(readOnly, maxRetries, delay, env, deadline, k + 1, t + wait);
          rest.(calls := rest.calls + 1)
  }

  lemma {:induction false} ToolLoop(readOnly: bool, maxRetries: int, delay: Duration, env: nat -> ToolAttempt,
                                    deadline: real, k: nat, now: real)
    requires now <= deadline && k < MaxToolAttempts(readOnly, maxRetries)
    ensures var t := ToolRun(readOnly, maxRetries, delay, env, deadline, k, now);
      && now <= t.ended <= deadline && 1 <= t.calls <= MaxToolAttempts(readOnly, maxRetries) - k
    decreases maxRetries - k
  {
    var a := env(k);
    var t := now + a.duration;
    if deadline - now > 0.0 && a.duration <= deadline - now && a.outcome.ToolError? {
      ScaleNonNegative(delay, Pow2(k));
      var wait := delay * Pow2(k);
      if readOnly && a.outcome.retryable && k + 1 < maxRetries && t + wait < deadline {
        ToolLoop(readOnly, maxRetries, delay, env, deadline, k + 1, t + wait);
      }
    }
  }

  lemma ScaleNonNegative(x: real, y: real)
    requires x >= 0.0 && y >= 1.0
    ensures x * y >= 0.0
  {
    ScaleUp(x, y);
  }

  function ToolCall(readOnly: bool, maxRetries: int, delay: real, timeout: real,
                    env: nat -> ToolAttempt, start: real): ToolTrace
  {
    if maxRetries < 1 || delay < 0.0 || timeout <= 0.0 then ToolTrace(InvalidArguments, start, 0)
    else ToolRun(readOnly, maxRetries, delay, env, start + timeout, 0, start)
  }

  /** The interceptor is over within its timeout, retries a read-only tool at most `maxRetries`
      times, and invokes any other tool exactly once. */
  lemma ToolCallBounds(readOnly: bool, maxRetries: int, delay: real, timeout: real,
                       env: nat -> ToolAttempt, start: real)
    requires maxRetries >= 1 && delay >= 0.0 && timeout > 0.0
    ensures var t := ToolCall(readOnly, maxRetries, delay, timeout, env, start);
      && start <= t.ended <= start + timeout
      && 1 <= t.calls <= maxRetries && (!readOnly ==> t.calls == 1)
  {
    ToolLoop(readOnly, maxRetries, delay, env, start + timeout, 0, start);
  }

  method RetryInterceptor(readOnly: bool, maxRetries: int, delay: real, timeout: real,
                          env: nat -> ToolAttempt, start: real)
    returns (exit: ToolExit, ended: real, calls: nat)
    ensures ToolTrace(exit, ended, calls) == ToolCall(readOnly, maxRetries, delay, timeout, env, start)
  {
    if maxRetries < 1 || delay < 0.0 || timeout <= 0.0 {
      return InvalidArguments, start, 0;
    }
    var maxAttempts := MaxToolAttempts(readOnly, maxRetries);
    var deadline := start + timeout;
    calls, ended := 0, start;
    var k := 0;
    while true
      invariant 0 <= k < maxAttempts && calls == k
      invariant
        var rest := ToolRun(readOnly, maxRetries, delay, env, deadline, k, ended);
        ToolRun(readOnly, maxRetries, delay, env, deadline, 0, start) == rest.(calls := rest.calls + calls)
      decreases maxAttempts - k
    {
      var a := env(k);
      var remaining := deadline - ended;
      calls := calls + 1;
      if remaining <= 0.0 {
        return ErrorResult(true), ended, calls;
      }
      if a.duration > remaining {
        return ErrorResult(true), ended + remaining, calls;
      }
      ended := ended + a.duration;
      match a.outcome {
        case ToolResult =>
          return Succeeded, ended, calls;
        case ToolCancelled =>
          return ToolTaskCancelled, ended, calls;
        case ToolError(retryable) =>
          if !readOnly || !retryable || k == maxAttempts - 1 {
            return ErrorResult(false), ended, calls;
          }
          var wait := delay * Pow2(k);
          if ended + wait >= deadline {
            return ErrorResult(false), ended, calls;
          }
          ended := ended + wait;
      }
      k := k + 1;
    }
  }
}
