/** How a resilient call ends, by what its dependency did.

    Attempt by attempt: when each one starts if those before it were retried, which are retried, and
    how the first one that is not decides the exit, the report, the number of invocations and the
    instant — in every environment. */
module ResilientOutcomes {

  import opened CircuitBreakers
  import opened ResilientCalls

  /** The sleep after attempt `i` when `left` seconds remain: doubling, but no longer than that. */
  function Delay(p: Policy, i: nat, left: real): real
    requires i >= 1
  {
    Min(p.retryDelay * Pow2(i - 1), if left > 0.0 then left else 0.0)
  }

  /** Without the cap every delay is twice the one before. */
  lemma DelayDoubles(p: Policy, i: nat, left: real)
    requires Valid(p) && i >= 1
    ensures left >= p.retryDelay ==> Delay(p, 1, left) == p.retryDelay
    ensures Delay(p, i, left) < left ==> Delay(p, i + 1, left) == Min(2.0 * Delay(p, i, left), left)
  {
    assert Pow2(0) == 1.0 && p.retryDelay * 1.0 == p.retryDelay;
    assert p.retryDelay * Pow2(i) == 2.0 * (p.retryDelay * Pow2(i - 1));
  }

  predicate SleepsWhole(a: Attempt, delay: real) { delay == 0.0 || a.cut.Whole? || a.cut.elapsed > delay }

  // ------------------------------------------------------------------ the async wrapper

  predicate InTime(a: Attempt, left: real) { a.duration <= left }

  /** The attempt raises an exception, its own or the timeout of the budget. */
  predicate Raises(a: Attempt, left: real) { !InTime(a, left) || a.outcome.Raised? || a.outcome.RaisedTimeout? }

  predicate RaisesRetryably(a: Attempt, left: real) {
    if InTime(a, left) then Raises(a, left) && a.outcome.retryable else a.timeoutRetryable
  }

  /** When attempt `i` starts if all before it were retried. */
  function AsyncStart(p: Policy, env: Environment, start: real, i: nat): real
    requires i >= 1
  {
    if i == 1 then start
    else
      var before := AsyncStart(p, env, start, i - 1);
      var left := start + p.timeout - before;
      before + Min(env(i - 1).duration, left) + Delay(p, i - 1, left)
  }

  function AsyncLeft(p: Policy, env: Environment, start: real, i: nat): real
    requires i >= 1
  {
    start + p.timeout - AsyncStart(p, env, start, i)
  }

  /** Attempt `i` is made, raises retryably, is not the last one, and the sleep after it is whole. */
  predicate AsyncRetries(p: Policy, env: Environment, start: real, i: nat)
    requires i >= 1
  {
    var left := AsyncLeft(p, env, start, i);
    && left > 0.0 && RaisesRetryably(env(i), left) && i < p.maxAttempts && SleepsWhole(env(i), Delay(p, i, left))
  }

  /** All attempts before `n` are retried, and `n` is not. */
  predicate AsyncStopsAt(p: Policy, env: Environment, start: real, n: nat) {
    1 <= n <= p.maxAttempts && (forall i :: 1 <= i < n ==> AsyncRetries(p, env, start, i))
    && !AsyncRetries(p, env, start, n)
  }

  /** How attempt `n`, made or not, ends the call. */
  predicate AsyncExit(t: Trace, p: Policy, a: Attempt, n: nat, left: real) {
    && (t.exit.BudgetExhausted? <==> left <= 0.0)
    && (t.exit.Value? <==> left > 0.0 && InTime(a, left) && a.outcome.Returned?)
    && (t.exit.CancelledInCall? <==> left > 0.0 && InTime(a, left) && a.outcome.Cancelled?)
    && (t.exit.FatalError? <==> left > 0.0 && InTime(a, left) && a.outcome.Fatal?)
    && (t.exit.Error? <==> left > 0.0 && Raises(a, left) && (n == p.maxAttempts || !RaisesRetryably(a, left)))
    && (t.exit.Error? ==> t.exit.retryable == RaisesRetryably(a, left))
    && (t.exit.Error? ==> t.exit.timedOut == (!InTime(a, left) || a.outcome.RaisedTimeout?))
    && (t.exit.CutInBackoff? <==> left > 0.0 && RaisesRetryably(a, left) && n < p.maxAttempts)
  }

  /** What is reported for an exit, at the instant the call ends. */
  predicate Reported(t: Trace, who: nat) {
    && (t.exit.Value? ==> t.reports == [Event(Success, t.ended, who)])
    && (t.exit.Error? && !t.exit.retryable ==> t.reports == [Event(NonRetryable, t.ended, who)])
    && (t.exit.Error? && t.exit.retryable ==> t.reports == [Event(Failure, t.ended, who)])
    && (t.exit.BudgetExhausted? || t.exit.CapacityExhausted? ==> t.reports == [Event(Failure, t.ended, who)])
    && (t.exit.CancelledInCall? || t.exit.SubmitFailed? ==> t.reports == [Event(Release, t.ended, who)])
    && (t.exit.FatalError? || t.exit.CutInBackoff? ==> t.reports == [])
  }

  predicate AsyncEnds(t: Trace, p: Policy, a: Attempt, who: nat, n: nat, at: real, left: real) {
    && AsyncExit(t, p, a, n, left) && Reported(t, who)
    && n == t.calls + (if left > 0.0 then 0 else 1)
    && t.ended == at + (if left > 0.0 then Min(a.duration, left) else 0.0)
                     + (if t.exit.CutInBackoff? && a.cut.After? then a.cut.elapsed else 0.0)
  }

  lemma AsyncRoundRetries(p: Policy, env: Environment, who: nat, start: real, i: nat)
    requires Valid(p) && i >= 1 && AsyncRetries(p, env, start, i)
    ensures AsyncRound(p, env(i), who, start + p.timeout, i, AsyncStart(p, env, start, i))
         == Again(AsyncStart(p, env, start, i + 1))
  {
    var left := AsyncLeft(p, env, start, i);
    assert Backoff(p, i, left) == Delay(p, i, left);
  }

  lemma AsyncRoundStops(p: Policy, env: Environment, who: nat, start: real, n: nat)
    requires Valid(p) && 1 <= n <= p.maxAttempts && !AsyncRetries(p, env, start, n)
    ensures
      var at, left := AsyncStart(p, env, start, n), AsyncLeft(p, env, start, n);
      var round := AsyncRound(p, env(n), who, start + p.timeout, n, at);
      round.Done? && AsyncEnds(AddCalls(round.trace, n - 1), p, env(n), who, n, at, left)
  {
    var left := AsyncLeft(p, env, start, n);
    if left > 0.0 {
      assert Backoff(p, n, left) == Delay(p, n, left);
    }
  }

  lemma {:induction false} AsyncFrom(p: Policy, env: Environment, who: nat, start: real, k: nat, n: nat)
    requires Valid(p) && 1 <= k <= n && AsyncStopsAt(p, env, start, n)
    ensures
      var t := AsyncRun(p, env, who, start + p.timeout, k, AsyncStart(p, env, start, k));
      AsyncEnds(AddCalls(t, k - 1), p, env(n), who, n, AsyncStart(p, env, start, n), AsyncLeft(p, env, start, n))
    decreases n - k
  {
    if k == n {
      AsyncRoundStops(p, env, who, start, n);
    } else {
      AsyncRoundRetries(p, env, who, start, k);
      AsyncFrom(p, env, who, start, k + 1, n);
    }
  }

  /** The first attempt that is not retried decides how the call ends. */
  lemma AsyncCallEnds(p: Policy, env: Environment, who: nat, start: real, n: nat)
    requires Valid(p) && AsyncStopsAt(p, env, start, n)
    ensures AsyncEnds(AsyncRun(p, env, who, start + p.timeout, 1, start), p, env(n), who, n,
                      AsyncStart(p, env, start, n), AsyncLeft(p, env, start, n))
  {
    AsyncFrom(p, env, who, start, 1, n);
  }

  /** And there is one such attempt. */
  lemma AsyncStops(p: Policy, env: Environment, start: real) returns (n: nat)
    requires Valid(p)
    ensures AsyncStopsAt(p, env, start, n)
  {
    n := 1;
    while n < p.maxAttempts && AsyncRetries(p, env, start, n)
      invariant 1 <= n <= p.maxAttempts
      invariant forall i :: 1 <= i < n ==> AsyncRetries(p, env, start, i)
    {
      n := n + 1;
    }
  }

  lemma AsyncStopsOnce(p: Policy, env: Environment, start: real, m: nat, n: nat)
    requires AsyncStopsAt(p, env, start, m) && AsyncStopsAt(p, env, start, n)
    ensures m == n
  {
  }

  /** Attempt `n` is the first not to be retried, and returns while there is budget left. */
  predicate AsyncReturnsAt(p: Policy, env: Environment, start: real, n: nat) {
    && AsyncStopsAt(p, env, start, n)
    && AsyncLeft(p, env, start, n) > 0.0 && InTime(env(n), AsyncLeft(p, env, start, n)) && env(n).outcome.Returned?
  }

  /** An admitted call returns a value exactly when some attempt returns in time after all before it
      were retried; it reports success, once, at the instant that attempt returned. */
  lemma AsyncValueIff(p: Policy, env: Environment, who: nat, start: real)
    requires Valid(p)
    ensures
      var t := AsyncRun(p, env, who, start + p.timeout, 1, start);
      && (t.exit.Value? <==> exists n: nat :: AsyncReturnsAt(p, env, start, n))
      && (forall n: nat :: AsyncReturnsAt(p, env, start, n) ==>
            && t.calls == n && t.ended == AsyncStart(p, env, start, n) + env(n).duration
            && t.reports == [Event(Success, t.ended, who)])
  {
    var n := AsyncStops(p, env, start);
    AsyncCallEnds(p, env, who, start, n);
    assert AsyncRun(p, env, who, start + p.timeout, 1, start).exit.Value? <==> AsyncReturnsAt(p, env, start, n);
    forall m: nat | AsyncReturnsAt(p, env, start, m)
      ensures m == n
    {
      AsyncStopsOnce(p, env, start, m, n);
    }
  }

  // --------------------------------------------------------------- the blocking wrapper

  /** The worker slot comes within the budget, and the job is accepted. */
  predicate Submits(a: Attempt, left: real) { left > 0.0 && a.slotWait <= left && !a.submitFails }

  /** The time budget of the attempt, which starts with the job, runs out; or the job says so. */
  predicate TimesOut(a: Attempt, left: real) { !InTime(a, left) || a.outcome.RaisedTimeout? }

  /** When attempt `i` starts if all before it were retried: each waits for a slot, runs its job, and
      sleeps as long as what is left of the budget then allows. */
  function SyncStart(p: Policy, env: Environment, start: real, i: nat): real
    requires i >= 1
    decreases i, 0
  {
    if i == 1 then start
    else
      var failed := SyncFailed(p, env, start, i - 1);
      failed + Delay(p, i - 1, start + p.timeout - failed)
  }

  /** When the job of attempt `i` has failed. */
  function SyncFailed(p: Policy, env: Environment, start: real, i: nat): real
    requires i >= 1
    decreases i, 1
  {
    var before := SyncStart(p, env, start, i);
    before + env(i).slotWait + Min(env(i).duration, start + p.timeout - before)
  }

  function SyncLeft(p: Policy, env: Environment, start: real, i: nat): real
    requires i >= 1
  {
    start + p.timeout - SyncStart(p, env, start, i)
  }

  predicate SyncRetries(p: Policy, env: Environment, start: real, i: nat)
    requires i >= 1
  {
    var left := SyncLeft(p, env, start, i);
    && Submits(env(i), left) && !TimesOut(env(i), left) && env(i).outcome == Raised(true) && i < p.maxAttempts
    && SleepsWhole(env(i), Delay(p, i, start + p.timeout - SyncFailed(p, env, start, i)))
  }

  predicate SyncStopsAt(p: Policy, env: Environment, start: real, n: nat) {
    1 <= n <= p.maxAttempts && (forall i :: 1 <= i < n ==> SyncRetries(p, env, start, i))
    && !SyncRetries(p, env, start, n)
  }

  /** How attempt `n`, made or not, ends the call. */
  predicate SyncExit(t: Trace, p: Policy, a: Attempt, n: nat, left: real) {
    && (t.exit.BudgetExhausted? <==> left <= 0.0)
    && (t.exit.CapacityExhausted? <==> left > 0.0 && a.slotWait > left)
    && (t.exit.SubmitFailed? <==> left > 0.0 && a.slotWait <= left && a.submitFails)
    && (t.exit.Value? <==> Submits(a, left) && InTime(a, left) && a.outcome.Returned?)
    && (t.exit.FatalError? <==> Submits(a, left) && InTime(a, left) && (a.outcome.Cancelled? || a.outcome.Fatal?))
    && (t.exit == Error(true, true) <==> Submits(a, left) && TimesOut(a, left))
    && (forall r :: t.exit == Error(false, r) <==>
          Submits(a, left) && InTime(a, left) && a.outcome == Raised(r) && (n == p.maxAttempts || !r))
    && (t.exit.CutInBackoff? <==> Submits(a, left) && InTime(a, left) && a.outcome == Raised(true) && n < p.maxAttempts)
  }

  predicate SyncEnds(t: Trace, p: Policy, a: Attempt, who: nat, n: nat, at: real, left: real) {
    && SyncExit(t, p, a, n, left) && Reported(t, who)
    && n == t.calls + (if Submits(a, left) then 0 else 1)
    && t.ended == at + (if left > 0.0 then Min(a.slotWait, left) else 0.0)
                     + (if Submits(a, left) then Min(a.duration, left) else 0.0)
                     + (if t.exit.CutInBackoff? && a.cut.After? then a.cut.elapsed else 0.0)
  }

  lemma SyncRoundRetries(p: Policy, env: Environment, who: nat, start: real, i: nat)
    requires Valid(p) && i >= 1 && SyncRetries(p, env, start, i)
    ensures SyncRound(p, env(i), who, start + p.timeout, i, SyncStart(p, env, start, i))
         == Again(SyncStart(p, env, start, i + 1))
  {
    var left := start + p.timeout - SyncFailed(p, env, start, i);
    assert Backoff(p, i, if left > 0.0 then left else 0.0) == Delay(p, i, left);
  }

  lemma SyncRoundStops(p: Policy, env: Environment, who: nat, start: real, n: nat)
    requires Valid(p) && 1 <= n <= p.maxAttempts && !SyncRetries(p, env, start, n)
    ensures
      var at, left := SyncStart(p, env, start, n), SyncLeft(p, env, start, n);
      var round := SyncRound(p, env(n), who, start + p.timeout, n, at);
      round.Done? && SyncEnds(AddCalls(round.trace, n - 1), p, env(n), who, n, at, left)
  {
    var left := start + p.timeout - SyncFailed(p, env, start, n);
    assert Backoff(p, n, if left > 0.0 then left else 0.0) == Delay(p, n, left);
  }

  lemma {:induction false} SyncFrom(p: Policy, env: Environment, who: nat, start: real, k: nat, n: nat)
    requires Valid(p) && 1 <= k <= n && SyncStopsAt(p, env, start, n)
    ensures
      var t := SyncRun(p, env, who, start + p.timeout, k, SyncStart(p, env, start, k));
      SyncEnds(AddCalls(t, k - 1), p, env(n), who, n, SyncStart(p, env, start, n), SyncLeft(p, env, start, n))
    decreases n - k
  {
    if k == n {
      SyncRoundStops(p, env, who, start, n);
    } else {
      SyncRoundRetries(p, env, who, start, k);
      SyncFrom(p, env, who, start, k + 1, n);
    }
  }

  lemma SyncCallEnds(p: Policy, env: Environment, who: nat, start: real, n: nat)
    requires Valid(p) && SyncStopsAt(p, env, start, n)
    ensures SyncEnds(SyncRun(p, env, who, start + p.timeout, 1, start), p, env(n), who, n,
                     SyncStart(p, env, start, n), SyncLeft(p, env, start, n))
  {
    SyncFrom(p, env, who, start, 1, n);
  }

  lemma SyncStops(p: Policy, env: Environment, start: real) returns (n: nat)
    requires Valid(p)
    ensures SyncStopsAt(p, env, start, n)
  {
    n := 1;
    while n < p.maxAttempts && SyncRetries(p, env, start, n)
      invariant 1 <= n <= p.maxAttempts
      invariant forall i :: 1 <= i < n ==> SyncRetries(p, env, start, i)
    {
      n := n + 1;
    }
  }

  lemma SyncStopsOnce(p: Policy, env: Environment, start: real, m: nat, n: nat)
    requires SyncStopsAt(p, env, start, m) && SyncStopsAt(p, env, start, n)
    ensures m == n
  {
  }

  predicate SyncReturnsAt(p: Policy, env: Environment, start: real, n: nat) {
    && SyncStopsAt(p, env, start, n)
    && Submits(env(n), SyncLeft(p, env, start, n)) && InTime(env(n), SyncLeft(p, env, start, n))
    && env(n).outcome.Returned?
  }

  /** The same for the blocking wrapper. */
  lemma SyncValueIff(p: Policy, env: Environment, who: nat, start: real)
    requires Valid(p)
    ensures
      var t := SyncRun(p, env, who, start + p.timeout, 1, start);
      && (t.exit.Value? <==> exists n: nat :: SyncReturnsAt(p, env, start, n))
      && (forall n: nat :: SyncReturnsAt(p, env, start, n) ==>
            && t.calls == n && t.ended == SyncStart(p, env, start, n) + env(n).slotWait + env(n).duration
            && t.reports == [Event(Success, t.ended, who)])
  {
    var n := SyncStops(p, env, start);
    SyncCallEnds(p, env, who, start, n);
    assert SyncRun(p, env, who, start + p.timeout, 1, start).exit.Value? <==> SyncReturnsAt(p, env, start, n);
    forall m: nat | SyncReturnsAt(p, env, start, m)
      ensures m == n
    {
      SyncStopsOnce(p, env, start, m, n);
    }
  }

  /** A call is turned away exactly when its policy is invalid — no time, no attempt or a negative
      delay — or the breaker does not admit it; it then invokes nothing, reports nothing and takes no
      time.  Any other call has its timeout from when it starts. */
  lemma RefusedIff(c: Config, b: Breaker, p: Policy, env: Environment, who: nat, start: real)
    ensures
      var t, u := AsyncCall(c, b, p, env, who, start), SyncCall(c, b, p, env, who, start);
      if p.timeout <= 0.0 || p.maxAttempts < 1 || p.retryDelay < 0.0 then
        t == Trace(InvalidPolicy, start, 0, []) && u == t
      else if !Granted(c, b, start) then t == Trace(CircuitOpen, start, 0, []) && u == t
      else
        && t == AsyncRun(p, env, who, start + p.timeout, 1, start)
        && u == SyncRun(p, env, who, start + p.timeout, 1, start)
        && !t.exit.InvalidPolicy? && !t.exit.CircuitOpen? && !u.exit.InvalidPolicy? && !u.exit.CircuitOpen?
  {
    if Valid(p) {
      AsyncLoop(p, env, who, start + p.timeout, 1, start);
      SyncLoop(p, env, who, start + p.timeout, 1, start);
    }
  }

  // ----------------------------------------------------------- polling for a worker slot

  /** When poll `k` happens: every hundredth of a second, the last one at the deadline. */
  function PollAt(now: real, deadline: real, k: nat): real {
    if k == 0 then now else PollAt(now, deadline, k - 1) + Min(0.01, deadline - PollAt(now, deadline, k - 1))
  }

  /** Polls go on until one finds a slot free or one has been made at the deadline. */
  predicate PollsUntil(free: nat -> bool, now: real, deadline: real, poll: nat, k: nat) {
    (forall j: nat :: j < k ==> PollsOn(free, now, deadline, poll, j)) && !PollsOn(free, now, deadline, poll, k)
  }

  predicate PollsOn(free: nat -> bool, now: real, deadline: real, poll: nat, j: nat) {
    !free(poll + j) && PollAt(now, deadline, j) < deadline
  }

  lemma {:induction false} PollShift(now: real, deadline: real, k: nat)
    ensures PollAt(PollAt(now, deadline, 1), deadline, k) == PollAt(now, deadline, k + 1)
  {
    if k > 0 {
      PollShift(now, deadline, k - 1);
    }
  }

  /** The first poll that does not go on decides: a slot then if it was free, none otherwise. */
  lemma {:induction false} AcquireIs(free: nat -> bool, poll: nat, deadline: real, now: real, k: nat)
    requires PollsUntil(free, now, deadline, poll, k)
    ensures AcquireAt(free, poll, deadline, now) == (free(poll + k), PollAt(now, deadline, k))
    decreases k
  {
    if k > 0 {
      assert PollsOn(free, now, deadline, poll, 0);
      var next, after := PollAt(now, deadline, 1), poll + 1;
      forall j: nat | j < k - 1 ensures PollsOn(free, next, deadline, after, j) {
        PollShift(now, deadline, j);
        assert PollsOn(free, now, deadline, poll, j + 1);
      }
      PollShift(now, deadline, k - 1);
      AcquireIs(free, after, deadline, next, k - 1);
    }
  }

  // --------------------------------------------------------- the MCP retry interceptor

  predicate ToolInTime(a: ToolAttempt, left: real) { left > 0.0 && a.duration <= left }

  /** When invocation `i`, counted from zero, starts if all before it were retried. */
  function ToolStart(delay: Duration, env: nat -> ToolAttempt, start: real, i: nat): real {
    if i == 0 then start
    else ToolStart(delay, env, start, i - 1) + env(i - 1).duration + delay * Pow2(i - 1)
  }

  /** Invocation `i` of a read-only tool fails retryably, is not the last one allowed, and the wait
      after it ends before the deadline. */
  predicate ToolRetries(readOnly: bool, maxRetries: int, delay: Duration, env: nat -> ToolAttempt,
                        start: real, deadline: real, i: nat)
  {
    && readOnly && ToolInTime(env(i), deadline - ToolStart(delay, env, start, i)) && env(i).outcome == ToolError(true)
    && i + 1 < maxRetries && ToolStart(delay, env, start, i + 1) < deadline
  }

  predicate ToolStopsAt(readOnly: bool, maxRetries: int, delay: Duration, env: nat -> ToolAttempt,
                        start: real, deadline: real, n: nat)
  {
    && (forall i: nat :: i < n ==> ToolRetries(readOnly, maxRetries, delay, env, start, deadline, i))
    && !ToolRetries(readOnly, maxRetries, delay, env, start, deadline, n)
  }

  /** How invocation `n` ends the call. */
  predicate ToolEnds(t: ToolTrace, a: ToolAttempt, n: nat, at: real, left: real) {
    && (t.exit.Succeeded? <==> ToolInTime(a, left) && a.outcome.ToolResult?)
    && (t.exit.ToolTaskCancelled? <==> ToolInTime(a, left) && a.outcome.ToolCancelled?)
    && (t.exit == ErrorResult(false) <==> ToolInTime(a, left) && a.outcome.ToolError?)
    && (t.exit == ErrorResult(true) <==> !ToolInTime(a, left))
    && t.calls == n + 1 && t.ended == at + (if left > 0.0 then Min(a.duration, left) else 0.0)
  }

  lemma {:induction false} ToolFrom(readOnly: bool, maxRetries: int, delay: Duration, env: nat -> ToolAttempt,
                                    start: real, deadline: real, k: nat, n: nat)
    requires k <= n && ToolStopsAt(readOnly, maxRetries, delay, env, start, deadline, n)
    ensures
      var t := ToolRun(readOnly, maxRetries, delay, env, deadline, k, ToolStart(delay, env, start, k));
      var at := ToolStart(delay, env, start, n);
      ToolEnds(t.(calls := t.calls + k), env(n), n, at, deadline - at)
    decreases n - k
  {
    if k < n {
      assert ToolRetries(readOnly, maxRetries, delay, env, start, deadline, k);
      ToolFrom(readOnly, maxRetries, delay, env, start, deadline, k + 1, n);
    }
  }

  /** The first invocation that is not retried decides how the interceptor answers. */
  lemma ToolCallEnds(readOnly: bool, maxRetries: int, delay: real, timeout: real, env: nat -> ToolAttempt,
                     start: real, n: nat)
    requires maxRetries >= 1 && delay >= 0.0 && timeout > 0.0
    requires ToolStopsAt(readOnly, maxRetries, delay, env, start, start + timeout, n)
    ensures
      var at := ToolStart(delay, env, start, n);
      ToolEnds(ToolCall(readOnly, maxRetries, delay, timeout, env, start), env(n), n, at, start + timeout - at)
  {
    ToolFrom(readOnly, maxRetries, delay, env, start, start + timeout, 0, n);
  }

  /** The interceptor refuses its arguments before it invokes anything. */
  lemma ToolRefusedIff(readOnly: bool, maxRetries: int, delay: real, timeout: real, env: nat -> ToolAttempt,
                       start: real)
    ensures
      var t := ToolCall(readOnly, maxRetries, delay, timeout, env, start);
      && (t.exit.InvalidArguments? <==> maxRetries < 1 || delay < 0.0 || timeout <= 0.0)
      && (t.exit.InvalidArguments? <==> t.calls == 0) && (t.exit.InvalidArguments? ==> t.ended == start)
  {
    if maxRetries >= 1 && delay >= 0.0 && timeout > 0.0 {
      var n := ToolStops(readOnly, maxRetries, delay, timeout, env, start);
      ToolCallEnds(readOnly, maxRetries, delay, timeout, env, start, n);
    }
  }

  lemma ToolStops(readOnly: bool, maxRetries: int, delay: real, timeout: real, env: nat -> ToolAttempt, start: real)
    returns (n: nat)
    requires maxRetries >= 1 && delay >= 0.0 && timeout > 0.0
    ensures ToolStopsAt(readOnly, maxRetries, delay, env, start, start + timeout, n)
  {
    n := 0;
    var deadline := start + timeout;
    while ToolRetries(readOnly, maxRetries, delay, env, start, deadline, n)
      invariant n < maxRetries
      invariant forall i: nat :: i < n ==> ToolRetries(readOnly, maxRetries, delay, env, start, deadline, i)
      decreases maxRetries - n
    {
      n := n + 1;
    }
  }
}
