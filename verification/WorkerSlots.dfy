/** The shared worker slots: a semaphore of eight permits in front of a pool of eight threads.

    A permit is taken before a job is submitted and given back by the job itself, when the blocking
    call returns.  A caller that gives up cancels its future; the pool honours that only for a job
    no thread has picked up yet, and such a job never runs and never gives its permit back. */
module WorkerSlots {

  const CAPACITY: nat := 8

  type Job = nat

  datatype Pool = Pool(
    free: nat,
    seen: set<Job>,       // every job that ever took a permit
    held: set<Job>,       // permit taken, not submitted yet
    queued: set<Job>,     // submitted, waiting for a thread
    running: set<Job>,    // inside the blocking call
    finishing: set<Job>)  // call returned and permit released, thread not idle yet

  datatype Step =
    | TakePermit(j: Job)
    | SubmitFails(j: Job)
    | Submit(j: Job)
    | Begin(j: Job)
    | Return(j: Job)
    | Retire(j: Job)
    | GiveUp(j: Job)

  const EMPTY := Pool(CAPACITY, {}, {}, {}, {}, {})

  predicate Enabled(p: Pool, s: Step) {
    match s
    case TakePermit(j) => p.free > 0 && j !in p.seen
    case SubmitFails(j) => j in p.held
    case Submit(j) => j in p.held
    case Begin(j) => j in p.queued && |p.running| + |p.finishing| < CAPACITY
    case Return(j) => j in p.running
    case Retire(j) => j in p.finishing
    case GiveUp(j) => j in p.seen && j !in p.held
  }

  function Next(p: Pool, s: Step): Pool {
    match s
    case TakePermit(j) => p.(free := if p.free > 0 then p.free - 1 else 0, seen := p.seen + {j}, held := p.held + {j})
    case SubmitFails(j) => p.(free := p.free + 1, held := p.held - {j})
    case Submit(j) => p.(held := p.held - {j}, queued := p.queued + {j})
    case Begin(j) => p.(queued := p.queued - {j}, running := p.running + {j})
    case Return(j) => p.(free := p.free + 1, running := p.running - {j}, finishing := p.finishing + {j})
    case Retire(j) => p.(finishing := p.finishing - {j})
    case GiveUp(j) => p.(queued := p.queued - {j})
  }

  function After(run: seq<Step>): Pool {
    if run == [] then EMPTY else Next(After(run[..|run| - 1]), run[|run| - 1])
  }

  predicate Possible(run: seq<Step>) {
    run == [] || (Possible(run[..|run| - 1]) && Enabled(After(run[..|run| - 1]), run[|run| - 1]))
  }

  /** Gives up on a job that is still queued. */
  predicate DropsQueued(p: Pool, s: Step) { s.GiveUp? && s.j in p.queued }

  function Dropped(run: seq<Step>): nat {
    if run == [] then 0
    else
      var n := |run| - 1;
      Dropped(run[..n]) + if DropsQueued(After(run[..n]), run[n]) then 1 else 0
  }

  predicate Separate(p: Pool) {
    && p.held <= p.seen && p.queued <= p.seen && p.running <= p.seen && p.finishing <= p.seen
    && p.held !! p.queued && p.held !! p.running && p.held !! p.finishing
    && p.queued !! p.running && p.queued !! p.finishing && p.running !! p.finishing
  }

  function InUse(p: Pool): nat { |p.held| + |p.queued| + |p.running| }

  lemma Resize<T>(s: set<T>, x: T)
    ensures x !in s ==> |s + {x}| == |s| + 1
    ensures x in s ==> |s - {x}| == |s| - 1
    ensures x !in s ==> s - {x} == s
  {
    if x in s { assert s == (s - {x}) + {x}; }
  }

  datatype Place = Nowhere | Held | Queued | Running | Finishing

  function PlaceOf(p: Pool, j: Job): Place {
    if j in p.held then Held
    else if j in p.queued then Queued
    else if j in p.running then Running
    else if j in p.finishing then Finishing
    else Nowhere
  }

  /** A step leaves every job but its own where it is. */
  lemma OthersStay(p: Pool, s: Step, j: Job)
    requires j != s.j
    ensures PlaceOf(Next(p, s), j) == PlaceOf(p, j)
  {
  }

  /** A job goes from its permit to the queue, to a thread, and out of it; it may be refused by the
      pool, or dropped from the queue, and never comes back. */
  lemma JobMoves(p: Pool, s: Step)
    requires Separate(p) && Enabled(p, s)
    ensures Next(p, s).seen == p.seen + if s.TakePermit? then {s.j} else {}
    ensures
      var before, after := PlaceOf(p, s.j), PlaceOf(Next(p, s), s.j);
      match s
      case TakePermit(j) => j !in p.seen && before == Nowhere && after == Held
      case SubmitFails(_) => before == Held && after == Nowhere
      case Submit(_) => before == Held && after == Queued
      case Begin(_) => before == Queued && after == Running
      case Return(_) => before == Running && after == Finishing
      case Retire(_) => before == Finishing && after == Nowhere
      case GiveUp(_) => before != Held && after == if before == Queued then Nowhere else before
  {
  }

  /** And it can always move on, a queued one as soon as a thread is idle. */
  lemma JobCanMoveOn(p: Pool, j: Job)
    requires Separate(p)
    ensures
      match PlaceOf(p, j)
      case Nowhere => j !in p.seen ==> (Enabled(p, TakePermit(j)) <==> p.free > 0)
      case Held => Enabled(p, Submit(j)) && Enabled(p, SubmitFails(j))
      case Queued => Enabled(p, GiveUp(j)) && (Enabled(p, Begin(j)) <==> |p.running| + |p.finishing| < 8)
      case Running => Enabled(p, Return(j))
      case Finishing => Enabled(p, Retire(j))
  {
  }

  lemma ThreadStep(p: Pool, s: Step)
    requires Separate(p) && Enabled(p, s) && |p.running| + |p.finishing| <= 8
    ensures |Next(p, s).running| + |Next(p, s).finishing| <= 8
  {
    Resize(p.running, s.j);
    Resize(p.finishing, s.j);
  }

  lemma SlotStep(p: Pool, s: Step)
    requires Separate(p) && Enabled(p, s)
    ensures Separate(Next(p, s))
    ensures Next(p, s).free + InUse(Next(p, s))
         == p.free + InUse(p) - if DropsQueued(p, s) then 1 else 0
  {
    Resize(p.held, s.j);
    Resize(p.queued, s.j);
    Resize(p.running, s.j);
  }

  /** Over every interleaving the permits add up to the capacity, less one for every job that was
      cancelled while queued: those permits are never given back. */
  lemma {:induction false} SlotConservation(run: seq<Step>)
    requires Possible(run)
    ensures Separate(After(run))
    ensures After(run).free + InUse(After(run)) + Dropped(run) == CAPACITY
  {
    if run != [] {
      var n := |run| - 1;
      SlotConservation(run[..n]);
      SlotStep(After(run[..n]), run[n]);
    }
  }

  /** No more than eight threads are ever busy. */
  lemma {:induction false} ThreadsWithinPool(run: seq<Step>)
    requires Possible(run)
    ensures |After(run).running| + |After(run).finishing| <= 8
  {
    if run != [] {
      var n := |run| - 1;
      ThreadsWithinPool(run[..n]);
      SlotConservation(run[..n]);
      ThreadStep(After(run[..n]), run[n]);
    }
  }

  predicate DroppedAt(run: seq<Step>, k: nat)
    requires k < |run|
  {
    DropsQueued(After(run[..k]), run[k])
  }

  predicate NeverDropped(run: seq<Step>) {
    forall k :: 0 <= k < |run| ==> !DroppedAt(run, k)
  }

  lemma {:induction false} DroppedIffSomeDrop(run: seq<Step>)
    ensures Dropped(run) == 0 <==> NeverDropped(run)
  {
    if run != [] {
      var n := |run| - 1;
      DroppedIffSomeDrop(run[..n]);
      forall k | 0 <= k < n ensures DroppedAt(run[..n], k) == DroppedAt(run, k) {
        assert run[..n][..k] == run[..k];
      }
      assert DroppedAt(run, n) == DropsQueued(After(run[..n]), run[n]);
    }
  }

  /** All eight permits stay accounted for exactly when nobody gives up on a queued job. */
  lemma AllPermitsAccountedIff(run: seq<Step>)
    requires Possible(run)
    ensures After(run).free + InUse(After(run)) == CAPACITY <==> NeverDropped(run)
  {
    SlotConservation(run);
    DroppedIffSomeDrop(run);
  }

  /** A queued job never waits behind another blocking call: for every queued job there is a
      thread of its own that is not inside one. */
  lemma QueuedJobsHaveThreads(run: seq<Step>)
    requires Possible(run)
    ensures |After(run).queued| <= CAPACITY - |After(run).running|
  {
    SlotConservation(run);
  }

  /** A job that began keeps its permit, whatever its caller does, until its own call returns. */
  lemma {:induction false} RunningKeepsPermit(run: seq<Step>, more: seq<Step>, j: Job)
    requires Possible(run + more) && j in After(run).running
    requires Return(j) !in more
    ensures j in After(run + more).running && Possible(run)
    ensures After(run + more).free <= CAPACITY - 1
  {
    if more == [] {
      assert run + more == run;
    } else {
      var n := |more| - 1;
      assert (run + more)[..|run + more| - 1] == run + more[..n];
      RunningKeepsPermit(run, more[..n], j);
      assert more[n] in more;
    }
    SlotConservation(run + more);
    assert |After(run + more).running| > 0;
  }

  /** Eight dropped jobs close the pool for good: no permit is ever handed out again. */
  lemma EightDropsStarve(run: seq<Step>, more: seq<Step>)
    requires Possible(run + more) && Possible(run) && Dropped(run) == CAPACITY
    ensures forall j :: !Enabled(After(run + more), TakePermit(j))
  {
    SlotConservation(run + more);
    DroppedGrows(run, more);
  }

  lemma {:induction false} DroppedGrows(run: seq<Step>, more: seq<Step>)
    ensures Dropped(run) <= Dropped(run + more)
  {
    if more == [] {
      assert run + more == run;
    } else {
      assert (run + more)[..|run + more| - 1] == run + more[..|more| - 1];
      DroppedGrows(run, more[..|more| - 1]);
    }
  }
}
