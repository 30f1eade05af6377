/** The sampler's promises over whole runs, from a fresh sampler, in every interleaving. */
module SamplerTheorems {
  import opened Telemetry
  import opened SamplerProtocol
  import opened SamplerSafety

  lemma {:induction false} RunKeepsInv(s: State, steps: seq<Step>)
    requires Inv(s) && ValidRun(s, steps)
    ensures Inv(Exec(s, steps)) && Later(s.shared, Exec(s, steps).shared)
    decreases |steps|
  {
    if steps != [] {
      StepKeepsInv(s, steps[0]);
      RunKeepsInv(Apply(s, steps[0]), steps[1..]);
      LaterIsTransitive(s.shared, Apply(s, steps[0]).shared, Exec(s, steps).shared);
    }
  }

  lemma LaterIsTransitive(a: Shared, b: Shared, c: Shared)
    requires Later(a, b) && Later(b, c)
    ensures Later(a, c)
  {
  }

  lemma InitInv(capacity: nat)
    requires capacity > 0
    ensures Inv(Init(capacity))
  {
  }

  lemma Reachable(capacity: nat, steps: seq<Step>)
    requires capacity > 0 && ValidRun(Init(capacity), steps)
    ensures Inv(Exec(Init(capacity), steps)) && Exec(Init(capacity), steps).shared.capacity == capacity
  {
    InitInv(capacity);
    RunKeepsInv(Init(capacity), steps);
  }

  // ---- The history ----

  /** The history is the last min(N, capacity) of the N publications, numbered N-|history|+1 .. N. */
  lemma HistoryIsTheNewest(capacity: nat, steps: seq<Step>)
    requires capacity > 0 && ValidRun(Init(capacity), steps)
    ensures var sh := Exec(Init(capacity), steps).shared;
      && |sh.history| == (if |sh.log| < capacity then |sh.log| else capacity)
      && forall k | 0 <= k < |sh.history| ::
           var n := |sh.log| - |sh.history| + k;
           sh.history[k] == Item(n + 1, sh.log[n].snapshot, sh.log[n].sampledAt)
  {
    Reachable(capacity, steps);
    var sh := Exec(Init(capacity), steps).shared;
    forall k | 0 <= k < |sh.history|
      ensures sh.history[k] == Numbered(sh.log, |sh.log| - |sh.history| + k)
    {
      RingAt(sh, k);
    }
  }

  // ---- Workers and stop ----

  /** At most one worker is ever alive, and it is the one the sampler knows. */
  lemma OneWorkerAtATime(capacity: nat, steps: seq<Step>)
    requires capacity > 0 && ValidRun(Init(capacity), steps)
    ensures var sh := Exec(Init(capacity), steps).shared;
      forall v: nat, w: nat :: sh.Alive(v) && sh.Alive(w) ==> v == w && sh.thread == Some(v)
  {
    Reachable(capacity, steps);
  }

  /** No step clears the stop event while a worker is alive. */
  lemma StopEventOutlivesWorker(s: State, step: Step, w: nat)
    requires Inv(s) && Enabled(s, step) && s.shared.stopEvent && s.shared.Alive(w)
    ensures Apply(s, step).shared.stopEvent
  {
  }

  function Published(log: seq<Entry>, w: nat): nat {
    if log == [] then 0
    else Published(log[..|log| - 1], w) + if log[|log| - 1].worker == w then 1 else 0
  }

  /** What a worker may still publish once the stop event is set: one snapshot it is already collecting. */
  function Budget(sh: Shared, w: nat): nat {
    if w < |sh.workers| && (sh.workers[w].Collecting? || sh.workers[w].Publishing?) then 1 else 0
  }

  ghost predicate Stopping(sh: Shared, w: nat) {
    w < |sh.workers| && (sh.stopEvent || sh.workers[w] == Dead)
  }

  lemma StepSpendsBudget(s: State, step: Step, w: nat)
    requires Inv(s) && Enabled(s, step) && Stopping(s.shared, w)
    ensures var s' := Apply(s, step);
      && Stopping(s'.shared, w)
      && Published(s'.shared.log, w) + Budget(s'.shared, w) <= Published(s.shared.log, w) + Budget(s.shared, w)
  {
    StepIsLater(s, step);
    if step.Publish? {
      var p := s.shared.workers[step.worker];
      assert (s.shared.log + [Entry(step.worker, p.snapshot, p.sampledAt)])[..|s.shared.log|] == s.shared.log;
    }
  }

  lemma {:induction false} RunSpendsBudget(s: State, steps: seq<Step>, w: nat)
    requires Inv(s) && ValidRun(s, steps) && Stopping(s.shared, w)
    ensures var s' := Exec(s, steps);
      Published(s'.shared.log, w) + Budget(s'.shared, w) <= Published(s.shared.log, w) + Budget(s.shared, w)
    decreases |steps|
  {
    if steps != [] {
      StepKeepsInv(s, steps[0]);
      StepSpendsBudget(s, steps[0], w);
      RunSpendsBudget(Apply(s, steps[0]), steps[1..], w);
    }
  }

  lemma {:induction false} RunSplits(s: State, before: seq<Step>, after: seq<Step>)
    requires ValidRun(s, before + after)
    ensures ValidRun(s, before) && ValidRun(Exec(s, before), after)
    ensures Exec(s, before + after) == Exec(Exec(s, before), after)
    decreases |before|
  {
    if before == [] {
      assert before + after == after;
    } else {
      assert (before + after)[1..] == before[1..] + after;
      RunSplits(Apply(s, before[0]), before[1..], after);
    }
  }

  /** After stop() has set the event, no worker that exists then publishes more than once. */
  lemma StopAllowsOneMore(capacity: nat, before: seq<Step>, stop: Step, after: seq<Step>, w: nat)
    requires capacity > 0 && ValidRun(Init(capacity), before + [stop] + after)
    requires stop.RequestStop? || stop.CallbackStop?
    requires ValidRun(Init(capacity), before + [stop]) && w < |Exec(Init(capacity), before + [stop]).shared.workers|
    ensures var asked, end := Exec(Init(capacity), before + [stop]).shared, Exec(Init(capacity), before + [stop] + after).shared;
      && Published(end.log, w) <= Published(asked.log, w) + Budget(asked, w)
      && Published(end.log, w) <= Published(asked.log, w) + 1
  {
    var s0 := Init(capacity);
    RunSplits(s0, before + [stop], after);
    RunSplits(s0, before, [stop]);
    Reachable(capacity, before + [stop]);
    var s := Exec(s0, before);
    assert Exec(s, [stop]) == Apply(s, stop);
    RunSpendsBudget(Exec(s0, before + [stop]), after, w);
  }

  /** A stop() that returned found its worker dead: that worker never publishes again, whatever restarts follow. */
  lemma ReturnedStopIsFinal(capacity: nat, before: seq<Step>, after: seq<Step>, c: nat)
    requires capacity > 0 && ValidRun(Init(capacity), before) && ValidRun(Exec(Init(capacity), before), after)
    requires c < |Exec(Init(capacity), before).callers| && Exec(Init(capacity), before).callers[c].StopReturned?
    ensures var s := Exec(Init(capacity), before);
      var w := s.callers[c].worker;
      && w < |s.shared.workers| && s.shared.workers[w] == Dead
      && Published(Exec(s, after).shared.log, w) == Published(s.shared.log, w)
  {
    Reachable(capacity, before);
    var s := Exec(Init(capacity), before);
    assert CallerInv(s.callers[c], s.shared);
    RunSpendsBudget(s, after, s.callers[c].worker);
    RunKeepsInv(s, after);
    PublishedGrows(s.shared.log, Exec(s, after).shared.log, s.callers[c].worker);
  }

  lemma {:induction false} PublishedGrows(log: seq<Entry>, log': seq<Entry>, w: nat)
    requires log <= log'
    ensures Published(log, w) <= Published(log', w)
    decreases |log'|
  {
    if log != log' {
      PublishedGrows(log, log'[..|log'| - 1], w);
    }
  }

  /** A stop request is never lost: until its worker is dead the event stays set, whatever start() does. */
  lemma StopRequestIsNeverLost(capacity: nat, steps: seq<Step>, c: nat)
    requires capacity > 0 && ValidRun(Init(capacity), steps)
    requires c < |Exec(Init(capacity), steps).callers|
    ensures var s := Exec(Init(capacity), steps);
      s.callers[c].Joining? || s.callers[c].StopTimedOut? ==>
        s.shared.stopEvent || !s.shared.Alive(s.callers[c].worker)
  {
    Reachable(capacity, steps);
    var s := Exec(Init(capacity), steps);
    assert s.callers[c] in s.callers;
  }

  // ---- Iterators ----

  lemma {:induction false} DeliveriesIncrease(d: seq<Delivery>, log: seq<Entry>, capacity: nat, j: nat, k: nat)
    requires DeliveriesInv(d, log, capacity) && j < k < |d|
    ensures d[j].item.sequence < d[k].item.sequence
  {
    if j < k - 1 {
      DeliveriesIncrease(d, log, capacity, j, k - 1);
    }
  }

  /** Number `n` falls between delivery `k` and the one before it. */
  predicate Skipped(d: seq<Delivery>, k: nat, n: int)
    requires k < |d|
  {
    (if k == 0 then 0 else d[k - 1].item.sequence) < n < d[k].item.sequence
  }

  /**
   * An iterator delivers publications in order, each as it was published; it skips a number only if
   * that number had been evicted when the later batch was taken; and one that returned had delivered
   * the newest publication there was.
   */
  lemma IteratorsAreFaithful(capacity: nat, steps: seq<Step>, i: nat)
    requires capacity > 0 && ValidRun(Init(capacity), steps)
    requires i < |Exec(Init(capacity), steps).iterators|
    ensures var s := Exec(Init(capacity), steps);
      var d, log := s.iterators[i].delivered, s.shared.log;
      && (forall j, k :: 0 <= j < k < |d| ==> d[j].item.sequence < d[k].item.sequence)
      && (forall k | 0 <= k < |d| ::
           && 1 <= d[k].item.sequence <= |log|
           && d[k].item == Numbered(log, d[k].item.sequence - 1))
      && (forall k, n | 0 <= k < |d| && Skipped(d, k, n) :: n <= d[k].takenAt - capacity)
      && (s.iterators[i].state.Returned? ==>
           s.iterators[i].state.published == if d == [] then 0 else d[|d| - 1].item.sequence)
  {
    Reachable(capacity, steps);
    var s := Exec(Init(capacity), steps);
    var d, log := s.iterators[i].delivered, s.shared.log;
    assert s.iterators[i] in s.iterators;
    forall j, k | 0 <= j < k < |d| ensures d[j].item.sequence < d[k].item.sequence {
      DeliveriesIncrease(d, log, capacity, j, k);
    }
  }

  /** An iterator returns only with no worker alive and nothing left to deliver. */
  lemma ReturnMeansDrained(s: State, i: nat)
    requires Inv(s) && Enabled(s, Check(i)) && Apply(s, Check(i)).iterators[i].state.Returned?
    ensures forall w :: !s.shared.Alive(w)
    ensures s.iterators[i].next == |s.shared.log| + 1
  {
    assert s.iterators[i] in s.iterators;
    LookKeeps(s.iterators[i], s.shared);
  }

  // ---- Waiters ----

  /** An iterator that waits has delivered everything published: a publication never leaves one waiting. */
  lemma WaitersHaveNothingToTake(capacity: nat, steps: seq<Step>, i: nat)
    requires capacity > 0 && ValidRun(Init(capacity), steps)
    ensures var s := Exec(Init(capacity), steps);
      i < |s.iterators| && s.iterators[i].state.Parked? ==>
        && s.iterators[i].next == |s.shared.log| + 1
        && forall item <- s.shared.history :: item.sequence < s.iterators[i].next
  {
    Reachable(capacity, steps);
    var s := Exec(Init(capacity), steps);
    assert i < |s.iterators| ==> s.iterators[i] in s.iterators;
    forall item | item in s.shared.history ensures item.sequence <= |s.shared.log| {
      var k :| 0 <= k < |s.shared.history| && s.shared.history[k] == item;
      RingAt(s.shared, k);
    }
  }

  /** A publication, a stop request and the worker's exit each wake every waiter, and nothing else does. */
  lemma NotificationsWakeEveryWaiter(s: State, step: Step, i: nat)
    requires Enabled(s, step) && i < |s.iterators| && s.iterators[i].state.Parked?
    ensures i < |Apply(s, step).iterators|
    ensures Apply(s, step).iterators[i].state.Parked? <==>
      !step.Publish? && !step.RequestStop? && !step.CallbackStop? && !step.RunFinally?
  {
  }

  // ---- What a worker goes on to do ----

  /** A pass of the loop that nobody stops publishes what was collected, and comes back to the test. */
  lemma PassPublishes(s: State, w: nat, x: Snapshot, at: real)
    requires Inv(s) && WorkerIs(s, w, TestingStop) && !s.shared.stopEvent
    ensures var steps := [TestStop(w), Collected(w, x, at), Publish(w), CallbackDone(w), WaitElapsed(w)];
      && ValidRun(s, steps)
      && var s' := Exec(s, steps);
        && WorkerIs(s', w, TestingStop) && !s'.shared.stopEvent
        && s'.shared.log == s.shared.log + [Entry(w, x, at)]
        && s'.shared.history == Ring(s'.shared.log, s'.shared.capacity)
  {
    PassUntilPublication(s, w, x, at);
    hide Inv;
    var s3 := Apply(Apply(Apply(s, TestStop(w)), Collected(w, x, at)), Publish(w));
    PassAfterPublication(s3, w);
    hide Enabled, Apply;
    var steps := [TestStop(w), Collected(w, x, at), Publish(w), CallbackDone(w), WaitElapsed(w)];
    FiveSteps(s, TestStop(w), Collected(w, x, at), Publish(w), CallbackDone(w), WaitElapsed(w));
    RunKeepsInv(s, steps);
    RingOfInv(Exec(s, steps));
  }

  lemma RingOfInv(s: State)
    requires Inv(s)
    ensures s.shared.history == Ring(s.shared.log, s.shared.capacity)
  {
  }

  lemma PassUntilPublication(s: State, w: nat, x: Snapshot, at: real)
    requires WorkerIs(s, w, TestingStop) && !s.shared.stopEvent
    ensures Enabled(s, TestStop(w)) && Enabled(Apply(s, TestStop(w)), Collected(w, x, at))
    ensures Enabled(Apply(Apply(s, TestStop(w)), Collected(w, x, at)), Publish(w))
    ensures var s3 := Apply(Apply(Apply(s, TestStop(w)), Collected(w, x, at)), Publish(w));
      WorkerIs(s3, w, InCallback) && !s3.shared.stopEvent && s3.shared.log == s.shared.log + [Entry(w, x, at)]
  {
  }

  lemma PassAfterPublication(s: State, w: nat)
    requires WorkerIs(s, w, InCallback) && !s.shared.stopEvent
    ensures Enabled(s, CallbackDone(w)) && Enabled(Apply(s, CallbackDone(w)), WaitElapsed(w))
    ensures var s2 := Apply(Apply(s, CallbackDone(w)), WaitElapsed(w));
      WorkerIs(s2, w, TestingStop) && !s2.shared.stopEvent && s2.shared.log == s.shared.log
  {
  }

  lemma StepThen(s: State, a: Step, rest: seq<Step>)
    requires Enabled(s, a) && ValidRun(Apply(s, a), rest)
    ensures ValidRun(s, [a] + rest) && Exec(s, [a] + rest) == Exec(Apply(s, a), rest)
  {
    assert ([a] + rest)[1..] == rest;
  }

  lemma FiveSteps(s: State, a: Step, b: Step, c: Step, d: Step, e: Step)
    requires Enabled(s, a) && Enabled(Apply(s, a), b) && Enabled(Apply(Apply(s, a), b), c)
    requires Enabled(Apply(Apply(Apply(s, a), b), c), d)
    requires Enabled(Apply(Apply(Apply(Apply(s, a), b), c), d), e)
    ensures ValidRun(s, [a, b, c, d, e])
    ensures Exec(s, [a, b, c, d, e]) == Apply(Apply(Apply(Apply(Apply(s, a), b), c), d), e)
  {
    hide Enabled, Apply;
    var s1 := Apply(s, a);
    var s2 := Apply(s1, b);
    var s3 := Apply(s2, c);
    var s4 := Apply(s3, d);
    StepThen(s4, e, []);
    StepThen(s3, d, [e]);
    StepThen(s2, c, [d, e]);
    StepThen(s1, b, [c, d, e]);
    StepThen(s, a, [b, c, d, e]);
    assert [d] + [e] == [d, e] && [c] + [d, e] == [c, d, e];
    assert [b] + [c, d, e] == [b, c, d, e] && [a] + [b, c, d, e] == [a, b, c, d, e];
  }

  /** A sampler without a live worker can be started: the new worker will test a clear stop event. */
  lemma RestartTakesEffect(s: State)
    requires Inv(s) && !s.shared.ThreadAlive()
    ensures var s' := Apply(Apply(s, Step.Start), Begin(|s.shared.workers|));
      && WorkerIs(s', |s.shared.workers|, TestingStop) && !s'.shared.stopEvent
      && s'.shared.thread == Some(|s.shared.workers|)
      && s'.shared.log == s.shared.log && s'.shared.history == s.shared.history && s'.shared.sequence == s.shared.sequence
  {
  }

  /** A worker that sees the stop event leaves, notifies and dies without another publication. */
  lemma StoppedWorkerLeaves(s: State, w: nat)
    requires WorkerIs(s, w, TestingStop) && s.shared.stopEvent
    ensures Enabled(s, TestStop(w)) && Enabled(Apply(s, TestStop(w)), RunFinally(w))
    ensures Enabled(Apply(Apply(s, TestStop(w)), RunFinally(w)), Die(w))
    ensures var s' := Apply(Apply(Apply(s, TestStop(w)), RunFinally(w)), Die(w));
      !s'.shared.Alive(w) && s'.shared.log == s.shared.log
  {
  }

  // ---- Waiters that nobody wakes ----

  ghost predicate Stranded(s: State, i: nat) {
    i < |s.iterators| && s.iterators[i].state.Parked? && forall w :: !s.shared.Alive(w)
  }

  /** Stranded are exactly the iterators that went to wait after the last notification of a worker now dead. */
  lemma OnlyLateWaitersAreStranded(capacity: nat, steps: seq<Step>, i: nat)
    requires capacity > 0 && ValidRun(Init(capacity), steps)
    ensures var s := Exec(Init(capacity), steps);
      Stranded(s, i) <==> i < |s.iterators| && s.iterators[i].state == Parked(true) && !s.shared.ThreadAlive()
  {
    Reachable(capacity, steps);
    var s := Exec(Init(capacity), steps);
    assert i < |s.iterators| ==> s.iterators[i] in s.iterators;
  }

  /** A sampler with one worker, one iterator and nothing published. */
  function Quiet(capacity: nat, stop: bool, w: WorkerState, callers: seq<CallerState>, it: IteratorState): State {
    State(Shared(capacity, [], 0, stop, Some(0), [w], []), callers, [Iterator(1, it, 0, [])])
  }

  lemma QuietWorkerStep(capacity: nat, w: WorkerState, it: IteratorState, step: Step, w': WorkerState)
    requires (step == Begin(0) && w == Started && w' == TestingStop)
          || (step == TestStop(0) && w == TestingStop && w' == Leaving)
          || (step == RunFinally(0) && w == Leaving && w' == PastFinally && it == Checking)
          || (step == Die(0) && w == PastFinally && w' == Dead)
    ensures Enabled(Quiet(capacity, true, w, [Joining(0)], it), step)
    ensures Apply(Quiet(capacity, true, w, [Joining(0)], it), step) == Quiet(capacity, true, w', [Joining(0)], it)
  {
    var s := Quiet(capacity, true, w, [Joining(0)], it);
    assert [w][0 := w'] == [w'];
    if step.RunFinally? {
      assert Wake(s.iterators) == s.iterators;
    }
  }

  lemma QuietStart(capacity: nat) returns (steps: seq<Step>)
    requires capacity > 0
    ensures ValidRun(Init(capacity), steps)
    ensures Exec(Init(capacity), steps) == Quiet(capacity, true, Started, [Joining(0)], Checking)
  {
    var s0 := Init(capacity);
    var s1 := Apply(s0, Step.Start);
    var s2 := Apply(s1, NewCaller);
    var s3 := Apply(s2, OpenIterator);
    var s4 := Apply(s3, Step.RequestStop(0));
    assert s3 == Quiet(capacity, false, Started, [Idle], Checking);
    assert s4 == Quiet(capacity, true, Started, [Joining(0)], Checking);
    steps := Prepend(s3, Step.RequestStop(0), []);
    steps := Prepend(s2, OpenIterator, steps);
    steps := Prepend(s1, NewCaller, steps);
    steps := Prepend(s0, Step.Start, steps);
  }

  lemma QuietLook(capacity: nat)
    ensures var s := Quiet(capacity, true, PastFinally, [Joining(0)], Checking);
      Enabled(s, Check(0)) && Apply(s, Check(0)) == Quiet(capacity, true, PastFinally, [Joining(0)], Parked(true))
  {
    var s := Quiet(capacity, true, PastFinally, [Joining(0)], Checking);
    assert Available(s.shared.history, 1) == [];
  }

  lemma QuietEnd(capacity: nat) returns (steps: seq<Step>)
    ensures var s := Quiet(capacity, true, Started, [Joining(0)], Checking);
      ValidRun(s, steps) && Exec(s, steps) == Quiet(capacity, true, Dead, [Joining(0)], Parked(true))
  {
    var quiet := (w: WorkerState, it: IteratorState) => Quiet(capacity, true, w, [Joining(0)], it);
    QuietWorkerStep(capacity, Started, Checking, Begin(0), TestingStop);
    QuietWorkerStep(capacity, TestingStop, Checking, TestStop(0), Leaving);
    QuietWorkerStep(capacity, Leaving, Checking, RunFinally(0), PastFinally);
    QuietLook(capacity);
    QuietWorkerStep(capacity, PastFinally, Parked(true), Die(0), Dead);
    hide Enabled, Apply, Quiet;
    steps := Prepend(quiet(PastFinally, Parked(true)), Die(0), []);
    steps := Prepend(quiet(PastFinally, Checking), Check(0), steps);
    steps := Prepend(quiet(Leaving, Checking), RunFinally(0), steps);
    steps := Prepend(quiet(TestingStop, Checking), TestStop(0), steps);
    steps := Prepend(quiet(Started, Checking), Begin(0), steps);
  }

  lemma {:induction false} RunsJoin(s: State, before: seq<Step>, after: seq<Step>)
    requires ValidRun(s, before) && ValidRun(Exec(s, before), after)
    ensures ValidRun(s, before + after) && Exec(s, before + after) == Exec(Exec(s, before), after)
    decreases |before|
  {
    if before == [] {
      assert before + after == after;
    } else {
      assert (before + after)[1..] == before[1..] + after;
      RunsJoin(Apply(s, before[0]), before[1..], after);
    }
  }

  /** And that does happen: the worker notifies, an iterator starts to wait, the worker dies. */
  lemma StrandedIsReachable(capacity: nat) returns (steps: seq<Step>)
    requires capacity > 0
    ensures ValidRun(Init(capacity), steps) && Stranded(Exec(Init(capacity), steps), 0)
  {
    var before := QuietStart(capacity);
    var after := QuietEnd(capacity);
    RunsJoin(Init(capacity), before, after);
    steps := before + after;
    hide ValidRun, Exec, Init;
  }

  lemma Prepend(s: State, step: Step, rest: seq<Step>) returns (steps: seq<Step>)
    requires Enabled(s, step) && ValidRun(Apply(s, step), rest)
    ensures ValidRun(s, steps) && Exec(s, steps) == Exec(Apply(s, step), rest)
  {
    steps := [step] + rest;
    StepThen(s, step, rest);
  }

  /** While no worker is alive, a stranded iterator is woken by another stop() and by nothing else. */
  lemma OnlyStopWakesTheStranded(s: State, step: Step, i: nat)
    requires Inv(s) && Enabled(s, step) && Stranded(s, i)
    ensures Apply(s, step).iterators[i].state.Parked? <==> !step.RequestStop?
  {
    if step.CallbackStop? || step.Publish? || step.RunFinally? {
      assert s.shared.Alive(step.worker);
    }
  }
}
