/** Every interleaving of the sampler protocol keeps its invariant, and what follows from that. */
module SamplerSafety {
  import opened Telemetry
  import opened SamplerProtocol

  // ---- The ring ----

  /** Appending to the bounded deque keeps it the last publications, numbered. */
  lemma RingAppend(log: seq<Entry>, e: Entry, capacity: nat)
    requires capacity > 0
    ensures Append(Ring(log, capacity), Item(|log| + 1, e.snapshot, e.sampledAt), capacity) == Ring(log + [e], capacity)
  {
    var log' := log + [e];
    var longer := Ring(log, capacity) + [Item(|log| + 1, e.snapshot, e.sampledAt)];
    var lo := Oldest(|log|, capacity);
    forall k | 0 <= k < |longer| ensures longer[k] == Numbered(log', lo + k) {
      if k < |longer| - 1 {
        assert log'[lo + k] == log[lo + k];
        assert longer[k] == Ring(log, capacity)[k] == Numbered(log, lo + k);
      } else {
        assert lo + k == |log| && log'[|log|] == e;
      }
    }
    assert |longer| > capacity <==> |log| >= capacity;
  }

  lemma SliceOfLonger(log: seq<Entry>, e: Entry, lo: nat, hi: nat)
    requires lo <= hi <= |log|
    ensures Slice(log + [e], lo, hi) == Slice(log, lo, hi)
  {
    var a, b := Slice(log + [e], lo, hi), Slice(log, lo, hi);
    forall k | 0 <= k < hi - lo ensures a[k] == b[k] {
      assert (log + [e])[lo + k] == log[lo + k];
      assert a[k] == Numbered(log + [e], lo + k) && b[k] == Numbered(log, lo + k);
    }
  }

  /** Filtering a numbered slice by a cursor leaves the part from the cursor on. */
  lemma {:induction false} AvailableOfSlice(log: seq<Entry>, lo: nat, hi: nat, next: int)
    requires lo <= hi <= |log|
    ensures Available(Slice(log, lo, hi), next) ==
      if next > hi then [] else Slice(log, if next - 1 > lo then next - 1 else lo, hi)
    decreases hi - lo
  {
    if lo < hi {
      AvailableOfSlice(log, lo + 1, hi, next);
      assert Slice(log, lo, hi) == [Numbered(log, lo)] + Slice(log, lo + 1, hi);
      assert Slice(log, lo, hi)[1..] == Slice(log, lo + 1, hi);
      hide Slice;
    }
  }

  // ---- One step keeps the invariant ----

  lemma MoveKeepsShared(sh: Shared, w: nat, to: WorkerState)
    requires SharedInv(sh) && sh.Alive(w)
    ensures SharedInv(sh.Move(w, to))
  {
  }

  lemma PublishKeepsShared(sh: Shared, w: nat)
    requires SharedInv(sh) && w < |sh.workers| && sh.workers[w].Publishing?
    ensures SharedInv(sh.Publish(w))
  {
    var p := sh.workers[w];
    RingAppend(sh.log, Entry(w, p.snapshot, p.sampledAt), sh.capacity);
  }

  lemma StartKeepsShared(sh: Shared)
    requires SharedInv(sh)
    ensures SharedInv(sh.Start())
  {
  }

  lemma RingAt(sh: Shared, k: nat)
    requires SharedInv(sh) && k < |sh.history|
    ensures |sh.history| <= |sh.log| && sh.history[k] == Numbered(sh.log, |sh.log| - |sh.history| + k)
  {
  }

  lemma StepKeepsShared(s: State, step: Step)
    requires SharedInv(s.shared) && Enabled(s, step)
    ensures SharedInv(Apply(s, step).shared)
    ensures Apply(s, step).shared.capacity == s.shared.capacity
  {
    match step {
      case Begin(w) => MoveKeepsShared(s.shared, w, TestingStop);
      case TestStop(w) => MoveKeepsShared(s.shared, w, if s.shared.stopEvent then Leaving else Collecting);
      case Collected(w, snapshot, at) => MoveKeepsShared(s.shared, w, WorkerState.Publishing(snapshot, at));
      case Fail(w) => MoveKeepsShared(s.shared, w, Leaving);
      case Publish(w) => PublishKeepsShared(s.shared, w);
      case CallbackDone(w) => MoveKeepsShared(s.shared, w, Waiting);
      case WaitSignalled(w) => MoveKeepsShared(s.shared, w, Leaving);
      case WaitElapsed(w) => MoveKeepsShared(s.shared, w, TestingStop);
      case RunFinally(w) => MoveKeepsShared(s.shared, w, PastFinally);
      case Die(w) => MoveKeepsShared(s.shared, w, Dead);
      case _ =>
    }
  }

  /** What no step ever undoes: publications, dead workers, and a stop request while its worker lives. */
  ghost predicate Later(sh: Shared, sh': Shared) {
    && sh'.capacity == sh.capacity
    && sh.log <= sh'.log
    && |sh.workers| <= |sh'.workers|
    && (forall w :: 0 <= w < |sh.workers| && sh.workers[w] == Dead ==> sh'.workers[w] == Dead)
    && (sh.stopEvent ==> sh'.stopEvent || forall w :: 0 <= w < |sh.workers| ==> sh'.workers[w] == Dead)
  }

  lemma StepIsLater(s: State, step: Step)
    requires SharedInv(s.shared) && Enabled(s, step)
    ensures Later(s.shared, Apply(s, step).shared)
    ensures |Apply(s, step).shared.log| <= |s.shared.log| + 1
  {
  }

  lemma CallerKept(c: CallerState, sh: Shared, sh': Shared)
    requires CallerInv(c, sh) && Later(sh, sh')
    ensures CallerInv(c, sh')
  {
  }

  lemma StepKeepsCallers(s: State, step: Step)
    requires Inv(s) && Enabled(s, step)
    ensures forall c <- Apply(s, step).callers :: CallerInv(c, Apply(s, step).shared)
  {
    var s' := Apply(s, step);
    StepIsLater(s, step);
    forall c | c in s.callers ensures CallerInv(c, s'.shared) {
      CallerKept(c, s.shared, s'.shared);
    }
    match step {
      case RequestStop(c) =>
        assert CallerInv(s'.callers[c], s'.shared);
        assert forall x <- s'.callers :: x == s'.callers[c] || x in s.callers;
      case EndJoin(c) =>
        assert s.callers[c] in s.callers;
        assert CallerInv(s'.callers[c], s'.shared);
        assert forall x <- s'.callers :: x == s'.callers[c] || x in s.callers;
      case _ =>
    }
  }

  lemma IteratorKept(it: Iterator, log: seq<Entry>, e: Entry, capacity: nat)
    requires IteratorInv(it, log, capacity)
    ensures IteratorInv(it, log + [e], capacity)
  {
    if it.state.Yielding? {
      SliceOfLonger(log, e, it.takenAt - |it.state.batch|, it.takenAt);
    }
  }

  /** What a cursor can take from the ring is the numbered slice from the cursor, or from the oldest retained. */
  lemma AvailableIsASlice(sh: Shared, next: int)
    requires SharedInv(sh) && 1 <= next <= |sh.log| + 1
    ensures var batch, n := Available(sh.history, next), |sh.log|;
      && |batch| <= n && batch == Slice(sh.log, n - |batch|, n)
      && NoLossBefore(n - |batch| + 1, next, n, sh.capacity)
      && (batch == [] ==> next == n + 1)
  {
    AvailableOfSlice(sh.log, Oldest(|sh.log|, sh.capacity), |sh.log|, next);
    hide Slice, Available;
  }

  lemma LookKeeps(it: Iterator, sh: Shared)
    requires SharedInv(sh) && IteratorInv(it, sh.log, sh.capacity) && it.state.Checking?
    ensures IteratorInv(Look(it, sh), sh.log, sh.capacity) && WaiterInv(Look(it, sh), sh)
  {
    AvailableIsASlice(sh, it.next);
    hide Slice, Available, DeliveriesInv, SharedInv, NoLossBefore;
  }

  lemma DeliverKeeps(it: Iterator, log: seq<Entry>, capacity: nat)
    requires IteratorInv(it, log, capacity) && it.state.Yielding? && it.state.batch != []
    ensures IteratorInv(DeliverFirst(it), log, capacity)
  {
    var batch := it.state.batch;
    assert batch[0] == Numbered(log, it.takenAt - |batch|);
    assert batch[1..] == Slice(log, it.takenAt - |batch| + 1, it.takenAt);
    var d := it.delivered + [Delivery(batch[0], it.takenAt)];
    forall k | 0 <= k < |d|
      ensures
        && 1 <= d[k].item.sequence <= d[k].takenAt <= |log|
        && d[k].item == Numbered(log, d[k].item.sequence - 1)
        && NoLossBefore(d[k].item.sequence, if k == 0 then 1 else d[k - 1].item.sequence + 1, d[k].takenAt, capacity)
    {
      assert k < |it.delivered| ==> d[k] == it.delivered[k];
    }
  }

  lemma WakeKeeps(its: seq<Iterator>, sh: Shared, sh': Shared)
    requires forall it <- its :: IteratorInv(it, sh'.log, sh'.capacity)
    ensures forall it <- Wake(its) :: IteratorInv(it, sh'.log, sh'.capacity) && WaiterInv(it, sh')
  {
    forall it | it in Wake(its) ensures IteratorInv(it, sh'.log, sh'.capacity) && WaiterInv(it, sh') {
      var i :| 0 <= i < |its| && Wake(its)[i] == it;
      assert its[i] in its;
    }
  }

  lemma StepKeepsWaiters(s: State, step: Step)
    requires Inv(s) && Enabled(s, step)
    requires !step.RunFinally? && !step.Publish?
    ensures forall it <- s.iterators :: WaiterInv(it, Apply(s, step).shared)
  {
    forall it | it in s.iterators ensures WaiterInv(it, Apply(s, step).shared) {
      assert WaiterInv(it, s.shared);
    }
  }

  lemma StepKeepsIterators(s: State, step: Step)
    requires Inv(s) && Enabled(s, step)
    ensures forall it <- Apply(s, step).iterators ::
      IteratorInv(it, Apply(s, step).shared.log, s.shared.capacity) && WaiterInv(it, Apply(s, step).shared)
  {
    var s' := Apply(s, step);
    forall it | it in s.iterators ensures IteratorInv(it, s'.shared.log, s.shared.capacity) {
      if step.Publish? {
        var p := s.shared.workers[step.worker];
        IteratorKept(it, s.shared.log, Entry(step.worker, p.snapshot, p.sampledAt), s.shared.capacity);
      }
    }
    if step.RequestStop? || step.CallbackStop? || step.Publish? || step.RunFinally? {
      WakeKeeps(s.iterators, s.shared, s'.shared);
    } else {
      StepKeepsWaiters(s, step);
      if step.Check? {
        LookKeeps(s.iterators[step.reader], s.shared);
      } else if step.Deliver? {
        DeliverKeeps(s.iterators[step.reader], s.shared.log, s.shared.capacity);
      }
    }
  }

  lemma StepKeepsInv(s: State, step: Step)
    requires Inv(s) && Enabled(s, step)
    ensures Inv(Apply(s, step)) && Later(s.shared, Apply(s, step).shared)
  {
    StepKeepsShared(s, step);
    StepKeepsCallers(s, step);
    StepKeepsIterators(s, step);
    StepIsLater(s, step);
  }
}
