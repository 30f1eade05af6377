/**
 * The background sampler as a protocol: callers, workers and iterators that interleave freely.
 * A step is one critical section under the sampler's condition, or one action outside it.
 */
module SamplerProtocol {
  import opened Telemetry

  /** An entry of the retained history. */
  datatype Item = Item(sequence: int, snapshot: Snapshot, sampledAt: real)

  /** An entry of the publication log, which exists only in this model. */
  datatype Entry = Entry(worker: nat, snapshot: Snapshot, sampledAt: real)

  datatype WorkerState =
    | Started                                        // running, first deadline not read yet
    | TestingStop                                    // about to test the stop event
    | Collecting                                     // inside the collector
    | Publishing(snapshot: Snapshot, sampledAt: real) // has a snapshot, does not hold the lock yet
    | InCallback                                     // published, running the callback
    | Waiting                                        // waiting for the deadline or the stop event
    | Leaving                                        // out of the loop, before the `finally` block
    | PastFinally                                    // has notified; the thread is still alive
    | Dead

  /** What the sampler's fields hold, the threads it started, and the log. */
  datatype Shared = Shared(
    capacity: nat,
    history: seq<Item>,
    sequence: nat,
    stopEvent: bool,
    thread: Option<nat>,
    workers: seq<WorkerState>,
    log: seq<Entry>)
  {
    predicate Alive(w: nat) {
      w < |workers| && workers[w] != Dead
    }

    predicate ThreadAlive() {
      thread.Some? && Alive(thread.value)
    }

    /** start(): a no-op while the current thread is alive. */
    function Start(): Shared {
      if ThreadAlive() then this
      else this.(stopEvent := false, thread := Some(|workers|), workers := workers + [Started])
    }

    function RequestStop(): Shared {
      this.(stopEvent := true)
    }

    /** The critical section of _publish. */
    function Publish(w: nat): Shared
      requires w < |workers| && workers[w].Publishing?
    {
      var p := workers[w];
      this.(
        sequence := sequence + 1,
        history := Append(history, Item(sequence + 1, p.snapshot, p.sampledAt), capacity),
        workers := workers[w := InCallback],
        log := log + [Entry(w, p.snapshot, p.sampledAt)])
    }

    function Move(w: nat, to: WorkerState): Shared
      requires w < |workers|
    {
      this.(workers := workers[w := to])
    }
  }

  /** deque.append with a maximum length. */
  function Append(history: seq<Item>, item: Item, capacity: nat): seq<Item> {
    var longer := history + [item];
    if |longer| > capacity then longer[1..] else longer
  }

  /** The items an iterator with cursor `next` can take. */
  function Available(history: seq<Item>, next: int): seq<Item> {
    if history == [] then []
    else (if history[0].sequence >= next then [history[0]] else []) + Available(history[1..], next)
  }

  datatype CallerState =
    | Idle
    | Joining(worker: nat)       // stop() has requested shutdown and is joining
    | StopReturned(worker: nat)  // stop() found the worker dead and returned
    | StopTimedOut(worker: nat)  // stop() raised TimeoutError

  datatype IteratorState =
    | Checking                          // about to look, under the lock
    | Parked(late: bool)                // in condition.wait(); late: after the worker's last notification
    | Yielding(batch: seq<Item>)        // delivering what it took
    | Returned(published: nat)          // finished, when so many snapshots had been published

  /** One delivery, with the number of snapshots published when its batch was taken. */
  datatype Delivery = Delivery(item: Item, takenAt: nat)

  datatype Iterator = Iterator(next: int, state: IteratorState, takenAt: nat, delivered: seq<Delivery>)

  datatype State = State(shared: Shared, callers: seq<CallerState>, iterators: seq<Iterator>)

  function Init(capacity: nat): State {
    State(Shared(capacity, [], 0, false, None, [], []), [], [])
  }

  function Wake(its: seq<Iterator>): seq<Iterator> {
    seq(|its|, i requires 0 <= i < |its| =>
      if its[i].state.Parked? then its[i].(state := Checking) else its[i])
  }

  datatype Step =
    | NewCaller
    | Start
    | RequestStop(caller: nat)                              // stop(): set the event, notify, note the thread
    | EndJoin(caller: nat)                                  // stop(): the join ended, by death or timeout
    | CallbackStop(worker: nat)                             // stop() called by the worker's own callback
    | Begin(worker: nat)
    | TestStop(worker: nat)
    | Collected(worker: nat, snapshot: Snapshot, at: real)
    | Fail(worker: nat)                                     // an error leaves the loop
    | Publish(worker: nat)
    | CallbackDone(worker: nat)
    | WaitSignalled(worker: nat)
    | WaitElapsed(worker: nat)
    | RunFinally(worker: nat)
    | Die(worker: nat)
    | OpenIterator
    | Check(reader: nat)
    | Deliver(reader: nat)

  predicate WorkerIs(s: State, w: nat, at: WorkerState) {
    w < |s.shared.workers| && s.shared.workers[w] == at
  }

  predicate Enabled(s: State, step: Step) {
    match step
    case NewCaller | Start | OpenIterator => true
    case RequestStop(c) => c < |s.callers| && !s.callers[c].Joining?
    case EndJoin(c) => c < |s.callers| && s.callers[c].Joining?
    case CallbackStop(w) => WorkerIs(s, w, InCallback)
    case Begin(w) => WorkerIs(s, w, Started)
    case TestStop(w) => WorkerIs(s, w, TestingStop)
    case Collected(w, _, _) => WorkerIs(s, w, Collecting)
    case Fail(w) => w < |s.shared.workers| && InLoop(s.shared.workers[w])
    case Publish(w) => w < |s.shared.workers| && s.shared.workers[w].Publishing?
    case CallbackDone(w) => WorkerIs(s, w, InCallback)
    case WaitSignalled(w) => WorkerIs(s, w, Waiting) && s.shared.stopEvent
    case WaitElapsed(w) => WorkerIs(s, w, Waiting)
    case RunFinally(w) => WorkerIs(s, w, Leaving)
    case Die(w) => WorkerIs(s, w, PastFinally)
    case Check(i) => i < |s.iterators| && s.iterators[i].state.Checking?
    case Deliver(i) => i < |s.iterators| && s.iterators[i].state.Yielding? && s.iterators[i].state.batch != []
  }

  predicate InLoop(w: WorkerState) {
    w.TestingStop? || w.Collecting? || w.Publishing? || w.InCallback? || w.Waiting?
  }

  /** One look at the history under the lock, up to the wait, the return or the delivery. */
  function Look(it: Iterator, sh: Shared): Iterator {
    var batch := Available(sh.history, it.next);
    if batch != [] then it.(state := Yielding(batch), takenAt := |sh.log|)
    else if sh.ThreadAlive() then it.(state := Parked(sh.workers[sh.thread.value].PastFinally?))
    else it.(state := Returned(|sh.log|))
  }

  function DeliverFirst(it: Iterator): Iterator
    requires it.state.Yielding? && it.state.batch != []
  {
    var item, rest := it.state.batch[0], it.state.batch[1..];
    it.(next := item.sequence + 1,
        delivered := it.delivered + [Delivery(item, it.takenAt)],
        state := if rest == [] then Checking else Yielding(rest))
  }

  function Apply(s: State, step: Step): State
    requires Enabled(s, step)
  {
    var sh := s.shared;
    match step
    case NewCaller => s.(callers := s.callers + [Idle])
    case Start => s.(shared := sh.Start())
    case RequestStop(c) =>
      s.(shared := sh.RequestStop(), iterators := Wake(s.iterators),
         callers := s.callers[c := if sh.thread.None? then Idle else Joining(sh.thread.value)])
    case EndJoin(c) =>
      var w := s.callers[c].worker;
      s.(callers := s.callers[c := if sh.Alive(w) then StopTimedOut(w) else StopReturned(w)])
    case CallbackStop(w) => s.(shared := sh.RequestStop(), iterators := Wake(s.iterators))
    case Begin(w) => s.(shared := sh.Move(w, TestingStop))
    case TestStop(w) => s.(shared := sh.Move(w, if sh.stopEvent then Leaving else Collecting))
    case Collected(w, snapshot, at) => s.(shared := sh.Move(w, Publishing(snapshot, at)))
    case Fail(w) => s.(shared := sh.Move(w, Leaving))
    case Publish(w) => s.(shared := sh.Publish(w), iterators := Wake(s.iterators))
    case CallbackDone(w) => s.(shared := sh.Move(w, Waiting))
    case WaitSignalled(w) => s.(shared := sh.Move(w, Leaving))
    case WaitElapsed(w) => s.(shared := sh.Move(w, TestingStop))
    case RunFinally(w) => s.(shared := sh.Move(w, PastFinally), iterators := Wake(s.iterators))
    case Die(w) => s.(shared := sh.Move(w, Dead))
    case OpenIterator => s.(iterators := s.iterators + [Iterator(1, Checking, 0, [])])
    case Check(i) => s.(iterators := s.iterators[i := Look(s.iterators[i], sh)])
    case Deliver(i) => s.(iterators := s.iterators[i := DeliverFirst(s.iterators[i])])
  }

  predicate ValidRun(s: State, steps: seq<Step>)
    decreases |steps|
  {
    steps == [] || (Enabled(s, steps[0]) && ValidRun(Apply(s, steps[0]), steps[1..]))
  }

  function Exec(s: State, steps: seq<Step>): State
    requires ValidRun(s, steps)
    decreases |steps|
  {
    if steps == [] then s else Exec(Apply(s, steps[0]), steps[1..])
  }

  // ---- What every reachable state satisfies ----

  /** The item the k-th publication became. */
  function Numbered(log: seq<Entry>, k: nat): Item
    requires k < |log|
  {
    Item(k + 1, log[k].snapshot, log[k].sampledAt)
  }

  /** The items numbered lo+1 through hi. */
  function Slice(log: seq<Entry>, lo: nat, hi: nat): (r: seq<Item>)
    requires lo <= hi <= |log|
    ensures |r| == hi - lo
  {
    seq(hi - lo, k requires 0 <= k < hi - lo => Numbered(log, lo + k))
  }

  function Oldest(n: nat, capacity: nat): nat {
    if n > capacity then n - capacity else 0
  }

  /** The last min(N, capacity) publications, numbered. */
  function Ring(log: seq<Entry>, capacity: nat): seq<Item> {
    Slice(log, Oldest(|log|, capacity), |log|)
  }

  ghost predicate SharedInv(sh: Shared) {
    && sh.capacity > 0
    && sh.sequence == |sh.log|
    && sh.history == Ring(sh.log, sh.capacity)
    && (sh.thread.Some? ==> sh.thread.value < |sh.workers|)
    && (forall w :: 0 <= w < |sh.workers| && sh.workers[w] != Dead ==> sh.thread == Some(w))
  }

  ghost predicate CallerInv(c: CallerState, sh: Shared) {
    match c
    case Idle => true
    case Joining(w) => w < |sh.workers| && (sh.workers[w] == Dead || sh.stopEvent)
    case StopReturned(w) => w < |sh.workers| && sh.workers[w] == Dead
    case StopTimedOut(w) => w < |sh.workers| && (sh.workers[w] == Dead || sh.stopEvent)
  }

  /** Where the batch that delivers item number n may start: right at the cursor, or at the oldest retained. */
  predicate NoLossBefore(first: int, cursor: int, takenAt: nat, capacity: nat) {
    first >= cursor && (first > cursor ==> first == takenAt - capacity + 1)
  }

  ghost predicate DeliveriesInv(d: seq<Delivery>, log: seq<Entry>, capacity: nat) {
    forall k | 0 <= k < |d| ::
      && 1 <= d[k].item.sequence <= d[k].takenAt <= |log|
      && d[k].item == Numbered(log, d[k].item.sequence - 1)
      && NoLossBefore(d[k].item.sequence, if k == 0 then 1 else d[k - 1].item.sequence + 1, d[k].takenAt, capacity)
  }

  ghost predicate IteratorInv(it: Iterator, log: seq<Entry>, capacity: nat) {
    && DeliveriesInv(it.delivered, log, capacity)
    && it.next == (if it.delivered == [] then 1 else it.delivered[|it.delivered| - 1].item.sequence + 1)
    && 1 <= it.next <= |log| + 1
    && (match it.state
        case Yielding(batch) =>
          && 0 < |batch| <= it.takenAt <= |log|
          && batch == Slice(log, it.takenAt - |batch|, it.takenAt)
          && NoLossBefore(it.takenAt - |batch| + 1, it.next, it.takenAt, capacity)
        case Returned(n) => n <= |log| && it.next == n + 1
        case _ => true)
  }

  /** A waiter has nothing to take; one that parked in time still has the worker's last notification to come. */
  ghost predicate WaiterInv(it: Iterator, sh: Shared) {
    && (it.state.Parked? ==> it.next == |sh.log| + 1)
    && (it.state == Parked(false) ==> sh.ThreadAlive() && !sh.workers[sh.thread.value].PastFinally?)
  }

  ghost predicate Inv(s: State) {
    && SharedInv(s.shared)
    && (forall c <- s.callers :: CallerInv(c, s.shared))
    && (forall it <- s.iterators :: IteratorInv(it, s.shared.log, s.shared.capacity) && WaiterInv(it, s.shared))
  }
}
