/**
 * The sampler's critical sections and its iterators as imperative code. Each method's effect is the
 * protocol's transition of the same name, so what the protocol proves holds of these objects.
 */
module Sampler {
  import opened Telemetry
  import opened SamplerProtocol
  import opened SamplerSafety

  class TelemetrySampler {
    const capacity: nat
    var history: seq<Item>
    var sequence: nat
    var stopEvent: bool
    var thread: Option<nat>
    var workers: seq<WorkerState>  // what the threads started so far are doing
    ghost var log: seq<Entry>

    ghost function View(): Shared
      reads this
    {
      Shared(capacity, history, sequence, stopEvent, thread, workers, log)
    }

    ghost predicate Valid()
      reads this
    {
      SharedInv(View())
    }

    /** Without a buffer size only the newest snapshot is held. */
    constructor (bufferSize: Option<nat>)
      requires bufferSize.Some? ==> bufferSize.value > 0
      ensures Valid() && View() == Init(if bufferSize.None? then 1 else bufferSize.value).shared
    {
      capacity := if bufferSize.None? then 1 else bufferSize.value;
      history := [];
      sequence := 0;
      stopEvent := false;
      thread := None;
      workers := [];
      log := [];
    }

    method IsRunning() returns (running: bool)
      requires Valid()
      ensures running == View().ThreadAlive()
      ensures running <==> exists w: nat :: View().Alive(w)
    {
      running := thread.Some? && workers[thread.value] != Dead;
      assert running ==> View().Alive(thread.value);
    }

    method Start()
      requires Valid()
      modifies this
      ensures Valid() && View() == old(View()).Start()
      ensures history == old(history) && sequence == old(sequence) && log == old(log)
      ensures old(View().ThreadAlive()) ==> stopEvent == old(stopEvent) && thread == old(thread) && workers == old(workers)
      ensures !old(View().ThreadAlive()) ==>
        !stopEvent && thread == Some(|old(workers)|) && workers == old(workers) + [Started]
    {
      StartKeepsShared(View());
      ghost var before := View();
      var running := IsRunning();
      if running {
        return;
      }
      stopEvent := false;
      thread := Some(|workers|);
      workers := workers + [Started];
      assert View() == before.Start();
    }

    /** The locked part of stop(): which worker the caller then joins. */
    method RequestStop() returns (joined: Option<nat>)
      requires Valid()
      modifies this
      ensures Valid() && View() == old(View()).RequestStop() && joined == thread
      ensures stopEvent && thread == old(thread) && workers == old(workers) && log == old(log)
    {
      joined := thread;
      stopEvent := true;
    }

    /** Append under the lock; the oldest entry gives way when the ring is full. */
    method Publish(w: nat)
      requires Valid() && w < |workers| && workers[w].Publishing?
      modifies this
      ensures Valid() && View() == old(View()).Publish(w)
      ensures history == Ring(log, capacity)
      ensures log == old(log) + [Entry(w, old(workers[w]).snapshot, old(workers[w]).sampledAt)]
    {
      ghost var before := View();
      PublishKeepsShared(before, w);
      var snapshot, sampledAt := workers[w].snapshot, workers[w].sampledAt;
      sequence := sequence + 1;
      history := history + [Item(sequence, snapshot, sampledAt)];
      if |history| > capacity {
        history := history[1..];
      }
      workers := workers[w := InCallback];
      log := log + [Entry(w, snapshot, sampledAt)];
    }

    /** The newest snapshot ever published, or none. */
    method Latest() returns (latest: Option<Snapshot>)
      requires Valid()
      ensures latest == if log == [] then None else Some(log[|log| - 1].snapshot)
    {
      if history != [] {
        RingAt(View(), |history| - 1);
      }
      latest := if history == [] then None else Some(history[|history| - 1].snapshot);
    }

    /** Never negative, and measured from the receipt of the newest snapshot. */
    method LatestAgeSeconds(now: real) returns (age: Option<real>)
      requires Valid()
      ensures age.None? <==> log == []
      ensures age.Some? ==> var receipt := log[|log| - 1].sampledAt; age.value == if now < receipt then 0.0 else now - receipt
    {
      if history == [] {
        return None;
      }
      RingAt(View(), |history| - 1);
      var elapsed := now - history[|history| - 1].sampledAt;
      age := Some(if elapsed > 0.0 then elapsed else 0.0);
    }

    /** Oldest to newest, the last min(N, capacity) snapshots published. */
    method Buffered() returns (snapshots: seq<Snapshot>)
      requires Valid()
      ensures |snapshots| == if |log| < capacity then |log| else capacity
      ensures forall k | 0 <= k < |snapshots| :: snapshots[k] == log[|log| - |snapshots| + k].snapshot
    {
      snapshots := [];
      for i := 0 to |history|
        invariant |snapshots| == i
        invariant forall k | 0 <= k < i :: snapshots[k] == history[k].snapshot
      {
        snapshots := snapshots + [history[i].snapshot];
      }
      forall k | 0 <= k < |snapshots| ensures snapshots[k] == log[|log| - |snapshots| + k].snapshot {
        RingAt(View(), k);
      }
    }

    /** The retained items at or after a cursor. */
    method Take(next: int) returns (batch: seq<Item>)
      ensures batch == Available(history, next)
    {
      batch := [];
      for i := 0 to |history|
        invariant batch + Available(history[i..], next) == Available(history, next)
      {
        assert history[i..][1..] == history[i + 1..];
        if history[i].sequence >= next {
          batch := batch + [history[i]];
        }
      }
    }
  }

  /** One iteration over a sampler, with its own cursor. */
  class SampleIterator {
    const sampler: TelemetrySampler
    var next: int
    var state: IteratorState
    ghost var takenAt: nat
    ghost var delivered: seq<Delivery>

    ghost function View(): Iterator
      reads this
    {
      Iterator(next, state, takenAt, delivered)
    }

    ghost predicate Valid()
      reads this, sampler
    {
      sampler.Valid() && IteratorInv(View(), sampler.log, sampler.capacity)
    }

    constructor (sampler: TelemetrySampler)
      requires sampler.Valid()
      ensures this.sampler == sampler && Valid() && View() == Iterator(1, Checking, 0, [])
    {
      this.sampler := sampler;
      next := 1;
      state := Checking;
      takenAt := 0;
      delivered := [];
    }

    /** One look under the lock: take a batch, wait, or finish. */
    method Check()
      requires Valid() && state.Checking?
      modifies this
      ensures Valid() && View() == Look(old(View()), sampler.View())
    {
      LookKeeps(View(), sampler.View());
      var batch := sampler.Take(next);
      if batch != [] {
        state := Yielding(batch);
        takenAt := |sampler.log|;
        return;
      }
      var alive := sampler.thread.Some? && sampler.workers[sampler.thread.value] != Dead;
      if alive {
        state := Parked(sampler.workers[sampler.thread.value].PastFinally?);
      } else {
        AvailableIsASlice(sampler.View(), next);
        state := Returned(sampler.sequence);
      }
    }

    /** Hand out the next item of the batch, which is the publication with its number. */
    method Deliver() returns (snapshot: Snapshot)
      requires Valid() && state.Yielding?
      modifies this
      ensures Valid() && View() == DeliverFirst(old(View()))
      ensures old(next) <= next - 1 <= |sampler.log| && snapshot == sampler.log[next - 2].snapshot
    {
      DeliverKeeps(View(), sampler.log, sampler.capacity);
      assert state.batch[0] == Numbered(sampler.log, takenAt - |state.batch|);
      var item := state.batch[0];
      next := item.sequence + 1;
      delivered := delivered + [Delivery(item, takenAt)];
      state := if |state.batch| == 1 then Checking else Yielding(state.batch[1..]);
      snapshot := item.snapshot;
    }
  }
}
