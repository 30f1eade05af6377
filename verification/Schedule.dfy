/** The worker's deadlines: a fixed grid from which missed points are skipped, never caught up. */
module Schedule {

  /** One pass of the worker's loop: when its collection begins, and its clock reading after publishing. */
  datatype Pass = Pass(begin: real, now: real)

  /** How many grid points the pass overran. */
  function Missed(next: real, now: real, interval: real): int
    requires interval > 0.0
  {
    if next <= now then ((now - next) / interval).Floor + 1 else 0
  }

  /** The length of `n` intervals. */
  function Span(n: int, interval: real): real {
    n as real * interval
  }

  function NextDeadline(deadline: real, now: real, interval: real): real
    requires interval > 0.0
  {
    var next := deadline + interval;
    next + Span(Missed(next, now, interval), interval)
  }

  /** The deadline in force when pass `k` begins. */
  function Deadline(passes: seq<Pass>, t0: real, interval: real, k: nat): real
    requires interval > 0.0 && k <= |passes|
  {
    if k == 0 then t0
    else NextDeadline(Deadline(passes, t0, interval, k - 1), passes[k - 1].now, interval)
  }

  /** The grid points passed over, without a collection of their own, in the first `k` passes. */
  function Skipped(passes: seq<Pass>, t0: real, interval: real, k: nat): int
    requires interval > 0.0 && k <= |passes|
  {
    if k == 0 then 0
    else
      var next := Deadline(passes, t0, interval, k - 1) + interval;
      Skipped(passes, t0, interval, k - 1) + Missed(next, passes[k - 1].now, interval)
  }

  function Max(x: real, y: real): real {
    if x > y then x else y
  }

  /** The environment: a clock that does not go back, and a wait that lasts at least its timeout. */
  ghost predicate Paced(passes: seq<Pass>, t0: real, interval: real)
    requires interval > 0.0
  {
    forall k | 0 <= k < |passes| ::
      && passes[k].begin <= passes[k].now
      && (k == 0 ==> t0 <= passes[k].begin)
      && (k > 0 ==>
           passes[k - 1].now + Max(0.0, Deadline(passes, t0, interval, k) - passes[k - 1].now) <= passes[k].begin)
  }

  lemma SpanAdds(m: int, n: int, interval: real)
    ensures Span(m + n, interval) == Span(m, interval) + Span(n, interval)
    ensures Span(0, interval) == 0.0 && Span(1, interval) == interval
  {
    assert (m + n) as real == m as real + n as real;
    assert (m as real + n as real) * interval == m as real * interval + n as real * interval;
  }

  lemma SpanMonotone(m: int, n: int, interval: real)
    requires interval > 0.0 && m <= n
    ensures Span(m, interval) <= Span(n, interval)
  {
    var d := (n - m) as real;
    assert d * interval >= 0.0;
    SpanAdds(m, n - m, interval);
  }

  lemma ScaleFloor(q: real, interval: real)
    requires interval > 0.0
    ensures Span(q.Floor, interval) <= q * interval < Span(q.Floor, interval) + interval
  {
    var rest := q - q.Floor as real;
    var slack := 1.0 - rest;
    ScaleSplit(q.Floor as real, rest, interval);
    ScaleSplit(rest, slack, interval);
    assert rest * interval >= 0.0 && slack * interval > 0.0;
    assert (rest + slack) * interval == interval;
  }

  lemma ScaleSplit(x: real, y: real, c: real)
    ensures (x + y) * c == x * c + y * c
  {
  }

  lemma FloorBracket(gap: real, interval: real)
    requires interval > 0.0
    ensures var n := (gap / interval).Floor;
      Span(n, interval) <= gap < Span(n, interval) + interval && (gap >= 0.0 ==> n >= 0)
  {
    var q := gap / interval;
    ScaleFloor(q, interval);
    assert q * interval == gap;
    assert gap >= 0.0 ==> q >= 0.0;
  }

  /** The new deadline is after `now`, and the grid point before it is not, if the old one was reached. */
  lemma NextDeadlineBrackets(deadline: real, now: real, interval: real)
    requires interval > 0.0
    ensures NextDeadline(deadline, now, interval) > now
    ensures deadline <= now ==> NextDeadline(deadline, now, interval) - interval <= now
    ensures NextDeadline(deadline, now, interval) >= deadline + interval
    ensures Missed(deadline + interval, now, interval) >= 0
  {
    var next := deadline + interval;
    SpanAdds(0, 0, interval);
    if next <= now {
      var n := ((now - next) / interval).Floor;
      FloorBracket(now - next, interval);
      SpanAdds(n, 1, interval);
      SpanMonotone(0, n, interval);
      hide Span;
    }
  }

  /** Every deadline is a grid point, whose index is the passes taken plus the points skipped. */
  lemma {:induction false} DeadlineOnGrid(passes: seq<Pass>, t0: real, interval: real, k: nat)
    requires interval > 0.0 && k <= |passes|
    ensures Deadline(passes, t0, interval, k) == t0 + Span(k + Skipped(passes, t0, interval, k), interval)
    ensures Skipped(passes, t0, interval, k) >= 0
  {
    SpanAdds(0, 0, interval);
    if k > 0 {
      DeadlineOnGrid(passes, t0, interval, k - 1);
      var d, i := Deadline(passes, t0, interval, k - 1), k - 1 + Skipped(passes, t0, interval, k - 1);
      var m := Missed(d + interval, passes[k - 1].now, interval);
      NextDeadlineBrackets(d, passes[k - 1].now, interval);
      SpanAdds(i, 1, interval);
      SpanAdds(i + 1, m, interval);
      hide Span, Missed;
    }
  }

  /** Each collection begins no earlier than its deadline. */
  lemma BeginAfterDeadline(passes: seq<Pass>, t0: real, interval: real, k: nat)
    requires interval > 0.0 && Paced(passes, t0, interval) && k < |passes|
    ensures Deadline(passes, t0, interval, k) <= passes[k].begin <= passes[k].now
  {
  }

  /**
   * After each pass the deadline is the least grid point strictly after `now`; so the timeout handed
   * to the wait is positive and the clamp at zero never binds.
   */
  lemma DeadlineIsLeastAfterNow(passes: seq<Pass>, t0: real, interval: real, k: nat, j: int)
    requires interval > 0.0 && Paced(passes, t0, interval) && k < |passes|
    ensures Deadline(passes, t0, interval, k + 1) > passes[k].now
    ensures t0 + Span(j, interval) > passes[k].now ==> Deadline(passes, t0, interval, k + 1) <= t0 + Span(j, interval)
    ensures Max(0.0, Deadline(passes, t0, interval, k + 1) - passes[k].now) == Deadline(passes, t0, interval, k + 1) - passes[k].now
  {
    hide Span, NextDeadline, Missed, Skipped;
    BeginAfterDeadline(passes, t0, interval, k);
    NextDeadlineBrackets(Deadline(passes, t0, interval, k), passes[k].now, interval);
    DeadlineOnGrid(passes, t0, interval, k + 1);
    hide Paced;
    var i := k + 1 + Skipped(passes, t0, interval, k + 1);
    SpanAdds(i - 1, 1, interval);
    if j <= i - 1 {
      SpanMonotone(j, i - 1, interval);
    } else {
      SpanMonotone(i, j, interval);
    }
  }

  /** The grid slot a moment falls into. */
  function Slot(t: real, t0: real, interval: real): int
    requires interval > 0.0
  {
    ((t - t0) / interval).Floor
  }

  lemma SlotBounds(t: real, t0: real, interval: real, i: int)
    requires interval > 0.0
    ensures t0 + Span(i, interval) <= t ==> i <= Slot(t, t0, interval)
    ensures t < t0 + Span(i, interval) ==> Slot(t, t0, interval) < i
  {
    var n := Slot(t, t0, interval);
    FloorBracket(t - t0, interval);
    SpanAdds(n, 1, interval);
    hide Span;
    if i > n {
      SpanMonotone(n + 1, i, interval);
    } else {
      SpanMonotone(i, n, interval);
    }
  }

  /** A later pass begins in a strictly later slot: no slot ever sees two collections begin. */
  lemma {:induction false} OneBeginPerSlot(passes: seq<Pass>, t0: real, interval: real, j: nat, k: nat)
    requires interval > 0.0 && Paced(passes, t0, interval) && j < k < |passes|
    ensures Slot(passes[j].begin, t0, interval) < Slot(passes[k].begin, t0, interval)
  {
    hide Span, Slot, Deadline, Skipped, Paced;
    DeadlineIsLeastAfterNow(passes, t0, interval, k - 1, 0);
    BeginAfterDeadline(passes, t0, interval, k - 1);
    BeginAfterDeadline(passes, t0, interval, k);
    DeadlineOnGrid(passes, t0, interval, k);
    SlotBounds(passes[k - 1].begin, t0, interval, k + Skipped(passes, t0, interval, k));
    SlotBounds(passes[k].begin, t0, interval, k + Skipped(passes, t0, interval, k));
    if j < k - 1 {
      OneBeginPerSlot(passes, t0, interval, j, k - 1);
    }
  }

  /** By time t at most floor((t - t0) / interval) + 1 collections have begun. */
  lemma BeginsAreBounded(passes: seq<Pass>, t0: real, interval: real, k: nat, t: real)
    requires interval > 0.0 && Paced(passes, t0, interval) && k < |passes|
    requires passes[k].begin <= t
    ensures k + 1 <= Slot(t, t0, interval) + 1
  {
    hide Span, Slot, Deadline, Skipped, Paced;
    BeginAfterDeadline(passes, t0, interval, k);
    DeadlineOnGrid(passes, t0, interval, k);
    SlotBounds(t, t0, interval, k + Skipped(passes, t0, interval, k));
  }

  /** Two passes apart is more than one interval apart: no burst, however late a pass ran. */
  lemma NoBurst(passes: seq<Pass>, t0: real, interval: real, k: nat)
    requires interval > 0.0 && Paced(passes, t0, interval) && k + 2 < |passes|
    ensures passes[k + 2].begin > passes[k].begin + interval
  {
    BeginAfterDeadline(passes, t0, interval, k);
    BeginAfterDeadline(passes, t0, interval, k + 2);
    NextDeadlineBrackets(Deadline(passes, t0, interval, k), passes[k].now, interval);
    NextDeadlineBrackets(Deadline(passes, t0, interval, k + 1), passes[k + 1].now, interval);
  }

  /** The update at the end of a pass: one interval on, then past every point already missed. */
  method Advance(deadline: real, now: real, interval: real) returns (next: real)
    requires interval > 0.0
    ensures next == NextDeadline(deadline, now, interval) && next > now
  {
    NextDeadlineBrackets(deadline, now, interval);
    SpanAdds(0, 0, interval);
    next := deadline + interval;
    if next <= now {
      var missed := ((now - next) / interval).Floor + 1;
      next := next + Span(missed, interval);
    }
  }

  /** The worker's loop: the timeouts it hands to the wait, and the deadline it ends with. */
  method RunLoop(passes: seq<Pass>, t0: real, interval: real) returns (timeouts: seq<real>, deadline: real)
    requires interval > 0.0
    ensures |timeouts| == |passes| && deadline == Deadline(passes, t0, interval, |passes|)
    ensures forall k | 0 <= k < |passes| ::
      timeouts[k] == Deadline(passes, t0, interval, k + 1) - passes[k].now && timeouts[k] > 0.0
  {
    hide Span, NextDeadline;
    deadline := t0;
    timeouts := [];
    for i := 0 to |passes|
      invariant deadline == Deadline(passes, t0, interval, i) && |timeouts| == i
      invariant forall k | 0 <= k < i ::
        timeouts[k] == Deadline(passes, t0, interval, k + 1) - passes[k].now && timeouts[k] > 0.0
    {
      var now := passes[i].now;
      deadline := Advance(deadline, now, interval);
      timeouts := timeouts + [Max(0.0, deadline - now)];
    }
  }
}
