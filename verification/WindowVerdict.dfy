/** Laws of the throttling verdict: what decides it, and how it moves as a window grows. */
module WindowVerdict {
  import opened Telemetry
  import opened Sorting
  import opened Collecting
  import opened Window

  // ---- The drop detector ----

  /** Where the i-th clocked sample is kept among the clocked samples. */
  lemma ClockedSplit(samples: seq<GpuSample>, i: nat)
    requires i < |samples| && Clock(samples[i]).Num?
    ensures Clocked(samples) == Clocked(samples[..i]) + [samples[i]] + Clocked(samples[i + 1..])
  {
    var pick := KeepClocked();
    CollectAppend(samples[..i + 1], samples[i + 1..], pick);
    CollectStep(samples, i, pick);
    assert samples == samples[..i + 1] + samples[i + 1..];
  }

  /** A drop needs two clock readings, so the evidence threshold never hides one. */
  lemma DropNeedsTwoClocks(samples: seq<GpuSample>)
    ensures FirstDrop(samples, 0).Some? ==> |Clocked(samples)| >= 2
  {
    if FirstDrop(samples, 0).Some? {
      var j :| 0 <= j < |samples| && DropAt(samples, j);
      var i :| 0 <= i < j && Clock(samples[i]).Num?;
      ClockedSplit(samples, j);
      ClockedSplit(samples[..j], i);
    }
  }

  /** A drop exists exactly when some pair of clocks, in order, is at least 15% apart. */
  lemma DropIffSomePair(samples: seq<GpuSample>)
    ensures FirstDrop(samples, 0).None? <==>
      forall i, j | 0 <= i < j < |samples| && Clock(samples[i]).Num? && Clock(samples[j]).Num? ::
        Clock(samples[j]).value > DROP_FACTOR * Clock(samples[i]).value
  {
    if FirstDrop(samples, 0).None? {
      forall i, j | 0 <= i < j < |samples| && Clock(samples[i]).Num? && Clock(samples[j]).Num?
        ensures Clock(samples[j]).value > DROP_FACTOR * Clock(samples[i]).value
      {
        assert !DropAt(samples, j);
      }
    } else {
      var j :| 0 <= j < |samples| && DropAt(samples, j);
    }
  }

  lemma DropAtAppend(a: seq<GpuSample>, b: seq<GpuSample>, j: nat)
    requires j < |a|
    ensures DropAt(a + b, j) == DropAt(a, j)
  {
    assert forall i | 0 <= i <= j :: (a + b)[i] == a[i];
  }

  /** Later samples never change a drop that was already found. */
  lemma FirstDropIsStable(a: seq<GpuSample>, b: seq<GpuSample>)
    requires FirstDrop(a, 0).Some?
    ensures FirstDrop(a + b, 0) == FirstDrop(a, 0)
  {
    var j :| 0 <= j < |a| && DropAt(a, j) && FirstDrop(a, 0).value == a[j] && forall k :: 0 <= k < j ==> !DropAt(a, k);
    forall k | 0 <= k <= j ensures DropAt(a + b, k) == DropAt(a, k) {
      DropAtAppend(a, b, k);
    }
    FirstDropAtStart(a + b, j);
  }

  lemma DropNeedsClock(samples: seq<GpuSample>, j: nat, k: nat)
    requires k < j < |samples| && Clock(samples[k]).Unsupported?
    ensures DropAt(samples[..k] + samples[k + 1..], j - 1) == DropAt(samples, j)
  {
    var fewer := samples[..k] + samples[k + 1..];
    assert fewer[j - 1] == samples[j];
    if DropAt(samples, j) {
      var i :| 0 <= i < j && Clock(samples[i]).Num? && Clock(samples[j]).value <= DROP_FACTOR * Clock(samples[i]).value;
      assert fewer[if i < k then i else i - 1] == samples[i];
    }
    if DropAt(fewer, j - 1) {
      var i :| 0 <= i < j - 1 && Clock(fewer[i]).Num? && Clock(fewer[j - 1]).value <= DROP_FACTOR * Clock(fewer[i]).value;
      assert samples[if i < k then i else i + 1] == fewer[i];
    }
  }

  function Without<T>(s: seq<T>, k: nat): (r: seq<T>)
    requires k < |s|
    ensures |r| == |s| - 1
  {
    s[..k] + s[k + 1..]
  }

  lemma ClocklessPosition(samples: seq<GpuSample>, k: nat, j: nat)
    requires k < |samples| && j < |samples| - 1 && Clock(samples[k]).Unsupported?
    ensures var p := if j < k then j else j + 1;
      Without(samples, k)[j] == samples[p] && DropAt(Without(samples, k), j) == DropAt(samples, p)
  {
    if j < k {
      assert samples == samples[..k] + samples[k..];
      DropAtAppend(samples[..k], samples[k + 1..], j);
      DropAtAppend(samples[..k], samples[k..], j);
    } else {
      DropNeedsClock(samples, j + 1, k);
    }
  }

  /** A sample without a clock reading can be taken out without changing the answer. */
  lemma ClocklessSampleIsInvisible(samples: seq<GpuSample>, k: nat)
    requires k < |samples| && Clock(samples[k]).Unsupported?
    ensures FirstDrop(Without(samples, k), 0) == FirstDrop(samples, 0)
  {
    var fewer := Without(samples, k);
    assert !DropAt(samples, k);
    hide *;
    if FirstDrop(fewer, 0).Some? {
      var m :| 0 <= m < |fewer| && DropAt(fewer, m) && FirstDrop(fewer, 0).value == fewer[m]
        && forall i :: 0 <= i < m ==> !DropAt(fewer, i);
      ClocklessPosition(samples, k, m);
      NoDropsBefore(samples, k, m);
      FirstDropAtStart(samples, if m < k then m else m + 1);
    } else {
      NoDropsBefore(samples, k, |fewer|);
    }
  }

  lemma NoDropsBefore(samples: seq<GpuSample>, k: nat, m: nat)
    requires k < |samples| && m < |samples| && Clock(samples[k]).Unsupported?
    requires forall i :: 0 <= i < m ==> !DropAt(Without(samples, k), i)
    ensures forall i :: 0 <= i < (if m < k then m else m + 1) ==> !DropAt(samples, i)
  {
    assert !DropAt(samples, k);
    hide *;
    forall i | 0 <= i < if m < k then m else m + 1 ensures !DropAt(samples, i) {
      if i != k {
        ClocklessPosition(samples, k, if i < k then i else i - 1);
      }
    }
  }

  // ---- What decides the verdict ----

  predicate Correlated(d: GpuSample) {
    Hot(d) || NearPowerLimit(d)
  }

  /** The three states, each with exactly the evidence that leads to it. */
  lemma VerdictDecision(samples: seq<GpuSample>, g: int)
    ensures var v, drop, active := Verdict(samples, g), FirstDrop(samples, 0), ActiveReasons(samples);
      && (v.state == Suspected <==> active != {} || (drop.Some? && Correlated(drop.value)))
      && (v.state == Unknown <==>
          (active == {} && (|Clocked(samples)| < 2 || (drop.Some? && !Correlated(drop.value) && !LowUtilization(drop.value)))))
      && (v.state == NotSuspected ==> |Clocked(samples)| >= 2)
      && (v.confidence == 1.0 <==> active != {})
      && 0.0 <= v.confidence <= 1.0
  {
    DropNeedsTwoClocks(samples);
  }

  // ---- Growing windows ----

  lemma GrownSamples(base: seq<Snapshot>, more: seq<Snapshot>, g: int)
    requires forall x, y :: x in base && y in more ==> x.timestamp <= y.timestamp
    ensures DeviceSamples(Chronological(base + more), g) ==
      DeviceSamples(Chronological(base), g) + DeviceSamples(Chronological(more), g)
  {
    NoLaterIsPreorder();
    forall x, y | x in base && y in more ensures NoLater(x, y) {
    }
    SortAppend(base, more, NoLater);
    CollectAppend(Chronological(base), Chronological(more), PickDevice(g));
  }

  lemma ActiveReasonsGrow(a: seq<GpuSample>, b: seq<GpuSample>)
    ensures ActiveReasons(a + b) == ActiveReasons(a) + ActiveReasons(b)
  {
  }

  lemma GrownState(a: seq<GpuSample>, b: seq<GpuSample>, g: int)
    requires Verdict(a, g).state == Suspected
    ensures Verdict(a + b, g).state == Suspected
  {
    ActiveReasonsGrow(a, b);
    VerdictDecision(a, g);
    VerdictDecision(a + b, g);
    if FirstDrop(a, 0).Some? {
      FirstDropIsStable(a, b);
    }
    hide *;
  }

  /** The assessment of a drop that the driver does not explain. */
  function DropAssessment(g: int, d: GpuSample): ThrottleVerdict {
    ClockVerdict(g, 2, 2, 0, Some(d)).(supportedSamples := 0)
  }

  lemma VerdictOfDrop(samples: seq<GpuSample>, g: int)
    requires FirstDrop(samples, 0).Some?
    ensures var active, v := ActiveReasons(samples), Verdict(samples, g).(supportedSamples := 0);
      v == if active != {} then ThrottleVerdict(g, Suspected, DriverReported(active), 1.0, 0)
           else DropAssessment(g, FirstDrop(samples, 0).value)
    ensures !DropAssessment(g, FirstDrop(samples, 0).value).reason.DriverReported?
  {
    DropNeedsTwoClocks(samples);
    hide FirstDrop, ActiveReasons, Clocked, Reported, Hot, NearPowerLimit, LowUtilization;
  }

  lemma GrownAssessment(a: seq<GpuSample>, b: seq<GpuSample>, g: int)
    requires FirstDrop(a, 0).Some?
    ensures SameAssessment(Verdict(a + b, g), Verdict(a, g)) <==> ActiveReasons(b) <= ActiveReasons(a)
    ensures ActiveReasons(b) <= ActiveReasons(a) || Verdict(a + b, g).state == Suspected
  {
    var known, added := ActiveReasons(a), ActiveReasons(b);
    hide FirstDrop, ActiveReasons, Verdict, DropAssessment;
    ActiveReasonsGrow(a, b);
    FirstDropIsStable(a, b);
    VerdictOfDrop(a, g);
    VerdictOfDrop(a + b, g);
    assert added <= known <==> known + added == known;
    assert known != {} ==> known + added != {};
    var v := Verdict(a + b, g);
    assert v.state == v.(supportedSamples := 0).state;
  }

  /** Equal in everything but the number of samples that supplied the evidence. */
  predicate SameAssessment(v: ThrottleVerdict, w: ThrottleVerdict) {
    v.(supportedSamples := 0) == w.(supportedSamples := 0)
  }

  lemma VerdictOfReport(s: seq<Snapshot>, g: int)
    ensures ReportOn(s, g).verdict == Verdict(DeviceSamples(s, g), g)
  {
    hide Verdict;
  }

  /** SUSPECTED is absorbing: snapshots no earlier than the window's never take it back. */
  lemma SuspicionIsNeverWithdrawn(base: seq<Snapshot>, more: seq<Snapshot>, g: int)
    requires forall x, y :: x in base && y in more ==> x.timestamp <= y.timestamp
    ensures ReportOn(Chronological(base), g).verdict.state == Suspected ==>
      ReportOn(Chronological(base + more), g).verdict.state == Suspected
  {
    GrownSamples(base, more, g);
    VerdictOfReport(Chronological(base), g);
    VerdictOfReport(Chronological(base + more), g);
    hide *;
    if Verdict(DeviceSamples(Chronological(base), g), g).state == Suspected {
      GrownState(DeviceSamples(Chronological(base), g), DeviceSamples(Chronological(more), g), g);
    }
  }

  /** Once a drop is found, the assessment changes exactly when the driver reports a new reason. */
  lemma OnlyTheDriverMovesADrop(base: seq<Snapshot>, more: seq<Snapshot>, g: int)
    requires forall x, y :: x in base && y in more ==> x.timestamp <= y.timestamp
    requires FirstDrop(DeviceSamples(Chronological(base), g), 0).Some?
    ensures
      var before, after := ReportOn(Chronological(base), g).verdict, ReportOn(Chronological(base + more), g).verdict;
      var known := ActiveReasons(DeviceSamples(Chronological(base), g));
      var added := ActiveReasons(DeviceSamples(Chronological(more), g));
      && (SameAssessment(after, before) <==> added <= known)
      && (added <= known || after.state == Suspected)
  {
    GrownSamples(base, more, g);
    hide FirstDrop, ActiveReasons, Verdict, Chronological, DeviceSamples, SameAssessment;
    GrownAssessment(DeviceSamples(Chronological(base), g), DeviceSamples(Chronological(more), g), g);
  }

  // ---- What the verdict sees of throttle reasons ----

  /**
   * Samples that differ at most in how they list their reasons and whether idleness is among them, and in
   * that the second may be unable to tell where the first knows that nothing throttles.
   */
  ghost predicate Twins(x: GpuSample, y: GpuSample) {
    && x.readings == y.readings
    && (forall r :: r != GpuIdle ==> (r in x.throttleReasons <==> r in y.throttleReasons))
    && (x.throttleReasonsAvailable != y.throttleReasonsAvailable ==>
        x.throttleReasonsAvailable && forall r <- x.throttleReasons :: r == GpuIdle)
  }

  ghost predicate AllTwins(a: seq<GpuSample>, b: seq<GpuSample>) {
    |a| == |b| && forall i | 0 <= i < |a| :: Twins(a[i], b[i])
  }

  ghost predicate SameAvailability(a: seq<GpuSample>, b: seq<GpuSample>) {
    |a| == |b| && forall i | 0 <= i < |a| :: a[i].throttleReasonsAvailable == b[i].throttleReasonsAvailable
  }

  lemma {:induction false} TwinCounts(a: seq<GpuSample>, b: seq<GpuSample>)
    requires AllTwins(a, b)
    ensures |Clocked(a)| == |Clocked(b)| && |Reported(b)| <= |Reported(a)| <= |a|
    ensures |Reported(b)| == |Reported(a)| <==> SameAvailability(a, b)
  {
    if a != [] {
      assert Twins(a[0], b[0]);
      TwinCounts(a[1..], b[1..]);
      assert SameAvailability(a, b) <==>
        a[0].throttleReasonsAvailable == b[0].throttleReasonsAvailable && SameAvailability(a[1..], b[1..]) by {
        if SameAvailability(a[1..], b[1..]) {
          assert forall i | 1 <= i < |a| :: a[i] == a[1..][i - 1] && b[i] == b[1..][i - 1];
        }
      }
    }
  }

  lemma TwinActive(a: seq<GpuSample>, b: seq<GpuSample>)
    requires AllTwins(a, b)
    ensures ActiveReasons(a) == ActiveReasons(b)
  {
    forall r ensures r in ActiveReasons(a) <==> r in ActiveReasons(b) {
      if r in ActiveReasons(a) {
        var i :| 0 <= i < |a| && a[i].throttleReasonsAvailable && r in a[i].throttleReasons;
        assert Twins(a[i], b[i]) && b[i] in b;
      }
      if r in ActiveReasons(b) {
        var i :| 0 <= i < |b| && b[i].throttleReasonsAvailable && r in b[i].throttleReasons;
        assert Twins(a[i], b[i]) && a[i] in a;
      }
    }
  }

  lemma TwinDropAt(a: seq<GpuSample>, b: seq<GpuSample>, j: nat)
    requires AllTwins(a, b) && j < |a|
    ensures DropAt(a, j) == DropAt(b, j)
  {
    forall i | 0 <= i < |a| ensures Clock(a[i]) == Clock(b[i]) {
      assert Twins(a[i], b[i]);
    }
  }

  lemma TwinDrop(a: seq<GpuSample>, b: seq<GpuSample>)
    requires AllTwins(a, b)
    ensures FirstDrop(a, 0).Some? == FirstDrop(b, 0).Some?
    ensures FirstDrop(a, 0).Some? ==> FirstDrop(a, 0).value.readings == FirstDrop(b, 0).value.readings
  {
    forall j: nat | j < |a| ensures DropAt(a, j) == DropAt(b, j) {
      TwinDropAt(a, b, j);
    }
    hide DropAt, Twins;
    if FirstDrop(a, 0).Some? {
      var j :| 0 <= j < |a| && DropAt(a, j) && FirstDrop(a, 0).value == a[j] && forall k :: 0 <= k < j ==> !DropAt(a, k);
      FirstDropAtStart(b, j);
      TwinReadings(a[j], b[j]);
    }
  }

  lemma TwinReadings(x: GpuSample, y: GpuSample)
    requires Twins(x, y)
    ensures x.readings == y.readings
  {
  }

  /** The evidence of which the verdict is more than a state: a reason, or a driver that always answered. */
  ghost predicate AvailabilityMatters(a: seq<GpuSample>) {
    ActiveReasons(a) != {} ||
    (|Clocked(a)| >= MIN_CLOCK_SAMPLES && FirstDrop(a, 0).None? && |Reported(a)| == |a|)
  }

  lemma ClockVerdictSees(g: int, n: nat, clocks: nat, more: nat, fewer: nat, d: Option<GpuSample>, e: Option<GpuSample>)
    requires d.Some? == e.Some? && (d.Some? ==> d.value.readings == e.value.readings) && fewer <= more <= n && clocks <= n
    ensures ClockVerdict(g, n, clocks, more, d).state == ClockVerdict(g, n, clocks, fewer, e).state
    ensures ClockVerdict(g, n, clocks, more, d) == ClockVerdict(g, n, clocks, fewer, e) <==>
      more == fewer || !(clocks >= MIN_CLOCK_SAMPLES && d.None? && more == n)
  {
  }

  lemma {:induction false} ClockedAtMost(a: seq<GpuSample>)
    ensures |Clocked(a)| <= |a|
  {
    if a != [] {
      ClockedAtMost(a[1..]);
    }
  }

  /** Twins always get the same state, and the same verdict unless a difference in availability matters. */
  lemma TwinsGetTheSameVerdictIff(a: seq<GpuSample>, b: seq<GpuSample>, g: int)
    requires AllTwins(a, b)
    ensures Verdict(a, g).state == Verdict(b, g).state
    ensures Verdict(a, g) == Verdict(b, g) <==> SameAvailability(a, b) || !AvailabilityMatters(a)
  {
    TwinCounts(a, b);
    TwinActive(a, b);
    TwinDrop(a, b);
    ClockedAtMost(a);
    hide FirstDrop, ActiveReasons, Clocked, Reported, Twins, SameAvailability;
    ClockVerdictSees(g, |a|, |Clocked(a)|, |Reported(a)|, |Reported(b)|, FirstDrop(a, 0), FirstDrop(b, 0));
    hide ClockVerdict;
  }

  ghost predicate SameReasonSet(x: GpuSample, y: GpuSample) {
    && x.readings == y.readings
    && x.throttleReasonsAvailable == y.throttleReasonsAvailable
    && forall r :: r in x.throttleReasons <==> r in y.throttleReasons
  }

  /** The verdict sees throttle reasons as a set: the order a backend lists them in is invisible. */
  lemma ReasonOrderIsInvisible(a: seq<GpuSample>, b: seq<GpuSample>, g: int)
    requires |a| == |b| && forall i | 0 <= i < |a| :: SameReasonSet(a[i], b[i])
    ensures Verdict(a, g) == Verdict(b, g)
  {
    forall i | 0 <= i < |a|
      ensures Twins(a[i], b[i]) && a[i].throttleReasonsAvailable == b[i].throttleReasonsAvailable
    {
      assert SameReasonSet(a[i], b[i]);
    }
    hide Twins, SameReasonSet;
    TwinsGetTheSameVerdictIff(a, b, g);
  }
}
