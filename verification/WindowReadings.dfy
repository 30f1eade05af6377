/** What a window's figures and verdict say in terms of the reported readings themselves. */
module WindowReadings {
  import opened Telemetry
  import opened Sorting
  import opened Collecting
  import opened Window
  import opened WindowVerdict
  import opened WindowLaws

  // ---- Figures ----

  /** The device's sample is the first one that has its index. */
  lemma {:induction false} FindDeviceIsFirst(gpus: seq<GpuSample>, g: int)
    ensures match FindDevice(gpus, g)
      case Some(s) => exists k | 0 <= k < |gpus| :: gpus[k] == s && s.index == g && forall i | 0 <= i < k :: gpus[i].index != g
      case None => forall s <- gpus :: s.index != g
  {
    if gpus != [] && gpus[0].index != g {
      FindDeviceIsFirst(gpus[1..], g);
      if FindDevice(gpus[1..], g).Some? {
        var k :| 0 <= k < |gpus[1..]| && gpus[1..][k] == FindDevice(gpus, g).value && gpus[1..][k].index == g
          && forall i | 0 <= i < k :: gpus[1..][i].index != g;
        assert gpus[k + 1] == FindDevice(gpus, g).value;
        assert forall i | 1 <= i < k + 1 :: gpus[i] == gpus[1..][i - 1];
      }
    }
  }

  function Counted(m: Measurement): nat {
    if m.Num? then 1 else 0
  }

  lemma OneSampleMeasured(x: Snapshot, g: int, f: GpuField)
    ensures Measurements([x], g, f) ==
      match FindDevice(x.gpus, g)
      case None => []
      case Some(d) => match d.readings.Get(f) case Num(v) => [v] case Unsupported => []
  {
    assert [x][1..] == [];
    assert DeviceSamples([x], g) == PickDevice(g)(x) + DeviceSamples([], g);
    var matched := DeviceSamples([x], g);
    if matched != [] {
      assert matched[1..] == [] && Collect(matched[1..], PickValue(f)) == [];
    }
  }

  /** One snapshot's figures are that device's readings; time is needed before there is energy. */
  lemma FiguresOfOneSnapshot(x: Snapshot, g: int)
    ensures var r := ReportOn([x], g);
      match FindDevice(x.gpus, g)
      case None =>
        r.peakVram == Unsupported && r.meanPower == Unsupported && r.energy == Unsupported && r.maxTemperature == Unsupported
      case Some(d) =>
        && r.peakVram == d.readings.vramUsedBytes
        && r.meanPower == d.readings.powerWatts
        && r.maxTemperature == d.readings.temperatureC
        && r.energy == Unsupported
        && r.counts[PeakVramMetric] == Counted(d.readings.vramUsedBytes)
        && r.counts[MeanPowerMetric] == Counted(d.readings.powerWatts)
        && r.counts[MaxTemperatureMetric] == Counted(d.readings.temperatureC)
        && r.counts[EnergyMetric] == 0
  {
    OneSampleMeasured(x, g, VramUsedBytes);
    OneSampleMeasured(x, g, PowerWatts);
    OneSampleMeasured(x, g, TemperatureC);
    NoEnergyYet(x, g);
    hide FindDevice, DeviceSamples, Verdict, Measurements, EnergyTerms;
    forall v ensures Peak([v]) == Num(v) && Mean([v]) == Num(v) {
      OneValue(v);
    }
  }

  lemma NoEnergyYet(x: Snapshot, g: int)
    ensures EnergyTerms([x], g) == []
  {
  }

  lemma OneValue(v: real)
    ensures Peak([v]) == Num(v) && Mean([v]) == Num(v)
  {
    assert [v][1..] == [] && Sum([v]) == v;
  }

  /** What is counted over two stretches is what is counted over each. */
  lemma MeasurementsAppend(a: seq<Snapshot>, b: seq<Snapshot>, g: int, f: GpuField)
    ensures Measurements(a + b, g, f) == Measurements(a, g, f) + Measurements(b, g, f)
  {
    CollectAppend(a, b, PickDevice(g));
    CollectAppend(DeviceSamples(a, g), DeviceSamples(b, g), PickValue(f));
  }

  /** The mean is total over count, the energy the total of its terms. */
  lemma MeanAndTotal(s: seq<Snapshot>, g: int)
    ensures var r := ReportOn(s, g);
      && (r.meanPower.Num? ==>
          r.meanPower.value * r.counts[MeanPowerMetric] as real == Sum(Measurements(s, g, PowerWatts)))
      && (r.energy.Num? ==> r.energy.value == Sum(EnergyTerms(s, g)))
  {
    hide Measurements, EnergyTerms, DeviceSamples, Verdict, Sum, Peak;
    var values := Measurements(s, g, PowerWatts);
    MeanTimesCount(values);
    hide Mean;
  }

  lemma MeanTimesCount(values: seq<real>)
    ensures Mean(values).Num? ==> Mean(values).value * |values| as real == Sum(values)
  {
  }

  lemma RectangleIsProduct(p: real, seconds: real)
    ensures Rectangle(p, seconds) == p * seconds
  {
  }

  /** Watts times seconds: one interval contributes exactly when it has a length and power at its start. */
  lemma EnergyOfOneInterval(x: Snapshot, y: Snapshot, g: int)
    ensures var terms, sample, seconds := EnergyTerms([x, y], g), FindDevice(x.gpus, g), y.timestamp - x.timestamp;
      if sample.Some? && sample.value.readings.powerWatts.Num? && seconds > 0.0
      then |terms| == 1 && terms[0] == sample.value.readings.powerWatts.value * seconds
      else terms == []
  {
    assert [x] + [y] == [x, y];
    OneInterval(x, y, g);
    hide EnergyTerms, FindDevice;
    if IntegrablePower(x, y, g).Some? {
      RectangleIsProduct(IntegrablePower(x, y, g).value, y.timestamp - x.timestamp);
    }
  }

  // ---- The verdict ----

  function ClockCount(samples: seq<GpuSample>): nat {
    if samples == [] then 0
    else ClockCount(samples[1..]) + Counted(samples[0].readings.coreClockMhz)
  }

  function ReportedCount(samples: seq<GpuSample>): nat {
    if samples == [] then 0
    else ReportedCount(samples[1..]) + if samples[0].throttleReasonsAvailable then 1 else 0
  }

  lemma {:induction false} CountsAreLengths(samples: seq<GpuSample>)
    ensures |Clocked(samples)| == ClockCount(samples) && |Reported(samples)| == ReportedCount(samples)
  {
    if samples != [] {
      CountsAreLengths(samples[1..]);
    }
  }

  /** Some sample's driver reports reason `r`. */
  ghost predicate Reports(samples: seq<GpuSample>, r: ThrottleReason) {
    exists i | 0 <= i < |samples| :: samples[i].throttleReasonsAvailable && r in samples[i].throttleReasons
  }

  /** Some reason other than idleness is reported. */
  ghost predicate DriverBlames(samples: seq<GpuSample>) {
    exists r :: r != GpuIdle && Reports(samples, r)
  }

  /** Clock `j` is at or below 85% of an earlier one, and no clock before it is. */
  ghost predicate FirstDropIs(samples: seq<GpuSample>, j: nat) {
    && j < |samples|
    && DropsBelow(samples, j)
    && forall k :: 0 <= k < j ==> !DropsBelow(samples, k)
  }

  ghost predicate DropsBelow(samples: seq<GpuSample>, j: nat)
    requires j < |samples|
  {
    exists i | 0 <= i < j ::
      && samples[i].readings.coreClockMhz.Num? && samples[j].readings.coreClockMhz.Num?
      && samples[j].readings.coreClockMhz.value <= 0.85 * samples[i].readings.coreClockMhz.value
  }

  lemma ActiveAreBlamed(samples: seq<GpuSample>)
    ensures forall r :: r in ActiveReasons(samples) <==> r != GpuIdle && Reports(samples, r)
    ensures ActiveReasons(samples) != {} <==> DriverBlames(samples)
  {
    forall r ensures r in ActiveReasons(samples) <==> r != GpuIdle && Reports(samples, r) {
      if r != GpuIdle && Reports(samples, r) {
        var i :| 0 <= i < |samples| && samples[i].throttleReasonsAvailable && r in samples[i].throttleReasons;
        assert samples[i] in samples;
      }
    }
    hide ActiveReasons, Reports;
    if ActiveReasons(samples) != {} {
      var r :| r in ActiveReasons(samples);
    }
  }

  lemma DropAtIsDropsBelow(samples: seq<GpuSample>, j: nat)
    requires j < |samples|
    ensures DropAt(samples, j) <==> DropsBelow(samples, j)
  {
  }

  lemma FirstDropByReadings(samples: seq<GpuSample>)
    ensures FirstDrop(samples, 0).None? <==> forall j: nat | j < |samples| :: !DropsBelow(samples, j)
    ensures forall j: nat :: FirstDropIs(samples, j) ==> FirstDrop(samples, 0) == Some(samples[j])
  {
    forall j: nat | j < |samples| ensures DropAt(samples, j) <==> DropsBelow(samples, j) {
      DropAtIsDropsBelow(samples, j);
    }
    hide DropAt, DropsBelow;
    forall j: nat | FirstDropIs(samples, j) ensures FirstDrop(samples, 0) == Some(samples[j]) {
      FirstDropAtStart(samples, j);
    }
  }

  /** What a drop is put down to: heat, the power limit, idling, or nothing known. */
  function Blame(r: Readings<Measurement>): (ThrottleState, VerdictReason, real) {
    if r.temperatureC.Num? && r.temperatureC.value >= 80.0 then
      (Suspected, ClockDropWithHighTemperature, 0.8)
    else if r.powerWatts.Num? && r.powerLimitWatts.Num? && r.powerLimitWatts.value > 0.0
      && r.powerWatts.value / r.powerLimitWatts.value >= 0.95 then
      (Suspected, ClockDropNearPowerLimit, 0.75)
    else if r.utilizationPercent.Num? && r.utilizationPercent.value <= 50.0 then
      (NotSuspected, ClockDropWithLowUtilization, 0.75)
    else
      (Unknown, ClockDropWithoutCorrelatingEvidence, 0.25)
  }

  lemma BlameIsTheClockVerdict(g: int, n: nat, clocks: nat, reported: nat, d: GpuSample)
    requires clocks >= 2
    ensures var (state, reason, confidence) := Blame(d.readings);
      ClockVerdict(g, n, clocks, reported, Some(d)) == ThrottleVerdict(g, state, reason, confidence, clocks)
  {
  }

  /** A driver that names any reason but idleness decides alone. */
  lemma BlameDecides(samples: seq<GpuSample>, g: int)
    requires DriverBlames(samples)
    ensures var v := Verdict(samples, g);
      && v.state == Suspected && v.confidence == 1.0 && v.supportedSamples == ReportedCount(samples)
      && v.reason.DriverReported? && forall r :: r in v.reason.active <==> r != GpuIdle && Reports(samples, r)
  {
    ActiveAreBlamed(samples);
    CountsAreLengths(samples);
    hide ActiveReasons, Clocked, Reported, DriverBlames, Reports;
  }

  /** Otherwise the clocks decide: too few, no drop, or a first drop judged by its own sample's readings. */
  lemma ClocksDecide(samples: seq<GpuSample>, g: int)
    requires !DriverBlames(samples)
    ensures var v := Verdict(samples, g);
      && (ClockCount(samples) < 2 ==> v == ThrottleVerdict(g, Unknown, InsufficientClockData, 0.0, ClockCount(samples)))
      && (ClockCount(samples) >= 2 && (forall j: nat | j < |samples| :: !DropsBelow(samples, j)) ==>
          v == if ReportedCount(samples) == |samples|
               then ThrottleVerdict(g, NotSuspected, DriverReportedNoThrottling, 0.95, |samples|)
               else ThrottleVerdict(g, NotSuspected, NoSubstantialClockDrop, 0.6, ClockCount(samples)))
      && (forall j: nat :: FirstDropIs(samples, j) ==>
          var (state, reason, confidence) := Blame(samples[j].readings);
          v == ThrottleVerdict(g, state, reason, confidence, ClockCount(samples)))
  {
    ActiveAreBlamed(samples);
    CountsAreLengths(samples);
    FirstDropByReadings(samples);
    DropNeedsTwoClocks(samples);
    ClockedAtMost(samples);
    hide ActiveReasons, Clocked, Reported, DriverBlames, DropsBelow, FirstDrop, Blame;
    forall j: nat | FirstDropIs(samples, j)
      ensures var (state, reason, confidence) := Blame(samples[j].readings);
        Verdict(samples, g) == ThrottleVerdict(g, state, reason, confidence, ClockCount(samples))
    {
      BlameIsTheClockVerdict(g, |samples|, |Clocked(samples)|, |Reported(samples)|, samples[j]);
      hide ClockVerdict;
    }
  }

  /** The same sample without a report of idleness. */
  function Awake(x: GpuSample): GpuSample {
    x.(throttleReasons := Collect(x.throttleReasons, KeepUnlessIdle()))
  }

  function KeepUnlessIdle(): ThrottleReason -> seq<ThrottleReason> {
    (r: ThrottleReason) => if r == GpuIdle then [] else [r]
  }

  /** Idleness is not throttling: taking "gpu_idle" out of every report changes no verdict. */
  lemma IdlenessIsNotThrottling(samples: seq<GpuSample>, awake: seq<GpuSample>, g: int)
    requires |awake| == |samples| && forall i | 0 <= i < |samples| :: awake[i] == Awake(samples[i])
    ensures Verdict(awake, g) == Verdict(samples, g)
  {
    forall i | 0 <= i < |samples|
      ensures Twins(samples[i], awake[i])
      ensures samples[i].throttleReasonsAvailable == awake[i].throttleReasonsAvailable
    {
      CollectOrigin(samples[i].throttleReasons, KeepUnlessIdle());
      forall r | r in samples[i].throttleReasons && r != GpuIdle ensures r in awake[i].throttleReasons {
        assert r in KeepUnlessIdle()(r);
      }
    }
    hide Twins, Awake;
    TwinsGetTheSameVerdictIff(samples, awake, g);
  }
}
