/**
 * The derived per-device figures of a telemetry window: what each one is, as a function of the
 * chronologically sorted snapshots, and the methods that compute them with loops.
 */
module Window {
  import opened Telemetry
  import opened Sorting
  import opened Collecting

  const DROP_FACTOR := 0.85
  const HIGH_TEMPERATURE_C := 80.0
  const LOW_UTILIZATION_PERCENT := 50.0
  const POWER_LIMIT_FRACTION := 0.95
  const MIN_CLOCK_SAMPLES := 2

  predicate NoLater(a: Snapshot, b: Snapshot) {
    a.timestamp <= b.timestamp
  }

  lemma NoLaterIsPreorder()
    ensures TotalPreorder(NoLater)
  {
  }

  /** The snapshots a window built from `input` holds. */
  function Chronological(input: seq<Snapshot>): seq<Snapshot> {
    StableSort(input, NoLater)
  }

  // ---- One device's samples and values ----

  /** The first sample of device `g` in one snapshot. */
  function FindDevice(gpus: seq<GpuSample>, g: int): Option<GpuSample> {
    if gpus == [] then None
    else if gpus[0].index == g then Some(gpus[0])
    else FindDevice(gpus[1..], g)
  }

  function PickDevice(g: int): Snapshot -> seq<GpuSample> {
    (x: Snapshot) => match FindDevice(x.gpus, g) case Some(sample) => [sample] case None => []
  }

  function PickValue(f: GpuField): GpuSample -> seq<real> {
    (x: GpuSample) => match x.readings.Get(f) case Num(v) => [v] case Unsupported => []
  }

  function DeviceSamples(s: seq<Snapshot>, g: int): seq<GpuSample> {
    Collect(s, PickDevice(g))
  }

  function Measurements(s: seq<Snapshot>, g: int, f: GpuField): seq<real> {
    Collect(DeviceSamples(s, g), PickValue(f))
  }

  // ---- Peak, mean, energy ----

  ghost predicate IsMaximum(values: seq<real>, m: real) {
    m in values && forall v <- values :: v <= m
  }

  function Peak(values: seq<real>): (r: Measurement)
    ensures r == Unsupported <==> values == []
    ensures r.Num? ==> IsMaximum(values, r.value)
  {
    if values == [] then Unsupported
    else
      assert values == [values[0]] + values[1..];
      match Peak(values[1..])
      case Unsupported => Num(values[0])
      case Num(m) => Num(if m > values[0] then m else values[0])
  }

  function Mean(values: seq<real>): Measurement {
    if values == [] then Unsupported else Num(Sum(values) / |values| as real)
  }

  function Total(terms: seq<real>): Measurement {
    if terms == [] then Unsupported else Num(Sum(terms))
  }

  /** The power `current` reports for device `g`, if it can be integrated until `following`. */
  function IntegrablePower(current: Snapshot, following: Snapshot, g: int): Option<real> {
    if following.timestamp - current.timestamp <= 0.0 then None
    else
      match FindDevice(current.gpus, g)
      case None => None
      case Some(sample) =>
        match sample.readings.powerWatts
        case Num(p) => Some(p)
        case Unsupported => None
  }

  function Rectangle(power: real, seconds: real): real {
    power * seconds
  }

  /** Each snapshot with its successor, as itertools.pairwise gives them. */
  function Pairwise(s: seq<Snapshot>): seq<(Snapshot, Snapshot)> {
    if |s| < 2 then [] else seq(|s| - 1, i requires 0 <= i < |s| - 1 => (s[i], s[i + 1]))
  }

  function PickEnergy(g: int): ((Snapshot, Snapshot)) -> seq<real> {
    (p: (Snapshot, Snapshot)) =>
      match IntegrablePower(p.0, p.1, g)
      case Some(power) => [Rectangle(power, p.1.timestamp - p.0.timestamp)]
      case None => []
  }

  function EnergyTerms(s: seq<Snapshot>, g: int): seq<real> {
    Collect(Pairwise(s), PickEnergy(g))
  }

  // ---- Throttling ----

  function Clock(sample: GpuSample): Measurement {
    sample.readings.coreClockMhz
  }

  function KeepClocked(): GpuSample -> seq<GpuSample> {
    (x: GpuSample) => if Clock(x).Num? then [x] else []
  }

  function KeepReported(): GpuSample -> seq<GpuSample> {
    (x: GpuSample) => if x.throttleReasonsAvailable then [x] else []
  }

  function Clocked(samples: seq<GpuSample>): seq<GpuSample> {
    Collect(samples, KeepClocked())
  }

  function Reported(samples: seq<GpuSample>): seq<GpuSample> {
    Collect(samples, KeepReported())
  }

  /** The driver-reported reasons that count as throttling: every one but "gpu_idle". */
  function ActiveReasons(samples: seq<GpuSample>): set<ThrottleReason> {
    set s <- samples, r <- s.throttleReasons | s.throttleReasonsAvailable && r != GpuIdle :: r
  }

  /** Sample `j` is at least 15% below some earlier supported clock. */
  predicate DropAt(samples: seq<GpuSample>, j: nat)
    requires j < |samples|
  {
    Clock(samples[j]).Num? &&
    exists i | 0 <= i < j ::
      Clock(samples[i]).Num? && Clock(samples[j]).value <= DROP_FACTOR * Clock(samples[i]).value
  }

  /** The first drop at or after `from`, by looking at every earlier sample each time. */
  function FirstDrop(samples: seq<GpuSample>, from: nat): (r: Option<GpuSample>)
    requires from <= |samples|
    ensures r.None? <==> forall j :: from <= j < |samples| ==> !DropAt(samples, j)
    ensures r.Some? ==>
      exists j :: from <= j < |samples| && DropAt(samples, j) && r.value == samples[j] &&
        forall k :: from <= k < j ==> !DropAt(samples, k)
    decreases |samples| - from
  {
    if from == |samples| then None
    else if DropAt(samples, from) then Some(samples[from])
    else FirstDrop(samples, from + 1)
  }

  datatype ThrottleState = Suspected | NotSuspected | Unknown

  datatype VerdictReason =
    | DriverReported(active: set<ThrottleReason>)
    | InsufficientClockData
    | DriverReportedNoThrottling
    | NoSubstantialClockDrop
    | ClockDropWithHighTemperature
    | ClockDropNearPowerLimit
    | ClockDropWithLowUtilization
    | ClockDropWithoutCorrelatingEvidence

  datatype ThrottleVerdict = ThrottleVerdict(
    gpuIndex: int,
    state: ThrottleState,
    reason: VerdictReason,
    confidence: real,
    supportedSamples: nat)

  predicate Hot(d: GpuSample) {
    d.readings.temperatureC.Num? && d.readings.temperatureC.value >= HIGH_TEMPERATURE_C
  }

  predicate NearPowerLimit(d: GpuSample) {
    && d.readings.powerWatts.Num? && d.readings.powerLimitWatts.Num?
    && d.readings.powerLimitWatts.value > 0.0
    && d.readings.powerWatts.value / d.readings.powerLimitWatts.value >= POWER_LIMIT_FRACTION
  }

  predicate LowUtilization(d: GpuSample) {
    d.readings.utilizationPercent.Num? && d.readings.utilizationPercent.value <= LOW_UTILIZATION_PERCENT
  }

  /** The layered verdict once the active reasons, the evidence counts and the drop are known. */
  function ClockVerdict(g: int, sampleCount: nat, clockCount: nat, reportedCount: nat, drop: Option<GpuSample>)
    : ThrottleVerdict
  {
    if clockCount < MIN_CLOCK_SAMPLES then
      ThrottleVerdict(g, Unknown, InsufficientClockData, 0.0, clockCount)
    else if drop.None? && reportedCount > 0 && reportedCount == sampleCount then
      ThrottleVerdict(g, NotSuspected, DriverReportedNoThrottling, 0.95, reportedCount)
    else if drop.None? then
      ThrottleVerdict(g, NotSuspected, NoSubstantialClockDrop, 0.6, clockCount)
    else if Hot(drop.value) then
      ThrottleVerdict(g, Suspected, ClockDropWithHighTemperature, 0.8, clockCount)
    else if NearPowerLimit(drop.value) then
      ThrottleVerdict(g, Suspected, ClockDropNearPowerLimit, 0.75, clockCount)
    else if LowUtilization(drop.value) then
      ThrottleVerdict(g, NotSuspected, ClockDropWithLowUtilization, 0.75, clockCount)
    else
      ThrottleVerdict(g, Unknown, ClockDropWithoutCorrelatingEvidence, 0.25, clockCount)
  }

  function Verdict(samples: seq<GpuSample>, g: int): ThrottleVerdict {
    if ActiveReasons(samples) != {} then
      ThrottleVerdict(g, Suspected, DriverReported(ActiveReasons(samples)), 1.0, |Reported(samples)|)
    else
      ClockVerdict(g, |samples|, |Clocked(samples)|, |Reported(samples)|, FirstDrop(samples, 0))
  }

  datatype WindowMetric = PeakVramMetric | MeanPowerMetric | EnergyMetric | MaxTemperatureMetric | ThrottlingMetric

  function EvidenceCount(s: seq<Snapshot>, g: int, metric: WindowMetric): nat {
    match metric
    case PeakVramMetric => |Measurements(s, g, VramUsedBytes)|
    case MeanPowerMetric => |Measurements(s, g, PowerWatts)|
    case EnergyMetric => |EnergyTerms(s, g)|
    case MaxTemperatureMetric => |Measurements(s, g, TemperatureC)|
    case ThrottlingMetric => Verdict(DeviceSamples(s, g), g).supportedSamples
  }

  /** Everything a window says about one device. */
  datatype Report = Report(
    peakVram: Measurement,
    meanPower: Measurement,
    energy: Measurement,
    maxTemperature: Measurement,
    verdict: ThrottleVerdict,
    counts: map<WindowMetric, nat>)

  function ReportOn(s: seq<Snapshot>, g: int): Report {
    Report(
      Peak(Measurements(s, g, VramUsedBytes)),
      Mean(Measurements(s, g, PowerWatts)),
      Total(EnergyTerms(s, g)),
      Peak(Measurements(s, g, TemperatureC)),
      Verdict(DeviceSamples(s, g), g),
      map m: WindowMetric | m in {PeakVramMetric, MeanPowerMetric, EnergyMetric, MaxTemperatureMetric, ThrottlingMetric}
        :: EvidenceCount(s, g, m))
  }

  /** The running maximum before sample `k`, as the drop detector keeps it. */
  ghost predicate RunningMaximum(samples: seq<GpuSample>, k: nat, m: Option<real>)
    requires k <= |samples|
  {
    match m
    case None => forall i | 0 <= i < k :: Clock(samples[i]).Unsupported?
    case Some(c) =>
      && (exists i | 0 <= i < k :: Clock(samples[i]) == Num(c))
      && (forall i | 0 <= i < k && Clock(samples[i]).Num? :: Clock(samples[i]).value <= c)
  }

  /** One comparison against the running maximum is as good as comparing with every earlier clock. */
  lemma MaximumDecidesDrop(samples: seq<GpuSample>, k: nat, m: Option<real>)
    requires k < |samples| && RunningMaximum(samples, k, m)
    ensures DropAt(samples, k) <==>
      m.Some? && Clock(samples[k]).Num? && Clock(samples[k]).value <= m.value * DROP_FACTOR
  {
    if m.Some? && Clock(samples[k]).Num? {
      var w :| 0 <= w < k && Clock(samples[w]) == Num(m.value);
      forall i | 0 <= i < k && Clock(samples[i]).Num?
        ensures DROP_FACTOR * Clock(samples[i]).value <= DROP_FACTOR * m.value
      {
      }
    }
  }

  lemma FirstDropAtStart(samples: seq<GpuSample>, k: nat)
    requires k < |samples| && DropAt(samples, k)
    requires forall j :: 0 <= j < k ==> !DropAt(samples, j)
    ensures FirstDrop(samples, 0) == Some(samples[k])
  {
  }

  /** The window class: its snapshots are set once, sorted, and never change. */
  class TelemetryWindow {
    const samples: seq<Snapshot>

    /** The input in order of time, nothing lost or added, and snapshots that tie in the order they came. */
    constructor (input: seq<Snapshot>)
      ensures samples == Chronological(input)
      ensures Sorted(samples, NoLater) && multiset(samples) == multiset(input) && |samples| == |input|
      ensures forall x :: Ties(samples, x, NoLater) == Ties(input, x, NoLater)
    {
      NoLaterIsPreorder();
      StableSortSpec(input, NoLater);
      samples := Chronological(input);
    }

    method GpuSamples(g: int) returns (matched: seq<GpuSample>)
      ensures matched == DeviceSamples(samples, g)
    {
      matched := [];
      for i := 0 to |samples|
        invariant matched == DeviceSamples(samples[..i], g)
      {
        CollectStep(samples, i, PickDevice(g));
        var sample := FindDevice(samples[i].gpus, g);
        if sample.Some? {
          matched := matched + [sample.value];
        }
      }
      Whole(samples);
    }

    method MeasurementsOf(g: int, f: GpuField) returns (values: seq<real>)
      ensures values == Measurements(samples, g, f)
    {
      values := [];
      var matched := GpuSamples(g);
      for i := 0 to |matched|
        invariant values == Collect(matched[..i], PickValue(f))
      {
        CollectStep(matched, i, PickValue(f));
        var value := matched[i].readings.Get(f);
        if value.Num? {
          values := values + [value.value];
        }
      }
      Whole(matched);
    }

    method EnergyTermsOf(g: int) returns (terms: seq<real>)
      ensures terms == EnergyTerms(samples, g)
    {
      terms := [];
      var pairs := Pairwise(samples);
      for i := 0 to |pairs|
        invariant terms == Collect(pairs[..i], PickEnergy(g))
      {
        CollectStep(pairs, i, PickEnergy(g));
        var (current, following) := pairs[i];
        var elapsed := following.timestamp - current.timestamp;
        if elapsed <= 0.0 {
          continue;
        }
        var gpu := FindDevice(current.gpus, g);
        if gpu.Some? && gpu.value.readings.powerWatts.Num? {
          terms := terms + [Rectangle(gpu.value.readings.powerWatts.value, elapsed)];
        }
      }
      Whole(pairs);
    }

    method PeakVramBytes(g: int) returns (r: Measurement)
      ensures r == ReportOn(samples, g).peakVram
    {
      var values := MeasurementsOf(g, VramUsedBytes);
      r := Peak(values);
    }

    method MeanPowerWatts(g: int) returns (r: Measurement)
      ensures r == ReportOn(samples, g).meanPower
    {
      var values := MeasurementsOf(g, PowerWatts);
      r := Mean(values);
    }

    method EnergyJoules(g: int) returns (r: Measurement)
      ensures r == ReportOn(samples, g).energy
    {
      var terms := EnergyTermsOf(g);
      r := Total(terms);
    }

    method MaxTemperatureC(g: int) returns (r: Measurement)
      ensures r == ReportOn(samples, g).maxTemperature
    {
      var values := MeasurementsOf(g, TemperatureC);
      r := Peak(values);
    }

    /** The one-pass detector finds the first sample that the all-pairs definition calls a drop. */
    static method SubstantialClockDrop(samples: seq<GpuSample>) returns (drop: Option<GpuSample>)
      ensures drop == FirstDrop(samples, 0)
    {
      var maximum: Option<real> := None;
      for i := 0 to |samples|
        invariant RunningMaximum(samples, i, maximum)
        invariant forall j :: 0 <= j < i ==> !DropAt(samples, j)
      {
        MaximumDecidesDrop(samples, i, maximum);
        var reading := Clock(samples[i]);
        if reading.Num? {
          if maximum.None? {
            maximum := Some(reading.value);
          } else if reading.value <= maximum.value * DROP_FACTOR {
            FirstDropAtStart(samples, i);
            return Some(samples[i]);
          } else if reading.value > maximum.value {
            maximum := Some(reading.value);
          }
        }
      }
      return None;
    }

    method SuspectedThrottling(g: int) returns (verdict: ThrottleVerdict)
      ensures verdict == ReportOn(samples, g).verdict
    {
      var matched := GpuSamples(g);
      var active := ActiveReasons(matched);
      if active != {} {
        return ThrottleVerdict(g, Suspected, DriverReported(active), 1.0, |Reported(matched)|);
      }
      var drop := SubstantialClockDrop(matched);
      verdict := ClockVerdict(g, |matched|, |Clocked(matched)|, |Reported(matched)|, drop);
    }

    method SupportedSampleCount(metric: WindowMetric, g: int) returns (count: nat)
      ensures count == ReportOn(samples, g).counts[metric]
    {
      match metric
      case PeakVramMetric =>
        var values := MeasurementsOf(g, VramUsedBytes);
        count := |values|;
      case MeanPowerMetric =>
        var values := MeasurementsOf(g, PowerWatts);
        count := |values|;
      case EnergyMetric =>
        var terms := EnergyTermsOf(g);
        count := |terms|;
      case MaxTemperatureMetric =>
        var values := MeasurementsOf(g, TemperatureC);
        count := |values|;
      case ThrottlingMetric =>
        var verdict := SuspectedThrottling(g);
        count := verdict.supportedSamples;
    }
  }
}
