/** Every reported quantity in terms of the answer it comes from: which field, which unit, which range. */
module Units {
  import opened Telemetry
  import opened Normalizer
  import opened Collector
  import Collecting
  import Throttle
  import NvidiaSmi
  import Nvml

  /** A number inside its range; anything else is unsupported. */
  function Kept(v: Option<real>, minimum: real, maximum: Option<real>): Measurement {
    if v.Some? && minimum <= v.value && (maximum.None? || v.value <= maximum.value) then Num(v.value) else Unsupported
  }

  // ---- NVML ----

  function NvmlNumber(raw: Nvml.Raw): Option<real> {
    if raw.Number? then Some(raw.value) else None
  }

  function NvmlAnswer(o: Outcome<Nvml.Raw>): Option<real> {
    if o.Ok? then NvmlNumber(o.value) else None
  }

  function FirstOf(o: Outcome<(Nvml.Raw, Nvml.Raw)>): Option<real> {
    if o.Ok? then NvmlNumber(o.value.0) else None
  }

  function SecondOf(o: Outcome<(Nvml.Raw, Nvml.Raw)>): Option<real> {
    if o.Ok? then NvmlNumber(o.value.1) else None
  }

  function WattsOf(milliwatts: Option<real>): Option<real> {
    if milliwatts.Some? then Some(milliwatts.value / 1000.0) else None
  }

  /** The driver's answers, milliwatts as watts, each in the field it belongs to. */
  lemma NvmlUnits(d: Nvml.Device, index: nat)
    ensures var s := Nvml.SampleFrom(d, index);
      && s.index == index
      && s.uuid == (if d.uuid.Ok? && d.uuid.value.Some? then Some(d.uuid.value.value) else None)
      && s.readings.utilizationPercent == Kept(FirstOf(d.utilization), 0.0, Some(100.0))
      && s.readings.memoryUtilizationPercent == Kept(SecondOf(d.utilization), 0.0, Some(100.0))
      && s.readings.vramUsedBytes == Kept(FirstOf(d.memory), 0.0, None)
      && s.readings.vramTotalBytes == Kept(SecondOf(d.memory), 0.0, None)
      && s.readings.temperatureC == Kept(NvmlAnswer(d.temperature), -273.15, None)
      && s.readings.memoryTemperatureC == Unsupported
      && s.readings.powerWatts == Kept(WattsOf(NvmlAnswer(d.power)), 0.0, None)
      && s.readings.powerLimitWatts == Kept(WattsOf(NvmlAnswer(d.powerLimit)), 0.0, None)
      && s.readings.fanPercent == Kept(NvmlAnswer(d.fan), 0.0, Some(100.0))
      && s.readings.coreClockMhz == Kept(NvmlAnswer(d.smClock), 0.0, None)
      && s.readings.memoryClockMhz == Kept(NvmlAnswer(d.memoryClock), 0.0, None)
  {
    hide Throttle.FromMasks;
  }

  /** A reason is active exactly when both masks have its bit, and the masks are known to mean something. */
  lemma NvmlThrottling(d: Nvml.Device, index: nat, supported: nat, current: nat, r: ThrottleReason)
    requires d.supported == Ok(Some(supported)) && d.current == Ok(Some(current))
    ensures var s := Nvml.SampleFrom(d, index);
      && s.throttleReasonsAvailable == (supported > 0)
      && (r in s.throttleReasons <==>
          match r
          case GpuIdle => supported % 2 == 1 && current % 2 == 1
          case ApplicationsClocksSetting => supported / 2 % 2 == 1 && current / 2 % 2 == 1
          case SwPowerCap => supported / 4 % 2 == 1 && current / 4 % 2 == 1
          case HwSlowdown => supported / 8 % 2 == 1 && current / 8 % 2 == 1
          case SyncBoost => supported / 16 % 2 == 1 && current / 16 % 2 == 1
          case SwThermalSlowdown => supported / 32 % 2 == 1 && current / 32 % 2 == 1
          case HwThermalSlowdown => supported / 64 % 2 == 1 && current / 64 % 2 == 1
          case HwPowerBrakeSlowdown => supported / 128 % 2 == 1 && current / 128 % 2 == 1
          case Other(_) => false)
  {
    Throttle.MasksAvailable(supported, current);
    Throttle.EmptyMask(current);
    if supported > 0 {
      Throttle.MaskReasons(supported, current, r);
    }
    hide Throttle.FromMasks, Nvml.ReadingsFrom;
  }

  // ---- nvidia-smi ----

  /** The finite number in the column of `f`, if its cell holds one. */
  function CellNumber(row: NvidiaSmi.Row, f: GpuField): Option<real> {
    var column := NvidiaSmi.FieldColumn(f);
    if column in row && row[column].Text? && row[column].asFloat.Finite? then Some(row[column].asFloat.value) else None
  }

  function BytesOfMib(m: Measurement): Measurement {
    if m.Num? then Num((m.value * 1048576.0).Floor as real) else Unsupported
  }

  /** Each cell in the field of its column, memory in whole bytes. */
  lemma SmiUnits(row: NvidiaSmi.Row, index: nat, throttle: Option<NvidiaSmi.Row>)
    ensures var s := NvidiaSmi.SampleOf((index, row), throttle);
      && s.index == index
      && s.uuid == (if NvidiaSmi.UuidColumn in row && row[NvidiaSmi.UuidColumn].Text?
                    then Some(row[NvidiaSmi.UuidColumn].text) else None)
      && s.readings == Readings(
           Kept(CellNumber(row, UtilizationPercent), 0.0, Some(100.0)),
           Kept(CellNumber(row, MemoryUtilizationPercent), 0.0, Some(100.0)),
           BytesOfMib(Kept(CellNumber(row, VramUsedBytes), 0.0, None)),
           BytesOfMib(Kept(CellNumber(row, VramTotalBytes), 0.0, None)),
           Kept(CellNumber(row, TemperatureC), 0.0, None),
           Kept(CellNumber(row, MemoryTemperatureC), 0.0, None),
           Kept(CellNumber(row, PowerWatts), 0.0, None),
           Kept(CellNumber(row, PowerLimitWatts), 0.0, None),
           Kept(CellNumber(row, FanPercent), 0.0, Some(100.0)),
           Kept(CellNumber(row, CoreClockMhz), 0.0, None),
           Kept(CellNumber(row, MemoryClockMhz), 0.0, None))
  {
    SmiPercents(row);
    SmiMemory(row);
    SmiOthers(row);
    hide NvidiaSmi.FieldValue, NvidiaSmi.ThrottlingOf, CellNumber, Kept, BytesOfMib;
  }

  lemma SmiPercents(row: NvidiaSmi.Row)
    ensures forall f | f in {UtilizationPercent, MemoryUtilizationPercent, FanPercent} ::
      NvidiaSmi.FieldValue(row, f) == Kept(CellNumber(row, f), 0.0, Some(100.0))
  {
  }

  lemma SmiMemory(row: NvidiaSmi.Row)
    ensures forall f | f in {VramUsedBytes, VramTotalBytes} ::
      NvidiaSmi.FieldValue(row, f) == BytesOfMib(Kept(CellNumber(row, f), 0.0, None))
  {
  }

  lemma SmiOthers(row: NvidiaSmi.Row)
    ensures forall f | f in {TemperatureC, MemoryTemperatureC, PowerWatts, PowerLimitWatts, CoreClockMhz, MemoryClockMhz} ::
      NvidiaSmi.FieldValue(row, f) == Kept(CellNumber(row, f), 0.0, None)
  {
  }

  /** A row belongs to a device exactly when its index cell is text that reads as an integer from zero on. */
  lemma SmiIndex(row: NvidiaSmi.Row, i: nat)
    ensures NvidiaSmi.RowIndex(row) == Some(i) <==>
      NvidiaSmi.IndexColumn in row && row[NvidiaSmi.IndexColumn].Text? && row[NvidiaSmi.IndexColumn].asInt == Some(i)
  {
  }

  /** What a throttle row's cell for a reason says, if it is text. */
  function CellSays(row: NvidiaSmi.Row, r: ThrottleReason): Throttle.CellState {
    var column := NvidiaSmi.ThrottleColumn(r);
    if column in row && row[column].Text? then row[column].state else Throttle.SaysNothing
  }

  /** A reason is active exactly when its cell says so; "none" is known exactly when some cell says anything. */
  lemma SmiThrottling(row: NvidiaSmi.Row, index: nat, throttle: NvidiaSmi.Row, r: ThrottleReason)
    ensures var s := NvidiaSmi.SampleOf((index, row), Some(throttle));
      && (r in s.throttleReasons <==> !r.Other? && CellSays(throttle, r).SaysActive?)
      && (s.throttleReasonsAvailable <==> exists q: ThrottleReason :: !q.Other? && !CellSays(throttle, q).SaysNothing?)
    ensures NvidiaSmi.SampleOf((index, row), None).throttleReasons == []
    ensures !NvidiaSmi.SampleOf((index, row), None).throttleReasonsAvailable
  {
    var states := NvidiaSmi.StateOf(throttle);
    Throttle.CellReasons(states, r);
    forall q ensures states(q) == CellSays(throttle, q) && (q in Throttle.SMI_COLUMNS <==> !q.Other?) {
      Throttle.KnownColumns(q);
    }
    hide NvidiaSmi.StateOf, CellSays, NvidiaSmi.FieldValue;
  }

  // ---- The collector ----

  function NumberIn(raw: RawValue): Option<real> {
    if raw.Number? then Some(raw.value) else None
  }

  function NumberFrom(o: Outcome<RawValue>): Option<real> {
    if o.Ok? then NumberIn(o.value) else None
  }

  lemma BoundedIsKept(raw: RawValue, minimum: real, maximum: Option<real>)
    ensures Known(Bounded(raw, minimum, maximum)) == Kept(NumberIn(raw), minimum, maximum)
  {
  }

  /** The memory reading, if there is one. */
  function MemoryFrom(a: Answers): MemoryReading {
    match a.memory
    case Ok(Some(m)) => m
    case _ => MemoryReading(Missing, Missing, Missing)
  }

  function DiskFrom(a: Answers): DiskThroughput {
    match a.disk
    case Ok(Some(d)) => d
    case _ => DiskThroughput(Missing, Missing)
  }

  /** Each host field of an unbroken collection, from the answer that feeds it; a good clock's instant is kept. */
  lemma HostUnits(a: Answers, now: real, s: Snapshot)
    requires Collected(a, now, s)
    ensures forall f :: f in s.host
    ensures s.host[CpuPercent] == Kept(NumberFrom(a.cpu), 0.0, Some(100.0))
    ensures s.host[LoadAverage1m] == Kept(NumberFrom(a.load), 0.0, None)
    ensures s.host[RamUsedBytes] == Kept(NumberIn(MemoryFrom(a).used), 0.0, None)
    ensures s.host[RamAvailableBytes] == Kept(NumberIn(MemoryFrom(a).available), 0.0, None)
    ensures s.host[RamTotalBytes] == Kept(NumberIn(MemoryFrom(a).total), 0.0, None)
    ensures s.host[CpuTemperatureC] == Kept(NumberFrom(a.temperature), -273.15, None)
    ensures s.host[DiskReadBytesPerSec] == Kept(NumberIn(DiskFrom(a).read), 0.0, None)
    ensures s.host[DiskWriteBytesPerSec] == Kept(NumberIn(DiskFrom(a).write), 0.0, None)
    ensures s.host[ProcessRssBytes] == Kept(NumberFrom(a.rss), 0.0, None)
    ensures s.timestamp == match a.clock
      case Ok(Some(t)) => t
      case Ok(None) => now
      case Raised => 0.0
  {
    HostUnit(a, CpuPercent);
    HostUnit(a, LoadAverage1m);
    HostUnit(a, RamUsedBytes);
    HostUnit(a, RamAvailableBytes);
    HostUnit(a, RamTotalBytes);
    HostUnit(a, CpuTemperatureC);
    HostUnit(a, DiskReadBytesPerSec);
    HostUnit(a, DiskWriteBytesPerSec);
    HostUnit(a, ProcessRssBytes);
    hide Kept, HostNumber, Known, ReasonOf, NormalSamples, HostOf, NumberIn, NumberFrom;
  }

  lemma HostUnit(a: Answers, f: HostField)
    ensures Known(HostNumber(HostOf(a), f)) == match f
      case CpuPercent => Kept(NumberFrom(a.cpu), 0.0, Some(100.0))
      case LoadAverage1m => Kept(NumberFrom(a.load), 0.0, None)
      case RamUsedBytes => Kept(NumberIn(MemoryFrom(a).used), 0.0, None)
      case RamAvailableBytes => Kept(NumberIn(MemoryFrom(a).available), 0.0, None)
      case RamTotalBytes => Kept(NumberIn(MemoryFrom(a).total), 0.0, None)
      case CpuTemperatureC => Kept(NumberFrom(a.temperature), -273.15, None)
      case DiskReadBytesPerSec => Kept(NumberIn(DiskFrom(a).read), 0.0, None)
      case DiskWriteBytesPerSec => Kept(NumberIn(DiskFrom(a).write), 0.0, None)
      case ProcessRssBytes => Kept(NumberFrom(a.rss), 0.0, None)
  {
    var h := HostOf(a);
    BoundedIsKept(h.Get(f), HostMinimum(f), HostMaximum(f));
    hide Bounded, Kept, Known;
  }

  /** A broken collection still has every host field, all of them unsupported, and one diagnostic. */
  lemma EmergencyUnits(now: real)
    ensures var s := Emergency(now);
      && s.timestamp == now && s.gpus == []
      && (forall f :: f in s.host && s.host[f] == Unsupported)
      && s.reasons == map[WholeSnapshot := CollectorError]
  {
  }

  /** Each field of a normalized GPU sample, from the field of the same name. */
  lemma GpuUnits(index: nat, s: RawSample)
    requires s.RawSample?
    ensures var n, r := NormalSample(index, s), s.readings;
      && n.index == index
      && n.uuid == (if s.uuid.Some? && s.uuid.value != "" then s.uuid else None)
      && n.throttleReasonsAvailable == s.throttleReasonsAvailable
      && n.readings == Readings(
           Kept(NumberIn(r.utilizationPercent), 0.0, Some(100.0)),
           Kept(NumberIn(r.memoryUtilizationPercent), 0.0, Some(100.0)),
           Kept(NumberIn(r.vramUsedBytes), 0.0, None),
           Kept(NumberIn(r.vramTotalBytes), 0.0, None),
           Kept(NumberIn(r.temperatureC), -273.15, None),
           Kept(NumberIn(r.memoryTemperatureC), -273.15, None),
           Kept(NumberIn(r.powerWatts), 0.0, None),
           Kept(NumberIn(r.powerLimitWatts), 0.0, None),
           Kept(NumberIn(r.fanPercent), 0.0, Some(100.0)),
           Kept(NumberIn(r.coreClockMhz), 0.0, None),
           Kept(NumberIn(r.memoryClockMhz), 0.0, None))
  {
    hide KeptReasons, Kept, NumberIn;
    CleanedUnits(s.readings);
    hide Cleaned;
  }

  lemma CleanedUnits(r: Readings<RawValue>)
    ensures Cleaned(r) == Readings(
      Kept(NumberIn(r.utilizationPercent), 0.0, Some(100.0)),
      Kept(NumberIn(r.memoryUtilizationPercent), 0.0, Some(100.0)),
      Kept(NumberIn(r.vramUsedBytes), 0.0, None),
      Kept(NumberIn(r.vramTotalBytes), 0.0, None),
      Kept(NumberIn(r.temperatureC), -273.15, None),
      Kept(NumberIn(r.memoryTemperatureC), -273.15, None),
      Kept(NumberIn(r.powerWatts), 0.0, None),
      Kept(NumberIn(r.powerLimitWatts), 0.0, None),
      Kept(NumberIn(r.fanPercent), 0.0, Some(100.0)),
      Kept(NumberIn(r.coreClockMhz), 0.0, None),
      Kept(NumberIn(r.memoryClockMhz), 0.0, None))
  {
    hide Bounded, Kept, NumberIn, Known;
    forall f ensures Cleaned(r).Get(f) == Kept(NumberIn(r.Get(f)), GpuMinimum(f), GpuMaximum(f)) {
      BoundedIsKept(r.Get(f), GpuMinimum(f), GpuMaximum(f));
    }
    hide GpuNumber;
  }

  /** Of the reported throttle reasons exactly the non-empty texts are kept. */
  lemma GpuReasons(index: nat, s: RawSample, r: ThrottleReason)
    requires s.RawSample? && s.throttleReasons.Some?
    ensures r in NormalSample(index, s).throttleReasons <==> r != Other("") && Some(r) in s.throttleReasons.value
  {
    var reported := s.throttleReasons.value;
    Collecting.CollectOrigin(reported, NonEmptyReason);
    hide Cleaned;
    assert r != Other("") ==> r in NonEmptyReason(Some(r));
  }
}
