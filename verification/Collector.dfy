/** Fault-isolated collection: whatever the boundaries do, one snapshot comes back. */
module Collector {
  import opened Telemetry
  import opened Collecting
  import opened Normalizer

  const EPOCH := 0.0

  datatype MemoryReading = MemoryReading(used: RawValue, available: RawValue, total: RawValue)
  datatype DiskThroughput = DiskThroughput(read: RawValue, write: RawValue)

  /**
   * A reader's diagnostics: none obtainable; items that are not pairs; or a mapping, in which None is a
   * value that is not a non-empty text.
   */
  datatype Surface = Silent | Misshapen | Reported(entries: map<DiagnosticKey, Option<Reason>>)

  /** How every boundary answers during one collection; Ok(None) is an answer of the wrong type. */
  datatype Answers = Answers(
    clock: Outcome<Option<real>>,
    cpu: Outcome<RawValue>,
    load: Outcome<RawValue>,
    memory: Outcome<Option<MemoryReading>>,
    temperature: Outcome<RawValue>,
    disk: Outcome<Option<DiskThroughput>>,
    rss: Outcome<RawValue>,
    gpu: Outcome<seq<RawSample>>,
    hostReasons: Surface,
    gpuReasons: Surface)

  datatype Operation = ClockOp | CpuOp | LoadOp | MemoryOp | TemperatureOp | DiskOp | RssOp | GpuOp | HostReasonsOp | GpuReasonsOp

  // ---- What the host fields should be ----

  const HOST_FIELDS: seq<HostField> := [
    CpuPercent, LoadAverage1m, RamUsedBytes, RamAvailableBytes, RamTotalBytes, CpuTemperatureC,
    DiskReadBytesPerSec, DiskWriteBytesPerSec, ProcessRssBytes]

  lemma EveryHostField(f: HostField)
    ensures f in HOST_FIELDS
  {
    assert HOST_FIELDS[0] == CpuPercent && HOST_FIELDS[1] == LoadAverage1m && HOST_FIELDS[2] == RamUsedBytes;
    assert HOST_FIELDS[3] == RamAvailableBytes && HOST_FIELDS[4] == RamTotalBytes && HOST_FIELDS[5] == CpuTemperatureC;
    assert HOST_FIELDS[6] == DiskReadBytesPerSec && HOST_FIELDS[7] == DiskWriteBytesPerSec;
    assert HOST_FIELDS[8] == ProcessRssBytes;
  }

  /** The operation a host field comes from. */
  function Feeds(f: HostField): Operation {
    match f
    case CpuPercent => CpuOp
    case LoadAverage1m => LoadOp
    case RamUsedBytes => MemoryOp
    case RamAvailableBytes => MemoryOp
    case RamTotalBytes => MemoryOp
    case CpuTemperatureC => TemperatureOp
    case DiskReadBytesPerSec => DiskOp
    case DiskWriteBytesPerSec => DiskOp
    case ProcessRssBytes => RssOp
  }

  datatype HostReadings = HostReadings(
    cpu: RawValue, load: RawValue, memory: MemoryReading, temperature: RawValue, disk: DiskThroughput, rss: RawValue)
  {
    function Get(f: HostField): RawValue {
      match f
      case CpuPercent => cpu
      case LoadAverage1m => load
      case RamUsedBytes => memory.used
      case RamAvailableBytes => memory.available
      case RamTotalBytes => memory.total
      case CpuTemperatureC => temperature
      case DiskReadBytesPerSec => disk.read
      case DiskWriteBytesPerSec => disk.write
      case ProcessRssBytes => rss
    }
  }

  function AnswerOr<T>(o: Outcome<T>, default: T): T {
    match o
    case Ok(v) => v
    case Raised => default
  }

  const NO_MEMORY := MemoryReading(Missing, Missing, Missing)
  const NO_DISK := DiskThroughput(Missing, Missing)

  function HostOf(a: Answers): HostReadings {
    HostReadings(
      AnswerOr(a.cpu, Missing),
      AnswerOr(a.load, Missing),
      match a.memory { case Ok(Some(m)) => m case _ => NO_MEMORY },
      AnswerOr(a.temperature, Missing),
      match a.disk { case Ok(Some(d)) => d case _ => NO_DISK },
      AnswerOr(a.rss, Missing))
  }

  function HostMinimum(f: HostField): real {
    if f == CpuTemperatureC then LOWEST_TEMPERATURE_C else 0.0
  }

  function HostMaximum(f: HostField): Option<real> {
    if f == CpuPercent then Some(FULL_PERCENT) else None
  }

  function HostNumber(h: HostReadings, f: HostField): Outcome<Measurement> {
    Bounded(h.Get(f), HostMinimum(f), HostMaximum(f))
  }

  function HostValues(h: HostReadings): (m: map<HostField, Measurement>)
    ensures forall f :: f in m && m[f] == Known(HostNumber(h, f))
  {
    assert forall f :: f in HOST_FIELDS by {
      forall f ensures f in HOST_FIELDS { EveryHostField(f); }
    }
    map f | f in HOST_FIELDS :: Known(HostNumber(h, f))
  }

  // ---- What the diagnostics should be ----

  predicate Raises(a: Answers, op: Operation) {
    match op
    case ClockOp => a.clock.Raised?
    case CpuOp => a.cpu.Raised?
    case LoadOp => a.load.Raised?
    case MemoryOp => a.memory.Raised?
    case TemperatureOp => a.temperature.Raised?
    case DiskOp => a.disk.Raised?
    case RssOp => a.rss.Raised?
    case GpuOp => a.gpu.Raised?
    case HostReasonsOp => a.hostReasons.Silent?
    case GpuReasonsOp => a.gpuReasons.Silent?
  }

  /** A boundary that raised, or answered with a value of the wrong type. */
  function HostFault(a: Answers, f: HostField): Option<Reason> {
    if Raises(a, Feeds(f)) then Some(ReaderError)
    else if Feeds(f) == MemoryOp && a.memory == Ok(None) then Some(MalformedReading)
    else if Feeds(f) == DiskOp && a.disk == Ok(None) then Some(MalformedReading)
    else None
  }

  function ClockFault(a: Answers): Option<Reason> {
    match a.clock
    case Raised => Some(ReaderError)
    case Ok(None) => Some(InvalidClock)
    case Ok(Some(_)) => None
  }

  /** A raising clock gives the epoch; an unusable answer gives the standard clock's instant. */
  function TimeOf(a: Answers, now: real): real {
    match a.clock
    case Raised => EPOCH
    case Ok(None) => now
    case Ok(Some(t)) => t
  }

  function GpuAnswer(a: Answers): seq<RawSample> {
    AnswerOr(a.gpu, [])
  }

  /** Before the readers have their say. */
  ghost function OwnReason(a: Answers, k: DiagnosticKey): Option<Reason> {
    match k
    case Timestamp => ClockFault(a)
    case Host(f) =>
      OrElse(HostFault(a, f), if Known(HostNumber(HostOf(a), f)) == Unsupported then Some(SensorUnsupported) else None)
    case Gpu =>
      if a.gpu.Raised? then Some(ReaderError) else if NormalSamples(GpuAnswer(a)) == [] then Some(NoGpus) else None
    case _ => Finding(GpuAnswer(a), |GpuAnswer(a)|, k)
  }

  /** The well-formed entries of a reader's diagnostics. */
  function ReaderEntries(s: Surface): Diagnostics {
    match s
    case Reported(entries) => map k | k in entries && entries[k].Some? :: entries[k].value
    case _ => map[]
  }

  /** The GPU reader may explain anything, the host reader only host fields. */
  ghost function ReasonOf(a: Answers, k: DiagnosticKey): Option<Reason> {
    OrElse(
      At(ReaderEntries(a.gpuReasons), k),
      OrElse(if k.Host? then At(ReaderEntries(a.hostReasons), k) else None, OwnReason(a, k)))
  }

  /** Some step between the boundaries raises. */
  ghost predicate Broken(a: Answers) {
    || (exists f :: HostOf(a).Get(f).TooLarge?)
    || AnyBreaks(GpuAnswer(a))
    || a.hostReasons.Misshapen?
    || a.gpuReasons.Misshapen?
  }

  /** The snapshot of an unbroken collection, field by field and key by key. */
  ghost predicate Collected(a: Answers, now: real, s: Snapshot) {
    && s.timestamp == TimeOf(a, now)
    && s.host == HostValues(HostOf(a))
    && s.gpus == NormalSamples(GpuAnswer(a))
    && forall k :: At(s.reasons, k) == ReasonOf(a, k)
  }

  const NO_HOST := HostReadings(Missing, Missing, NO_MEMORY, Missing, NO_DISK, Missing)

  function Emergency(now: real): Snapshot {
    Snapshot(now, HostValues(NO_HOST), [], map[WholeSnapshot := CollectorError])
  }

  // ---- The collection ----

  method Read<T>(answer: Outcome<T>, default: T, fields: seq<DiagnosticKey>, before: Diagnostics)
    returns (value: T, reasons: Diagnostics)
    ensures value == AnswerOr(answer, default)
    ensures forall k :: At(reasons, k) == if answer.Raised? && k in fields then Some(ReaderError) else At(before, k)
  {
    reasons := before;
    match answer
    case Ok(v) =>
      value := v;
    case Raised =>
      value := default;
      for n := 0 to |fields|
        invariant forall k :: At(reasons, k) == if k in fields[..n] then Some(ReaderError) else At(before, k)
      {
        assert fields[..n + 1] == fields[..n] + [fields[n]];
        reasons := reasons[fields[n] := ReaderError];
      }
      Whole(fields);
  }

  method ReadTimestamp(a: Answers, now: real, before: Diagnostics) returns (t: real, reasons: Diagnostics)
    ensures t == TimeOf(a, now)
    ensures forall k :: At(reasons, k) == if k == Timestamp then OrElse(ClockFault(a), At(before, k)) else At(before, k)
  {
    var raw, after := Read(a.clock, Some(EPOCH), [Timestamp], before);
    reasons := after;
    if raw.Some? {
      t := raw.value;
    } else {
      reasons := reasons[Timestamp := InvalidClock];
      t := now;
    }
  }

  /** The faults of one operation have been written over the fields it feeds. */
  ghost predicate FaultsOf(op: Operation, a: Answers, before: Diagnostics, after: Diagnostics) {
    forall k :: At(after, k) == OrElse(if k.Host? && Feeds(k.field) == op then HostFault(a, k.field) else None, At(before, k))
  }

  method ReadMemory(a: Answers, before: Diagnostics) returns (m: MemoryReading, reasons: Diagnostics)
    ensures m == HostOf(a).memory
    ensures FaultsOf(MemoryOp, a, before, reasons)
  {
    var raw, after := Read(
      a.memory, Some(NO_MEMORY), [Host(RamUsedBytes), Host(RamAvailableBytes), Host(RamTotalBytes)], before);
    reasons := after;
    if raw.Some? {
      m := raw.value;
    } else {
      m := NO_MEMORY;
      reasons := reasons[Host(RamUsedBytes) := MalformedReading];
      reasons := reasons[Host(RamAvailableBytes) := MalformedReading];
      reasons := reasons[Host(RamTotalBytes) := MalformedReading];
    }
  }

  method ReadDisk(a: Answers, before: Diagnostics) returns (d: DiskThroughput, reasons: Diagnostics)
    ensures d == HostOf(a).disk
    ensures FaultsOf(DiskOp, a, before, reasons)
  {
    var raw, after := Read(a.disk, Some(NO_DISK), [Host(DiskReadBytesPerSec), Host(DiskWriteBytesPerSec)], before);
    reasons := after;
    if raw.Some? {
      d := raw.value;
    } else {
      d := NO_DISK;
      reasons := reasons[Host(DiskReadBytesPerSec) := MalformedReading];
      reasons := reasons[Host(DiskWriteBytesPerSec) := MalformedReading];
    }
  }

  /** A boundary that feeds one host field. */
  method ReadValue(a: Answers, answer: Outcome<RawValue>, f: HostField, before: Diagnostics)
    returns (value: RawValue, reasons: Diagnostics)
    requires answer.Raised? == Raises(a, Feeds(f)) && forall g :: Feeds(g) == Feeds(f) ==> g == f
    requires Feeds(f) != MemoryOp && Feeds(f) != DiskOp
    ensures value == AnswerOr(answer, Missing) && FaultsOf(Feeds(f), a, before, reasons)
  {
    value, reasons := Read(answer, Missing, [Host(f)], before);
    hide At, Feeds, Raises;
  }

  method ReadHost(a: Answers, before: Diagnostics) returns (h: HostReadings, reasons: Diagnostics)
    ensures h == HostOf(a)
    ensures forall k :: At(reasons, k) == if k.Host? then OrElse(HostFault(a, k.field), At(before, k)) else At(before, k)
  {
    hide FaultsOf, HostFault, OrElse, At;
    var cpu, r1 := ReadValue(a, a.cpu, CpuPercent, before);
    var load, r2 := ReadValue(a, a.load, LoadAverage1m, r1);
    var memory, r3 := ReadMemory(a, r2);
    var temperature, r4 := ReadValue(a, a.temperature, CpuTemperatureC, r3);
    var disk, r5 := ReadDisk(a, r4);
    var rss, r6 := ReadValue(a, a.rss, ProcessRssBytes, r5);
    h := HostReadings(cpu, load, memory, temperature, disk, rss);
    reasons := r6;
    AllFaults(a, before, r1, r2, r3, r4, r5, r6);
  }

  lemma AllFaults(
    a: Answers, r0: Diagnostics, r1: Diagnostics, r2: Diagnostics, r3: Diagnostics, r4: Diagnostics, r5: Diagnostics,
    r6: Diagnostics)
    requires FaultsOf(CpuOp, a, r0, r1) && FaultsOf(LoadOp, a, r1, r2) && FaultsOf(MemoryOp, a, r2, r3)
    requires FaultsOf(TemperatureOp, a, r3, r4) && FaultsOf(DiskOp, a, r4, r5) && FaultsOf(RssOp, a, r5, r6)
    ensures forall k :: At(r6, k) == if k.Host? then OrElse(HostFault(a, k.field), At(r0, k)) else At(r0, k)
  {
    hide At, HostFault;
    forall k ensures At(r6, k) == if k.Host? then OrElse(HostFault(a, k.field), At(r0, k)) else At(r0, k) {
    }
  }

  method LiveFields(h: HostReadings) returns (live: Outcome<map<HostField, Measurement>>)
    ensures live.Raised? <==> exists f :: h.Get(f).TooLarge?
    ensures live.Ok? ==> live.value == HostValues(h)
  {
    var fields: map<HostField, Measurement> := map[];
    for n := 0 to |HOST_FIELDS|
      invariant forall f :: f in fields <==> f in HOST_FIELDS[..n]
      invariant forall f <- fields :: Ok(fields[f]) == HostNumber(h, f)
    {
      assert HOST_FIELDS[..n + 1] == HOST_FIELDS[..n] + [HOST_FIELDS[n]];
      var number := HostNumber(h, HOST_FIELDS[n]);
      if number.Raised? {
        assert h.Get(HOST_FIELDS[n]).TooLarge?;
        return Raised;
      }
      fields := fields[HOST_FIELDS[n] := number.value];
    }
    Whole(HOST_FIELDS);
    forall f ensures f in fields && !h.Get(f).TooLarge? {
      EveryHostField(f);
      assert Ok(fields[f]) == HostNumber(h, f);
    }
    live := Ok(fields);
  }

  method MarkUnsupported(live: map<HostField, Measurement>, before: Diagnostics) returns (reasons: Diagnostics)
    requires forall f :: f in live
    ensures forall k :: At(reasons, k) == OrElse(
      At(before, k), if k.Host? && live[k.field] == Unsupported then Some(SensorUnsupported) else None)
  {
    reasons := before;
    for n := 0 to |HOST_FIELDS|
      invariant forall k :: At(reasons, k) == OrElse(
        At(before, k),
        if k.Host? && k.field in HOST_FIELDS[..n] && live[k.field] == Unsupported then Some(SensorUnsupported) else None)
    {
      var f := HOST_FIELDS[n];
      assert HOST_FIELDS[..n + 1] == HOST_FIELDS[..n] + [f];
      if live[f] == Unsupported {
        reasons := SetDefault(reasons, Host(f), SensorUnsupported);
      }
    }
    Whole(HOST_FIELDS);
    forall f ensures f in HOST_FIELDS { EveryHostField(f); }
  }

  /** The readers' own diagnostics replace the collector's, the GPU reader's last. */
  method ReaderReasons(host: Surface, gpu: Surface, before: Diagnostics) returns (reasons: Outcome<Diagnostics>)
    ensures reasons.Raised? <==> host.Misshapen? || gpu.Misshapen?
    ensures reasons.Ok? ==> forall k :: At(reasons.value, k) == OrElse(
      At(ReaderEntries(gpu), k), OrElse(if k.Host? then At(ReaderEntries(host), k) else None, At(before, k)))
  {
    if host.Misshapen? {
      return Raised;
    }
    var reported := ReaderEntries(host);
    var merged := before + map k | k in reported && k.Host? :: reported[k];
    if gpu.Misshapen? {
      return Raised;
    }
    reasons := Ok(merged + ReaderEntries(gpu));
  }

  /** What the boundaries' own failures say about a key. */
  ghost function ReadFault(a: Answers, k: DiagnosticKey): Option<Reason> {
    match k
    case Timestamp => ClockFault(a)
    case Host(f) => HostFault(a, f)
    case Gpu => if a.gpu.Raised? then Some(ReaderError) else None
    case _ => None
  }

  lemma ReasonsAfterReads(a: Answers, r1: Diagnostics, r2: Diagnostics, r3: Diagnostics)
    requires forall k :: At(r1, k) == if k == Timestamp then OrElse(ClockFault(a), At(map[], k)) else At(map[], k)
    requires forall k :: At(r2, k) == if k.Host? then OrElse(HostFault(a, k.field), At(r1, k)) else At(r1, k)
    requires forall k :: At(r3, k) == if a.gpu.Raised? && k in [Gpu] then Some(ReaderError) else At(r2, k)
    ensures forall k :: At(r3, k) == ReadFault(a, k)
  {
    forall k ensures At(r3, k) == ReadFault(a, k) {
      assert At(map[], k) == None;
      hide At, ClockFault, HostFault;
    }
  }

  /** Everything but the readers' entries and an empty GPU list. */
  ghost function MarkedReason(a: Answers, k: DiagnosticKey): Option<Reason> {
    if k == Gpu then ReadFault(a, k) else OwnReason(a, k)
  }

  lemma ReasonsAfterMarks(a: Answers, r3: Diagnostics, r4: Diagnostics, r5: Diagnostics)
    requires forall k :: At(r3, k) == ReadFault(a, k)
    requires Found(GpuAnswer(a), |GpuAnswer(a)|, r3, r4)
    requires forall k :: At(r5, k) == OrElse(
      At(r4, k), if k.Host? && HostValues(HostOf(a))[k.field] == Unsupported then Some(SensorUnsupported) else None)
    ensures forall k :: At(r5, k) == MarkedReason(a, k)
  {
    hide At, ClockFault, HostFault, HostNumber, HostOf, GpuAnswer, KeptLacks, NormalSamples;
    forall k ensures At(r5, k) == MarkedReason(a, k) {
      assert At(r4, k) == Layer(k, At(r3, k), Finding(GpuAnswer(a), |GpuAnswer(a)|, k));
    }
  }

  lemma ReasonsAfterAll(a: Answers, r5: Diagnostics, r6: Diagnostics, r7: Diagnostics)
    requires forall k :: At(r5, k) == MarkedReason(a, k)
    requires forall k :: At(r6, k) == OrElse(
      At(ReaderEntries(a.gpuReasons), k),
      OrElse(if k.Host? then At(ReaderEntries(a.hostReasons), k) else None, At(r5, k)))
    requires r7 == if NormalSamples(GpuAnswer(a)) == [] then SetDefault(r6, Gpu, NoGpus) else r6
    ensures forall k :: At(r7, k) == ReasonOf(a, k)
  {
    hide ClockFault, HostFault, HostNumber, HostOf, GpuAnswer, Finding, NormalSamples, ReaderEntries;
    forall k ensures At(r7, k) == ReasonOf(a, k) {
      assert At(r6, k) == OrElse(
        At(ReaderEntries(a.gpuReasons), k),
        OrElse(if k.Host? then At(ReaderEntries(a.hostReasons), k) else None, MarkedReason(a, k)));
    }
  }

  method CollectOnce(a: Answers, now: real) returns (s: Outcome<Snapshot>)
    ensures s.Raised? <==> Broken(a)
    ensures s.Ok? ==> Collected(a, now, s.value)
  {
    hide HostFault, ClockFault, HostNumber, AnyBreaks, NormalSamples, Found, ReaderEntries, HostOf, ReasonOf, OrElse, At, HostValues;
    var timestamp, r1 := ReadTimestamp(a, now, map[]);
    var host, r2 := ReadHost(a, r1);
    var values, r3 := Read(a.gpu, [], [Gpu], r2);
    var gpus, r4 := NormalizeGpuSamples(values, r3);
    if gpus.Raised? {
      return Raised;
    }
    var live := LiveFields(host);
    if live.Raised? {
      return Raised;
    }
    var r5 := MarkUnsupported(live.value, r4);
    var r6 := ReaderReasons(a.hostReasons, a.gpuReasons, r5);
    if r6.Raised? {
      return Raised;
    }
    var r7 := if gpus.value == [] then SetDefault(r6.value, Gpu, NoGpus) else r6.value;
    ReasonsAfterReads(a, r1, r2, r3);
    ReasonsAfterMarks(a, r3, r4, r5);
    ReasonsAfterAll(a, r5, r6.value, r7);
    s := Ok(Snapshot(timestamp, live.value, gpus.value, r7));
  }

  class TelemetryCollector {
    var reasons: Diagnostics

    constructor ()
      ensures reasons == map[]
    {
      reasons := map[];
    }

    /** Never raises. A step that breaks costs the whole snapshot. */
    method Snapshot(a: Answers, now: real) returns (s: Snapshot)
      modifies this
      ensures if Broken(a) then s == Emergency(now) else Collected(a, now, s)
      ensures reasons == s.reasons
    {
      var collected := CollectOnce(a, now);
      s := if collected.Ok? then collected.value else Emergency(now);
      reasons := s.reasons;
    }
  }
}
