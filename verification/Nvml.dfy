/** The in-process backend: a library that is initialized lazily, and one call per sensor. */
module Nvml {
  import opened Telemetry
  import opened Throttle
  import opened NvidiaSmi

  const MILLI := 1000.0
  const MINIMUM_TEMPERATURE_C := -273.15

  // ---- The library's life cycle ----

  /** What the reader asked of the library; a failed shutdown is still an attempt. */
  datatype Call = Init(ok: bool) | Query | Shutdown

  /**
   * Whether the library is initialized after these calls, or None if one came at the wrong time:
   * an init while initialized, or a query or shutdown while not.
   */
  function Replay(calls: seq<Call>): Option<bool> {
    if calls == [] then Some(false)
    else
      var before := Replay(calls[..|calls| - 1]);
      match calls[|calls| - 1]
      case Init(ok) => if before == Some(false) then Some(ok) else None
      case Query => if before == Some(true) then Some(true) else None
      case Shutdown => if before == Some(true) then Some(false) else None
  }

  function SuccessfulInits(calls: seq<Call>): nat {
    if calls == [] then 0
    else SuccessfulInits(calls[..|calls| - 1]) + if calls[|calls| - 1] == Init(true) then 1 else 0
  }

  function Shutdowns(calls: seq<Call>): nat {
    if calls == [] then 0
    else Shutdowns(calls[..|calls| - 1]) + if calls[|calls| - 1] == Shutdown then 1 else 0
  }

  /** Successful inits are matched by shutdown attempts, except the one that is still open. */
  lemma {:induction false} LedgerBalances(calls: seq<Call>)
    requires Replay(calls).Some?
    ensures SuccessfulInits(calls) == Shutdowns(calls) + if Replay(calls).value then 1 else 0
  {
    if calls != [] {
      LedgerBalances(calls[..|calls| - 1]);
    }
  }

  /** Every device query and every shutdown was issued while exactly one init was open. */
  lemma {:induction false} NothingWhileUninitialized(calls: seq<Call>, i: nat)
    requires Replay(calls).Some? && i < |calls| && !calls[i].Init?
    ensures SuccessfulInits(calls[..i]) == Shutdowns(calls[..i]) + 1
  {
    var n := |calls| - 1;
    if i == n {
      LedgerBalances(calls[..n]);
    } else {
      assert calls[..n][..i] == calls[..i] && calls[..n][i] == calls[i];
      NothingWhileUninitialized(calls[..n], i);
    }
  }

  lemma ReplayMore(calls: seq<Call>, call: Call)
    ensures Replay(calls + [call]) ==
      match call
      case Init(ok) => if Replay(calls) == Some(false) then Some(ok) else None
      case Query => if Replay(calls) == Some(true) then Some(true) else None
      case Shutdown => if Replay(calls) == Some(true) then Some(false) else None
  {
    assert (calls + [call])[..|calls|] == calls;
  }

  // ---- What the library answers ----

  /** A returned value: not a number, not finite, or a number. */
  datatype Raw = NotANumber | Infinite | Number(value: real)

  function NumberOf(raw: Raw, scale: real, minimum: real, maximum: Option<real>): Measurement
    requires scale > 0.0
  {
    match raw
    case NotANumber => Unsupported
    case Infinite => Unsupported
    case Number(v) =>
      var scaled := v / scale;
      if scaled < minimum || (maximum.Some? && scaled > maximum.value) then Unsupported else Num(scaled)
  }

  /** Everything one device answers; a missing attribute is not a number. */
  datatype Device = Device(
    handle: Outcome<Option<()>>,          // None: an answer that is no handle
    memory: Outcome<(Raw, Raw)>,          // used, total
    utilization: Outcome<(Raw, Raw)>,     // gpu, memory
    supported: Outcome<Option<int>>,
    current: Outcome<Option<int>>,
    uuid: Outcome<Option<NonBlank>>,
    temperature: Outcome<Raw>,
    power: Outcome<Raw>,
    powerLimit: Outcome<Raw>,
    fan: Outcome<Raw>,
    smClock: Outcome<Raw>,
    memoryClock: Outcome<Raw>)

  predicate Addressable(d: Device) {
    d.handle.Ok? && d.handle.value.Some?
  }

  datatype LoadAnswer = Loaded | NotInstalled | LoadFailed
  datatype InitAnswer = InitOk | InitFailed | NotCallable

  /** How the machine answers during one public operation. */
  datatype Driver = Driver(load: LoadAnswer, init: InitAnswer, count: Outcome<Option<int>>, device: nat -> Device)

  function ValueOr<T>(o: Outcome<T>, default: T): T {
    match o
    case Ok(v) => v
    case Raised => default
  }

  function MaskOf(o: Outcome<Option<int>>): Option<int> {
    ValueOr(o, None)
  }

  function ReadingsFrom(d: Device): Readings<Measurement> {
    var memory := ValueOr(d.memory, (NotANumber, NotANumber));
    var rates := ValueOr(d.utilization, (NotANumber, NotANumber));
    Readings(
      NumberOf(rates.0, 1.0, 0.0, Some(100.0)),
      NumberOf(rates.1, 1.0, 0.0, Some(100.0)),
      NumberOf(memory.0, 1.0, 0.0, None),
      NumberOf(memory.1, 1.0, 0.0, None),
      NumberOf(ValueOr(d.temperature, NotANumber), 1.0, MINIMUM_TEMPERATURE_C, None),
      Unsupported,
      NumberOf(ValueOr(d.power, NotANumber), MILLI, 0.0, None),
      NumberOf(ValueOr(d.powerLimit, NotANumber), MILLI, 0.0, None),
      NumberOf(ValueOr(d.fan, NotANumber), 1.0, 0.0, Some(100.0)),
      NumberOf(ValueOr(d.smClock, NotANumber), 1.0, 0.0, None),
      NumberOf(ValueOr(d.memoryClock, NotANumber), 1.0, 0.0, None))
  }

  function UuidFrom(d: Device): Option<string> {
    match d.uuid
    case Raised => None
    case Ok(None) => None
    case Ok(Some(text)) => Some(text)
  }

  function SampleFrom(d: Device, index: nat): GpuSample {
    var report := FromMasks(MaskOf(d.supported), MaskOf(d.current));
    GpuSample(index, UuidFrom(d), ReadingsFrom(d), report.reasons, report.available)
  }

  function DeviceCount(driver: Driver): nat {
    match driver.count
    case Ok(Some(n)) => if n < 0 then 0 else n
    case _ => 0
  }

  /** The addressable devices among the first `n`, in index order. */
  function SamplesFrom(driver: Driver, n: nat): seq<GpuSample> {
    if n == 0 then []
    else
      SamplesFrom(driver, n - 1)
      + if Addressable(driver.device(n - 1)) then [SampleFrom(driver.device(n - 1), n - 1)] else []
  }

  lemma {:induction false} NvmlSamplesIncrease(driver: Driver, n: nat)
    ensures var samples := SamplesFrom(driver, n);
      && (forall i, j :: 0 <= i < j < |samples| ==> samples[i].index < samples[j].index)
      && (forall s <- samples :: 0 <= s.index < n)
  {
    if n > 0 {
      NvmlSamplesIncrease(driver, n - 1);
      hide SampleFrom;
      SampleFromIndex(driver.device(n - 1), n - 1);
    }
  }

  lemma SampleFromIndex(d: Device, index: nat)
    ensures SampleFrom(d, index).index == index
  {
  }

  // ---- What is missing has a reason ----

  /** What the diagnostics of a device name: every gap, and a UUID call that failed. */
  predicate Named(d: Device, s: GpuSample, topic: GpuTopic) {
    match topic
    case Reading(f) => s.readings.Get(f) == Unsupported
    case Uuid => d.uuid.Raised?
    case Throttling => !s.throttleReasonsAvailable
  }

  /** A key that is present because the call that feeds `f` raised. */
  function RaisedKey<T>(index: nat, f: GpuField, answer: Outcome<T>): set<DiagnosticKey> {
    if answer.Raised? then {GpuEntry(index, Reading(f))} else {}
  }

  function SensorKeys(keys: set<DiagnosticKey>, index: nat, d: Device): set<DiagnosticKey> {
    keys + RaisedKey(index, TemperatureC, d.temperature) + RaisedKey(index, PowerWatts, d.power)
    + RaisedKey(index, PowerLimitWatts, d.powerLimit) + RaisedKey(index, FanPercent, d.fan)
    + RaisedKey(index, CoreClockMhz, d.smClock) + RaisedKey(index, MemoryClockMhz, d.memoryClock)
  }

  const CHECKED_LAST: seq<GpuField> := [
    MemoryTemperatureC, UtilizationPercent, MemoryUtilizationPercent, TemperatureC, PowerWatts, PowerLimitWatts,
    FanPercent, CoreClockMhz, MemoryClockMhz]

  lemma CheckedLastCovers(f: GpuField)
    ensures f in CHECKED_LAST || f == VramUsedBytes || f == VramTotalBytes
  {
    assert CHECKED_LAST[0] == MemoryTemperatureC && CHECKED_LAST[1] == UtilizationPercent;
    assert CHECKED_LAST[2] == MemoryUtilizationPercent && CHECKED_LAST[3] == TemperatureC;
    assert CHECKED_LAST[4] == PowerWatts && CHECKED_LAST[5] == PowerLimitWatts && CHECKED_LAST[6] == FanPercent;
    assert CHECKED_LAST[7] == CoreClockMhz && CHECKED_LAST[8] == MemoryClockMhz;
  }

  lemma SensorKeyMember(keys: set<DiagnosticKey>, index: nat, d: Device, k: DiagnosticKey)
    ensures keys <= SensorKeys(keys, index, d)
    ensures k in SensorKeys(keys, index, d) ==>
      k in keys || (k.GpuEntry? && k.index == index && k.topic.Reading? && ReadingsFrom(d).Get(k.topic.field) == Unsupported)
  {
  }

  class NvmlGpuReader {
    var bound: bool
    var initialized: bool
    var reasons: Diagnostics
    ghost var calls: seq<Call>

    ghost predicate Valid()
      reads this
    {
      Replay(calls) == Some(initialized) && (initialized ==> bound)
    }

    /** Already initialized, or loading and initializing would succeed now. */
    predicate CanServe(driver: Driver)
      reads this
    {
      initialized || ((bound || driver.load.Loaded?) && driver.init.InitOk?)
    }

    /** The binding may be injected; nothing is loaded or probed. */
    constructor (injected: bool)
      ensures Valid() && calls == [] && reasons == map[] && bound == injected
    {
      bound := injected;
      initialized := false;
      reasons := map[];
      calls := [];
    }

    method Close(shutdown: Outcome<()>)
      requires Valid()
      modifies this
      ensures Valid() && !initialized && bound == old(bound)
      ensures calls == old(calls) + if old(initialized) then [Shutdown] else []
    {
      var wasInitialized := initialized;
      initialized := false;
      if bound && wasInitialized {
        ReplayMore(calls, Shutdown);
        calls := calls + [Shutdown];
        if shutdown.Raised? {
          reasons := reasons[Gpu := BackendError("nvml_error")];
        }
      }
    }

    /** Load, then initialize, whatever is not there yet; a failure leaves the next operation free to retry. */
    method Ready(driver: Driver) returns (ready: bool)
      requires Valid()
      modifies this
      ensures Valid() && ready == initialized
      ensures ready == old(CanServe(driver))
      ensures calls == old(calls) +
        if old(initialized) || !(old(bound) || driver.load.Loaded?) || driver.init.NotCallable? then []
        else [Init(driver.init.InitOk?)]
      ensures if ready then reasons == old(reasons) else reasons.Keys == old(reasons).Keys + {Gpu}
    {
      hide Replay;
      if !bound {
        if !driver.load.Loaded? {
          reasons := reasons[Gpu := BackendError(if driver.load.NotInstalled? then "pynvml_not_installed" else "nvml_error")];
          return false;
        }
        bound := true;
      }
      if initialized {
        return true;
      }
      if driver.init.NotCallable? {
        reasons := reasons[Gpu := BackendError("nvml_binding_incomplete")];
        return false;
      }
      ReplayMore(calls, Init(driver.init.InitOk?));
      calls := calls + [Init(driver.init.InitOk?)];
      if driver.init.InitFailed? {
        reasons := reasons[Gpu := BackendError("nvml_error")];
        return false;
      }
      initialized := true;
      return true;
    }

    /** One isolated call: its value, or a reason. */
    method Attempt<T>(answer: Outcome<T>, default: T, key: DiagnosticKey) returns (value: T)
      requires Valid() && initialized
      modifies this
      ensures Valid() && initialized && bound == old(bound)
      ensures value == ValueOr(answer, default) && calls == old(calls) + [Query]
      ensures reasons.Keys == old(reasons).Keys + if answer.Raised? then {key} else {}
    {
      ReplayMore(calls, Query);
      calls := calls + [Query];
      match answer
      case Ok(v) =>
        value := v;
      case Raised =>
        reasons := reasons[key := BackendError("nvml_error")];
        value := default;
    }

    method CountDevices(driver: Driver) returns (count: nat)
      requires Valid() && initialized
      modifies this
      ensures Valid() && initialized && count == DeviceCount(driver) && old(calls) <= calls
      ensures reasons.Keys <= old(reasons).Keys + {Gpu} && old(reasons).Keys <= reasons.Keys
    {
      var answer := Attempt(driver.count, None, Gpu);
      if answer.None? || answer.value < 0 {
        reasons := SetDefault(reasons, Gpu, MalformedValue);
        return 0;
      }
      count := answer.value;
    }

    method Available(driver: Driver) returns (available: bool)
      requires Valid()
      modifies this
      ensures Valid() && initialized == old(CanServe(driver)) && old(calls) <= calls
      ensures available <==> initialized && DeviceCount(driver) > 0
      ensures !available ==> Gpu in reasons
    {
      reasons := map[];
      var ready := Ready(driver);
      if !ready {
        return false;
      }
      var count := CountDevices(driver);
      if count <= 0 {
        reasons := SetDefault(reasons, Gpu, Reason.NoNvidiaGpus);
        return false;
      }
      return true;
    }

    method Memory(d: Device, index: nat) returns (used: Measurement, total: Measurement)
      requires Valid() && initialized
      modifies this
      ensures Valid() && initialized && old(calls) <= calls
      ensures used == ReadingsFrom(d).vramUsedBytes && total == ReadingsFrom(d).vramTotalBytes
      ensures reasons.Keys == old(reasons).Keys + Gap(index, VramUsedBytes, used) + Gap(index, VramTotalBytes, total)
    {
      var info := Attempt(d.memory, (NotANumber, NotANumber), GpuEntry(index, Reading(VramUsedBytes)));
      used := NumberOf(info.0, 1.0, 0.0, None);
      total := NumberOf(info.1, 1.0, 0.0, None);
      if used == Unsupported {
        reasons := SetDefault(reasons, GpuEntry(index, Reading(VramUsedBytes)), SensorUnsupported);
      }
      if total == Unsupported {
        reasons := SetDefault(reasons, GpuEntry(index, Reading(VramTotalBytes)), SensorUnsupported);
      }
    }

    method ThrottleReasons(d: Device, index: nat) returns (report: ThrottleReport)
      requires Valid() && initialized
      modifies this
      ensures Valid() && initialized && old(calls) <= calls
      ensures report == FromMasks(MaskOf(d.supported), MaskOf(d.current))
      ensures reasons.Keys == old(reasons).Keys + if report.available then {} else {GpuEntry(index, Throttling)}
    {
      var supported := Attempt(d.supported, None, GpuEntry(index, Throttling));
      var current := Attempt(d.current, None, GpuEntry(index, Throttling));
      report := FromMasks(supported, current);
      if !report.available {
        reasons := SetDefault(reasons, GpuEntry(index, Throttling), SensorUnsupported);
      }
    }

    /** The sensors that are one call each. */
    method Sensors(d: Device, index: nat) returns (t: Raw, p: Raw, l: Raw, f: Raw, c: Raw, m: Raw)
      requires Valid() && initialized
      modifies this
      ensures Valid() && initialized && old(calls) <= calls
      ensures t == ValueOr(d.temperature, NotANumber) && p == ValueOr(d.power, NotANumber)
      ensures l == ValueOr(d.powerLimit, NotANumber) && f == ValueOr(d.fan, NotANumber)
      ensures c == ValueOr(d.smClock, NotANumber) && m == ValueOr(d.memoryClock, NotANumber)
      ensures reasons.Keys == SensorKeys(old(reasons).Keys, index, d)
    {
      hide Replay;
      t := Attempt(d.temperature, NotANumber, GpuEntry(index, Reading(TemperatureC)));
      p := Attempt(d.power, NotANumber, GpuEntry(index, Reading(PowerWatts)));
      l := Attempt(d.powerLimit, NotANumber, GpuEntry(index, Reading(PowerLimitWatts)));
      f := Attempt(d.fan, NotANumber, GpuEntry(index, Reading(FanPercent)));
      c := Attempt(d.smClock, NotANumber, GpuEntry(index, Reading(CoreClockMhz)));
      m := Attempt(d.memoryClock, NotANumber, GpuEntry(index, Reading(MemoryClockMhz)));
    }

    /** setdefault for whatever is still unexplained. */
    method ExplainRest(r: Readings<Measurement>, index: nat)
      requires Valid()
      modifies this
      ensures Valid() && initialized == old(initialized) && calls == old(calls)
      ensures forall k: DiagnosticKey :: k in reasons <==>
        k in old(reasons) || (k.GpuEntry? && k.index == index && k.topic.Reading? && k.topic.field in CHECKED_LAST && r.Get(k.topic.field) == Unsupported)
    {
      for n := 0 to |CHECKED_LAST|
        invariant Valid() && initialized == old(initialized) && calls == old(calls)
        invariant forall k: DiagnosticKey :: k in reasons <==>
          k in old(reasons) || (k.GpuEntry? && k.index == index && k.topic.Reading? && k.topic.field in CHECKED_LAST[..n] && r.Get(k.topic.field) == Unsupported)
      {
        var f := CHECKED_LAST[n];
        assert CHECKED_LAST[..n + 1] == CHECKED_LAST[..n] + [f];
        if r.Get(f) == Unsupported {
          reasons := SetDefault(reasons, GpuEntry(index, Reading(f)), SensorUnsupported);
        }
      }
      assert CHECKED_LAST[..|CHECKED_LAST|] == CHECKED_LAST;
    }

    method SampleDevice(d: Device, index: nat) returns (sample: GpuSample)
      requires Valid() && initialized
      modifies this
      ensures Valid() && initialized && old(calls) <= calls
      ensures sample == SampleFrom(d, index)
      ensures forall k: DiagnosticKey :: k in reasons <==>
        k in old(reasons) || (k.GpuEntry? && k.index == index && Named(d, sample, k.topic))
    {
      hide Replay, NumberOf, FromMasks;
      ghost var k0 := reasons.Keys;
      var used, total := Memory(d, index);
      var rates := Attempt(d.utilization, (NotANumber, NotANumber), GpuEntry(index, Reading(UtilizationPercent)));
      var report := ThrottleReasons(d, index);
      var uuid: Option<NonBlank> := Attempt(d.uuid, None, GpuEntry(index, Uuid));
      ghost var k1 := reasons.Keys;
      var t, p, l, f, c, m := Sensors(d, index);
      var readings := Readings(
        NumberOf(rates.0, 1.0, 0.0, Some(100.0)), NumberOf(rates.1, 1.0, 0.0, Some(100.0)), used, total,
        NumberOf(t, 1.0, MINIMUM_TEMPERATURE_C, None), Unsupported,
        NumberOf(p, MILLI, 0.0, None), NumberOf(l, MILLI, 0.0, None), NumberOf(f, 1.0, 0.0, Some(100.0)),
        NumberOf(c, 1.0, 0.0, None), NumberOf(m, 1.0, 0.0, None));
      assert readings == ReadingsFrom(d);
      sample := GpuSample(index, if uuid.Some? then Some(uuid.value) else None, readings, report.reasons, report.available);
      ghost var k2 := reasons.Keys;
      ExplainRest(readings, index);
      KeysAfterSample(k0, k1, k2, index, d, sample, reasons.Keys);
    }

    method Sample(driver: Driver) returns (samples: seq<GpuSample>)
      requires Valid()
      modifies this
      ensures Valid() && initialized == old(CanServe(driver)) && old(calls) <= calls
      ensures initialized ==> DevicesExplained(driver, DeviceCount(driver), reasons)
      ensures samples == if initialized then SamplesFrom(driver, DeviceCount(driver)) else []
      ensures forall s, f | s in samples :: GpuEntry(s.index, Reading(f)) in reasons <==> s.readings.Get(f) == Unsupported
      ensures forall s | s in samples :: GpuEntry(s.index, Throttling) in reasons <==> !s.throttleReasonsAvailable
      ensures samples == [] ==> Gpu in reasons
    {
      reasons := map[];
      var ready := Ready(driver);
      if !ready {
        return [];
      }
      hide *;
      samples := SampleReady(driver);
      EverySampleExplained(driver, DeviceCount(driver), reasons);
    }

    method SampleReady(driver: Driver) returns (samples: seq<GpuSample>)
      requires Valid() && initialized && reasons == map[]
      modifies this
      ensures Valid() && initialized && old(calls) <= calls
      ensures samples == SamplesFrom(driver, DeviceCount(driver)) && DevicesExplained(driver, DeviceCount(driver), reasons)
      ensures samples == [] ==> Gpu in reasons
    {
      hide Replay, SamplesFrom, DevicesExplained, DeviceCount;
      var count := CountDevices(driver);
      NothingExplained(driver, reasons);
      samples := SampleDevices(driver, count);
      if samples == [] {
        OneKeyMore(driver, count, reasons, SetDefault(reasons, Gpu, Reason.NoNvidiaGpus));
        reasons := SetDefault(reasons, Gpu, Reason.NoNvidiaGpus);
      }
    }

    method SampleDevices(driver: Driver, count: nat) returns (samples: seq<GpuSample>)
      requires Valid() && initialized && DevicesExplained(driver, 0, reasons)
      modifies this
      ensures Valid() && initialized && old(calls) <= calls
      ensures samples == SamplesFrom(driver, count) && DevicesExplained(driver, count, reasons)
    {
      hide SampleFrom, Named, Replay, DevicesExplained;
      samples := [];
      for index := 0 to count
        invariant Valid() && initialized && old(calls) <= calls
        invariant samples == SamplesFrom(driver, index)
        invariant DevicesExplained(driver, index, reasons)
      {
        ghost var before := reasons;
        var handle := Attempt(driver.device(index).handle, None, GpuDevice(index));
        if handle.None? {
          UnaddressableExplained(driver, index, before, reasons);
          continue;
        }
        var sample := SampleDevice(driver.device(index), index);
        AddressableExplained(driver, index, before, reasons);
        samples := samples + [sample];
      }
    }

    /** static_info() as far as the library sees it: the calls it makes. */
    method StaticInfo(driver: Driver)
      requires Valid()
      modifies this
      ensures Valid() && initialized == old(CanServe(driver)) && old(calls) <= calls
    {
      reasons := map[];
      var ready := Ready(driver);
      if !ready {
        return;
      }
      hide *;
      var driverVersion := Attempt(Ok(()), (), OtherKey("gpu.driver_version"));
      var cudaVersion := Attempt(Ok(()), (), OtherKey("gpu.cuda_version"));
      var count := CountDevices(driver);
      for index := 0 to count
        invariant Valid() && initialized && old(calls) <= calls
      {
        StaticDevice(driver.device(index), index);
      }
    }

    method StaticDevice(d: Device, index: nat)
      requires Valid() && initialized
      modifies this
      ensures Valid() && initialized && old(calls) <= calls
    {
      hide *;
      var handle := Attempt(d.handle, None, GpuDevice(index));
      if handle.Some? {
        var name := Attempt(Ok(()), (), OtherKey("name"));
        var uuid := Attempt(d.uuid, None, GpuEntry(index, Uuid));
        var used, total := Memory(d, index);
        var capability := Attempt(Ok(()), (), OtherKey("compute_capability"));
      }
    }
  }

  lemma KeysAfterSample(
    k0: set<DiagnosticKey>, k1: set<DiagnosticKey>, k2: set<DiagnosticKey>, index: nat, d: Device, s: GpuSample,
    k3: set<DiagnosticKey>)
    requires s.readings == ReadingsFrom(d)
    requires k1 == k0 + Gap(index, VramUsedBytes, s.readings.vramUsedBytes) + Gap(index, VramTotalBytes, s.readings.vramTotalBytes)
      + (if d.utilization.Raised? then {GpuEntry(index, Reading(UtilizationPercent))} else {})
      + (if s.throttleReasonsAvailable then {} else {GpuEntry(index, Throttling)})
      + (if d.uuid.Raised? then {GpuEntry(index, Uuid)} else {})
    requires k2 == SensorKeys(k1, index, d)
    requires forall k: DiagnosticKey :: k in k3 <==>
      k in k2 || (k.GpuEntry? && k.index == index && k.topic.Reading? && k.topic.field in CHECKED_LAST && s.readings.Get(k.topic.field) == Unsupported)
    ensures forall k: DiagnosticKey :: k in k3 <==>
      k in k0 || (k.GpuEntry? && k.index == index && Named(d, s, k.topic))
  {
    assert d.utilization.Raised? ==> s.readings.utilizationPercent == Unsupported;
    hide ReadingsFrom, SensorKeys;
    forall k: DiagnosticKey
      ensures k in k3 <==> k in k0 || (k.GpuEntry? && k.index == index && Named(d, s, k.topic))
    {
      SensorKeyMember(k1, index, d, k);
      if k.GpuEntry? && k.topic.Reading? {
        CheckedLastCovers(k.topic.field);
      }
    }
  }

  lemma {:induction false} SampledDevice(driver: Driver, n: nat, s: GpuSample)
    requires s in SamplesFrom(driver, n)
    ensures 0 <= s.index < n && Addressable(driver.device(s.index)) && s == SampleFrom(driver.device(s.index), s.index)
  {
    hide SampleFrom;
    if n > 0 && s in SamplesFrom(driver, n - 1) {
      SampledDevice(driver, n - 1, s);
    } else if n > 0 {
      SampleFromIndex(driver.device(n - 1), n - 1);
    }
  }

  /** Device entries name exactly what the first `n` devices lack. */
  ghost predicate DevicesExplained(driver: Driver, n: nat, reasons: Diagnostics) {
    && (forall i, topic :: GpuEntry(i, topic) in reasons <==>
          0 <= i < n && Addressable(driver.device(i)) && Named(driver.device(i), SampleFrom(driver.device(i), i), topic))
    && (forall i :: GpuDevice(i) in reasons <==> 0 <= i < n && driver.device(i).handle.Raised?)
  }

  lemma NothingExplained(driver: Driver, reasons: Diagnostics)
    requires (forall i, topic :: GpuEntry(i, topic) !in reasons) && (forall i :: GpuDevice(i) !in reasons)
    ensures DevicesExplained(driver, 0, reasons)
  {
  }

  lemma OneKeyMore(driver: Driver, n: nat, before: Diagnostics, after: Diagnostics)
    requires DevicesExplained(driver, n, before) && after.Keys == before.Keys + {Gpu}
    ensures DevicesExplained(driver, n, after)
  {
    hide SampleFrom, Named;
  }

  lemma UnaddressableExplained(driver: Driver, n: nat, before: Diagnostics, after: Diagnostics)
    requires DevicesExplained(driver, n, before) && !Addressable(driver.device(n))
    requires forall i, topic :: GpuEntry(i, topic) in after <==> GpuEntry(i, topic) in before
    requires forall i :: GpuDevice(i) in after <==>
      GpuDevice(i) in before || (i == n && driver.device(n).handle.Raised?)
    ensures DevicesExplained(driver, n + 1, after)
  {
    hide SampleFrom, Named;
  }

  lemma AddressableExplained(driver: Driver, n: nat, before: Diagnostics, after: Diagnostics)
    requires DevicesExplained(driver, n, before) && Addressable(driver.device(n))
    requires forall i, topic :: GpuEntry(i, topic) in after <==>
      GpuEntry(i, topic) in before || (i == n && Named(driver.device(n), SampleFrom(driver.device(n), n), topic))
    requires forall i :: GpuDevice(i) in after <==> GpuDevice(i) in before
    ensures DevicesExplained(driver, n + 1, after)
  {
    hide SampleFrom, Named;
  }

  lemma EverySampleExplained(driver: Driver, n: nat, reasons: Diagnostics)
    requires DevicesExplained(driver, n, reasons)
    ensures forall s, f | s in SamplesFrom(driver, n) ::
      GpuEntry(s.index, Reading(f)) in reasons <==> s.readings.Get(f) == Unsupported
    ensures forall s | s in SamplesFrom(driver, n) ::
      GpuEntry(s.index, Throttling) in reasons <==> !s.throttleReasonsAvailable
  {
    hide SampleFrom, SamplesFrom;
    forall s | s in SamplesFrom(driver, n)
      ensures forall f :: GpuEntry(s.index, Reading(f)) in reasons <==> s.readings.Get(f) == Unsupported
      ensures GpuEntry(s.index, Throttling) in reasons <==> !s.throttleReasonsAvailable
    {
      SampledDevice(driver, n, s);
    }
  }
}
