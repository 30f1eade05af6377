/** The observations shared by readers, collector, sampler and window. */
module Telemetry {

  datatype Option<+T> = None | Some(value: T)

  /** A boundary call: it either answers or raises an ordinary exception. */
  datatype Outcome<+T> = Ok(value: T) | Raised

  /** A reported quantity; an unavailable one is never a number. */
  datatype Measurement = Unsupported | Num(value: real)

  /** The eleven per-device measurements of a GPU sample. */
  datatype GpuField =
    | UtilizationPercent
    | MemoryUtilizationPercent
    | VramUsedBytes
    | VramTotalBytes
    | TemperatureC
    | MemoryTemperatureC
    | PowerWatts
    | PowerLimitWatts
    | FanPercent
    | CoreClockMhz
    | MemoryClockMhz

  /** One value of type T per measurement field. */
  datatype Readings<T> = Readings(
    utilizationPercent: T,
    memoryUtilizationPercent: T,
    vramUsedBytes: T,
    vramTotalBytes: T,
    temperatureC: T,
    memoryTemperatureC: T,
    powerWatts: T,
    powerLimitWatts: T,
    fanPercent: T,
    coreClockMhz: T,
    memoryClockMhz: T)
  {
    function Get(f: GpuField): T {
      match f
      case UtilizationPercent => utilizationPercent
      case MemoryUtilizationPercent => memoryUtilizationPercent
      case VramUsedBytes => vramUsedBytes
      case VramTotalBytes => vramTotalBytes
      case TemperatureC => temperatureC
      case MemoryTemperatureC => memoryTemperatureC
      case PowerWatts => powerWatts
      case PowerLimitWatts => powerLimitWatts
      case FanPercent => fanPercent
      case CoreClockMhz => coreClockMhz
      case MemoryClockMhz => memoryClockMhz
    }
  }

  function Tabulate<T>(g: GpuField -> T): (r: Readings<T>)
    ensures forall f :: r.Get(f) == g(f)
  {
    Readings(
      g(UtilizationPercent), g(MemoryUtilizationPercent), g(VramUsedBytes), g(VramTotalBytes),
      g(TemperatureC), g(MemoryTemperatureC), g(PowerWatts), g(PowerLimitWatts),
      g(FanPercent), g(CoreClockMhz), g(MemoryClockMhz))
  }

  /** Readings that agree field by field are the same readings. */
  lemma ReadingsExtensional<T>(a: Readings<T>, b: Readings<T>)
    requires forall f :: a.Get(f) == b.Get(f)
    ensures a == b
  {
    assert a.Get(UtilizationPercent) == b.Get(UtilizationPercent);
    assert a.Get(MemoryUtilizationPercent) == b.Get(MemoryUtilizationPercent);
    assert a.Get(VramUsedBytes) == b.Get(VramUsedBytes);
    assert a.Get(VramTotalBytes) == b.Get(VramTotalBytes);
    assert a.Get(TemperatureC) == b.Get(TemperatureC);
    assert a.Get(MemoryTemperatureC) == b.Get(MemoryTemperatureC);
    assert a.Get(PowerWatts) == b.Get(PowerWatts);
    assert a.Get(PowerLimitWatts) == b.Get(PowerLimitWatts);
    assert a.Get(FanPercent) == b.Get(FanPercent);
    assert a.Get(CoreClockMhz) == b.Get(CoreClockMhz);
    assert a.Get(MemoryClockMhz) == b.Get(MemoryClockMhz);
  }

  /** The eight reasons the NVIDIA driver names, and whatever another reader reports. */
  datatype ThrottleReason =
    | GpuIdle
    | ApplicationsClocksSetting
    | SwPowerCap
    | HwSlowdown
    | SyncBoost
    | SwThermalSlowdown
    | HwThermalSlowdown
    | HwPowerBrakeSlowdown
    | Other(name: string)

  datatype GpuSample = GpuSample(
    index: int,
    uuid: Option<string>,
    readings: Readings<Measurement>,
    throttleReasons: seq<ThrottleReason>,
    throttleReasonsAvailable: bool)

  datatype HostField =
    | CpuPercent
    | LoadAverage1m
    | RamUsedBytes
    | RamAvailableBytes
    | RamTotalBytes
    | CpuTemperatureC
    | DiskReadBytesPerSec
    | DiskWriteBytesPerSec
    | ProcessRssBytes

  /** What a GPU diagnostic can be about besides a measurement. */
  datatype GpuTopic = Reading(field: GpuField) | Uuid | Throttling

  /** The nvidia-smi query a malformed row belongs to. */
  datatype QueryScope = SampleScope | ThrottleScope

  /** The keys of the diagnostic mapping, with the source's spelling of each. */
  datatype DiagnosticKey =
    | Host(field: HostField)                      // "cpu_percent", ...
    | Timestamp                                   // "timestamp"
    | Gpu                                         // "gpu"
    | GpuThrottleQuery                            // "gpu.throttle_reasons"
    | GpuDevice(device: int)                      // "gpu.<i>"
    | GpuEntry(index: int, topic: GpuTopic)       // "gpu.<i>.<field>"
    | GpuRow(scope: QueryScope, row: nat)         // "gpu.sample.row.<n>.index", "gpu.throttle.row.<n>.index"
    | GpuPosition(position: nat)                  // "gpu.sample.<p>"
    | GpuPositionIndex(position: nat)             // "gpu.sample.<p>.index"
    | WholeSnapshot                               // "snapshot"
    | OtherKey(text: string)

  datatype Reason =
    | SensorUnsupported | FieldMissing | MalformedValue | OutOfRange | DuplicateGpuIndex
    | MalformedReading | MalformedCsv | ReaderError | InvalidClock | CollectorError | NoGpus | NoNvidiaGpus | BackendError(code: string)

  type Diagnostics = map<DiagnosticKey, Reason>

  /** Python's dict.setdefault. */
  function SetDefault(m: Diagnostics, key: DiagnosticKey, reason: Reason): (r: Diagnostics)
    ensures r.Keys == m.Keys + {key}
    ensures forall k <- m :: r[k] == m[k]
    ensures key !in m ==> r[key] == reason
  {
    if key in m then m else m[key := reason]
  }

  /** One observation. Timestamps are seconds from a fixed instant. */
  datatype Snapshot = Snapshot(
    timestamp: real,
    host: map<HostField, Measurement>,
    gpus: seq<GpuSample>,
    reasons: Diagnostics)
}
