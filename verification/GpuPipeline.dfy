/** A GPU reader's call and the collection around it: samples and diagnostics reach the snapshot as they are. */
module GpuPipeline {
  import opened Telemetry
  import opened Normalizer
  import opened Collector
  import opened CollectorLaws
  import NvidiaSmi
  import Nvml

  /** The other boundaries' answers, with a reader's samples and diagnostics as the GPU's. */
  function WithGpu(others: Answers, samples: seq<GpuSample>, reasons: Diagnostics): Answers {
    others.(gpu := Ok(AsRaws(samples)), gpuReasons := Surfaced(reasons))
  }

  /** Some step on the host's side raises. */
  ghost predicate HostBroken(a: Answers) {
    (exists f :: HostOf(a).Get(f).TooLarge?) || a.hostReasons.Misshapen?
  }

  /** A modelled reader never breaks a collection. */
  lemma OnlyTheHostBreaks(others: Answers, samples: seq<GpuSample>, reasons: Diagnostics)
    ensures Broken(WithGpu(others, samples, reasons)) <==> HostBroken(others)
  {
    SamplesNeverBreak(samples);
    var a := WithGpu(others, samples, reasons);
    assert GpuAnswer(a) == AsRaws(samples);
    assert HostOf(a) == HostOf(others);
    hide AsRaws, HostOf, AnyBreaks;
  }

  lemma SmiReachesSnapshot(
    others: Answers, now: real, s: Snapshot, core: seq<NvidiaSmi.Row>, throttle: seq<NvidiaSmi.Row>, reasons: Diagnostics)
    requires Collected(WithGpu(others, NvidiaSmi.SamplesOf(core, throttle), reasons), now, s)
    requires NvidiaSmi.Explains(reasons, NvidiaSmi.SamplesOf(core, throttle))
    ensures s.gpus == NvidiaSmi.SamplesOf(core, throttle) && NvidiaSmi.Explains(s.reasons, s.gpus)
  {
    var samples := NvidiaSmi.SamplesOf(core, throttle);
    SmiSamplesAreCanonical(core, throttle);
    NvidiaSmi.SamplesIncrease(core, throttle);
    hide NvidiaSmi.SamplesOf, Canonical, Collected;
    forall g, f | g in samples && g.readings.Get(f) == Unsupported ensures GpuEntry(g.index, Reading(f)) in reasons {
      NvidiaSmi.ExplainsEach(reasons, samples, g, Reading(f));
    }
    BackendReachesSnapshot(WithGpu(others, samples, reasons), now, s, samples, reasons);
    SameEntriesSameExplanation(reasons, s.reasons, samples);
  }

  lemma SameEntriesSameExplanation(before: Diagnostics, after: Diagnostics, samples: seq<GpuSample>)
    requires NvidiaSmi.Explains(before, samples)
    requires forall i, topic :: At(after, GpuEntry(i, topic)) == At(before, GpuEntry(i, topic))
    ensures NvidiaSmi.Explains(after, samples)
  {
    hide NvidiaSmi.Lacks;
    forall i, topic ensures GpuEntry(i, topic) in after <==> GpuEntry(i, topic) in before {
      assert At(after, GpuEntry(i, topic)) == At(before, GpuEntry(i, topic));
    }
  }

  /** The diagnostics name exactly what the first `n` devices of the driver lack. */
  ghost predicate NamesGaps(driver: Nvml.Driver, n: nat, reasons: Diagnostics) {
    forall i, topic :: GpuEntry(i, topic) in reasons <==>
      0 <= i < n && Nvml.Addressable(driver.device(i))
      && Nvml.Named(driver.device(i), Nvml.SampleFrom(driver.device(i), i), topic)
  }

  lemma NvmlReachesSnapshot(others: Answers, now: real, s: Snapshot, driver: Nvml.Driver, n: nat, reasons: Diagnostics)
    requires Collected(WithGpu(others, Nvml.SamplesFrom(driver, n), reasons), now, s)
    requires Nvml.DevicesExplained(driver, n, reasons)
    ensures s.gpus == Nvml.SamplesFrom(driver, n) && NamesGaps(driver, n, s.reasons)
  {
    var samples := Nvml.SamplesFrom(driver, n);
    NvmlSamplesAreCanonical(driver, n);
    Nvml.EverySampleExplained(driver, n, reasons);
    hide Nvml.SamplesFrom, Nvml.SampleFrom, Nvml.Named, Canonical, Collected;
    BackendReachesSnapshot(WithGpu(others, samples, reasons), now, s, samples, reasons);
    forall i, topic ensures GpuEntry(i, topic) in s.reasons <==> GpuEntry(i, topic) in reasons {
      assert At(s.reasons, GpuEntry(i, topic)) == At(reasons, GpuEntry(i, topic));
    }
  }

  /** One collection over the command backend. */
  method SnapshotThroughSmi(
    reader: NvidiaSmi.NvidiaSmiReader, collector: TelemetryCollector, core: NvidiaSmi.Answer, throttle: NvidiaSmi.Answer,
    others: Answers, now: real) returns (s: Snapshot)
    modifies reader, collector
    ensures !HostBroken(others) ==>
      s.gpus == NvidiaSmi.SamplesOf(NvidiaSmi.RowsOf(core), NvidiaSmi.RowsOf(throttle))
      && NvidiaSmi.Explains(s.reasons, s.gpus) && collector.reasons == s.reasons
  {
    hide NvidiaSmi.SamplesOf, NvidiaSmi.Explains, NvidiaSmi.Lacks, Collected, Broken, HostBroken, WithGpu;
    var samples := reader.Sample(core, throttle);
    var a := WithGpu(others, samples, reader.reasons);
    OnlyTheHostBreaks(others, samples, reader.reasons);
    s := collector.Snapshot(a, now);
    if !HostBroken(others) {
      SmiReachesSnapshot(others, now, s, NvidiaSmi.RowsOf(core), NvidiaSmi.RowsOf(throttle), reader.reasons);
    }
  }

  /** One collection over the NVML backend, while the library serves. */
  method SnapshotThroughNvml(
    reader: Nvml.NvmlGpuReader, collector: TelemetryCollector, driver: Nvml.Driver, others: Answers, now: real)
    returns (s: Snapshot)
    requires reader.Valid()
    modifies reader, collector
    ensures reader.Valid() && reader.initialized == old(reader.CanServe(driver))
    ensures reader.initialized && !HostBroken(others) ==>
      s.gpus == Nvml.SamplesFrom(driver, Nvml.DeviceCount(driver))
      && NamesGaps(driver, Nvml.DeviceCount(driver), s.reasons) && collector.reasons == s.reasons
  {
    hide Nvml.SamplesFrom, Nvml.DevicesExplained, Collected, Broken, HostBroken, WithGpu, NamesGaps;
    var samples := reader.Sample(driver);
    var a := WithGpu(others, samples, reader.reasons);
    OnlyTheHostBreaks(others, samples, reader.reasons);
    s := collector.Snapshot(a, now);
    if reader.initialized && !HostBroken(others) {
      NvmlReachesSnapshot(others, now, s, driver, Nvml.DeviceCount(driver), reader.reasons);
    }
  }
}
