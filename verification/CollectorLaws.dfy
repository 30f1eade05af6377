/** What every snapshot promises, whatever the boundaries do. */
module CollectorLaws {
  import opened Telemetry
  import opened Collecting
  import opened Sorting
  import opened Indexing
  import opened Normalizer
  import opened Collector
  import Throttle
  import NvidiaSmi
  import Nvml

  // ---- Samples the normalizer leaves alone ----

  predicate Within(m: Measurement, minimum: real, maximum: Option<real>) {
    m.Num? ==> minimum <= m.value && (maximum.Some? ==> m.value <= maximum.value)
  }

  ghost predicate WellFormed(s: GpuSample) {
    && s.index >= 0
    && s.uuid != Some("")
    && (forall f :: Within(s.readings.Get(f), GpuMinimum(f), GpuMaximum(f)))
    && Other("") !in s.throttleReasons
  }

  ghost predicate Increasing(samples: seq<GpuSample>) {
    forall i, j :: 0 <= i < j < |samples| ==> samples[i].index < samples[j].index
  }

  ghost predicate Canonical(samples: seq<GpuSample>) {
    Increasing(samples) && forall s <- samples :: WellFormed(s)
  }

  function AsRawValue(m: Measurement): RawValue {
    match m
    case Unsupported => Missing
    case Num(v) => Number(v)
  }

  function Wrap(r: ThrottleReason): Option<ThrottleReason> {
    Some(r)
  }

  /** A reader's sample as the collector receives it. */
  function AsRaw(s: GpuSample): (r: RawSample)
    ensures r.RawSample?
  {
    RawSample(
      Some(s.index), s.uuid, Tabulate(f => AsRawValue(s.readings.Get(f))),
      Some(seq(|s.throttleReasons|, i requires 0 <= i < |s.throttleReasons| => Wrap(s.throttleReasons[i]))),
      s.throttleReasonsAvailable)
  }

  function AsRaws(samples: seq<GpuSample>): (r: seq<RawSample>)
    ensures |r| == |samples|
  {
    seq(|samples|, i requires 0 <= i < |samples| => AsRaw(samples[i]))
  }

  lemma BoundedIsWithin(raw: RawValue, minimum: real, maximum: Option<real>)
    ensures Within(Known(Bounded(raw, minimum, maximum)), minimum, maximum)
  {
  }

  lemma WithinIsKept(m: Measurement, minimum: real, maximum: Option<real>)
    ensures Bounded(AsRawValue(m), minimum, maximum).Ok?
    ensures Within(m, minimum, maximum) ==> Known(Bounded(AsRawValue(m), minimum, maximum)) == m
  {
  }

  lemma NormalSampleIsWellFormed(index: nat, s: RawSample)
    requires s.RawSample?
    ensures WellFormed(NormalSample(index, s))
  {
    var n := NormalSample(index, s);
    forall f ensures Within(n.readings.Get(f), GpuMinimum(f), GpuMaximum(f)) {
      BoundedIsWithin(s.readings.Get(f), GpuMinimum(f), GpuMaximum(f));
    }
    hide Cleaned, Bounded;
    if s.throttleReasons.Some? {
      CollectOrigin(s.throttleReasons.value, NonEmptyReason);
    }
  }

  lemma {:induction false} WrappedReasonsKept(reasons: seq<ThrottleReason>, wrapped: seq<Option<ThrottleReason>>)
    requires Other("") !in reasons && |wrapped| == |reasons|
    requires forall i | 0 <= i < |reasons| :: wrapped[i] == Some(reasons[i])
    ensures Collect(wrapped, NonEmptyReason) == reasons
  {
    if reasons != [] {
      forall i | 0 <= i < |reasons[1..]| ensures wrapped[1..][i] == Some(reasons[1..][i]) {
        assert wrapped[i + 1] == Some(reasons[i + 1]);
      }
      WrappedReasonsKept(reasons[1..], wrapped[1..]);
      assert NonEmptyReason(wrapped[0]) == [reasons[0]];
    }
  }

  lemma WellFormedIsKept(s: GpuSample)
    requires WellFormed(s)
    ensures NormalSample(s.index, AsRaw(s)) == s
  {
    var raw := AsRaw(s);
    WrappedReasonsKept(s.throttleReasons, raw.throttleReasons.value);
    forall f ensures Cleaned(raw.readings).Get(f) == s.readings.Get(f) {
      WithinIsKept(s.readings.Get(f), GpuMinimum(f), GpuMaximum(f));
    }
    ReadingsExtensional(Cleaned(raw.readings), s.readings);
    hide Cleaned, Collect;
  }

  lemma ReadingsOfRaw(s: GpuSample, f: GpuField)
    ensures !AsRaw(s).readings.Get(f).TooLarge? && AsRaw(s).throttleReasons.Some?
    ensures WellFormed(s) ==> Known(GpuNumber(AsRaw(s).readings, f)) == s.readings.Get(f)
  {
    if WellFormed(s) {
      WithinIsKept(s.readings.Get(f), GpuMinimum(f), GpuMaximum(f));
    }
  }

  /** The normalizer's output: one well-formed sample per device, in index order. */
  lemma NormalizedIsCanonical(values: seq<RawSample>)
    ensures Canonical(NormalSamples(values))
  {
    var entries := ByIndex(values, ValidIndex);
    ByIndexSpec(values, ValidIndex);
    hide ByIndex, WellFormed, NormalSample;
    var samples := NormalSamples(values);
    forall i | 0 <= i < |samples| ensures samples[i].index == entries[i].0 && WellFormed(samples[i]) {
      assert entries[i] in entries && IsFirst(values, ValidIndex, entries[i].0, entries[i].1);
      assert samples[i] == NormalSample(entries[i].0, entries[i].1);
      NormalSampleIsWellFormed(entries[i].0, entries[i].1);
      NormalIndex(entries[i].0, entries[i].1);
    }
  }

  lemma NormalIndex(index: nat, s: RawSample)
    requires s.RawSample?
    ensures NormalSample(index, s).index == index
  {
  }

  function Listed(samples: seq<GpuSample>): (r: seq<(nat, RawSample)>)
    requires forall s <- samples :: s.index >= 0
    ensures |r| == |samples|
  {
    seq(|samples|, i requires 0 <= i < |samples| => var s: GpuSample := samples[i]; (s.index, AsRaw(s)))
  }

  lemma CanonicalIsListed(samples: seq<GpuSample>)
    requires Canonical(samples)
    ensures forall s <- samples :: s.index >= 0
    ensures ByIndex(AsRaws(samples), ValidIndex) == Listed(samples)
  {
    assert forall s <- samples :: s.index >= 0;
    var listed := Listed(samples);
    hide WellFormed, ByIndex;
    forall p | 0 <= p < |samples|
      ensures listed[p].1 == AsRaws(samples)[p] && ValidIndex(AsRaws(samples)[p]) == Some(listed[p].0)
      ensures listed[p].0 == samples[p].index
    {
    }
    hide AsRaws, Listed, AsRaw;
    CanonicalListing(AsRaws(samples), ValidIndex, listed);
  }

  /** Exactly the canonical samples pass the normalizer unchanged. */
  lemma UnchangedIffCanonical(samples: seq<GpuSample>)
    ensures NormalSamples(AsRaws(samples)) == samples <==> Canonical(samples)
  {
    if Canonical(samples) {
      CanonicalIsListed(samples);
      var result := NormalSamples(AsRaws(samples));
      hide ByIndex, NormalSample, AsRaw;
      forall i | 0 <= i < |samples| ensures result[i] == samples[i] {
        WellFormedIsKept(samples[i]);
      }
    } else {
      NormalizedIsCanonical(AsRaws(samples));
    }
  }

  lemma NormalizingIsIdempotent(values: seq<RawSample>)
    ensures NormalSamples(AsRaws(NormalSamples(values))) == NormalSamples(values)
  {
    NormalizedIsCanonical(values);
    UnchangedIffCanonical(NormalSamples(values));
  }

  /** A reader's own samples never break the normalizer. */
  lemma SamplesNeverBreak(samples: seq<GpuSample>)
    ensures !AnyBreaks(AsRaws(samples))
  {
    var raws := AsRaws(samples);
    FirstPerIndexSpec(raws, ValidIndex);
    hide FirstPerIndex;
    forall e | e in FirstPerIndex(raws, ValidIndex) ensures !Breaks(e.1) {
      assert IsFirst(raws, ValidIndex, e.0, e.1);
      var p :| 0 <= p < |raws| && raws[p] == e.1;
      forall f ensures !e.1.readings.Get(f).TooLarge? && e.1.throttleReasons.Some? {
        ReadingsOfRaw(samples[p], f);
      }
      assert e.1.throttleReasons.Some?;
    }
  }

  // ---- Both backends are canonical ----

  lemma KnownReasonsOnly<T>(items: seq<T>, pick: T -> seq<ThrottleReason>)
    requires forall x :: x in items ==> Other("") !in pick(x)
    ensures Other("") !in Collect(items, pick)
  {
    CollectOrigin(items, pick);
  }

  lemma CellReasonsNotBlank(states: ThrottleReason -> Throttle.CellState)
    ensures Other("") !in Throttle.FromCells(states).reasons
  {
    forall r | r in Throttle.SMI_COLUMNS ensures Other("") !in Throttle.PickActive(states)(r) {
      Throttle.KnownColumns(r);
    }
    hide Collect;
    KnownReasonsOnly(Throttle.SMI_COLUMNS, Throttle.PickActive(states));
  }

  lemma MaskReasonsNotBlank(supported: Option<int>, current: Option<int>)
    ensures Other("") !in Throttle.FromMasks(supported, current).reasons
  {
    if supported.Some? && current.Some? && supported.value > 0 && current.value >= 0 {
      KnownReasonsOnly(Throttle.NVML_BITS, Throttle.PickBit(supported.value, current.value));
    }
  }

  lemma SmiValueWithin(row: NvidiaSmi.Row, f: GpuField)
    ensures Within(NvidiaSmi.FieldValue(row, f), GpuMinimum(f), GpuMaximum(f))
  {
  }

  lemma SmiSampleIsWellFormed(entry: (nat, NvidiaSmi.Row), throttle: Option<NvidiaSmi.Row>)
    ensures WellFormed(NvidiaSmi.SampleOf(entry, throttle))
  {
    var s := NvidiaSmi.SampleOf(entry, throttle);
    forall f ensures Within(s.readings.Get(f), GpuMinimum(f), GpuMaximum(f)) {
      SmiValueWithin(entry.1, f);
    }
    if throttle.Some? {
      CellReasonsNotBlank(NvidiaSmi.StateOf(throttle.value));
    }
    hide NvidiaSmi.FieldValue, Throttle.FromCells;
  }

  lemma SmiSamplesAreCanonical(core: seq<NvidiaSmi.Row>, throttle: seq<NvidiaSmi.Row>)
    ensures Canonical(NvidiaSmi.SamplesOf(core, throttle))
  {
    NvidiaSmi.SamplesIncrease(core, throttle);
    var entries := ByIndex(core, NvidiaSmi.RowIndex);
    var reports := FirstPerIndex(throttle, NvidiaSmi.RowIndex);
    var samples := NvidiaSmi.SamplesOf(core, throttle);
    hide ByIndex, FirstPerIndex, WellFormed, NvidiaSmi.SampleOf;
    forall k | 0 <= k < |samples| ensures WellFormed(samples[k]) {
      SmiSampleIsWellFormed(entries[k], NvidiaSmi.Lookup(reports, entries[k].0));
    }
  }

  lemma NvmlValueWithin(d: Nvml.Device, f: GpuField)
    ensures Within(Nvml.ReadingsFrom(d).Get(f), GpuMinimum(f), GpuMaximum(f))
  {
  }

  lemma NvmlSampleIsWellFormed(d: Nvml.Device, index: nat)
    ensures WellFormed(Nvml.SampleFrom(d, index))
  {
    forall f ensures Within(Nvml.ReadingsFrom(d).Get(f), GpuMinimum(f), GpuMaximum(f)) {
      NvmlValueWithin(d, f);
    }
    MaskReasonsNotBlank(Nvml.MaskOf(d.supported), Nvml.MaskOf(d.current));
    hide Nvml.ReadingsFrom, Throttle.FromMasks;
  }

  lemma NvmlSamplesAreCanonical(driver: Nvml.Driver, n: nat)
    ensures Canonical(Nvml.SamplesFrom(driver, n))
  {
    Nvml.NvmlSamplesIncrease(driver, n);
    hide WellFormed, Nvml.SamplesFrom, Nvml.SampleFrom;
    forall s | s in Nvml.SamplesFrom(driver, n) ensures WellFormed(s) {
      Nvml.SampledDevice(driver, n, s);
      NvmlSampleIsWellFormed(driver.device(s.index), s.index);
    }
  }

  // ---- Every snapshot ----

  /** What snapshot() returns for these answers. */
  ghost predicate Returned(a: Answers, now: real, s: Snapshot) {
    if Broken(a) then s == Emergency(now) else Collected(a, now, s)
  }

  /** The answers decide the snapshot. */
  lemma AnswersDecide(a: Answers, now: real, s: Snapshot, t: Snapshot)
    requires Returned(a, now, s) && Returned(a, now, t)
    ensures s == t
  {
    if !Broken(a) {
      hide ReasonOf, Broken;
      forall k ensures At(s.reasons, k) == At(t.reasons, k) {
      }
      assert s.reasons == t.reasons by {
        forall k ensures k in s.reasons <==> k in t.reasons {
          assert At(s.reasons, k) == At(t.reasons, k);
        }
        forall k | k in s.reasons ensures s.reasons[k] == t.reasons[k] {
          assert At(s.reasons, k) == At(t.reasons, k);
        }
      }
    }
  }

  ghost predicate InRange(s: Snapshot) {
    && (forall f :: f in s.host && Within(s.host[f], HostMinimum(f), HostMaximum(f)))
    && Canonical(s.gpus)
  }

  lemma EverySnapshotIsInRange(a: Answers, now: real, s: Snapshot)
    requires Returned(a, now, s)
    ensures InRange(s)
  {
    var h := if Broken(a) then NO_HOST else HostOf(a);
    assert s.host == HostValues(h);
    forall f ensures f in s.host && Within(s.host[f], HostMinimum(f), HostMaximum(f)) {
      BoundedIsWithin(h.Get(f), HostMinimum(f), HostMaximum(f));
    }
    NormalizedIsCanonical(GpuAnswer(a));
  }

  ghost predicate Explained(s: Snapshot) {
    && (forall f :: f in s.host && s.host[f] == Unsupported ==> Host(f) in s.reasons)
    && (forall g, f | g in s.gpus :: g.readings.Get(f) == Unsupported ==> GpuEntry(g.index, Reading(f)) in s.reasons)
    && (s.gpus == [] ==> Gpu in s.reasons)
  }

  /** A missing reading of a returned sample is a finding of the normalizer. */
  lemma LackIsFound(values: seq<RawSample>, g: GpuSample, f: GpuField)
    requires g in NormalSamples(values) && g.readings.Get(f) == Unsupported
    ensures Finding(values, |values|, GpuEntry(g.index, Reading(f))) == Some(SensorUnsupported)
  {
    var entries := ByIndex(values, ValidIndex);
    var kept := FirstPerIndex(values, ValidIndex);
    Whole(values);
    FirstPerIndexSpec(values, ValidIndex);
    SortedMembers(kept);
    hide FirstPerIndex, StableSort, NormalSample, Cleaned;
    var e := SampleOrigin(values, g);
    assert IsFirst(values, ValidIndex, e.0, e.1) && e in kept;
    var m :| 0 <= m < |kept| && kept[m] == e;
    NormalReading(e.0, e.1, f);
    assert g == NormalSample(e.0, e.1);
    assert KeptLacks(kept, g.index, f);
  }

  lemma SampleOrigin(values: seq<RawSample>, g: GpuSample) returns (e: (nat, RawSample))
    requires g in NormalSamples(values)
    ensures e in ByIndex(values, ValidIndex) && e.1.RawSample? && g == NormalSample(e.0, e.1)
  {
    var entries := ByIndex(values, ValidIndex);
    ByIndexSpec(values, ValidIndex);
    hide ByIndex, NormalSample;
    var samples := NormalSamples(values);
    var k :| 0 <= k < |samples| && samples[k] == g;
    e := entries[k];
    assert e in entries && IsFirst(values, ValidIndex, e.0, e.1);
  }

  lemma NormalReading(index: nat, s: RawSample, f: GpuField)
    requires s.RawSample?
    ensures NormalSample(index, s).index == index
    ensures NormalSample(index, s).readings.Get(f) == Known(GpuNumber(s.readings, f))
  {
  }

  lemma CollectedIsExplained(a: Answers, now: real, s: Snapshot)
    requires Collected(a, now, s)
    ensures Explained(s)
  {
    forall f | f in s.host && s.host[f] == Unsupported ensures Host(f) in s.reasons {
      assert At(s.reasons, Host(f)) == ReasonOf(a, Host(f));
    }
    forall g, f | g in s.gpus && g.readings.Get(f) == Unsupported ensures GpuEntry(g.index, Reading(f)) in s.reasons {
      LackIsFound(GpuAnswer(a), g, f);
      var key := GpuEntry(g.index, Reading(f));
      assert At(s.reasons, key) == ReasonOf(a, key);
    }
    assert At(s.reasons, Gpu) == ReasonOf(a, Gpu);
  }

  /** Every gap has a reason exactly when no step between the boundaries raised. */
  lemma ExplainedIffNotBroken(a: Answers, now: real, s: Snapshot)
    requires Returned(a, now, s)
    ensures Explained(s) <==> !Broken(a)
  {
    if Broken(a) {
      var f := CpuPercent;
      assert s.host[f] == Unsupported && Host(f) !in s.reasons;
    } else {
      CollectedIsExplained(a, now, s);
    }
  }

  const ONE_LARGE_INTEGER := Answers(
    Ok(Some(1.0)), Ok(Number(50.0)), Ok(Number(1.0)), Ok(Some(NO_MEMORY)), Ok(Number(40.0)), Ok(Some(NO_DISK)), Ok(TooLarge),
    Ok([]), Silent, Silent)

  /** One integer too large for a float costs the fields that were read well, and leaves them without a reason. */
  lemma OneLargeIntegerCostsTheSnapshot(now: real, s: Snapshot)
    requires Returned(ONE_LARGE_INTEGER, now, s)
    ensures ONE_LARGE_INTEGER.cpu == Ok(Number(50.0))
    ensures CpuPercent in s.host && s.host[CpuPercent] == Unsupported && Host(CpuPercent) !in s.reasons
  {
    assert HostOf(ONE_LARGE_INTEGER).Get(ProcessRssBytes).TooLarge?;
  }

  // ---- Fault isolation ----

  /** The same answers, but these operations raise. */
  function Faulted(a: Answers, ops: set<Operation>): Answers {
    Answers(
      if ClockOp in ops then Raised else a.clock,
      if CpuOp in ops then Raised else a.cpu,
      if LoadOp in ops then Raised else a.load,
      if MemoryOp in ops then Raised else a.memory,
      if TemperatureOp in ops then Raised else a.temperature,
      if DiskOp in ops then Raised else a.disk,
      if RssOp in ops then Raised else a.rss,
      if GpuOp in ops then Raised else a.gpu,
      if HostReasonsOp in ops then Silent else a.hostReasons,
      if GpuReasonsOp in ops then Silent else a.gpuReasons)
  }

  /** What an operation can have had a say in: its own fields, or the keys its diagnostics reported. */
  predicate Concerns(a: Answers, op: Operation, k: DiagnosticKey) {
    match op
    case ClockOp => k == Timestamp
    case GpuOp => k == Gpu || k.GpuPosition? || k.GpuPositionIndex? || k.GpuEntry?
    case HostReasonsOp => k.Host? && k in ReaderEntries(a.hostReasons)
    case GpuReasonsOp => k in ReaderEntries(a.gpuReasons)
    case _ => k.Host? && Feeds(k.field) == op
  }

  /** An operation that raises has nothing left to break the collection with. */
  lemma FaultsBreakNothing(a: Answers, ops: set<Operation>)
    requires !Broken(a)
    ensures !Broken(Faulted(a, ops))
  {
    var b := Faulted(a, ops);
    forall f ensures !HostOf(b).Get(f).TooLarge? {
      FaultedHost(a, ops, f);
    }
    hide HostOf;
    assert GpuAnswer(b) == if GpuOp in ops then [] else GpuAnswer(a);
  }

  lemma FaultedHost(a: Answers, ops: set<Operation>, f: HostField)
    ensures HostOf(Faulted(a, ops)).Get(f) == if Feeds(f) in ops then Missing else HostOf(a).Get(f)
    ensures Feeds(f) in ops ==> HostFault(Faulted(a, ops), f) == Some(ReaderError)
    ensures Feeds(f) !in ops ==> HostFault(Faulted(a, ops), f) == HostFault(a, f)
  {
  }

  lemma FaultedReason(a: Answers, ops: set<Operation>, k: DiagnosticKey)
    requires forall op <- ops :: !Concerns(a, op, k)
    ensures ReasonOf(Faulted(a, ops), k) == ReasonOf(a, k)
  {
    if k.Host? {
      FaultedHost(a, ops, k.field);
      assert Concerns(a, Feeds(k.field), k);
    }
    assert GpuOp in ops ==> !Concerns(a, GpuOp, k);
    assert ClockOp in ops ==> !Concerns(a, ClockOp, k);
    assert HostReasonsOp in ops ==> !Concerns(a, HostReasonsOp, k);
    assert GpuReasonsOp in ops ==> !Concerns(a, GpuReasonsOp, k);
    hide HostOf, HostFault, Feeds, NormalSamples, KeptLacks;
  }

  /**
   * Let any set of operations raise: what the others feed is as it would have been, values and reasons,
   * and what the raising ones feed is unsupported for a stated reason.
   */
  lemma FaultsAreIsolated(a: Answers, ops: set<Operation>, now: real, s: Snapshot, t: Snapshot)
    requires !Broken(a) && Returned(a, now, s) && Returned(Faulted(a, ops), now, t)
    ensures forall f :: f in s.host && f in t.host && t.host[f] == if Feeds(f) in ops then Unsupported else s.host[f]
    ensures t.gpus == if GpuOp in ops then [] else s.gpus
    ensures t.timestamp == if ClockOp in ops then EPOCH else s.timestamp
    ensures forall k :: (forall op <- ops :: !Concerns(a, op, k)) ==> At(t.reasons, k) == At(s.reasons, k)
    ensures Explained(t)
  {
    var b := Faulted(a, ops);
    FaultsBreakNothing(a, ops);
    CollectedIsExplained(b, now, t);
    hide Explained, Broken, ReasonOf, Concerns;
    forall f ensures f in s.host && f in t.host && t.host[f] == if Feeds(f) in ops then Unsupported else s.host[f] {
      FaultedHost(a, ops, f);
    }
    forall k | forall op <- ops :: !Concerns(a, op, k) ensures At(t.reasons, k) == At(s.reasons, k) {
      FaultedReason(a, ops, k);
    }
    hide HostOf;
    NothingNormalizesToNothing();
    assert GpuAnswer(b) == if GpuOp in ops then [] else GpuAnswer(a);
  }

  lemma NothingNormalizesToNothing()
    ensures NormalSamples([]) == []
  {
  }

  // ---- From backend to snapshot ----

  /** A reader's diagnostics as the collector receives them. */
  function Surfaced(reasons: Diagnostics): Surface {
    Reported(map k | k in reasons :: Some(reasons[k]))
  }

  lemma SurfacedEntries(reasons: Diagnostics)
    ensures ReaderEntries(Surfaced(reasons)) == reasons
  {
  }

  lemma FoundIsLacking(samples: seq<GpuSample>, i: int, f: GpuField)
    requires Canonical(samples)
    requires Finding(AsRaws(samples), |samples|, GpuEntry(i, Reading(f))).Some?
    ensures exists g :: g in samples && g.index == i && g.readings.Get(f) == Unsupported
  {
    var raws := AsRaws(samples);
    var kept := FirstPerIndex(raws, ValidIndex);
    Whole(raws);
    FirstPerIndexSpec(raws, ValidIndex);
    assert KeptLacks(kept, i, f);
    hide FirstPerIndex, WellFormed, GpuNumber;
    var m :| 0 <= m < |kept| && kept[m].0 == i && kept[m].1.RawSample?
      && Known(GpuNumber(kept[m].1.readings, f)) == Unsupported;
    assert kept[m] in kept && IsFirst(raws, ValidIndex, kept[m].0, kept[m].1);
    var p :| 0 <= p < |raws| && raws[p] == kept[m].1 && ValidIndex(kept[m].1) == Some(kept[m].0);
    ReadingsOfRaw(samples[p], f);
    assert samples[p] in samples && samples[p].index == i;
  }

  /**
   * A backend whose samples are canonical, and whose diagnostics cover its missing readings, reaches the
   * snapshot as it is: same samples, and the same diagnostics about its devices.
   */
  lemma BackendReachesSnapshot(a: Answers, now: real, s: Snapshot, samples: seq<GpuSample>, reasons: Diagnostics)
    requires Collected(a, now, s)
    requires a.gpu == Ok(AsRaws(samples)) && a.gpuReasons == Surfaced(reasons) && Canonical(samples)
    requires forall g, f | g in samples :: g.readings.Get(f) == Unsupported ==> GpuEntry(g.index, Reading(f)) in reasons
    ensures s.gpus == samples
    ensures forall i, topic :: At(s.reasons, GpuEntry(i, topic)) == At(reasons, GpuEntry(i, topic))
  {
    UnchangedIffCanonical(samples);
    SurfacedEntries(reasons);
    hide Canonical, NormalSamples, Finding, ReaderEntries, Surfaced;
    forall i, topic ensures At(s.reasons, GpuEntry(i, topic)) == At(reasons, GpuEntry(i, topic)) {
      var key := GpuEntry(i, topic);
      assert At(s.reasons, key) == ReasonOf(a, key);
      NothingElseFound(samples, reasons, i, topic);
    }
  }

  lemma NothingElseFound(samples: seq<GpuSample>, reasons: Diagnostics, i: int, topic: GpuTopic)
    requires Canonical(samples)
    requires forall g, f | g in samples :: g.readings.Get(f) == Unsupported ==> GpuEntry(g.index, Reading(f)) in reasons
    ensures GpuEntry(i, topic) in reasons || Finding(AsRaws(samples), |samples|, GpuEntry(i, topic)).None?
  {
    hide Canonical, KeptLacks;
    if topic.Reading? && Finding(AsRaws(samples), |samples|, GpuEntry(i, topic)).Some? {
      FoundIsLacking(samples, i, topic.field);
    }
  }
}
