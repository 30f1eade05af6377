/** What the collector makes of a reader's GPU samples: one per device, in range, in index order. */
module Normalizer {
  import opened Telemetry
  import opened Collecting
  import opened Sorting
  import opened Indexing

  const LOWEST_TEMPERATURE_C := -273.15
  const FULL_PERCENT := 100.0

  // ---- What a boundary hands over ----

  /** A value where a number is expected; an integer too large for a float makes the finiteness test raise. */
  datatype RawValue = Missing | NotANumber | NotFinite | TooLarge | Number(value: real)

  /** A list item where a GPU sample is expected. None: not an integer, not text, not iterable, not text. */
  datatype RawSample =
    | NotASample
    | RawSample(
        index: Option<int>,
        uuid: Option<string>,
        readings: Readings<RawValue>,
        throttleReasons: Option<seq<Option<ThrottleReason>>>,
        throttleReasonsAvailable: bool)

  // ---- Numbers ----

  function Bounded(raw: RawValue, minimum: real, maximum: Option<real>): Outcome<Measurement> {
    match raw
    case TooLarge => Raised
    case Number(v) => Ok(if v < minimum || (maximum.Some? && v > maximum.value) then Unsupported else Num(v))
    case _ => Ok(Unsupported)
  }

  function Known(o: Outcome<Measurement>): Measurement {
    match o
    case Ok(m) => m
    case Raised => Unsupported
  }

  function GpuMinimum(f: GpuField): real {
    if f.TemperatureC? || f.MemoryTemperatureC? then LOWEST_TEMPERATURE_C else 0.0
  }

  function GpuMaximum(f: GpuField): Option<real> {
    if f.UtilizationPercent? || f.MemoryUtilizationPercent? || f.FanPercent? then Some(FULL_PERCENT) else None
  }

  function GpuNumber(r: Readings<RawValue>, f: GpuField): Outcome<Measurement> {
    Bounded(r.Get(f), GpuMinimum(f), GpuMaximum(f))
  }

  // ---- Diagnostics by key ----

  function At(m: Diagnostics, k: DiagnosticKey): Option<Reason> {
    if k in m then Some(m[k]) else None
  }

  function OrElse(a: Option<Reason>, b: Option<Reason>): Option<Reason> {
    if a.Some? then a else b
  }

  // ---- GPU samples ----

  const GPU_FIELDS: seq<GpuField> := [
    UtilizationPercent, MemoryUtilizationPercent, VramUsedBytes, VramTotalBytes, TemperatureC, MemoryTemperatureC,
    PowerWatts, PowerLimitWatts, FanPercent, CoreClockMhz, MemoryClockMhz]

  lemma EveryGpuField(f: GpuField)
    ensures f in GPU_FIELDS
  {
    assert GPU_FIELDS[0] == UtilizationPercent && GPU_FIELDS[1] == MemoryUtilizationPercent;
    assert GPU_FIELDS[2] == VramUsedBytes && GPU_FIELDS[3] == VramTotalBytes;
    assert GPU_FIELDS[4] == TemperatureC && GPU_FIELDS[5] == MemoryTemperatureC;
    assert GPU_FIELDS[6] == PowerWatts && GPU_FIELDS[7] == PowerLimitWatts && GPU_FIELDS[8] == FanPercent;
    assert GPU_FIELDS[9] == CoreClockMhz && GPU_FIELDS[10] == MemoryClockMhz;
  }

  function ValidIndex(s: RawSample): Option<nat> {
    if s.NotASample? || s.index.None? || s.index.value < 0 then None else Some(s.index.value)
  }

  function NonEmptyReason(o: Option<ThrottleReason>): seq<ThrottleReason> {
    if o.Some? && o.value != Other("") then [o.value] else []
  }

  function KeptReasons(s: RawSample): seq<ThrottleReason> {
    if s.NotASample? || s.throttleReasons.None? then [] else Collect(s.throttleReasons.value, NonEmptyReason)
  }

  function Cleaned(r: Readings<RawValue>): Readings<Measurement> {
    Tabulate(f => Known(GpuNumber(r, f)))
  }

  function NormalSample(index: nat, s: RawSample): GpuSample
    requires s.RawSample?
  {
    GpuSample(
      index, if s.uuid == Some("") then None else s.uuid, Cleaned(s.readings), KeptReasons(s), s.throttleReasonsAvailable)
  }

  /** Normalizing this sample raises. */
  ghost predicate Breaks(s: RawSample) {
    s.RawSample? && (s.throttleReasons.None? || exists f :: s.readings.Get(f).TooLarge?)
  }

  function Kept(values: seq<RawSample>, n: nat): seq<(nat, RawSample)>
    requires n <= |values|
  {
    FirstPerIndex(values[..n], ValidIndex)
  }

  function NormalEntry(e: (nat, RawSample)): (nat, GpuSample) {
    (e.0, if e.1.RawSample? then NormalSample(e.0, e.1) else GpuSample(e.0, None, Tabulate(f => Unsupported), [], false))
  }

  function NormalEntries(entries: seq<(nat, RawSample)>): (r: seq<(nat, GpuSample)>)
    ensures |r| == |entries|
  {
    seq(|entries|, i requires 0 <= i < |entries| => NormalEntry(entries[i]))
  }

  function Second<T>(entries: seq<(nat, T)>): (r: seq<T>)
    ensures |r| == |entries|
  {
    seq(|entries|, i requires 0 <= i < |entries| => entries[i].1)
  }

  /** The first sample of every valid index, normalized, in index order. */
  function NormalSamples(values: seq<RawSample>): seq<GpuSample> {
    Second(NormalEntries(ByIndex(values, ValidIndex)))
  }

  /** Some sample that is kept cannot be normalized. */
  ghost predicate AnyBreaks(values: seq<RawSample>) {
    exists e <- FirstPerIndex(values, ValidIndex) :: Breaks(e.1)
  }

  // ---- Diagnostics of the normalizer ----

  ghost predicate KeptLacks(entries: seq<(nat, RawSample)>, i: int, f: GpuField) {
    exists m | 0 <= m < |entries| ::
      entries[m].0 == i && entries[m].1.RawSample? && Known(GpuNumber(entries[m].1.readings, f)) == Unsupported
  }

  /** What normalizing the first `n` values has to say about a key. */
  ghost function Finding(values: seq<RawSample>, n: nat, k: DiagnosticKey): Option<Reason>
    requires n <= |values|
  {
    match k
    case GpuPosition(p) => if p < n && values[p].NotASample? then Some(MalformedReading) else None
    case GpuPositionIndex(p) =>
      if p >= n || values[p].NotASample? then None
      else if ValidIndex(values[p]).None? then Some(MalformedValue)
      else if HasIndex(Kept(values, p), ValidIndex(values[p]).value) then Some(Reason.DuplicateGpuIndex)
      else None
    case GpuEntry(i, Reading(f)) => if KeptLacks(Kept(values, n), i, f) then Some(SensorUnsupported) else None
    case _ => None
  }

  /** A rejected position overwrites an earlier reason; a missing reading does not. */
  function Layer(k: DiagnosticKey, before: Option<Reason>, finding: Option<Reason>): Option<Reason> {
    if k.GpuEntry? then OrElse(before, finding) else OrElse(finding, before)
  }

  ghost predicate Found(values: seq<RawSample>, n: nat, before: Diagnostics, after: Diagnostics)
    requires n <= |values|
  {
    forall k :: At(after, k) == Layer(k, At(before, k), Finding(values, n, k))
  }

  ghost predicate ReadingsExplained(
    index: nat, fields: seq<GpuField>, r: Readings<RawValue>, before: Diagnostics, after: Diagnostics) {
    forall k :: At(after, k) == OrElse(
      At(before, k),
      if k.GpuEntry? && k.index == index && k.topic.Reading? && k.topic.field in fields
         && Known(GpuNumber(r, k.topic.field)) == Unsupported
      then Some(SensorUnsupported) else None)
  }

  /** Every reading of one sample, checked against the range of its field. */
  method NormalizeReadings(r: Readings<RawValue>, index: nat, before: Diagnostics)
    returns (readings: Outcome<Readings<Measurement>>, reasons: Diagnostics)
    ensures readings.Raised? <==> exists f :: r.Get(f).TooLarge?
    ensures readings.Ok? ==> readings.value == Cleaned(r) && ReadingsExplained(index, GPU_FIELDS, r, before, reasons)
  {
    hide Bounded, ReadingsExplained;
    reasons := before;
    var measurements: map<GpuField, Measurement> := map[];
    NothingReadYet(index, r, before);
    for n := 0 to |GPU_FIELDS|
      invariant forall f :: f in measurements <==> f in GPU_FIELDS[..n]
      invariant forall f <- measurements :: Ok(measurements[f]) == GpuNumber(r, f)
      invariant ReadingsExplained(index, GPU_FIELDS[..n], r, before, reasons)
    {
      var f := GPU_FIELDS[n];
      assert GPU_FIELDS[..n + 1] == GPU_FIELDS[..n] + [f];
      var number := GpuNumber(r, f);
      OnlyTooLargeRaises(r, f);
      if number.Raised? {
        return Raised, reasons;
      }
      measurements := measurements[f := number.value];
      ReadOneMore(index, GPU_FIELDS[..n], f, r, before, reasons);
      if number.value == Unsupported {
        reasons := SetDefault(reasons, GpuEntry(index, Reading(f)), SensorUnsupported);
      }
    }
    Whole(GPU_FIELDS);
    AllMeasured(r, measurements);
    readings := Ok(Readings(
      measurements[UtilizationPercent], measurements[MemoryUtilizationPercent], measurements[VramUsedBytes],
      measurements[VramTotalBytes], measurements[TemperatureC], measurements[MemoryTemperatureC],
      measurements[PowerWatts], measurements[PowerLimitWatts], measurements[FanPercent],
      measurements[CoreClockMhz], measurements[MemoryClockMhz]));
  }

  lemma OnlyTooLargeRaises(r: Readings<RawValue>, f: GpuField)
    ensures GpuNumber(r, f).Raised? <==> r.Get(f).TooLarge?
  {
  }

  lemma AllMeasured(r: Readings<RawValue>, m: map<GpuField, Measurement>)
    requires forall f :: f in m <==> f in GPU_FIELDS
    requires forall f <- m :: Ok(m[f]) == GpuNumber(r, f)
    ensures forall f :: f in m && m[f] == Cleaned(r).Get(f) && !r.Get(f).TooLarge?
  {
    hide GpuNumber;
    forall f ensures f in m && m[f] == Cleaned(r).Get(f) && !r.Get(f).TooLarge? {
      EveryGpuField(f);
      assert Ok(m[f]) == GpuNumber(r, f);
      OnlyTooLargeRaises(r, f);
    }
  }

  lemma NothingReadYet(index: nat, r: Readings<RawValue>, before: Diagnostics)
    ensures ReadingsExplained(index, GPU_FIELDS[..0], r, before, before)
  {
  }

  lemma ReadOneMore(
    index: nat, fields: seq<GpuField>, f: GpuField, r: Readings<RawValue>, before: Diagnostics, after: Diagnostics)
    requires ReadingsExplained(index, fields, r, before, after)
    ensures var key := GpuEntry(index, Reading(f));
      var last := if Known(GpuNumber(r, f)) == Unsupported then SetDefault(after, key, SensorUnsupported) else after;
      ReadingsExplained(index, fields + [f], r, before, last)
  {
    hide GpuNumber;
  }

  method FilterReasons(reported: seq<Option<ThrottleReason>>) returns (kept: seq<ThrottleReason>)
    ensures kept == Collect(reported, NonEmptyReason)
  {
    kept := [];
    for n := 0 to |reported|
      invariant kept == Collect(reported[..n], NonEmptyReason)
    {
      CollectStep(reported, n, NonEmptyReason);
      if reported[n].Some? && reported[n].value != Other("") {
        kept := kept + [reported[n].value];
      }
    }
    Whole(reported);
  }

  method NormalizeSample(s: RawSample, index: nat, before: Diagnostics)
    returns (sample: Outcome<GpuSample>, reasons: Diagnostics)
    requires s.RawSample?
    ensures sample.Raised? <==> Breaks(s)
    ensures sample.Ok? ==>
      sample.value == NormalSample(index, s) && ReadingsExplained(index, GPU_FIELDS, s.readings, before, reasons)
  {
    hide ReadingsExplained;
    var readings, after := NormalizeReadings(s.readings, index, before);
    reasons := after;
    if readings.Raised? || s.throttleReasons.None? {
      return Raised, reasons;
    }
    var kept := FilterReasons(s.throttleReasons.value);
    var uuid := if s.uuid.Some? && s.uuid.value != "" then s.uuid else None;
    sample := Ok(GpuSample(index, uuid, readings.value, kept, s.throttleReasonsAvailable));
  }

  method NormalizeGpuSamples(values: seq<RawSample>, before: Diagnostics)
    returns (gpus: Outcome<seq<GpuSample>>, reasons: Diagnostics)
    ensures gpus.Raised? <==> AnyBreaks(values)
    ensures gpus.Ok? ==> gpus.value == NormalSamples(values) && Found(values, |values|, before, reasons)
  {
    hide Found, Breaks, FirstPerIndex, ReadingsExplained, NormalSample, NormalSamples, AnyBreaks;
    var normalized: seq<(nat, GpuSample)> := [];
    reasons := before;
    FoundNothing(values, before);
    for p := 0 to |values|
      invariant normalized == NormalEntries(Kept(values, p))
      invariant !AnyBreaks(values[..p])
      invariant Found(values, p, before, reasons)
    {
      KeptStep(values, p);
      if values[p].NotASample? {
        FoundRejected(values, p, before, reasons, GpuPosition(p), MalformedReading);
        reasons := reasons[GpuPosition(p) := MalformedReading];
        continue;
      }
      var index := ValidIndex(values[p]);
      if index.None? {
        FoundRejected(values, p, before, reasons, GpuPositionIndex(p), MalformedValue);
        reasons := reasons[GpuPositionIndex(p) := MalformedValue];
        continue;
      }
      SameIndexes(Kept(values, p), index.value);
      if HasIndex(normalized, index.value) {
        FoundRejected(values, p, before, reasons, GpuPositionIndex(p), Reason.DuplicateGpuIndex);
        reasons := reasons[GpuPositionIndex(p) := Reason.DuplicateGpuIndex];
        continue;
      }
      var sample, after := NormalizeSample(values[p], index.value, reasons);
      if sample.Raised? {
        BrokenPrefix(values, p + 1);
        return Raised, after;
      }
      FoundKept(values, p, before, reasons, after);
      reasons := after;
      NormalStep(Kept(values, p), (index.value, values[p]));
      normalized := normalized + [(index.value, sample.value)];
    }
    Whole(values);
    SortedNormalEntries(values);
    gpus := Ok(Second(StableSort(normalized, IndexLe)));
  }

  // ---- The normalizer's loop, step by step ----

  lemma FoundNothing(values: seq<RawSample>, before: Diagnostics)
    ensures Found(values, 0, before, before)
    ensures Kept(values, 0) == [] && !AnyBreaks(values[..0])
  {
    forall k ensures At(before, k) == Layer(k, At(before, k), Finding(values, 0, k)) {
    }
  }

  /** Value `p` joins the kept entries exactly if its index is valid and new. */
  lemma KeptStep(values: seq<RawSample>, p: nat)
    requires p < |values|
    ensures var i := ValidIndex(values[p]);
      var isNew := i.Some? && !HasIndex(Kept(values, p), i.value);
      && Kept(values, p + 1) == Kept(values, p) + (if isNew then [(i.value, values[p])] else [])
      && (AnyBreaks(values[..p + 1]) <==> AnyBreaks(values[..p]) || (isNew && Breaks(values[p])))
  {
    assert values[..p + 1][..p] == values[..p] && values[..p + 1][p] == values[p];
    var before, after := Kept(values, p), Kept(values, p + 1);
    hide Breaks, ValidIndex, HasIndex;
    var i := ValidIndex(values[p]);
    var isNew := i.Some? && !HasIndex(Kept(values, p), i.value);
    assert after == before + (if isNew then [(i.value, values[p])] else []);
    hide FirstPerIndex;
    assert forall e :: e in after <==> e in before || (isNew && e == (i.value, values[p]));
    if isNew && Breaks(values[p]) {
      assert (i.value, values[p]) in after;
    }
  }

  lemma FoundRejected(
    values: seq<RawSample>, p: nat, before: Diagnostics, after: Diagnostics, key: DiagnosticKey, reason: Reason)
    requires p < |values| && Found(values, p, before, after) && Kept(values, p + 1) == Kept(values, p)
    requires key == if values[p].NotASample? then GpuPosition(p) else GpuPositionIndex(p)
    requires Finding(values, p + 1, key) == Some(reason)
    ensures Found(values, p + 1, before, after[key := reason])
  {
    hide FirstPerIndex, KeptLacks, ValidIndex, HasIndex;
    forall k ensures At(after[key := reason], k) == Layer(k, At(before, k), Finding(values, p + 1, k)) {
      assert At(after, k) == Layer(k, At(before, k), Finding(values, p, k));
      FindingStep(values, p, k);
    }
  }

  /** Only the keys of value `p` can be found at step `p`. */
  lemma FindingStep(values: seq<RawSample>, p: nat, k: DiagnosticKey)
    requires p < |values|
    ensures k != GpuPosition(p) && k != GpuPositionIndex(p) && !k.GpuEntry? ==>
      Finding(values, p + 1, k) == Finding(values, p, k)
    ensures values[p].NotASample? ==> Finding(values, p + 1, GpuPositionIndex(p)) == None
    ensures !values[p].NotASample? ==> Finding(values, p + 1, GpuPosition(p)) == None
    ensures Finding(values, p, GpuPosition(p)) == None && Finding(values, p, GpuPositionIndex(p)) == None
    ensures k.GpuEntry? && Kept(values, p + 1) == Kept(values, p) ==> Finding(values, p + 1, k) == Finding(values, p, k)
  {
    hide FirstPerIndex, KeptLacks, ValidIndex, HasIndex;
  }

  lemma FoundKept(values: seq<RawSample>, p: nat, before: Diagnostics, after: Diagnostics, last: Diagnostics)
    requires p < |values| && Found(values, p, before, after) && ValidIndex(values[p]).Some?
    requires !HasIndex(Kept(values, p), ValidIndex(values[p]).value)
    requires Kept(values, p + 1) == Kept(values, p) + [(ValidIndex(values[p]).value, values[p])]
    requires ReadingsExplained(ValidIndex(values[p]).value, GPU_FIELDS, values[p].readings, after, last)
    ensures Found(values, p + 1, before, last)
  {
    var index := ValidIndex(values[p]).value;
    hide FirstPerIndex, HasIndex;
    assert Finding(values, p + 1, GpuPosition(p)) == None && Finding(values, p + 1, GpuPositionIndex(p)) == None;
    hide ValidIndex;
    forall k ensures At(last, k) == Layer(k, At(before, k), Finding(values, p + 1, k)) {
      assert At(after, k) == Layer(k, At(before, k), Finding(values, p, k));
      FindingStep(values, p, k);
      if k.GpuEntry? && k.topic.Reading? {
        EveryGpuField(k.topic.field);
        LacksOneMore(Kept(values, p), (index, values[p]), k.index, k.topic.field);
      }
    }
  }

  lemma LacksOneMore(entries: seq<(nat, RawSample)>, e: (nat, RawSample), i: int, f: GpuField)
    ensures KeptLacks(entries + [e], i, f) <==>
      KeptLacks(entries, i, f) || (e.0 == i && e.1.RawSample? && Known(GpuNumber(e.1.readings, f)) == Unsupported)
  {
    var all := entries + [e];
    hide GpuNumber, Known;
    assert all[|entries|] == e;
    assert forall m | 0 <= m < |entries| :: all[m] == entries[m];
  }

  lemma SameIndexes(entries: seq<(nat, RawSample)>, i: nat)
    ensures HasIndex(NormalEntries(entries), i) <==> HasIndex(entries, i)
  {
    hide NormalSample;
    var r := NormalEntries(entries);
    assert forall k | 0 <= k < |entries| :: r[k].0 == entries[k].0;
  }

  lemma NormalStep(entries: seq<(nat, RawSample)>, e: (nat, RawSample))
    ensures NormalEntries(entries + [e]) == NormalEntries(entries) + [NormalEntry(e)]
  {
    hide NormalEntry;
  }

  lemma {:induction false} BrokenPrefix(values: seq<RawSample>, n: nat)
    requires n <= |values| && AnyBreaks(values[..n])
    ensures AnyBreaks(values)
    decreases |values| - n
  {
    if n < |values| {
      KeptStep(values, n);
      BrokenPrefix(values, n + 1);
    } else {
      Whole(values);
    }
  }

  /** Normalizing keeps the index, so it does not matter whether it is done before the sort or after. */
  lemma SortedNormalEntries(values: seq<RawSample>)
    ensures Second(StableSort(NormalEntries(FirstPerIndex(values, ValidIndex)), IndexLe)) == NormalSamples(values)
  {
    var kept := FirstPerIndex(values, ValidIndex);
    var a := StableSort(NormalEntries(kept), IndexLe);
    var b := NormalEntries(ByIndex(values, ValidIndex));
    FirstPerIndexSpec(values, ValidIndex);
    hide FirstPerIndex, NormalSample, ValidIndex, StableSort;
    SortedMembers(kept);
    SortedMembers(NormalEntries(kept));
    forall e ensures e in a <==> e in b {
      NormalMember(kept, e);
      NormalMember(ByIndex(values, ValidIndex), e);
    }
    SameMembersSameListing(a, b);
  }

  lemma NormalMember(entries: seq<(nat, RawSample)>, e: (nat, GpuSample))
    ensures e in NormalEntries(entries) <==> exists x :: x in entries && NormalEntry(x) == e
  {
    hide NormalEntry;
    var r := NormalEntries(entries);
    if e in r {
      var k :| 0 <= k < |r| && r[k] == e;
      assert entries[k] in entries;
    }
    if x :| x in entries && NormalEntry(x) == e {
      var k :| 0 <= k < |entries| && entries[k] == x;
      assert r[k] == e;
    }
  }
}
