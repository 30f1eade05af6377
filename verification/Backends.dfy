/** The same machine recorded through either GPU backend, and what a window makes of the two recordings. */
module Backends {
  import opened Telemetry
  import opened Collecting
  import opened Indexing
  import opened Window
  import opened WindowVerdict
  import opened WindowLaws
  import opened Throttle
  import NvidiaSmi
  import Nvml

  // ---- One device through either backend ----

  function States(throttle: Option<NvidiaSmi.Row>): ThrottleReason -> CellState {
    match throttle
    case Some(row) => NvidiaSmi.StateOf(row)
    case None => (r: ThrottleReason) => SaysNothing
  }

  function Supported(d: Nvml.Device): Option<int> {
    Nvml.MaskOf(d.supported)
  }

  function Current(d: Nvml.Device): Option<int> {
    Nvml.MaskOf(d.current)
  }

  /** The driver and the command report the same readings, and the cells say what the masks say. */
  ghost predicate SameDevice(d: Nvml.Device, core: NvidiaSmi.Row, throttle: Option<NvidiaSmi.Row>) {
    && (forall f :: Nvml.ReadingsFrom(d).Get(f) == NvidiaSmi.FieldValue(core, f))
    && MirrorsMasks(States(throttle), Supported(d), Current(d))
  }

  lemma ThrottlingOfStates(throttle: Option<NvidiaSmi.Row>)
    ensures NvidiaSmi.ThrottlingOf(throttle).reasons == FromCells(States(throttle)).reasons
    ensures NvidiaSmi.ThrottlingOf(throttle).available == FromCells(States(throttle)).available
  {
    if throttle.None? && FromCells(States(throttle)).reasons != [] {
      var r := FromCells(States(throttle)).reasons[0];
      CellReasons(States(throttle), r);
    }
  }

  /** The two samples of one device: like samples, apart from availability under a mask of unknown bits. */
  lemma SamplesAreTwins(d: Nvml.Device, g: nat, core: NvidiaSmi.Row, throttle: Option<NvidiaSmi.Row>)
    requires SameDevice(d, core, throttle)
    ensures var x, y := Nvml.SampleFrom(d, g), NvidiaSmi.SampleOf((g, core), throttle);
      && Twins(x, y)
      && (x.throttleReasonsAvailable != y.throttleReasonsAvailable <==> OnlyUnknownBits(Supported(d), Current(d)))
  {
    hide Nvml.ReadingsFrom, NvidiaSmi.FieldValue, FromMasks, FromCells, NvidiaSmi.ThrottlingOf, OnlyUnknownBits, MirrorsMasks,
      States, Supported, Current, Nvml.MaskOf;
    var masks, cells := FromMasks(Supported(d), Current(d)), FromCells(States(throttle));
    BackendsAgreeOnThrottling(States(throttle), Supported(d), Current(d));
    ThrottlingOfStates(throttle);
    SampleParts(d, g, core, throttle);
    var readings := Tabulate(f => NvidiaSmi.FieldValue(core, f));
    ReadingsExtensional(Nvml.ReadingsFrom(d), readings);
    hide Nvml.SampleFrom, NvidiaSmi.SampleOf;
  }

  lemma SampleParts(d: Nvml.Device, g: nat, core: NvidiaSmi.Row, throttle: Option<NvidiaSmi.Row>)
    ensures var x, masks := Nvml.SampleFrom(d, g), FromMasks(Supported(d), Current(d));
      && x.readings == Nvml.ReadingsFrom(d)
      && x.throttleReasons == masks.reasons
      && x.throttleReasonsAvailable == masks.available
    ensures var y, cells := NvidiaSmi.SampleOf((g, core), throttle), NvidiaSmi.ThrottlingOf(throttle);
      && y.readings == Tabulate(f => NvidiaSmi.FieldValue(core, f))
      && y.throttleReasons == cells.reasons
      && y.throttleReasonsAvailable == cells.available
  {
    hide Nvml.ReadingsFrom, NvidiaSmi.FieldValue, FromMasks, NvidiaSmi.ThrottlingOf;
  }

  // ---- The device in a call's samples ----

  lemma {:induction false} FindDeviceSpec(gpus: seq<GpuSample>, g: int)
    ensures match FindDevice(gpus, g)
      case Some(s) => s in gpus && s.index == g
      case None => forall s <- gpus :: s.index != g
  {
    if gpus != [] {
      FindDeviceSpec(gpus[1..], g);
    }
  }

  /** With increasing indexes the device is the one sample that has its index. */
  lemma FindDeviceAmong(gpus: seq<GpuSample>, s: GpuSample)
    requires forall i, j :: 0 <= i < j < |gpus| ==> gpus[i].index < gpus[j].index
    requires s in gpus
    ensures FindDevice(gpus, s.index) == Some(s)
  {
    FindDeviceSpec(gpus, s.index);
    var found := FindDevice(gpus, s.index).value;
    var i :| 0 <= i < |gpus| && gpus[i] == found;
    var j :| 0 <= j < |gpus| && gpus[j] == s;
  }

  /** The addressable device `g` of a driver. */
  function NvmlDevice(driver: Nvml.Driver, g: nat): Option<Nvml.Device> {
    if g < Nvml.DeviceCount(driver) && Nvml.Addressable(driver.device(g)) then Some(driver.device(g)) else None
  }

  lemma {:induction false} AddressableIsSampled(driver: Nvml.Driver, n: nat, g: nat)
    requires g < n && Nvml.Addressable(driver.device(g))
    ensures Nvml.SampleFrom(driver.device(g), g) in Nvml.SamplesFrom(driver, n)
  {
    hide Nvml.SampleFrom, Nvml.Addressable;
    if g < n - 1 {
      AddressableIsSampled(driver, n - 1, g);
    }
  }

  lemma NvmlFinds(driver: Nvml.Driver, g: nat)
    ensures FindDevice(Nvml.SamplesFrom(driver, Nvml.DeviceCount(driver)), g) ==
      match NvmlDevice(driver, g) case Some(d) => Some(Nvml.SampleFrom(d, g)) case None => None
  {
    var n := Nvml.DeviceCount(driver);
    var samples := Nvml.SamplesFrom(driver, n);
    Nvml.NvmlSamplesIncrease(driver, n);
    hide Nvml.SamplesFrom, Nvml.SampleFrom, Nvml.Addressable, Nvml.DeviceCount;
    FindDeviceSpec(samples, g);
    if NvmlDevice(driver, g).Some? {
      AddressableIsSampled(driver, n, g);
      Nvml.SampleFromIndex(driver.device(g), g);
      FindDeviceAmong(samples, Nvml.SampleFrom(driver.device(g), g));
    } else if FindDevice(samples, g).Some? {
      Nvml.SampledDevice(driver, n, FindDevice(samples, g).value);
    }
  }

  /** The row a call keeps for index `g`. */
  function RowOf(rows: seq<NvidiaSmi.Row>, g: nat): Option<NvidiaSmi.Row> {
    NvidiaSmi.Lookup(FirstPerIndex(rows, NvidiaSmi.RowIndex), g)
  }

  lemma KeptRowIsListed(core: seq<NvidiaSmi.Row>, g: nat)
    ensures RowOf(core, g).Some? ==> (g, RowOf(core, g).value) in ByIndex(core, NvidiaSmi.RowIndex)
    ensures RowOf(core, g).None? ==> forall row <- core :: NvidiaSmi.RowIndex(row) != Some(g)
  {
    var kept := FirstPerIndex(core, NvidiaSmi.RowIndex);
    NvidiaSmi.LookupFinds(kept, g);
    FirstPerIndexSpec(core, NvidiaSmi.RowIndex);
    ByIndexSpec(core, NvidiaSmi.RowIndex);
    hide FirstPerIndex, ByIndex, NvidiaSmi.RowIndex, NvidiaSmi.Lookup;
    forall row | row in core && RowOf(core, g).None? ensures NvidiaSmi.RowIndex(row) != Some(g) {
      var p :| 0 <= p < |core| && core[p] == row;
    }
  }

  lemma SmiFinds(core: seq<NvidiaSmi.Row>, throttle: seq<NvidiaSmi.Row>, g: nat)
    ensures FindDevice(NvidiaSmi.SamplesOf(core, throttle), g) ==
      match RowOf(core, g) case Some(row) => Some(NvidiaSmi.SampleOf((g, row), RowOf(throttle, g))) case None => None
  {
    var samples := NvidiaSmi.SamplesOf(core, throttle);
    NvidiaSmi.SamplesIncrease(core, throttle);
    FindDeviceSpec(samples, g);
    KeptRowIsListed(core, g);
    NvidiaSmi.SampledIffPresent(core, throttle, g);
    hide ByIndex, FirstPerIndex, NvidiaSmi.RowIndex, NvidiaSmi.Lookup, NvidiaSmi.SampleOf;
    if RowOf(core, g).Some? {
      var entries := ByIndex(core, NvidiaSmi.RowIndex);
      var k :| 0 <= k < |entries| && entries[k] == (g, RowOf(core, g).value);
      assert samples[k] == NvidiaSmi.SampleOf(entries[k], RowOf(throttle, g)) && samples[k] in samples;
      NvidiaSmi.SampleIndex(entries[k], RowOf(throttle, g));
      FindDeviceAmong(samples, samples[k]);
    }
  }

  // ---- Whole runs ----

  /** What driver and command answer at one moment. */
  datatype Moment = Moment(at: real, driver: Nvml.Driver, core: seq<NvidiaSmi.Row>, throttle: seq<NvidiaSmi.Row>)

  /** Both backends see device `g` at this moment and report it alike, or neither sees it. */
  ghost predicate SameMachine(m: Moment, g: nat) {
    match (NvmlDevice(m.driver, g), RowOf(m.core, g))
    case (Some(d), Some(row)) => SameDevice(d, row, RowOf(m.throttle, g))
    case (None, None) => true
    case _ => false
  }

  /** Device `g` is there, and supports only reasons without a name. */
  predicate UnknownBitsAt(m: Moment, g: nat) {
    match NvmlDevice(m.driver, g)
    case Some(d) => OnlyUnknownBits(Supported(d), Current(d))
    case None => false
  }

  ghost predicate ThroughNvml(run: seq<Moment>, a: seq<Snapshot>) {
    |a| == |run| && forall i | 0 <= i < |run| ::
      a[i].timestamp == run[i].at && a[i].gpus == Nvml.SamplesFrom(run[i].driver, Nvml.DeviceCount(run[i].driver))
  }

  ghost predicate ThroughSmi(run: seq<Moment>, b: seq<Snapshot>) {
    |b| == |run| && forall i | 0 <= i < |run| ::
      b[i].timestamp == run[i].at && b[i].gpus == NvidiaSmi.SamplesOf(run[i].core, run[i].throttle)
  }

  ghost predicate SameRun(run: seq<Moment>, a: seq<Snapshot>, b: seq<Snapshot>, g: nat) {
    ThroughNvml(run, a) && ThroughSmi(run, b) && forall m <- run :: SameMachine(m, g)
  }

  ghost function TwinViews(g: int): (Snapshot, Snapshot) -> bool {
    (x: Snapshot, y: Snapshot) =>
      match (FindDevice(x.gpus, g), FindDevice(y.gpus, g))
      case (Some(s), Some(t)) => Twins(s, t)
      case (None, None) => true
      case _ => false
  }

  ghost predicate SameFlag(x: Snapshot, y: Snapshot, g: int) {
    match (FindDevice(x.gpus, g), FindDevice(y.gpus, g))
    case (Some(s), Some(t)) => s.throttleReasonsAvailable == t.throttleReasonsAvailable
    case _ => true
  }

  lemma MomentTwins(m: Moment, x: Snapshot, y: Snapshot, g: nat)
    requires SameMachine(m, g)
    requires x.gpus == Nvml.SamplesFrom(m.driver, Nvml.DeviceCount(m.driver))
    requires y.gpus == NvidiaSmi.SamplesOf(m.core, m.throttle)
    ensures TwinViews(g)(x, y) && (SameFlag(x, y, g) <==> !UnknownBitsAt(m, g))
  {
    NvmlFinds(m.driver, g);
    SmiFinds(m.core, m.throttle, g);
    hide Nvml.SamplesFrom, NvidiaSmi.SamplesOf, RowOf, NvmlDevice, Nvml.DeviceCount, Nvml.SampleFrom, NvidiaSmi.SampleOf,
      SameDevice, Twins, OnlyUnknownBits;
    if NvmlDevice(m.driver, g).Some? {
      SamplesAreTwins(NvmlDevice(m.driver, g).value, g, RowOf(m.core, g).value, RowOf(m.throttle, g));
    }
  }

  lemma {:induction false} AlignedTwins(a: seq<Snapshot>, b: seq<Snapshot>, g: int)
    requires Aligned(a, b, TwinViews(g))
    ensures AllTwins(DeviceSamples(a, g), DeviceSamples(b, g))
    ensures SameAvailability(DeviceSamples(a, g), DeviceSamples(b, g)) <==> SameFlags(a, b, g)
  {
    if a != [] {
      assert TwinViews(g)(a[0], b[0]);
      AlignedTwins(a[1..], b[1..], g);
      hide Twins;
      var s, t := DeviceSamples(a[1..], g), DeviceSamples(b[1..], g);
      SameFlagsStep(a, b, g);
      var u, v := PickDevice(g)(a[0]), PickDevice(g)(b[0]);
      assert DeviceSamples(a, g) == u + s && DeviceSamples(b, g) == v + t;
      if FindDevice(a[0].gpus, g).Some? {
        assert u == [FindDevice(a[0].gpus, g).value] && v == [FindDevice(b[0].gpus, g).value];
        OneMoreTwin(u[0], s, v[0], t);
      } else {
        assert u + s == s && v + t == t;
      }
    }
  }

  ghost predicate SameFlags(a: seq<Snapshot>, b: seq<Snapshot>, g: int)
    requires |a| == |b|
  {
    forall i | 0 <= i < |a| :: SameFlag(a[i], b[i], g)
  }

  lemma SameFlagsStep(a: seq<Snapshot>, b: seq<Snapshot>, g: int)
    requires |a| == |b| && a != []
    ensures SameFlags(a, b, g) <==> SameFlag(a[0], b[0], g) && SameFlags(a[1..], b[1..], g)
  {
    hide SameFlag;
    assert forall i | 1 <= i < |a| :: a[i] == a[1..][i - 1] && b[i] == b[1..][i - 1];
  }

  lemma OneMoreTwin(x: GpuSample, s: seq<GpuSample>, y: GpuSample, t: seq<GpuSample>)
    requires Twins(x, y) && AllTwins(s, t)
    ensures AllTwins([x] + s, [y] + t)
    ensures SameAvailability([x] + s, [y] + t) <==>
      x.throttleReasonsAvailable == y.throttleReasonsAvailable && SameAvailability(s, t)
  {
    hide Twins;
    var a, b := [x] + s, [y] + t;
    assert a[0] == x && b[0] == y;
    assert forall i | 0 <= i < |s| :: a[i + 1] == s[i] && b[i + 1] == t[i];
  }

  /** Sorting moves the samples of both recordings alike, so availability differs after it iff it did before. */
  lemma SortedAvailability(a: seq<Snapshot>, b: seq<Snapshot>, g: int)
    requires Aligned(a, b, TwinViews(g))
    ensures var s, t := DeviceSamples(Chronological(a), g), DeviceSamples(Chronological(b), g);
      && AllTwins(s, t)
      && (SameAvailability(s, t) <==> SameAvailability(DeviceSamples(a, g), DeviceSamples(b, g)))
  {
    SortKeepsAlignment(a, b, TwinViews(g));
    AlignedTwins(a, b, g);
    AlignedTwins(Chronological(a), Chronological(b), g);
    TwinCounts(DeviceSamples(a, g), DeviceSamples(b, g));
    TwinCounts(DeviceSamples(Chronological(a), g), DeviceSamples(Chronological(b), g));
    ReportedCountPermutes(a, g);
    ReportedCountPermutes(b, g);
    hide Reported, DeviceSamples, Chronological, AllTwins, SameAvailability;
  }

  lemma ReportedCountPermutes(a: seq<Snapshot>, g: int)
    ensures |Reported(DeviceSamples(Chronological(a), g))| == |Reported(DeviceSamples(a, g))|
  {
    Sorting.StableSortPermutes(a, NoLater);
    CollectPermutes(Chronological(a), a, PickDevice(g));
    CollectPermutes(DeviceSamples(Chronological(a), g), DeviceSamples(a, g), KeepReported());
    assert |multiset(Reported(DeviceSamples(Chronological(a), g)))| == |multiset(Reported(DeviceSamples(a, g)))|;
  }

  lemma RunTwins(run: seq<Moment>, a: seq<Snapshot>, b: seq<Snapshot>, g: nat)
    requires SameRun(run, a, b, g)
    ensures Aligned(a, b, TwinViews(g))
    ensures SameFlags(a, b, g) <==> forall m <- run :: !UnknownBitsAt(m, g)
  {
    forall i | 0 <= i < |run|
      ensures a[i].timestamp == b[i].timestamp && TwinViews(g)(a[i], b[i])
      ensures SameFlag(a[i], b[i], g) <==> !UnknownBitsAt(run[i], g)
    {
      assert run[i] in run;
      MomentTwins(run[i], a[i], b[i], g);
    }
    hide SameFlag, UnknownBitsAt, TwinViews;
    if SameFlags(a, b, g) {
      forall m | m in run ensures !UnknownBitsAt(m, g) {
        var i :| 0 <= i < |run| && run[i] == m;
        assert SameFlag(a[i], b[i], g);
      }
    }
    if forall m <- run :: !UnknownBitsAt(m, g) {
      forall i | 0 <= i < |a| ensures SameFlag(a[i], b[i], g) {
        assert run[i] in run;
      }
    }
  }

  /**
   * A machine recorded through either backend: whatever the masks, the two windows reach the same state.
   * Their whole verdicts differ exactly if some mask of the run has only unknown bits and either a reason
   * was active or the driver's constant availability is what rules throttling out.
   */
  lemma WindowsTellBackendsApartIff(run: seq<Moment>, a: seq<Snapshot>, b: seq<Snapshot>, g: nat)
    requires SameRun(run, a, b, g)
    ensures var v, w := ReportOn(Chronological(a), g).verdict, ReportOn(Chronological(b), g).verdict;
      && v.state == w.state
      && (v != w <==>
          (exists m <- run :: UnknownBitsAt(m, g)) && AvailabilityMatters(DeviceSamples(Chronological(a), g)))
  {
    RunTwins(run, a, b, g);
    hide *;
    AlignedTwins(a, b, g);
    SortedAvailability(a, b, g);
    var s, t := DeviceSamples(Chronological(a), g), DeviceSamples(Chronological(b), g);
    TwinsGetTheSameVerdictIff(s, t, g);
    VerdictOfReport(Chronological(a), g);
    VerdictOfReport(Chronological(b), g);
  }

  /** Without a mask of unknown bits only, the windows cannot tell which backend recorded the run. */
  lemma WindowsCannotTellBackendsApart(run: seq<Moment>, a: seq<Snapshot>, b: seq<Snapshot>, g: nat)
    requires SameRun(run, a, b, g)
    requires forall m <- run :: !UnknownBitsAt(m, g)
    ensures ReportOn(Chronological(a), g).verdict == ReportOn(Chronological(b), g).verdict
  {
    hide *;
    WindowsTellBackendsApartIff(run, a, b, g);
  }

  // ---- A mask of unknown bits ----

  const INDEX_ZERO := NvidiaSmi.Text("0", Some(0), NvidiaSmi.Finite(0.0), SaysNothing)

  /** One device that reports a steady clock, and supports only the ninth throttle bit. */
  const NINTH_BIT_DEVICE := Nvml.Device(
    Ok(Some(())), Raised, Raised, Ok(Some(256)), Ok(Some(0)), Raised, Raised, Raised, Raised, Raised, Ok(Nvml.Number(1000.0)), Raised)

  const CLOCK_ROW: NvidiaSmi.Row := map[
    NvidiaSmi.IndexColumn := INDEX_ZERO,
    NvidiaSmi.FieldColumn(CoreClockMhz) := NvidiaSmi.Text("1000", Some(1000), NvidiaSmi.Finite(1000.0), SaysNothing)]

  const SILENT_ROW: NvidiaSmi.Row :=
    map[NvidiaSmi.IndexColumn := INDEX_ZERO] + map r | r in SMI_COLUMNS :: NvidiaSmi.ThrottleColumn(r) := NvidiaSmi.Marker

  function NinthBitMoment(at: real): Moment {
    Moment(at, Nvml.Driver(Nvml.Loaded, Nvml.InitOk, Ok(Some(1)), i => NINTH_BIT_DEVICE), [CLOCK_ROW], [SILENT_ROW])
  }

  lemma NinthBitReading(f: GpuField)
    ensures Nvml.ReadingsFrom(NINTH_BIT_DEVICE).Get(f) == NvidiaSmi.FieldValue(CLOCK_ROW, f)
    ensures Nvml.ReadingsFrom(NINTH_BIT_DEVICE).Get(f) == if f == CoreClockMhz then Num(1000.0) else Unsupported
  {
  }

  lemma NinthBitMasks()
    ensures Supported(NINTH_BIT_DEVICE) == Some(256) && Current(NINTH_BIT_DEVICE) == Some(0)
    ensures OnlyUnknownBits(Some(256), Some(0))
  {
  }

  lemma NinthBitDevice(at: real)
    ensures NvmlDevice(NinthBitMoment(at).driver, 0) == Some(NINTH_BIT_DEVICE)
    ensures NinthBitMoment(at).core == [CLOCK_ROW] && NinthBitMoment(at).throttle == [SILENT_ROW]
    ensures NinthBitMoment(at).at == at
  {
    var d := NINTH_BIT_DEVICE;
    assert Nvml.Addressable(d);
  }

  lemma NinthBitRows()
    ensures RowOf([CLOCK_ROW], 0) == Some(CLOCK_ROW) && RowOf([SILENT_ROW], 0) == Some(SILENT_ROW)
  {
    SingleRow(CLOCK_ROW);
    SingleRow(SILENT_ROW);
  }

  lemma NinthBitIsSameMachine(at: real)
    ensures SameMachine(NinthBitMoment(at), 0) && UnknownBitsAt(NinthBitMoment(at), 0)
  {
    hide *;
    hide NinthBitMoment, NINTH_BIT_DEVICE, CLOCK_ROW, SILENT_ROW;
    NinthBitDevice(at);
    NinthBitRows();
    NinthBitMasks();
    NinthBitCells();
    forall f ensures Nvml.ReadingsFrom(NINTH_BIT_DEVICE).Get(f) == NvidiaSmi.FieldValue(CLOCK_ROW, f) {
      NinthBitReading(f);
    }
    SameDeviceSeen(NinthBitMoment(at), NINTH_BIT_DEVICE, CLOCK_ROW, SILENT_ROW);
  }

  lemma SameDeviceSeen(m: Moment, d: Nvml.Device, row: NvidiaSmi.Row, cells: NvidiaSmi.Row)
    requires NvmlDevice(m.driver, 0) == Some(d) && RowOf(m.core, 0) == Some(row) && RowOf(m.throttle, 0) == Some(cells)
    requires Supported(d) == Some(256) && Current(d) == Some(0) && Mirrors(States(Some(cells)), 256, 0)
    requires forall f :: Nvml.ReadingsFrom(d).Get(f) == NvidiaSmi.FieldValue(row, f)
    ensures SameMachine(m, 0) && UnknownBitsAt(m, 0)
  {
    hide NvmlDevice, RowOf, Mirrors, States, Nvml.ReadingsFrom, NvidiaSmi.FieldValue, Supported, Current;
  }

  lemma SingleRow(row: NvidiaSmi.Row)
    requires NvidiaSmi.RowIndex(row) == Some(0)
    ensures RowOf([row], 0) == Some(row)
  {
    hide NvidiaSmi.RowIndex;
    assert [row][..0] == [];
    assert FirstPerIndex([row], NvidiaSmi.RowIndex) == [(0, row)];
  }

  lemma NinthBitCells()
    ensures Mirrors(States(Some(SILENT_ROW)), 256, 0)
  {
    LowByte(256);
    forall r | r in SMI_COLUMNS ensures !HasBit(256, BitOf(r)) && States(Some(SILENT_ROW))(r).SaysNothing? && BitOf(r) > 0 {
      KnownColumns(r);
    }
    hide HasBit, BitOf, States;
  }

  lemma NinthBitSamples()
    ensures var x, y := Nvml.SampleFrom(NINTH_BIT_DEVICE, 0), NvidiaSmi.SampleOf((0, CLOCK_ROW), Some(SILENT_ROW));
      && Clock(x) == Num(1000.0) && Clock(y) == Num(1000.0)
      && x.throttleReasons == [] && x.throttleReasonsAvailable
      && y.throttleReasons == [] && !y.throttleReasonsAvailable
  {
    NinthBitReading(CoreClockMhz);
    hide *;
    hide NINTH_BIT_DEVICE, CLOCK_ROW, SILENT_ROW;
    NinthBitMasks();
    NinthBitCells();
    NinthBitReports(States(Some(SILENT_ROW)));
    ThrottlingOfStates(Some(SILENT_ROW));
    SampleParts(NINTH_BIT_DEVICE, 0, CLOCK_ROW, Some(SILENT_ROW));
    ClockIsAReading(Nvml.SampleFrom(NINTH_BIT_DEVICE, 0));
    ClockIsAReading(NvidiaSmi.SampleOf((0, CLOCK_ROW), Some(SILENT_ROW)));
    assert Tabulate(f => NvidiaSmi.FieldValue(CLOCK_ROW, f)).Get(CoreClockMhz) == NvidiaSmi.FieldValue(CLOCK_ROW, CoreClockMhz);
  }

  lemma ClockIsAReading(x: GpuSample)
    ensures Clock(x) == x.readings.Get(CoreClockMhz)
  {
  }

  lemma NinthBitReports(states: ThrottleReason -> CellState)
    requires Mirrors(states, 256, 0)
    ensures FromMasks(Some(256), Some(0)) == ThrottleReport([], true)
    ensures FromCells(states).reasons == [] && !FromCells(states).available
  {
    BackendsAgreeOnThrottling(states, Some(256), Some(0));
    HasMember(FromCells(states).reasons);
    hide FromMasks, FromCells, Mirrors;
  }

  lemma TwiceCounted(x: GpuSample)
    ensures |Clocked([x, x])| == if Clock(x).Num? then 2 else 0
    ensures |Reported([x, x])| == if x.throttleReasonsAvailable then 2 else 0
  {
    assert [x, x] == [x] + [x];
    CollectAppend([x], [x], KeepClocked());
    CollectAppend([x], [x], KeepReported());
    assert Collect([x], KeepClocked()) == KeepClocked()(x) + Collect([], KeepClocked());
    assert Collect([x], KeepReported()) == KeepReported()(x) + Collect([], KeepReported());
  }

  lemma TwiceTheSame(x: GpuSample, g: int)
    requires Clock(x) == Num(1000.0) && x.throttleReasons == []
    ensures Verdict([x, x], g) ==
      if x.throttleReasonsAvailable then ThrottleVerdict(g, NotSuspected, DriverReportedNoThrottling, 0.95, 2)
      else ThrottleVerdict(g, NotSuspected, NoSubstantialClockDrop, 0.6, 2)
  {
    var s := [x, x];
    TwiceCounted(x);
    assert ActiveReasons(s) == {};
    assert FirstDrop(s, 0).None?;
    hide Clocked, Reported, ActiveReasons, FirstDrop;
  }

  lemma TwoInOrder(a: seq<Snapshot>, g: int, x: GpuSample)
    requires |a| == 2 && a[0].timestamp <= a[1].timestamp
    requires FindDevice(a[0].gpus, g) == Some(x) && FindDevice(a[1].gpus, g) == Some(x)
    ensures DeviceSamples(Chronological(a), g) == [x, x]
  {
    assert a[1..] == [a[1]] && a[1..][1..] == [];
    assert Sorting.StableSort(a[1..], NoLater) == [a[1]];
    assert Chronological(a) == [a[0]] + [a[1]] == a;
    assert DeviceSamples(a[1..], g) == [x] + DeviceSamples([], g);
  }

  lemma NinthBitFound(at: real)
    ensures var m := NinthBitMoment(at);
      && FindDevice(Nvml.SamplesFrom(m.driver, Nvml.DeviceCount(m.driver)), 0) == Some(Nvml.SampleFrom(NINTH_BIT_DEVICE, 0))
      && FindDevice(NvidiaSmi.SamplesOf(m.core, m.throttle), 0) ==
        Some(NvidiaSmi.SampleOf((0, CLOCK_ROW), Some(SILENT_ROW)))
  {
    hide *;
    hide NINTH_BIT_DEVICE, CLOCK_ROW, SILENT_ROW;
    NinthBitDevice(at);
    NinthBitRows();
    NvmlFinds(NinthBitMoment(at).driver, 0);
    SmiFinds(NinthBitMoment(at).core, NinthBitMoment(at).throttle, 0);
  }

  /** The failing input: NVML's window is sure that nothing throttled, the command's window only found no drop. */
  lemma UnknownBitsAreSeenDifferently(a: seq<Snapshot>, b: seq<Snapshot>)
    requires ThroughNvml([NinthBitMoment(0.0), NinthBitMoment(1.0)], a)
    requires ThroughSmi([NinthBitMoment(0.0), NinthBitMoment(1.0)], b)
    ensures SameRun([NinthBitMoment(0.0), NinthBitMoment(1.0)], a, b, 0)
    ensures ReportOn(Chronological(a), 0).verdict == ThrottleVerdict(0, NotSuspected, DriverReportedNoThrottling, 0.95, 2)
    ensures ReportOn(Chronological(b), 0).verdict == ThrottleVerdict(0, NotSuspected, NoSubstantialClockDrop, 0.6, 2)
  {
    hide Nvml.SampleFrom, NvidiaSmi.SampleOf, Nvml.SamplesFrom, NvidiaSmi.SamplesOf, Nvml.DeviceCount, SameMachine,
      NinthBitMoment, FindDevice, Chronological, ReportOn, DeviceSamples, Verdict;
    hide NINTH_BIT_DEVICE, CLOCK_ROW, SILENT_ROW;
    var run := [NinthBitMoment(0.0), NinthBitMoment(1.0)];
    NinthBitDevice(0.0);
    NinthBitDevice(1.0);
    NinthBitIsSameMachine(0.0);
    NinthBitIsSameMachine(1.0);
    assert SameRun(run, a, b, 0);
    assert a[0].timestamp == b[0].timestamp == run[0].at && a[1].timestamp == b[1].timestamp == run[1].at;
    NinthBitFound(0.0);
    NinthBitFound(1.0);
    hide *;
    hide NINTH_BIT_DEVICE, CLOCK_ROW, SILENT_ROW;
    var x, y := Nvml.SampleFrom(NINTH_BIT_DEVICE, 0), NvidiaSmi.SampleOf((0, CLOCK_ROW), Some(SILENT_ROW));
    TwoInOrder(a, 0, x);
    TwoInOrder(b, 0, y);
    NinthBitSamples();
    TwiceTheSame(x, 0);
    TwiceTheSame(y, 0);
    VerdictOfReport(Chronological(a), 0);
    VerdictOfReport(Chronological(b), 0);
  }
}
