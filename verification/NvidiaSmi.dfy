/** The command backend: rows keyed by column name, joined by device index, every gap explained. */
module NvidiaSmi {
  import opened Telemetry
  import opened Collecting
  import opened Sorting
  import opened Indexing
  import opened Throttle

  const MIB_BYTES := 1048576.0

  type NonBlank = s: string | s != "" witness "x"

  /** What float() makes of a cell. */
  datatype ParsedFloat = NotAFloat | NotFinite | Finite(value: real)

  /** A stripped cell: one of the unavailable markers, or text with what int(), float() and casefold() make of it. */
  datatype Cell =
    | Marker
    | Text(text: NonBlank, asInt: Option<int>, asFloat: ParsedFloat, state: CellState)

  datatype Column = IndexColumn | UuidColumn | FieldColumn(field: GpuField) | ThrottleColumn(reason: ThrottleReason)

  type Row = map<Column, Cell>

  // ---- Rows by name ----

  /** dict(zip(columns, cells, strict=False)). */
  function Zip(columns: seq<Column>, cells: seq<Cell>): Row {
    if columns == [] || cells == [] then map[]
    else
      var rest := Zip(columns[1..], cells[1..]);
      if columns[0] in rest then rest else rest[columns[0] := cells[0]]
  }

  ghost predicate Distinct(columns: seq<Column>) {
    forall i, j :: 0 <= i < j < |columns| ==> columns[i] != columns[j]
  }

  /** Some position holds the column's name and this cell. */
  ghost predicate Holds(columns: seq<Column>, cells: seq<Cell>, c: Column, v: Cell) {
    exists i :: 0 <= i < |columns| && i < |cells| && columns[i] == c && cells[i] == v
  }

  lemma HoldsStep(columns: seq<Column>, cells: seq<Cell>, c: Column, v: Cell)
    requires columns != [] && cells != []
    ensures Holds(columns, cells, c, v) <==> (c == columns[0] && v == cells[0]) || Holds(columns[1..], cells[1..], c, v)
  {
    if Holds(columns, cells, c, v) {
      var i :| 0 <= i < |columns| && i < |cells| && columns[i] == c && cells[i] == v;
      if i > 0 {
        assert columns[1..][i - 1] == c && cells[1..][i - 1] == v;
      }
    }
    if Holds(columns[1..], cells[1..], c, v) {
      var i :| 0 <= i < |columns[1..]| && i < |cells[1..]| && columns[1..][i] == c && cells[1..][i] == v;
      assert columns[i + 1] == c && cells[i + 1] == v;
    }
  }

  /** A cell is found under the name of its own column; a short row lacks its trailing names. */
  lemma {:induction false} ZipByName(columns: seq<Column>, cells: seq<Cell>, c: Column, v: Cell)
    requires Distinct(columns)
    ensures (c in Zip(columns, cells) && Zip(columns, cells)[c] == v) <==> Holds(columns, cells, c, v)
  {
    if columns != [] && cells != [] {
      var rest := Zip(columns[1..], cells[1..]);
      ZipByName(columns[1..], cells[1..], c, v);
      HoldsStep(columns, cells, c, v);
      forall i | 0 <= i < |columns[1..]| ensures columns[1..][i] != columns[0] {
        assert columns[1..][i] == columns[i + 1];
      }
      if columns[0] in rest {
        ZipByName(columns[1..], cells[1..], columns[0], rest[columns[0]]);
      }
    }
  }

  /** Asking for the columns in another order gives the same row. */
  lemma QueryOrderIsIrrelevant(columns: seq<Column>, cells: seq<Cell>, columns': seq<Column>, cells': seq<Cell>)
    requires Distinct(columns) && Distinct(columns')
    requires forall c, v :: Holds(columns, cells, c, v) <==> Holds(columns', cells', c, v)
    ensures Zip(columns, cells) == Zip(columns', cells')
  {
    var a, b := Zip(columns, cells), Zip(columns', cells');
    forall c | c in a ensures c in b && b[c] == a[c] {
      ZipByName(columns, cells, c, a[c]);
      ZipByName(columns', cells', c, a[c]);
    }
    forall c | c in b ensures c in a {
      ZipByName(columns, cells, c, b[c]);
      ZipByName(columns', cells', c, b[c]);
    }
  }

  // ---- What a row says ----

  function RowIndex(row: Row): Option<nat> {
    if IndexColumn in row && row[IndexColumn].Text? && row[IndexColumn].asInt.Some? && row[IndexColumn].asInt.value >= 0
    then Some(row[IndexColumn].asInt.value)
    else None
  }

  predicate AtMost100(f: GpuField) {
    f.UtilizationPercent? || f.MemoryUtilizationPercent? || f.FanPercent?
  }

  predicate InMib(f: GpuField) {
    f.VramUsedBytes? || f.VramTotalBytes?
  }

  /** Why a measurement is missing, if it is. */
  function WhyMissing(row: Row, f: GpuField): Option<Reason> {
    if FieldColumn(f) !in row then Some(FieldMissing)
    else
      match row[FieldColumn(f)]
      case Marker => Some(SensorUnsupported)
      case Text(_, _, number, _) =>
        match number
        case NotAFloat => Some(MalformedValue)
        case NotFinite => Some(OutOfRange)
        case Finite(v) => if v < 0.0 || (AtMost100(f) && v > 100.0) then Some(OutOfRange) else None
  }

  function FieldValue(row: Row, f: GpuField): Measurement {
    if WhyMissing(row, f).Some? then Unsupported
    else
      var v := row[FieldColumn(f)].asFloat.value;
      Num(if InMib(f) then (v * MIB_BYTES).Floor as real else v)
  }

  function UuidOf(row: Row): Option<string> {
    if UuidColumn in row && row[UuidColumn].Text? then Some(row[UuidColumn].text) else None
  }

  function StateOf(row: Row): ThrottleReason -> CellState {
    (r: ThrottleReason) =>
      if ThrottleColumn(r) in row && row[ThrottleColumn(r)].Text? then row[ThrottleColumn(r)].state else SaysNothing
  }

  function Lookup(entries: seq<(nat, Row)>, i: nat): Option<Row> {
    if entries == [] then None
    else if entries[0].0 == i then Some(entries[0].1)
    else Lookup(entries[1..], i)
  }

  function ThrottlingOf(row: Option<Row>): ThrottleReport {
    match row
    case None => ThrottleReport([], false)
    case Some(cells) => FromCells(StateOf(cells))
  }

  function SampleOf(entry: (nat, Row), throttle: Option<Row>): GpuSample {
    var report := ThrottlingOf(throttle);
    GpuSample(entry.0, UuidOf(entry.1), Tabulate(f => FieldValue(entry.1, f)), report.reasons, report.available)
  }

  /** Core entries, each joined with the throttle row of its index. */
  function Join(entries: seq<(nat, Row)>, reports: seq<(nat, Row)>): seq<GpuSample> {
    seq(|entries|, k requires 0 <= k < |entries| => SampleOf(entries[k], Lookup(reports, entries[k].0)))
  }

  /** The samples of one call: the core rows in index order, each joined with its throttle row. */
  function SamplesOf(core: seq<Row>, throttle: seq<Row>): seq<GpuSample> {
    Join(ByIndex(core, RowIndex), FirstPerIndex(throttle, RowIndex))
  }

  // ---- Order of the rows ----

  lemma {:induction false} LookupFinds(entries: seq<(nat, Row)>, i: nat)
    ensures Lookup(entries, i).None? <==> !HasIndex(entries, i)
    ensures Lookup(entries, i).Some? ==> (i, Lookup(entries, i).value) in entries
  {
    if entries != [] && entries[0].0 != i {
      LookupFinds(entries[1..], i);
      if HasIndex(entries[1..], i) {
        var k :| 0 <= k < |entries[1..]| && entries[1..][k].0 == i;
        assert entries[k + 1].0 == i;
      }
      if HasIndex(entries, i) {
        var k :| 0 <= k < |entries| && entries[k].0 == i;
        assert entries[1..][k - 1].0 == i;
      }
    }
  }

  /** The row kept for an index is the row of that index. */
  lemma LookupIsTheRow(rows: seq<Row>, i: nat, row: Row)
    requires IndexDecides(rows, RowIndex)
    ensures Lookup(FirstPerIndex(rows, RowIndex), i) == Some(row) <==> row in rows && RowIndex(row) == Some(i)
  {
    var entries := FirstPerIndex(rows, RowIndex);
    FirstPerIndexSpec(rows, RowIndex);
    LookupFinds(entries, i);
    if Lookup(entries, i) == Some(row) {
      assert IsFirst(rows, RowIndex, i, row);
    }
    if row in rows && RowIndex(row) == Some(i) {
      var p :| 0 <= p < |rows| && rows[p] == row;
      assert HasIndex(entries, i);
      var kept := Lookup(entries, i).value;
      assert IsFirst(rows, RowIndex, i, kept);
    }
  }

  lemma LookupIgnoresOrder(a: seq<Row>, b: seq<Row>, i: nat)
    requires IndexDecides(a, RowIndex) && forall x :: x in a <==> x in b
    ensures Lookup(FirstPerIndex(a, RowIndex), i) == Lookup(FirstPerIndex(b, RowIndex), i)
  {
    var x, y := Lookup(FirstPerIndex(a, RowIndex), i), Lookup(FirstPerIndex(b, RowIndex), i);
    if x.Some? {
      LookupIsTheRow(a, i, x.value);
      LookupIsTheRow(b, i, x.value);
    }
    if y.Some? {
      LookupIsTheRow(a, i, y.value);
      LookupIsTheRow(b, i, y.value);
    }
  }

  /** The samples do not depend on the order of the rows in either query. */
  lemma RowOrderIsIrrelevant(core: seq<Row>, core': seq<Row>, throttle: seq<Row>, throttle': seq<Row>)
    requires IndexDecides(core, RowIndex) && IndexDecides(throttle, RowIndex)
    requires (forall x :: x in core <==> x in core') && (forall x :: x in throttle <==> x in throttle')
    ensures SamplesOf(core, throttle) == SamplesOf(core', throttle')
  {
    ListingIgnoresOrder(core, core', RowIndex);
    hide ByIndex, FirstPerIndex, SampleOf, Lookup, IndexDecides;
    forall i: nat ensures Lookup(FirstPerIndex(throttle, RowIndex), i) == Lookup(FirstPerIndex(throttle', RowIndex), i) {
      LookupIgnoresOrder(throttle, throttle', i);
    }
  }

  /** One sample per device, strictly increasing by index. */
  lemma SamplesIncrease(core: seq<Row>, throttle: seq<Row>)
    ensures var samples := SamplesOf(core, throttle);
      forall i, j :: 0 <= i < j < |samples| ==> samples[i].index < samples[j].index
  {
    ByIndexSpec(core, RowIndex);
    hide ByIndex, RowIndex, Lookup, ThrottlingOf, FieldValue, FirstPerIndex;
  }

  /** A listing has an index exactly when some row carries it. */
  lemma ListedIffPresent(core: seq<Row>, g: nat)
    ensures HasIndex(ByIndex(core, RowIndex), g) <==> exists row <- core :: RowIndex(row) == Some(g)
  {
    var entries := ByIndex(core, RowIndex);
    ByIndexSpec(core, RowIndex);
    FirstPerIndexSpec(core, RowIndex);
    hide ByIndex, RowIndex, FirstPerIndex;
    if HasIndex(entries, g) {
      var k :| 0 <= k < |entries| && entries[k].0 == g;
      assert entries[k] in entries && IsFirst(core, RowIndex, g, entries[k].1);
    }
    if row :| row in core && RowIndex(row) == Some(g) {
      var p :| 0 <= p < |core| && core[p] == row;
      var e :| e in FirstPerIndex(core, RowIndex) && e.0 == g;
      assert e in entries;
    }
  }

  lemma JoinKeepsIndexes(entries: seq<(nat, Row)>, reports: seq<(nat, Row)>, g: nat)
    ensures (exists s <- Join(entries, reports) :: s.index == g) <==> HasIndex(entries, g)
  {
    var samples := Join(entries, reports);
    forall k | 0 <= k < |entries| ensures samples[k].index == entries[k].0 {
      SampleIndex(entries[k], Lookup(reports, entries[k].0));
    }
    hide SampleOf, Lookup;
    if HasIndex(entries, g) {
      var k :| 0 <= k < |entries| && entries[k].0 == g;
      assert samples[k] in samples;
    }
  }

  /** A device has a sample exactly when some core row carries its index. */
  lemma SampledIffPresent(core: seq<Row>, throttle: seq<Row>, g: nat)
    ensures (exists s <- SamplesOf(core, throttle) :: s.index == g) <==> (exists row <- core :: RowIndex(row) == Some(g))
  {
    ListedIffPresent(core, g);
    hide HasIndex, RowIndex, Join, ByIndex, FirstPerIndex;
    JoinKeepsIndexes(ByIndex(core, RowIndex), FirstPerIndex(throttle, RowIndex), g);
  }

  // ---- What is missing has a reason ----

  /** What a sample lacks. */
  predicate Lacks(s: GpuSample, topic: GpuTopic) {
    match topic
    case Reading(f) => s.readings.Get(f) == Unsupported
    case Uuid => s.uuid.None?
    case Throttling => !s.throttleReasonsAvailable
  }

  /** The diagnostics name exactly what the samples lack. */
  ghost predicate Explains(reasons: Diagnostics, samples: seq<GpuSample>) {
    forall i, topic :: GpuEntry(i, topic) in reasons <==>
      exists m | 0 <= m < |samples| :: samples[m].index == i && Lacks(samples[m], topic)
  }

  lemma ExplainsOneMore(reasons: Diagnostics, samples: seq<GpuSample>, reasons': Diagnostics, sample: GpuSample)
    requires Explains(reasons, samples)
    requires forall k: DiagnosticKey :: k in reasons' <==>
      k in reasons || (k.GpuEntry? && k.index == sample.index && Lacks(sample, k.topic))
    ensures Explains(reasons', samples + [sample])
  {
    var all := samples + [sample];
    hide Lacks;
    forall i, topic
      ensures GpuEntry(i, topic) in reasons' <==> exists m | 0 <= m < |all| :: all[m].index == i && Lacks(all[m], topic)
    {
      var k := GpuEntry(i, topic);
      assert k in reasons' <==> k in reasons || (i == sample.index && Lacks(sample, topic));
      if k in reasons {
        var m :| 0 <= m < |samples| && samples[m].index == i && Lacks(samples[m], topic);
        assert all[m] == samples[m];
      }
      assert all[|samples|] == sample;
      if m :| 0 <= m < |all| && all[m].index == i && Lacks(all[m], topic) {
        assert m < |samples| ==> samples[m] == all[m];
      }
    }
  }

  /** With one sample per index, the diagnostics of a device are decided by its own sample. */
  lemma ExplainsEach(reasons: Diagnostics, samples: seq<GpuSample>, s: GpuSample, topic: GpuTopic)
    requires Explains(reasons, samples) && s in samples
    requires forall i, j :: 0 <= i < j < |samples| ==> samples[i].index < samples[j].index
    ensures GpuEntry(s.index, topic) in reasons <==> Lacks(s, topic)
  {
    hide Lacks;
    var n :| 0 <= n < |samples| && samples[n] == s;
    if m :| 0 <= m < |samples| && samples[m].index == s.index && Lacks(samples[m], topic) {
      assert m == n;
    }
  }

  function Gap(index: nat, f: GpuField, m: Measurement): set<DiagnosticKey> {
    if m == Unsupported then {GpuEntry(index, Reading(f))} else {}
  }

  /** The keys once every unsupported reading has been given a reason. */
  function WithGaps(keys: set<DiagnosticKey>, index: nat, r: Readings<Measurement>): set<DiagnosticKey> {
    keys + Gap(index, UtilizationPercent, r.utilizationPercent) + Gap(index, MemoryUtilizationPercent, r.memoryUtilizationPercent)
    + Gap(index, VramUsedBytes, r.vramUsedBytes) + Gap(index, VramTotalBytes, r.vramTotalBytes)
    + Gap(index, TemperatureC, r.temperatureC) + Gap(index, MemoryTemperatureC, r.memoryTemperatureC)
    + Gap(index, PowerWatts, r.powerWatts) + Gap(index, PowerLimitWatts, r.powerLimitWatts)
    + Gap(index, FanPercent, r.fanPercent) + Gap(index, CoreClockMhz, r.coreClockMhz)
    + Gap(index, MemoryClockMhz, r.memoryClockMhz)
  }

  lemma GapMember(index: nat, f: GpuField, m: Measurement, k: DiagnosticKey)
    ensures k in Gap(index, f, m) <==> k == GpuEntry(index, Reading(f)) && m == Unsupported
  {
  }

  lemma GapsAreTheUnsupported(keys: set<DiagnosticKey>, index: nat, r: Readings<Measurement>, k: DiagnosticKey)
    ensures k in WithGaps(keys, index, r) <==>
      k in keys || (k.GpuEntry? && k.index == index && k.topic.Reading? && r.Get(k.topic.field) == Unsupported)
  {
    hide Gap;
    GapMember(index, UtilizationPercent, r.utilizationPercent, k);
    GapMember(index, MemoryUtilizationPercent, r.memoryUtilizationPercent, k);
    GapMember(index, VramUsedBytes, r.vramUsedBytes, k);
    GapMember(index, VramTotalBytes, r.vramTotalBytes, k);
    GapMember(index, TemperatureC, r.temperatureC, k);
    GapMember(index, MemoryTemperatureC, r.memoryTemperatureC, k);
    GapMember(index, PowerWatts, r.powerWatts, k);
    GapMember(index, PowerLimitWatts, r.powerLimitWatts, k);
    GapMember(index, FanPercent, r.fanPercent, k);
    GapMember(index, CoreClockMhz, r.coreClockMhz, k);
    GapMember(index, MemoryClockMhz, r.memoryClockMhz, k);
  }

  /** A command that failed with a reason code, or parsed rows and a count of rejected lines. */
  datatype Answer = Failed(why: Reason) | Answered(rows: seq<Row>, malformed: nat)

  function RowsOf(answer: Answer): seq<Row> {
    match answer
    case Failed(_) => []
    case Answered(rows, _) => rows
  }

  class NvidiaSmiReader {
    var reasons: Diagnostics

    constructor ()
      ensures reasons == map[]
    {
      reasons := map[];
    }

    method Query(answer: Answer, key: DiagnosticKey) returns (rows: seq<Row>)
      modifies this
      ensures rows == RowsOf(answer)
      ensures reasons == match answer
        case Failed(why) => old(reasons)[key := why]
        case Answered(_, malformed) => if malformed > 0 then SetDefault(old(reasons), key, MalformedCsv) else old(reasons)
    {
      match answer
      case Failed(why) =>
        reasons := reasons[key := why];
        rows := [];
      case Answered(parsed, malformed) =>
        if malformed > 0 {
          reasons := SetDefault(reasons, key, MalformedCsv);
        }
        rows := parsed;
    }

    /** The first row of every index; every other row is rejected with a reason. */
    method RowsByIndex(rows: seq<Row>, scope: QueryScope) returns (entries: seq<(nat, Row)>)
      modifies this
      ensures entries == FirstPerIndex(rows, RowIndex)
      ensures RowsExplained(rows, |rows|, scope, old(reasons), reasons)
    {
      entries := [];
      for n := 0 to |rows|
        invariant entries == FirstPerIndex(rows[..n], RowIndex)
        invariant RowsExplained(rows, n, scope, old(reasons), reasons)
      {
        assert rows[..n + 1][..n] == rows[..n] && rows[..n + 1][n] == rows[n];
        var index := RowIndex(rows[n]);
        if index.None? {
          reasons := reasons[GpuRow(scope, n) := MalformedValue];
        } else if HasIndex(entries, index.value) {
          reasons := reasons[GpuRow(scope, n) := Reason.DuplicateGpuIndex];
        } else {
          entries := entries + [(index.value, rows[n])];
        }
      }
      Whole(rows);
    }

    method OptionalText(row: Row, index: nat) returns (text: Option<string>)
      modifies this
      ensures text == UuidOf(row)
      ensures reasons == if text.Some? then old(reasons)
        else old(reasons)[GpuEntry(index, Uuid) := if UuidColumn in row then SensorUnsupported else FieldMissing]
      ensures reasons.Keys == old(reasons).Keys + if text.None? then {GpuEntry(index, Uuid)} else {}
    {
      if UuidColumn !in row {
        reasons := reasons[GpuEntry(index, Uuid) := FieldMissing];
        return None;
      }
      if row[UuidColumn].Marker? {
        reasons := reasons[GpuEntry(index, Uuid) := SensorUnsupported];
        return None;
      }
      text := Some(row[UuidColumn].text);
    }

    method MeasurementOf(row: Row, index: nat, f: GpuField) returns (m: Measurement)
      modifies this
      ensures m == FieldValue(row, f)
      ensures reasons == match WhyMissing(row, f)
        case Some(why) => old(reasons)[GpuEntry(index, Reading(f)) := why]
        case None => old(reasons)
      ensures reasons.Keys == old(reasons).Keys + Gap(index, f, m)
    {
      if FieldColumn(f) !in row {
        reasons := reasons[GpuEntry(index, Reading(f)) := FieldMissing];
        return Unsupported;
      }
      var cell := row[FieldColumn(f)];
      if cell.Marker? {
        reasons := reasons[GpuEntry(index, Reading(f)) := SensorUnsupported];
        return Unsupported;
      }
      if cell.asFloat.NotAFloat? {
        reasons := reasons[GpuEntry(index, Reading(f)) := MalformedValue];
        return Unsupported;
      }
      if cell.asFloat.NotFinite? || cell.asFloat.value < 0.0 || (AtMost100(f) && cell.asFloat.value > 100.0) {
        reasons := reasons[GpuEntry(index, Reading(f)) := OutOfRange];
        return Unsupported;
      }
      if !InMib(f) {
        return Num(cell.asFloat.value);
      }
      m := Num((cell.asFloat.value * MIB_BYTES).Floor as real);
    }

    method ThrottleReasonsOf(row: Option<Row>, index: nat) returns (report: ThrottleReport)
      modifies this
      ensures report == ThrottlingOf(row)
      ensures reasons == if report.available then old(reasons)
        else old(reasons)[GpuEntry(index, Throttling) := SensorUnsupported]
      ensures reasons.Keys == old(reasons).Keys + if !report.available then {GpuEntry(index, Throttling)} else {}
    {
      if row.None? {
        reasons := reasons[GpuEntry(index, Throttling) := SensorUnsupported];
        return ThrottleReport([], false);
      }
      report := ReadCells(StateOf(row.value));
      if !report.available {
        reasons := reasons[GpuEntry(index, Throttling) := SensorUnsupported];
      }
    }

    method ReadingsOf(row: Row, index: nat) returns (r: Readings<Measurement>)
      modifies this
      ensures r == Tabulate(f => FieldValue(row, f))
      ensures reasons.Keys == WithGaps(old(reasons).Keys, index, r)
    {
      hide FieldValue, Gap;
      var a := MeasurementOf(row, index, UtilizationPercent);
      var b := MeasurementOf(row, index, MemoryUtilizationPercent);
      var c := MeasurementOf(row, index, VramUsedBytes);
      var d := MeasurementOf(row, index, VramTotalBytes);
      var e := MeasurementOf(row, index, TemperatureC);
      var f := MeasurementOf(row, index, MemoryTemperatureC);
      var g := MeasurementOf(row, index, PowerWatts);
      var h := MeasurementOf(row, index, PowerLimitWatts);
      var i := MeasurementOf(row, index, FanPercent);
      var j := MeasurementOf(row, index, CoreClockMhz);
      var l := MeasurementOf(row, index, MemoryClockMhz);
      r := Readings(a, b, c, d, e, f, g, h, i, j, l);
    }

    method SampleFromRow(entry: (nat, Row), throttle: Option<Row>) returns (sample: GpuSample)
      modifies this
      ensures sample == SampleOf(entry, throttle)
      ensures forall k: DiagnosticKey :: k in reasons <==>
        k in old(reasons) || (k.GpuEntry? && k.index == entry.0 && Lacks(sample, k.topic))
    {
      hide ThrottlingOf, UuidOf, FieldValue, WithGaps;
      var report := ThrottleReasonsOf(throttle, entry.0);
      var uuid := OptionalText(entry.1, entry.0);
      ghost var before := reasons.Keys;
      var readings := ReadingsOf(entry.1, entry.0);
      sample := GpuSample(entry.0, uuid, readings, report.reasons, report.available);
      forall k: DiagnosticKey
        ensures k in reasons <==>
          k in before || (k.GpuEntry? && k.index == entry.0 && k.topic.Reading? && readings.Get(k.topic.field) == Unsupported)
      {
        GapsAreTheUnsupported(before, entry.0, readings, k);
      }
    }

    method SampleRows(entries: seq<(nat, Row)>, reports: seq<(nat, Row)>) returns (samples: seq<GpuSample>)
      requires Explains(reasons, [])
      modifies this
      ensures samples == Join(entries, reports) && Explains(reasons, samples)
    {
      hide Lacks, Explains, SampleOf, Lookup;
      samples := [];
      for n := 0 to |entries|
        invariant |samples| == n
        invariant forall m | 0 <= m < n :: samples[m] == SampleOf(entries[m], Lookup(reports, entries[m].0))
        invariant Explains(reasons, samples)
      {
        ghost var before := reasons;
        var sample := SampleFromRow(entries[n], Lookup(reports, entries[n].0));
        SampleIndex(entries[n], Lookup(reports, entries[n].0));
        ExplainsOneMore(before, samples, reasons, sample);
        samples := samples + [sample];
      }
    }

    /** The second query, and the join of its rows with the core entries. */
    method SampleIndexed(entries: seq<(nat, Row)>, throttle: Answer) returns (samples: seq<GpuSample>)
      requires forall i, topic :: GpuEntry(i, topic) !in reasons
      modifies this
      ensures samples == Join(entries, FirstPerIndex(RowsOf(throttle), RowIndex)) && Explains(reasons, samples)
    {
      var throttleRows := Query(throttle, GpuThrottleQuery);
      var reports := RowsByIndex(throttleRows, ThrottleScope);
      samples := SampleRows(entries, reports);
    }

    /** One call: the samples in index order, and a reason for exactly what is missing from them. */
    method Sample(core: Answer, throttle: Answer) returns (samples: seq<GpuSample>)
      modifies this
      ensures samples == SamplesOf(RowsOf(core), RowsOf(throttle))
      ensures forall s, topic | s in samples :: GpuEntry(s.index, topic) in reasons <==> Lacks(s, topic)
      ensures Explains(reasons, samples)
      ensures samples == [] ==> Gpu in reasons
    {
      hide Lacks, Explains, Join, FirstPerIndex, RowIndex, StableSort;
      reasons := map[];
      var rows := Query(core, Gpu);
      var indexed := RowsByIndex(rows, SampleScope);
      if indexed == [] {
        reasons := SetDefault(reasons, Gpu, if reasons == map[] then Reason.NoNvidiaGpus else MalformedCsv);
        NothingIndexed(rows, RowsOf(throttle));
        ExplainsNothing(reasons);
        return [];
      }
      var entries := StableSort(indexed, IndexLe);
      StableSortPermutes(indexed, IndexLe);
      samples := SampleIndexed(entries, throttle);
      JoinLength(entries, FirstPerIndex(RowsOf(throttle), RowIndex));
      assert entries == ByIndex(rows, RowIndex);
      assert samples == SamplesOf(rows, RowsOf(throttle));
      SamplesIncrease(rows, RowsOf(throttle));
      ExplainsAll(reasons, samples);
    }
  }

  lemma NothingIndexed(core: seq<Row>, throttle: seq<Row>)
    requires FirstPerIndex(core, RowIndex) == []
    ensures SamplesOf(core, throttle) == []
  {
    hide FirstPerIndex;
  }

  lemma ExplainsNothing(reasons: Diagnostics)
    requires forall i, topic :: GpuEntry(i, topic) !in reasons
    ensures Explains(reasons, [])
  {
  }

  lemma JoinLength(entries: seq<(nat, Row)>, reports: seq<(nat, Row)>)
    ensures |Join(entries, reports)| == |entries|
  {
  }

  lemma ExplainsAll(reasons: Diagnostics, samples: seq<GpuSample>)
    requires Explains(reasons, samples)
    requires forall i, j :: 0 <= i < j < |samples| ==> samples[i].index < samples[j].index
    ensures forall s, topic | s in samples :: GpuEntry(s.index, topic) in reasons <==> Lacks(s, topic)
  {
    forall s, topic | s in samples ensures GpuEntry(s.index, topic) in reasons <==> Lacks(s, topic) {
      ExplainsEach(reasons, samples, s, topic);
    }
  }

  lemma SampleIndex(entry: (nat, Row), throttle: Option<Row>)
    ensures SampleOf(entry, throttle).index == entry.0
  {
  }

  /** Why row `n` is rejected, unless it is the first of its index. */
  ghost function RowFault(rows: seq<Row>, n: nat): Option<Reason>
    requires n < |rows|
  {
    if RowIndex(rows[n]).None? then Some(MalformedValue)
    else if HasIndex(FirstPerIndex(rows[..n], RowIndex), RowIndex(rows[n]).value) then Some(Reason.DuplicateGpuIndex)
    else None
  }

  /** Each rejected row among the first `n` has its reason; nothing else has changed. */
  ghost predicate RowsExplained(rows: seq<Row>, n: nat, scope: QueryScope, before: Diagnostics, after: Diagnostics)
    requires n <= |rows|
  {
    forall k: DiagnosticKey ::
      if k.GpuRow? && k.scope == scope && k.row < n && RowFault(rows, k.row).Some?
      then k in after && after[k] == RowFault(rows, k.row).value
      else (k in after <==> k in before) && (k in after ==> after[k] == before[k])
  }
}
