/** Linux delta readers: cumulative kernel counters turned into CPU utilization and disk rates. */
module LinuxCounters {
  import opened Telemetry
  import opened Collecting

  /** A whitespace-separated field of a /proc line, with what int() makes of it. */
  datatype Token = Token(text: string, number: Option<int>)

  type Line = seq<Token>

  const PROC_STAT_MIN_FIELDS := 5
  const DISKSTATS_NAME_INDEX := 2
  const DISKSTATS_MIN_FIELDS := 10
  const DISKSTATS_READ_SECTORS_INDEX := 5
  const DISKSTATS_WRITE_SECTORS_INDEX := 9
  const SECTOR_BYTES := 512

  // ---- /proc/stat ----

  datatype CpuReading = CpuReading(total: int, idle: int) {
    function Busy(): int {
      total - idle
    }
  }

  function SumOf(counters: seq<int>): int {
    if counters == [] then 0 else counters[0] + SumOf(counters[1..])
  }

  predicate AllCounts(fields: Line) {
    forall t <- fields :: t.number.Some? && t.number.value >= 0
  }

  function Counters(fields: Line): (c: seq<int>)
    requires AllCounts(fields)
    ensures |c| == |fields|
  {
    seq(|fields|, i requires 0 <= i < |fields| => fields[i].number.value)
  }

  /** user, nice, system, idle, iowait, irq, softirq, steal; later (guest) columns are already in these. */
  function ReadCounters(counters: seq<int>): CpuReading
    requires |counters| >= 4
  {
    CpuReading(
      SumOf(if |counters| > 8 then counters[..8] else counters),
      counters[3] + if |counters| > 4 then counters[4] else 0)
  }

  function ParseProcStat(lines: seq<Line>): Option<CpuReading> {
    if lines == [] then None
    else
      var fields := lines[0];
      if fields == [] || fields[0].text != "cpu" then ParseProcStat(lines[1..])
      else if |fields| < PROC_STAT_MIN_FIELDS || !AllCounts(fields[1..]) then None
      else Some(ReadCounters(Counters(fields[1..])))
  }

  /** A counted column; a column the kernel does not print counts as zero. */
  function Column(counters: seq<int>, i: nat): int {
    if i < |counters| then counters[i] else 0
  }

  lemma {:induction false} SumSnoc(counters: seq<int>, x: int)
    ensures SumOf(counters + [x]) == SumOf(counters) + x
  {
    if counters != [] {
      SumSnoc(counters[1..], x);
      assert (counters + [x])[1..] == counters[1..] + [x];
    }
  }

  /** The first `n` counted columns. */
  function ColumnSum(counters: seq<int>, n: nat): int {
    if n == 0 then 0 else ColumnSum(counters, n - 1) + Column(counters, n - 1)
  }

  lemma {:induction false} SumIsColumnSum(counters: seq<int>, n: nat)
    ensures SumOf(if |counters| > n then counters[..n] else counters) == ColumnSum(counters, n)
  {
    if n > 0 {
      SumIsColumnSum(counters, n - 1);
      if |counters| >= n {
        SumSnoc(counters[..n - 1], counters[n - 1]);
        assert counters[..n - 1] + [counters[n - 1]] == counters[..n];
        assert |counters| == n ==> counters[..n] == counters;
      }
    } else {
      assert |counters| > 0 ==> counters[..0] == [];
    }
  }

  ghost predicate ColumnsGrow(a: seq<int>, b: seq<int>, n: nat) {
    forall i | 0 <= i < n :: Column(a, i) <= Column(b, i)
  }

  lemma {:induction false} ColumnSumGrows(a: seq<int>, b: seq<int>, n: nat)
    requires ColumnsGrow(a, b, n)
    ensures ColumnSum(a, n) <= ColumnSum(b, n)
    ensures forall i | 0 <= i < n :: Column(b, i) - Column(a, i) <= ColumnSum(b, n) - ColumnSum(a, n)
  {
    if n > 0 {
      ColumnSumGrows(a, b, n - 1);
    }
  }

  // ---- CPU utilization ----

  predicate Accepts(before: CpuReading, after: CpuReading) {
    var totalDelta, idleDelta := after.total - before.total, after.idle - before.idle;
    !(totalDelta <= 0 || idleDelta < 0 || idleDelta > totalDelta)
  }

  function Clamp(x: real): real {
    var floored := if x > 0.0 then x else 0.0;
    if floored < 100.0 then floored else 100.0
  }

  function Utilization(before: CpuReading, after: CpuReading): Measurement {
    var totalDelta, idleDelta := after.total - before.total, after.idle - before.idle;
    if totalDelta <= 0 || idleDelta < 0 || idleDelta > totalDelta then Unsupported
    else Num(Clamp((totalDelta - idleDelta) as real * 100.0 / totalDelta as real))
  }

  /** The clamp to [0, 100] never changes a value: the quotient is already inside. */
  lemma ClampNeverBinds(before: CpuReading, after: CpuReading)
    requires Accepts(before, after)
    ensures var totalDelta := (after.total - before.total) as real;
      Utilization(before, after) == Num((after.Busy() - before.Busy()) as real * 100.0 / totalDelta)
    ensures 0.0 <= Utilization(before, after).value <= 100.0
  {
    var n, d := (after.Busy() - before.Busy()) as real, (after.total - before.total) as real;
    QuotientBetween(n * 100.0, d);
  }

  lemma QuotientBetween(n: real, d: real)
    requires d > 0.0 && 0.0 <= n <= 100.0 * d
    ensures 0.0 <= n / d <= 100.0
  {
    var q := n / d;
    assert q * d == n;
  }

  /** With growing columns an interval is rejected only when not one of the eight counters moved. */
  lemma RejectedOnlyWhenNothingMoved(a: seq<int>, b: seq<int>)
    requires |a| >= 4 && |b| >= 4 && ColumnsGrow(a, b, 8)
    ensures var p, q := ReadCounters(a), ReadCounters(b);
      && (Accepts(p, q) <==> p.total != q.total)
      && (Accepts(p, q) <==> exists i | 0 <= i < 8 :: Column(a, i) != Column(b, i))
  {
    SumIsColumnSum(a, 8);
    SumIsColumnSum(b, 8);
    ColumnSumGrows(a, b, 8);
    IdleDeltaAtMostTotal(a, b);
    if forall i | 0 <= i < 8 :: Column(a, i) == Column(b, i) {
      SameColumnsSameSum(a, b, 8);
    }
  }

  lemma IdleDeltaAtMostTotal(a: seq<int>, b: seq<int>)
    requires |a| >= 4 && |b| >= 4 && ColumnsGrow(a, b, 8)
    ensures var p, q := ReadCounters(a), ReadCounters(b);
      0 <= q.idle - p.idle <= ColumnSum(b, 8) - ColumnSum(a, 8)
  {
    assert Column(a, 3) <= Column(b, 3) && Column(a, 4) <= Column(b, 4);
    ColumnSumGrows(a, b, 3);
    assert forall i | 5 <= i < 8 :: Column(a, i) <= Column(b, i);
    assert ColumnSum(a, 5) == ColumnSum(a, 3) + Column(a, 3) + Column(a, 4);
    assert ColumnSum(b, 5) == ColumnSum(b, 3) + Column(b, 3) + Column(b, 4);
    assert ColumnSum(a, 7) == ColumnSum(a, 5) + Column(a, 5) + Column(a, 6);
    assert ColumnSum(b, 7) == ColumnSum(b, 5) + Column(b, 5) + Column(b, 6);
  }

  lemma {:induction false} SameColumnsSameSum(a: seq<int>, b: seq<int>, n: nat)
    requires forall i | 0 <= i < n :: Column(a, i) == Column(b, i)
    ensures ColumnSum(a, n) == ColumnSum(b, n)
  {
    if n > 0 {
      SameColumnsSameSum(a, b, n - 1);
    }
  }

  // ---- Runs of a delta reader ----

  /** The baseline after a run: the last successful reading, or the one before the run, if any. */
  function Baseline<S>(before: Option<S>, inputs: seq<Option<S>>): Option<S>
    decreases |inputs|
  {
    if inputs == [] then before
    else Baseline(if inputs[0].Some? then inputs[0] else before, inputs[1..])
  }

  /** The first baseline of a run; a fresh reader gets it from its first successful reading. */
  function FirstBaseline<S>(before: Option<S>, inputs: seq<Option<S>>): Option<S>
    decreases |inputs|
  {
    if before.Some? || inputs == [] then before else FirstBaseline(inputs[0], inputs[1..])
  }

  /** What a level changed by between the first and the last baseline of a run. */
  function Change<S>(before: Option<S>, inputs: seq<Option<S>>, level: S -> int): int {
    match (FirstBaseline(before, inputs), Baseline(before, inputs))
    case (Some(first), Some(last)) => level(last) - level(first)
    case _ => 0
  }

  /** What a cumulative level moved by, over the intervals between successive readings that `counts` selects. */
  function Moved<S>(before: Option<S>, inputs: seq<Option<S>>, level: S -> int, counts: (S, S) -> bool): int
    decreases |inputs|
  {
    if inputs == [] then 0
    else
      match (before, inputs[0])
      case (_, None) => Moved(before, inputs[1..], level, counts)
      case (None, Some(after)) => Moved(inputs[0], inputs[1..], level, counts)
      case (Some(last), Some(after)) =>
        (if counts(last, after) then level(after) - level(last) else 0) + Moved(inputs[0], inputs[1..], level, counts)
  }

  lemma {:induction false} BaselinesTogether<S>(before: Option<S>, inputs: seq<Option<S>>)
    ensures FirstBaseline(before, inputs).Some? == Baseline(before, inputs).Some?
    decreases |inputs|
  {
    if inputs != [] {
      BaselinesTogether(if inputs[0].Some? then inputs[0] else before, inputs[1..]);
    }
  }

  /** Counted and uncounted movement together telescope to the difference of the end levels. */
  lemma {:induction false} MovementTelescopes<S>(
    before: Option<S>, inputs: seq<Option<S>>, level: S -> int, counts: (S, S) -> bool)
    ensures Moved(before, inputs, level, counts) + Moved(before, inputs, level, (a, b) => !counts(a, b))
      == Change(before, inputs, level)
    decreases |inputs|
  {
    if inputs != [] {
      var next := if inputs[0].Some? then inputs[0] else before;
      MovementTelescopes(next, inputs[1..], level, counts);
      BaselinesTogether(next, inputs[1..]);
    }
  }

  /** Every interval of the run is selected. */
  ghost predicate AllCount<S>(before: Option<S>, inputs: seq<Option<S>>, counts: (S, S) -> bool)
    decreases |inputs|
  {
    inputs == [] ||
    match inputs[0]
    case None => AllCount(before, inputs[1..], counts)
    case Some(after) => (before.Some? ==> counts(before.value, after)) && AllCount(inputs[0], inputs[1..], counts)
  }

  lemma {:induction false} NothingLostWhenAllCount<S>(
    before: Option<S>, inputs: seq<Option<S>>, level: S -> int, counts: (S, S) -> bool)
    requires AllCount(before, inputs, counts)
    ensures Moved(before, inputs, level, counts) == Change(before, inputs, level)
    decreases |inputs|
  {
    if inputs != [] {
      var next := if inputs[0].Some? then inputs[0] else before;
      NothingLostWhenAllCount(next, inputs[1..], level, counts);
      BaselinesTogether(next, inputs[1..]);
    }
  }

  /** One call of cpu_percent on what the parser made of /proc/stat. */
  function CpuStep(before: Option<CpuReading>, parsed: Option<CpuReading>): (Option<CpuReading>, Measurement) {
    match parsed
    case None => (before, Unsupported)
    case Some(after) => (parsed, if before.None? then Unsupported else Utilization(before.value, after))
  }

  /** The busy jiffies that one reported percentage stands for. */
  function BusyFrom(out: Measurement, totalDelta: int): real {
    match out
    case Unsupported => 0.0
    case Num(percent) => percent * totalDelta as real / 100.0
  }

  /** The busy jiffies that the reported percentages account for, call by call. */
  function AccountedBusy(before: Option<CpuReading>, inputs: seq<Option<CpuReading>>): real
    decreases |inputs|
  {
    if inputs == [] then 0.0
    else
      var (baseline, out) := CpuStep(before, inputs[0]);
      BusyFrom(out, if before.Some? then baseline.value.total - before.value.total else 0)
      + AccountedBusy(baseline, inputs[1..])
  }

  lemma PercentGivesBackBusy(before: CpuReading, after: CpuReading)
    ensures BusyFrom(Utilization(before, after), after.total - before.total) ==
      (if Accepts(before, after) then after.Busy() - before.Busy() else 0) as real
  {
    if Accepts(before, after) {
      ClampNeverBinds(before, after);
      QuotientTimes((after.Busy() - before.Busy()) as real, (after.total - before.total) as real);
    }
  }

  lemma QuotientTimes(n: real, d: real)
    requires d > 0.0
    ensures (n * 100.0 / d) * d / 100.0 == n
  {
    assert (n * 100.0 / d) * d == n * 100.0;
  }

  /** Over any run, a fresh reader's included, the percentages account for exactly the accepted intervals' busy time. */
  lemma {:induction false} CpuConservation(before: Option<CpuReading>, inputs: seq<Option<CpuReading>>)
    ensures AccountedBusy(before, inputs) == Moved(before, inputs, (r: CpuReading) => r.Busy(), Accepts) as real
    decreases |inputs|
  {
    if inputs != [] {
      NoReadingNoBusy();
      hide BusyFrom, Utilization, Accepts;
      CpuConservation(CpuStep(before, inputs[0]).0, inputs[1..]);
      if before.Some? && inputs[0].Some? {
        PercentGivesBackBusy(before.value, inputs[0].value);
      }
    }
  }

  lemma NoReadingNoBusy()
    ensures forall totalDelta :: BusyFrom(Unsupported, totalDelta) == 0.0
  {
  }

  /** When every interval is accepted, that is the whole change in busy time. */
  lemma CpuConservationWhenAccepted(before: Option<CpuReading>, inputs: seq<Option<CpuReading>>)
    requires AllCount(before, inputs, Accepts)
    ensures AccountedBusy(before, inputs) == Change(before, inputs, (r: CpuReading) => r.Busy()) as real
  {
    CpuConservation(before, inputs);
    NothingLostWhenAllCount(before, inputs, (r: CpuReading) => r.Busy(), Accepts);
  }

  // ---- /proc/diskstats ----

  /** Cumulative bytes read and written, and when they were read. */
  datatype DiskReading = DiskReading(at: real, bytesRead: int, bytesWritten: int)

  datatype DiskThroughput = DiskThroughput(read: Measurement, write: Measurement)

  datatype Direction = Reads | Writes

  function CounterOf(direction: Direction): DiskReading -> int {
    match direction
    case Reads => (r: DiskReading) => r.bytesRead
    case Writes => (r: DiskReading) => r.bytesWritten
  }

  /** The device rows a call counts: an exact allowlist, or the names that look like whole devices. */
  datatype Selection = Allowlist(names: set<string>) | WholeDevices(matches: string -> bool)

  predicate Selects(selection: Selection, row: Line) {
    |row| > DISKSTATS_NAME_INDEX &&
    match selection
    case Allowlist(names) => row[DISKSTATS_NAME_INDEX].text in names
    case WholeDevices(matches) => matches(row[DISKSTATS_NAME_INDEX].text)
  }

  predicate WellFormed(row: Line) {
    && |row| >= DISKSTATS_MIN_FIELDS
    && row[DISKSTATS_READ_SECTORS_INDEX].number.Some? && row[DISKSTATS_READ_SECTORS_INDEX].number.value >= 0
    && row[DISKSTATS_WRITE_SECTORS_INDEX].number.Some? && row[DISKSTATS_WRITE_SECTORS_INDEX].number.value >= 0
  }

  function PickSelected(selection: Selection): Line -> seq<Line> {
    (row: Line) => if Selects(selection, row) then [row] else []
  }

  function SelectedRows(rows: seq<Line>, selection: Selection): seq<Line> {
    Collect(rows, PickSelected(selection))
  }

  function Sectors(rows: seq<Line>, index: nat): int {
    if rows == [] then 0
    else
      (if index < |rows[0]| && rows[0][index].number.Some? then rows[0][index].number.value else 0)
      + Sectors(rows[1..], index)
  }

  function Names(rows: seq<Line>): set<string> {
    set row: Line | row in rows && |row| > DISKSTATS_NAME_INDEX :: row[DISKSTATS_NAME_INDEX].text
  }

  /** The totals of the selected rows, if all of them are well formed and every wanted device is there. */
  function DiskTotals(rows: seq<Line>, selection: Selection): Option<(int, int)> {
    var chosen := SelectedRows(rows, selection);
    if (forall row <- chosen :: WellFormed(row)) && chosen != []
      && (selection.Allowlist? ==> Names(chosen) == selection.names)
    then
      Some((Sectors(chosen, DISKSTATS_READ_SECTORS_INDEX) * SECTOR_BYTES,
            Sectors(chosen, DISKSTATS_WRITE_SECTORS_INDEX) * SECTOR_BYTES))
    else None
  }

  lemma {:induction false} SectorsSnoc(rows: seq<Line>, row: Line, index: nat)
    ensures Sectors(rows + [row], index) == Sectors(rows, index) + Sectors([row], index)
  {
    if rows == [] {
      assert rows + [row] == [row];
    } else {
      SectorsSnoc(rows[1..], row, index);
      assert (rows + [row])[1..] == rows[1..] + [row];
    }
  }

  /** What the loop has accumulated for the selected rows seen so far. */
  ghost predicate Tally(chosen: seq<Line>, seen: set<string>, readSectors: int, writeSectors: int) {
    && (forall row <- chosen :: WellFormed(row))
    && seen == Names(chosen)
    && readSectors == Sectors(chosen, DISKSTATS_READ_SECTORS_INDEX)
    && writeSectors == Sectors(chosen, DISKSTATS_WRITE_SECTORS_INDEX)
  }

  lemma TallyRow(chosen: seq<Line>, seen: set<string>, readSectors: int, writeSectors: int, row: Line)
    requires Tally(chosen, seen, readSectors, writeSectors) && WellFormed(row)
    ensures Tally(chosen + [row], seen + {row[DISKSTATS_NAME_INDEX].text},
      readSectors + row[DISKSTATS_READ_SECTORS_INDEX].number.value,
      writeSectors + row[DISKSTATS_WRITE_SECTORS_INDEX].number.value)
  {
    SectorsSnoc(chosen, row, DISKSTATS_READ_SECTORS_INDEX);
    SectorsSnoc(chosen, row, DISKSTATS_WRITE_SECTORS_INDEX);
    assert [row][1..] == [];
    assert Names(chosen + [row]) == Names(chosen) + {row[DISKSTATS_NAME_INDEX].text};
  }

  lemma TallyEmpty(chosen: seq<Line>, seen: set<string>, readSectors: int, writeSectors: int)
    requires Tally(chosen, seen, readSectors, writeSectors)
    ensures seen == {} <==> chosen == []
  {
    if chosen != [] {
      assert WellFormed(chosen[0]) && chosen[0] in chosen;
      assert chosen[0][DISKSTATS_NAME_INDEX].text in Names(chosen);
    }
  }

  lemma MalformedRowDecides(rows: seq<Line>, i: nat, selection: Selection)
    requires i < |rows| && Selects(selection, rows[i]) && !WellFormed(rows[i])
    ensures DiskTotals(rows, selection) == None
  {
    CollectOrigin(rows, PickSelected(selection));
    assert rows[i] in PickSelected(selection)(rows[i]);
  }

  /** The loop's state after the first `n` rows. */
  ghost predicate Tallied(
    rows: seq<Line>, n: nat, selection: Selection, seen: set<string>, readSectors: int, writeSectors: int)
    requires n <= |rows|
  {
    Tally(SelectedRows(rows[..n], selection), seen, readSectors, writeSectors)
  }

  lemma TallySkips(
    rows: seq<Line>, i: nat, selection: Selection, seen: set<string>, readSectors: int, writeSectors: int)
    requires i < |rows| && !Selects(selection, rows[i]) && Tallied(rows, i, selection, seen, readSectors, writeSectors)
    ensures Tallied(rows, i + 1, selection, seen, readSectors, writeSectors)
  {
    CollectStep(rows, i, PickSelected(selection));
    var chosen := SelectedRows(rows[..i], selection);
    assert chosen + [] == chosen;
    hide Tally;
  }

  lemma TallyCounts(
    rows: seq<Line>, i: nat, selection: Selection, seen: set<string>, readSectors: int, writeSectors: int)
    requires i < |rows| && Selects(selection, rows[i]) && WellFormed(rows[i])
    requires Tallied(rows, i, selection, seen, readSectors, writeSectors)
    ensures Tallied(rows, i + 1, selection, seen + {rows[i][DISKSTATS_NAME_INDEX].text},
      readSectors + rows[i][DISKSTATS_READ_SECTORS_INDEX].number.value,
      writeSectors + rows[i][DISKSTATS_WRITE_SECTORS_INDEX].number.value)
  {
    CollectStep(rows, i, PickSelected(selection));
    var chosen := SelectedRows(rows[..i], selection);
    hide Tally;
    TallyRow(chosen, seen, readSectors, writeSectors, rows[i]);
  }

  /** The tally of all rows decides the totals. */
  lemma TallyDecides(rows: seq<Line>, selection: Selection, seen: set<string>, readSectors: int, writeSectors: int)
    requires Tallied(rows, |rows|, selection, seen, readSectors, writeSectors)
    ensures DiskTotals(rows, selection) ==
      if seen == {} || (selection.Allowlist? && seen != selection.names) then None
      else Some((readSectors * SECTOR_BYTES, writeSectors * SECTOR_BYTES))
  {
    Whole(rows);
    hide SelectedRows, WellFormed;
    TallyEmpty(SelectedRows(rows, selection), seen, readSectors, writeSectors);
  }

  /** parse_diskstats: one pass that stops at the first malformed selected row. */
  method ParseDiskstats(rows: seq<Line>, selection: Selection) returns (totals: Option<(int, int)>)
    ensures totals == DiskTotals(rows, selection)
  {
    hide Tallied, DiskTotals;
    var seen: set<string> := {};
    var readSectors, writeSectors := 0, 0;
    TallyNothing(rows, selection);
    for i := 0 to |rows|
      invariant Tallied(rows, i, selection, seen, readSectors, writeSectors)
    {
      var row := rows[i];
      if !Selects(selection, row) {
        TallySkips(rows, i, selection, seen, readSectors, writeSectors);
        continue;
      }
      if !WellFormed(row) {
        MalformedRowDecides(rows, i, selection);
        return None;
      }
      TallyCounts(rows, i, selection, seen, readSectors, writeSectors);
      seen := seen + {row[DISKSTATS_NAME_INDEX].text};
      readSectors := readSectors + row[DISKSTATS_READ_SECTORS_INDEX].number.value;
      writeSectors := writeSectors + row[DISKSTATS_WRITE_SECTORS_INDEX].number.value;
    }
    TallyDecides(rows, selection, seen, readSectors, writeSectors);
    if seen == {} || (selection.Allowlist? && seen != selection.names) {
      return None;
    }
    return Some((readSectors * SECTOR_BYTES, writeSectors * SECTOR_BYTES));
  }

  lemma TallyNothing(rows: seq<Line>, selection: Selection)
    ensures Tallied(rows, 0, selection, {}, 0, 0)
  {
  }

  /** Partition, loop and mapper rows are invisible: adding or removing unselected rows changes nothing. */
  lemma UnselectedRowsAreInvisible(before: seq<Line>, row: Line, after: seq<Line>, selection: Selection)
    requires !Selects(selection, row)
    ensures DiskTotals(before + [row] + after, selection) == DiskTotals(before + after, selection)
  {
    var pick := PickSelected(selection);
    CollectAppend(before, [row], pick);
    CollectAppend(before + [row], after, pick);
    CollectAppend(before, after, pick);
    assert Collect([row], pick) == [];
    assert Collect(before, pick) + [] == Collect(before, pick);
  }

  // ---- Disk rates ----

  /** An interval whose rate in one direction is reported. */
  predicate Rated(before: DiskReading, after: DiskReading, direction: Direction) {
    after.at - before.at > 0.0 && CounterOf(direction)(after) >= CounterOf(direction)(before)
  }

  function Rate(before: DiskReading, after: DiskReading, direction: Direction): Measurement {
    var elapsed := after.at - before.at;
    if elapsed <= 0.0 || CounterOf(direction)(after) < CounterOf(direction)(before) then Unsupported
    else Num((CounterOf(direction)(after) - CounterOf(direction)(before)) as real / elapsed)
  }

  /** One call of disk_throughput on a valid counter sample, or on a failed read or clock. */
  function DiskStep(before: Option<DiskReading>, parsed: Option<DiskReading>): (Option<DiskReading>, DiskThroughput) {
    match parsed
    case None => (before, DiskThroughput(Unsupported, Unsupported))
    case Some(after) =>
      (parsed,
       if before.None? then DiskThroughput(Unsupported, Unsupported)
       else DiskThroughput(Rate(before.value, after, Reads), Rate(before.value, after, Writes)))
  }

  function RateOf(out: DiskThroughput, direction: Direction): Measurement {
    match direction
    case Reads => out.read
    case Writes => out.write
  }

  function DiskRun(before: Option<DiskReading>, inputs: seq<Option<DiskReading>>): seq<DiskThroughput>
    decreases |inputs|
  {
    if inputs == [] then []
    else
      var (baseline, out) := DiskStep(before, inputs[0]);
      [out] + DiskRun(baseline, inputs[1..])
  }

  /** The bytes that one reported rate stands for. */
  function BytesFrom(rate: Measurement, elapsed: real): real {
    match rate
    case Unsupported => 0.0
    case Num(r) => r * elapsed
  }

  /** The bytes that the reported rates account for, call by call. */
  function AccountedBytes(before: Option<DiskReading>, inputs: seq<Option<DiskReading>>, direction: Direction): real
    decreases |inputs|
  {
    if inputs == [] then 0.0
    else
      var (baseline, out) := DiskStep(before, inputs[0]);
      BytesFrom(RateOf(out, direction), if before.Some? then baseline.value.at - before.value.at else 0.0)
      + AccountedBytes(baseline, inputs[1..], direction)
  }

  lemma RateGivesBackBytes(before: DiskReading, after: DiskReading, direction: Direction)
    ensures BytesFrom(Rate(before, after, direction), after.at - before.at) ==
      (if Rated(before, after, direction) then CounterOf(direction)(after) - CounterOf(direction)(before) else 0) as real
  {
    if Rated(before, after, direction) {
      var n, elapsed := (CounterOf(direction)(after) - CounterOf(direction)(before)) as real, after.at - before.at;
      assert (n / elapsed) * elapsed == n;
    }
  }

  /** Over any run, a fresh reader's included, rate times elapsed adds up to exactly the rated intervals' increments. */
  lemma {:induction false} DiskConservation(before: Option<DiskReading>, inputs: seq<Option<DiskReading>>, direction: Direction)
    ensures AccountedBytes(before, inputs, direction) ==
      Moved(before, inputs, CounterOf(direction), (a, b) => Rated(a, b, direction)) as real
    decreases |inputs|
  {
    if inputs != [] {
      NoRateNoBytes();
      hide BytesFrom, Rate, Rated;
      DiskConservation(DiskStep(before, inputs[0]).0, inputs[1..], direction);
      if before.Some? && inputs[0].Some? {
        RateGivesBackBytes(before.value, inputs[0].value, direction);
      }
    }
  }

  lemma NoRateNoBytes()
    ensures forall elapsed :: BytesFrom(Unsupported, elapsed) == 0.0
  {
  }

  /** Without rollbacks and stalled clocks it telescopes to last minus first. */
  lemma DiskConservationWithoutRollback(
    before: Option<DiskReading>, inputs: seq<Option<DiskReading>>, direction: Direction)
    requires AllCount(before, inputs, (a, b) => Rated(a, b, direction))
    ensures AccountedBytes(before, inputs, direction) == Change(before, inputs, CounterOf(direction)) as real
  {
    DiskConservation(before, inputs, direction);
    NothingLostWhenAllCount(before, inputs, CounterOf(direction), (a, b) => Rated(a, b, direction));
  }

  /** What one direction can see of a reading. */
  ghost predicate SameSide(a: Option<DiskReading>, b: Option<DiskReading>, direction: Direction) {
    && a.Some? == b.Some?
    && (a.Some? ==> a.value.at == b.value.at && CounterOf(direction)(a.value) == CounterOf(direction)(b.value))
  }

  /** A direction's rates depend on its own counter and the clock: the other's rollbacks never disturb it. */
  lemma {:induction false} DirectionsAreIndependent(
    p: Option<DiskReading>, q: Option<DiskReading>,
    a: seq<Option<DiskReading>>, b: seq<Option<DiskReading>>, direction: Direction)
    requires SameSide(p, q, direction) && |a| == |b|
    requires forall i | 0 <= i < |a| :: SameSide(a[i], b[i], direction)
    ensures |DiskRun(p, a)| == |DiskRun(q, b)| == |a|
    ensures forall i | 0 <= i < |a| :: RateOf(DiskRun(p, a)[i], direction) == RateOf(DiskRun(q, b)[i], direction)
    decreases |a|
  {
    if a != [] {
      assert SameSide(a[0], b[0], direction);
      DirectionsAreIndependent(DiskStep(p, a[0]).0, DiskStep(q, b[0]).0, a[1..], b[1..], direction);
    }
  }
}
