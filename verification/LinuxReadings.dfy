/** What the Linux readers report in terms of the columns, lines and files themselves. */
module LinuxReadings {
  import opened Telemetry
  import opened Collecting
  import opened Sorting
  import opened LinuxCounters
  import opened LinuxHost
  import opened LinuxMemory

  // ---- /proc/stat ----

  /** user, nice, system, irq, softirq and steal. */
  function BusyColumns(c: seq<int>): int {
    Column(c, 0) + Column(c, 1) + Column(c, 2) + Column(c, 5) + Column(c, 6) + Column(c, 7)
  }

  /** idle and iowait. */
  function IdleColumns(c: seq<int>): int {
    Column(c, 3) + Column(c, 4)
  }

  lemma BusyAndIdleColumns(c: seq<int>)
    requires |c| >= 4
    ensures ReadCounters(c).Busy() == BusyColumns(c) && ReadCounters(c).idle == IdleColumns(c)
    ensures ReadCounters(c).total == BusyColumns(c) + IdleColumns(c)
  {
    SumIsColumnSum(c, 8);
    assert ColumnSum(c, 8) == ColumnSum(c, 7) + Column(c, 7);
    assert ColumnSum(c, 7) == ColumnSum(c, 6) + Column(c, 6);
    assert ColumnSum(c, 6) == ColumnSum(c, 5) + Column(c, 5);
    assert ColumnSum(c, 5) == ColumnSum(c, 4) + Column(c, 4);
    assert ColumnSum(c, 4) == ColumnSum(c, 3) + Column(c, 3);
    assert ColumnSum(c, 3) == ColumnSum(c, 2) + Column(c, 2);
    assert ColumnSum(c, 2) == ColumnSum(c, 1) + Column(c, 1);
    assert ColumnSum(c, 1) == ColumnSum(c, 0) + Column(c, 0);
  }

  /** The aggregate line: "cpu" and at least four non-negative counters. */
  ghost predicate Usable(line: Line) {
    |line| >= 5 && forall i | 1 <= i < |line| :: line[i].number.Some? && line[i].number.value >= 0
  }

  predicate IsAggregate(line: Line) {
    line != [] && line[0].text == "cpu"
  }

  function NumberAt(line: Line, i: nat): int {
    if i < |line| && line[i].number.Some? then line[i].number.value else 0
  }

  /** The counters after the name of a line. */
  function CountersOf(line: Line): seq<int> {
    if line == [] then []
    else seq(|line| - 1, i requires 0 <= i < |line| - 1 => NumberAt(line, i + 1))
  }

  /** The first aggregate line of the file decides, whatever stands before and after it. */
  lemma {:induction false} FirstAggregateLineDecides(before: seq<Line>, line: Line, after: seq<Line>)
    requires forall l <- before :: !IsAggregate(l)
    requires IsAggregate(line)
    ensures var parsed := ParseProcStat(before + [line] + after);
      if Usable(line) then
        && parsed.Some?
        && parsed.value.Busy() == BusyColumns(CountersOf(line))
        && parsed.value.idle == IdleColumns(CountersOf(line))
      else parsed == None
  {
    if before == [] {
      assert before + [line] + after == [line] + after && ([line] + after)[0] == line;
      UsableCounters(line);
    } else {
      assert (before + [line] + after)[1..] == before[1..] + [line] + after;
      assert before[0] in before;
      FirstAggregateLineDecides(before[1..], line, after);
    }
  }

  lemma UsableCounters(line: Line)
    requires line != []
    ensures Usable(line) <==> |line| >= PROC_STAT_MIN_FIELDS && AllCounts(line[1..])
    ensures Usable(line) ==> Counters(line[1..]) == CountersOf(line)
    ensures Usable(line) ==>
      && ReadCounters(CountersOf(line)).Busy() == BusyColumns(CountersOf(line))
      && ReadCounters(CountersOf(line)).idle == IdleColumns(CountersOf(line))
  {
    if Usable(line) {
      forall t | t in line[1..] ensures t.number.Some? && t.number.value >= 0 {
        var i :| 0 <= i < |line[1..]| && line[1..][i] == t;
        assert line[i + 1] == t;
      }
      BusyAndIdleColumns(CountersOf(line));
    }
    if |line| >= PROC_STAT_MIN_FIELDS && AllCounts(line[1..]) {
      forall i | 1 <= i < |line| ensures line[i].number.Some? && line[i].number.value >= 0 {
        assert line[1..][i - 1] == line[i];
      }
    }
  }

  lemma {:induction false} NoAggregateLine(lines: seq<Line>)
    requires forall l <- lines :: !IsAggregate(l)
    ensures ParseProcStat(lines) == None
  {
    if lines != [] {
      assert lines[0] in lines;
      NoAggregateLine(lines[1..]);
    }
  }

  /** The busy part of what moved, in percent, if nothing went backwards and something moved. */
  function Share(busy: int, idle: int): Measurement {
    if busy >= 0 && idle >= 0 && busy + idle > 0 then Num(busy as real * 100.0 / (busy + idle) as real) else Unsupported
  }

  lemma PercentIsTheBusyShare(before: CpuReading, after: CpuReading)
    ensures CpuStep(Some(before), Some(after)).1 == Share(after.Busy() - before.Busy(), after.idle - before.idle)
  {
    if Accepts(before, after) {
      ClampNeverBinds(before, after);
    }
    hide Clamp;
  }

  /** An interval of idling and waiting reports 0, one without either reports 100. */
  lemma PureIntervals(moved: int)
    requires moved > 0
    ensures Share(0, moved) == Num(0.0) && Share(moved, 0) == Num(100.0)
  {
  }

  /** Two reads of /proc/stat, whatever surrounds their aggregate lines, report the busy share between them. */
  lemma PercentOfTwoReads(
    before: seq<Line>, line: Line, after: seq<Line>, before': seq<Line>, line': Line, after': seq<Line>)
    requires forall l <- before + before' :: !IsAggregate(l)
    requires IsAggregate(line) && IsAggregate(line') && Usable(line) && Usable(line')
    ensures var (baseline, first) := CpuStep(None, ParseProcStat(before + [line] + after));
      var (_, percent) := CpuStep(baseline, ParseProcStat(before' + [line'] + after'));
      && first == Unsupported
      && percent == Share(
           BusyColumns(CountersOf(line')) - BusyColumns(CountersOf(line)),
           IdleColumns(CountersOf(line')) - IdleColumns(CountersOf(line)))
    ensures var percent := CpuStep(ParseProcStat(before + [line] + after), ParseProcStat(before' + [line'] + after')).1;
      var busy := BusyColumns(CountersOf(line')) - BusyColumns(CountersOf(line));
      var idle := IdleColumns(CountersOf(line')) - IdleColumns(CountersOf(line));
      && (busy == 0 && idle > 0 ==> percent == Num(0.0))
      && (busy > 0 && idle == 0 ==> percent == Num(100.0))
  {
    forall l | l in before ensures !IsAggregate(l) {
      assert l in before + before';
    }
    forall l | l in before' ensures !IsAggregate(l) {
      assert l in before + before';
    }
    FirstAggregateLineDecides(before, line, after);
    FirstAggregateLineDecides(before', line', after');
    hide ParseProcStat, Usable, IsAggregate, BusyColumns, IdleColumns, CountersOf, Utilization, Share;
    var p, q := ParseProcStat(before + [line] + after), ParseProcStat(before' + [line'] + after');
    PercentIsTheBusyShare(p.value, q.value);
    forall moved: int | moved > 0 ensures Share(0, moved) == Num(0.0) && Share(moved, 0) == Num(100.0) {
      PureIntervals(moved);
    }
  }

  // ---- /proc/diskstats ----

  /** The sum of a column over rows. */
  function SumOfColumn(rows: seq<Line>, column: nat): int {
    if rows == [] then 0
    else
      SumOfColumn(rows[1..], column)
      + NumberAt(rows[0], column)
  }

  lemma {:induction false} SectorsAreColumnSums(rows: seq<Line>, column: nat)
    ensures Sectors(rows, column) == SumOfColumn(rows, column)
  {
    if rows != [] {
      SectorsAreColumnSums(rows[1..], column);
    }
  }

  /** The row names a device to count: it has a third field, which the allowlist or the pattern accepts. */
  predicate NamesSelected(row: Line, selection: Selection) {
    |row| >= 3 && match selection
      case Allowlist(names) => row[2].text in names
      case WholeDevices(matches) => matches(row[2].text)
  }

  predicate Named(row: Line, name: string) {
    |row| >= 3 && row[2].text == name
  }

  /** Ten fields, with counts of sectors read and written in the sixth and the tenth. */
  predicate Countable(row: Line) {
    && |row| >= 10
    && row[5].number.Some? && row[5].number.value >= 0
    && row[9].number.Some? && row[9].number.value >= 0
  }

  /** Bytes are 512 times the sectors of the sixth and tenth fields of the selected rows. */
  lemma TotalsInBytes(rows: seq<Line>, chosen: seq<Line>, selection: Selection)
    requires chosen == Collect(rows, (row: Line) => if NamesSelected(row, selection) then [row] else [])
    ensures DiskTotals(rows, selection) ==
      if chosen != []
        && (forall row <- chosen :: Countable(row))
        && (selection.Allowlist? ==> forall name :: name in selection.names <==> exists row <- chosen :: Named(row, name))
      then Some((SumOfColumn(chosen, 5) * 512, SumOfColumn(chosen, 9) * 512))
      else None
  {
    SamePick(rows, (row: Line) => if NamesSelected(row, selection) then [row] else [], PickSelected(selection));
    SectorsAreColumnSums(chosen, 5);
    SectorsAreColumnSums(chosen, 9);
    assert chosen == SelectedRows(rows, selection);
    hide Sectors, SumOfColumn, SelectedRows;
    NamesOfRows(chosen, selection);
    hide Names;
  }

  lemma NamesOfRows(rows: seq<Line>, selection: Selection)
    ensures selection.Allowlist? ==>
      (Names(rows) == selection.names <==>
       forall name :: name in selection.names <==> exists row <- rows :: Named(row, name))
  {
    forall name ensures name in Names(rows) <==> exists row <- rows :: Named(row, name) {
    }
    hide Names;
  }

  lemma {:induction false} SamePick(rows: seq<Line>, p: Line -> seq<Line>, q: Line -> seq<Line>)
    requires forall row :: p(row) == q(row)
    ensures Collect(rows, p) == Collect(rows, q)
  {
    if rows != [] {
      SamePick(rows[1..], p, q);
    }
  }

  /** Reads are reported as reads and writes as writes, each per second of the interval. */
  lemma RatesOfOneInterval(before: DiskReading, after: DiskReading)
    ensures var out := DiskStep(Some(before), Some(after)).1;
      var seconds := after.at - before.at;
      var bytesRead, bytesWritten := after.bytesRead - before.bytesRead, after.bytesWritten - before.bytesWritten;
      && out.read == (if seconds > 0.0 && bytesRead >= 0 then Num(bytesRead as real / seconds) else Unsupported)
      && out.write == (if seconds > 0.0 && bytesWritten >= 0 then Num(bytesWritten as real / seconds) else Unsupported)
    ensures DiskStep(None, Some(after)).1 == DiskThroughput(Unsupported, Unsupported)
  {
  }

  // ---- /proc/meminfo ----

  /** A quantity is in KiB, a later line for the same name replaces it, and other lines do not touch it. */
  lemma LastValidLineInBytes(lines: seq<MemoryLine>, name: string, fields: seq<MemoryToken>, other: string)
    ensures Stated(lines + [Entry(name, fields)], other) ==
      if other == name && fields != [] && fields[0].number.Some? && fields[0].number.value >= 0
        && (|fields| >= 2 ==> fields[1].isKb)
      then Some(fields[0].number.value * 1024)
      else Stated(lines, other)
    ensures Stated(lines + [NoColon], other) == Stated(lines, other)
    ensures Stated([], other) == None
  {
    assert (lines + [Entry(name, fields)])[..|lines|] == lines;
    assert (lines + [NoColon])[..|lines|] == lines;
  }

  // ---- Temperatures ----

  /** The file holds a plausible number of millidegrees. */
  predicate ReadsNow(texts: Texts, path: Path) {
    path in texts && -273.15 <= texts[path] / 1000.0 <= 1000.0
  }

  function ZoneRank(zoneType: string): nat {
    if zoneType == "x86_pkg_temp" then 0
    else if zoneType == "cpu_thermal" then 1
    else if zoneType == "cpu-thermal" then 2
    else if zoneType == "coretemp" then 3
    else if zoneType == "k10temp" then 4
    else if zoneType == "acpitz" then 5
    else 6
  }

  predicate ForeignDriver(driver: string) {
    driver == "amdgpu" || driver == "nouveau" || driver == "nvidia" || driver == "nvme"
  }

  function InputRank(i: Input): nat {
    if i.cpuLabel || i.driver in {"coretemp", "k10temp", "zenpower", "cpu_thermal", "cpu-thermal", "acpitz"} then 0 else 1
  }

  /** One sensor comes before another: by rank, then by name. */
  predicate Before(rank: nat, name: string, rank': nat, name': string) {
    rank < rank' || (rank == rank' && LexLe(name, name'))
  }

  lemma IndexStep(name: string, first: string, rest: seq<string>)
    ensures IndexOf([first] + rest, name) == if name == first then 0 else 1 + IndexOf(rest, name)
  {
    assert ([first] + rest)[1..] == rest;
  }

  lemma SamePrefixSameHead(a: string, b: string, k: nat)
    requires k < |a| && k < |b| && a[..k] == b[..k]
    ensures k > 0 ==> a[0] == b[0]
  {
    if k > 0 {
      assert a[..k][0] == b[..k][0];
    }
  }

  /** Names compare as dictionaries do: a prefix first, else by the first character that differs. */
  lemma {:induction false} NamesCompareByFirstDifference(a: string, b: string)
    ensures LexLe(a, b) <==>
      a <= b || exists k: nat :: k < |a| && k < |b| && a[..k] == b[..k] && a[k] < b[k]
  {
    if a != "" && b != "" && a[0] == b[0] {
      NamesCompareByFirstDifference(a[1..], b[1..]);
      assert a == [a[0]] + a[1..] && b == [b[0]] + b[1..];
      if k: nat :| k < |a[1..]| && k < |b[1..]| && a[1..][..k] == b[1..][..k] && a[1..][k] < b[1..][k] {
        assert a[..k + 1] == [a[0]] + a[1..][..k] && b[..k + 1] == [b[0]] + b[1..][..k];
        assert a[k + 1] < b[k + 1];
      }
      if k: nat :| k < |a| && k < |b| && a[..k] == b[..k] && a[k] < b[k] {
        assert k > 0;
        assert a[1..][..k - 1] == a[..k][1..] && b[1..][..k - 1] == b[..k][1..];
        assert a[1..][k - 1] < b[1..][k - 1];
      }
    } else if a != "" && b != "" {
      if a[0] < b[0] {
        assert a[..0] == b[..0];
      }
      if k: nat :| k < |a| && k < |b| && a[..k] == b[..k] && a[k] < b[k] {
        SamePrefixSameHead(a, b, k);
      }
    }
  }

  lemma ZoneRankIsIndex(t: string)
    ensures IndexOf(PREFERRED_THERMAL_ZONE_TYPES, t) == ZoneRank(t)
  {
    IndexStep(t, "acpitz", []);
    IndexStep(t, "k10temp", ["acpitz"]);
    IndexStep(t, "coretemp", ["k10temp", "acpitz"]);
    IndexStep(t, "cpu-thermal", ["coretemp", "k10temp", "acpitz"]);
    IndexStep(t, "cpu_thermal", ["cpu-thermal", "coretemp", "k10temp", "acpitz"]);
    IndexStep(t, "x86_pkg_temp", ["cpu_thermal", "cpu-thermal", "coretemp", "k10temp", "acpitz"]);
    assert ["acpitz"] + [] == ["acpitz"] && ["k10temp"] + ["acpitz"] == ["k10temp", "acpitz"];
    assert ["coretemp"] + ["k10temp", "acpitz"] == ["coretemp", "k10temp", "acpitz"];
    assert ["cpu-thermal"] + ["coretemp", "k10temp", "acpitz"] == ["cpu-thermal", "coretemp", "k10temp", "acpitz"];
    assert ["cpu_thermal"] + ["cpu-thermal", "coretemp", "k10temp", "acpitz"]
      == ["cpu_thermal", "cpu-thermal", "coretemp", "k10temp", "acpitz"];
    assert ["x86_pkg_temp"] + ["cpu_thermal", "cpu-thermal", "coretemp", "k10temp", "acpitz"] == PREFERRED_THERMAL_ZONE_TYPES;
    assert IndexOf([], t) == 0;
  }

  lemma ZoneCandidate(zone: Zone, texts: Texts)
    ensures PickZone(texts)(zone) ==
      if ReadsNow(texts, ZoneTemp(zone.name))
      then [Candidate(ZoneRank(zone.zoneType), zone.name, texts[ZoneTemp(zone.name)] / 1000.0, ZoneTemp(zone.name))]
      else []
  {
    ZoneRankIsIndex(zone.zoneType);
    hide IndexOf, ZoneRank;
  }

  lemma InputCandidate(input: Input, texts: Texts)
    ensures PickInput(texts)(input) ==
      if !ForeignDriver(input.driver) && ReadsNow(texts, HwmonInput(input.file))
      then [Candidate(InputRank(input), input.file, texts[HwmonInput(input.file)] / 1000.0, HwmonInput(input.file))]
      else []
  {
  }

  /** The zone is the best of the zones that read. */
  ghost predicate BestZone(tree: SensorTree, texts: Texts, z: Zone) {
    && z in tree.zones && ReadsNow(texts, ZoneTemp(z.name))
    && forall y <- tree.zones | ReadsNow(texts, ZoneTemp(y.name)) ::
         Before(ZoneRank(z.zoneType), z.name, ZoneRank(y.zoneType), y.name)
  }

  /** No zone reads, and the input is the best of the inputs that read and do not belong to another device. */
  ghost predicate BestInput(tree: SensorTree, texts: Texts, i: Input) {
    && (forall z <- tree.zones :: !ReadsNow(texts, ZoneTemp(z.name)))
    && i in tree.inputs && !ForeignDriver(i.driver) && ReadsNow(texts, HwmonInput(i.file))
    && forall y <- tree.inputs | !ForeignDriver(y.driver) && ReadsNow(texts, HwmonInput(y.file)) ::
         Before(InputRank(i), i.file, InputRank(y), y.file)
  }

  /** Discovery reports, in degrees, the best zone, or else the best input. */
  lemma DiscoveryPrefers(tree: SensorTree, texts: Texts)
    ensures match Discover(tree, texts)
      case Some(c) =>
        && c.path in texts && c.temperature == texts[c.path] / 1000.0
        && ((exists z: Zone :: c.path == ZoneTemp(z.name) && BestZone(tree, texts, z))
            || (exists i: Input :: c.path == HwmonInput(i.file) && BestInput(tree, texts, i)))
      case None =>
        && (forall z <- tree.zones :: !ReadsNow(texts, ZoneTemp(z.name)))
        && (forall i <- tree.inputs :: ForeignDriver(i.driver) || !ReadsNow(texts, HwmonInput(i.file)))
  {
    var zones, inputs := Collect(tree.zones, PickZone(texts)), Collect(tree.inputs, PickInput(texts));
    SortEmpty(zones);
    SortEmpty(inputs);
    if zones != [] {
      var z := FirstZone(tree, texts);
    } else {
      NoZoneReads(tree, texts);
      if inputs != [] {
        var i := FirstInput(tree, texts);
      } else {
        NoInputReads(tree, texts);
      }
    }
  }

  lemma {:induction false} NothingPicked<T>(s: seq<T>, pick: T -> seq<Candidate>)
    requires Collect(s, pick) == []
    ensures forall x <- s :: pick(x) == []
  {
    if s != [] {
      NothingPicked(s[1..], pick);
    }
  }

  lemma NoZoneReads(tree: SensorTree, texts: Texts)
    requires Collect(tree.zones, PickZone(texts)) == []
    ensures forall z <- tree.zones :: !ReadsNow(texts, ZoneTemp(z.name))
  {
    NothingPicked(tree.zones, PickZone(texts));
    forall z | z in tree.zones ensures !ReadsNow(texts, ZoneTemp(z.name)) {
      ZoneCandidate(z, texts);
      hide PickZone, ReadsNow;
    }
  }

  lemma NoInputReads(tree: SensorTree, texts: Texts)
    requires Collect(tree.inputs, PickInput(texts)) == []
    ensures forall i <- tree.inputs :: ForeignDriver(i.driver) || !ReadsNow(texts, HwmonInput(i.file))
  {
    NothingPicked(tree.inputs, PickInput(texts));
    forall i | i in tree.inputs ensures ForeignDriver(i.driver) || !ReadsNow(texts, HwmonInput(i.file)) {
      InputCandidate(i, texts);
      hide PickInput, ReadsNow, ForeignDriver;
    }
  }

  lemma FirstZone(tree: SensorTree, texts: Texts) returns (z: Zone)
    requires StableSort(Collect(tree.zones, PickZone(texts)), CandidateLe) != []
    ensures Discover(tree, texts).Some? && BestZone(tree, texts, z)
    ensures var c := Discover(tree, texts).value; c.path == ZoneTemp(z.name) && c.temperature == texts[c.path] / 1000.0
  {
    var zones := Collect(tree.zones, PickZone(texts));
    SortedHead(zones);
    var c := StableSort(zones, CandidateLe)[0];
    hide ZoneRank, LexLe, StableSort, ReadsNow, PickZone, Collect;
    CollectOrigin(tree.zones, PickZone(texts));
    z :| z in tree.zones && c in PickZone(texts)(z);
    ZoneCandidate(z, texts);
    forall y | y in tree.zones && ReadsNow(texts, ZoneTemp(y.name))
      ensures Before(ZoneRank(z.zoneType), z.name, ZoneRank(y.zoneType), y.name)
    {
      ZoneCandidate(y, texts);
      var d := PickZone(texts)(y)[0];
      assert d in PickZone(texts)(y) && d in zones;
    }
    ReadsPath(texts, c.path);
  }

  lemma ReadsPath(texts: Texts, path: Path)
    ensures ReadsNow(texts, path) ==> path in texts
  {
  }

  lemma FirstInput(tree: SensorTree, texts: Texts) returns (i: Input)
    requires Collect(tree.zones, PickZone(texts)) == []
    requires StableSort(Collect(tree.inputs, PickInput(texts)), CandidateLe) != []
    ensures Discover(tree, texts).Some? && BestInput(tree, texts, i)
    ensures var c := Discover(tree, texts).value; c.path == HwmonInput(i.file) && c.temperature == texts[c.path] / 1000.0
  {
    hide PickInput, PickZone, InputRank, LexLe, ReadsNow, ForeignDriver, Collect;
    var inputs := Collect(tree.inputs, PickInput(texts));
    SortEmpty(Collect(tree.zones, PickZone(texts)));
    var c := StableSort(inputs, CandidateLe)[0];
    assert Discover(tree, texts) == Some(c);
    hide StableSort, Discover;
    NoZoneReads(tree, texts);
    SortedHead(inputs);
    CollectOrigin(tree.inputs, PickInput(texts));
    i :| i in tree.inputs && c in PickInput(texts)(i);
    InputCandidate(i, texts);
    forall y | y in tree.inputs && !ForeignDriver(y.driver) && ReadsNow(texts, HwmonInput(y.file))
      ensures Before(InputRank(i), i.file, InputRank(y), y.file)
    {
      InputCandidate(y, texts);
      var d := PickInput(texts)(y)[0];
      assert d in PickInput(texts)(y) && d in inputs;
    }
    ReadsPath(texts, c.path);
  }
}
