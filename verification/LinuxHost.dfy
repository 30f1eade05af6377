/** CPU temperature discovery with its cached sensor path, and the stateful Linux host reader. */
module LinuxHost {
  import opened Telemetry
  import opened Sorting
  import opened Collecting
  import opened LinuxCounters

  const MIN_TEMPERATURE_C := -273.15
  const MAX_TEMPERATURE_C := 1000.0
  const PREFERRED_THERMAL_ZONE_TYPES := ["x86_pkg_temp", "cpu_thermal", "cpu-thermal", "coretemp", "k10temp", "acpitz"]
  const CPU_HWMON_DRIVERS := {"coretemp", "k10temp", "zenpower", "cpu_thermal", "cpu-thermal", "acpitz"}
  const NON_CPU_HWMON_DRIVERS := {"amdgpu", "nouveau", "nvidia", "nvme"}

  /** The file a temperature is read from, which its sensor's name determines. */
  datatype Path = ZoneTemp(zone: string) | HwmonInput(file: string)

  /** A thermal_zone directory with its lower-cased type. */
  datatype Zone = Zone(name: string, zoneType: string)

  /** A temp*_input file of a hwmon directory, with the driver's name; `cpuLabel`: its label names a CPU. */
  datatype Input = Input(file: string, driver: string, cpuLabel: bool)

  datatype SensorTree = SensorTree(zones: seq<Zone>, inputs: seq<Input>)

  /** The millidegree numbers that the readable files hold at one moment. */
  type Texts = map<Path, real>

  datatype Candidate = Candidate(priority: nat, name: string, temperature: real, path: Path)

  function Millidegrees(texts: Texts, path: Path): Option<real> {
    if path in texts && MIN_TEMPERATURE_C <= texts[path] / 1000.0 <= MAX_TEMPERATURE_C
    then Some(texts[path] / 1000.0)
    else None
  }

  function IndexOf(names: seq<string>, name: string): nat {
    if names == [] || names[0] == name then 0 else 1 + IndexOf(names[1..], name)
  }

  function PickZone(texts: Texts): Zone -> seq<Candidate> {
    (zone: Zone) =>
      match Millidegrees(texts, ZoneTemp(zone.name))
      case None => []
      case Some(t) =>
        [Candidate(IndexOf(PREFERRED_THERMAL_ZONE_TYPES, zone.zoneType), zone.name, t, ZoneTemp(zone.name))]
  }

  function PickInput(texts: Texts): Input -> seq<Candidate> {
    (input: Input) =>
      if input.driver in NON_CPU_HWMON_DRIVERS then []
      else
        match Millidegrees(texts, HwmonInput(input.file))
        case None => []
        case Some(t) =>
          [Candidate(if input.driver in CPU_HWMON_DRIVERS || input.cpuLabel then 0 else 1, input.file, t, HwmonInput(input.file))]
  }

  // ---- The order of Python tuples ----

  predicate LexLe(a: string, b: string) {
    a == "" || (b != "" && (a[0] < b[0] || (a[0] == b[0] && LexLe(a[1..], b[1..]))))
  }

  lemma {:induction false} LexTotal(a: string, b: string)
    ensures LexLe(a, b) || LexLe(b, a)
    ensures LexLe(a, b) && LexLe(b, a) ==> a == b
  {
    if a != "" && b != "" {
      LexTotal(a[1..], b[1..]);
      assert a == [a[0]] + a[1..] && b == [b[0]] + b[1..];
    }
  }

  lemma {:induction false} LexTransitive(a: string, b: string, c: string)
    requires LexLe(a, b) && LexLe(b, c)
    ensures LexLe(a, c)
  {
    if a != "" && a[0] == b[0] && b[0] == c[0] {
      LexTransitive(a[1..], b[1..], c[1..]);
    }
  }

  /** Priority first, then name. */
  predicate KeyLe(a: Candidate, b: Candidate) {
    a.priority < b.priority || (a.priority == b.priority && LexLe(a.name, b.name))
  }

  /** The tuple order: equal keys compare by temperature. */
  predicate CandidateLe(a: Candidate, b: Candidate) {
    KeyLe(a, b) && (KeyLe(b, a) ==> a.temperature <= b.temperature)
  }

  lemma KeyIsPreorder()
    ensures forall x, y :: KeyLe(x, y) || KeyLe(y, x)
    ensures forall x, y, z :: KeyLe(x, y) && KeyLe(y, z) ==> KeyLe(x, z)
  {
    forall x, y ensures KeyLe(x, y) || KeyLe(y, x) {
      LexTotal(x.name, y.name);
    }
    forall x, y, z | KeyLe(x, y) && KeyLe(y, z) ensures KeyLe(x, z) {
      if x.priority == y.priority == z.priority {
        LexTransitive(x.name, y.name, z.name);
      }
    }
  }

  lemma CandidateLeIsPreorder()
    ensures TotalPreorder(CandidateLe)
  {
    KeyIsPreorder();
    forall x, y, z | CandidateLe(x, y) && CandidateLe(y, z) ensures CandidateLe(x, z) {
      assert KeyLe(x, z);
      if KeyLe(z, x) {
        assert KeyLe(y, x) && KeyLe(z, y);
      }
    }
  }

  // ---- Discovery ----

  function ThermalCandidates(tree: SensorTree, texts: Texts): seq<Candidate> {
    StableSort(Collect(tree.zones, PickZone(texts)), CandidateLe)
  }

  function HwmonCandidates(tree: SensorTree, texts: Texts): seq<Candidate> {
    StableSort(Collect(tree.inputs, PickInput(texts)), CandidateLe)
  }

  /** The sensor a full traversal prefers: the first thermal zone, else the first hwmon input. */
  function Discover(tree: SensorTree, texts: Texts): Option<Candidate> {
    var thermal := ThermalCandidates(tree, texts);
    if thermal != [] then Some(thermal[0])
    else
      var hwmon := HwmonCandidates(tree, texts);
      if hwmon != [] then Some(hwmon[0]) else None
  }

  function Discovered(tree: SensorTree, texts: Texts): Measurement {
    match Discover(tree, texts)
    case Some(c) => Num(c.temperature)
    case None => Unsupported
  }

  /** One call of cpu_temperature. */
  function TemperatureStep(tree: SensorTree, cache: Option<Path>, texts: Texts): (Option<Path>, Measurement) {
    if cache.Some? && Millidegrees(texts, cache.value).Some? then
      (cache, Num(Millidegrees(texts, cache.value).value))
    else
      match Discover(tree, texts)
      case Some(c) => (Some(c.path), Num(c.temperature))
      case None => (None, Unsupported)
  }

  function TemperatureRun(tree: SensorTree, cache: Option<Path>, moments: seq<Texts>): seq<Measurement>
    decreases |moments|
  {
    if moments == [] then []
    else
      var (cache', out) := TemperatureStep(tree, cache, moments[0]);
      [out] + TemperatureRun(tree, cache', moments[1..])
  }

  /** The paths that can be candidates at all. */
  ghost predicate Eligible(tree: SensorTree, path: Path) {
    match path
    case ZoneTemp(name) => exists z <- tree.zones :: z.name == name
    case HwmonInput(file) => exists i <- tree.inputs :: i.file == file && i.driver !in NON_CPU_HWMON_DRIVERS
  }

  ghost predicate SensorValid(tree: SensorTree, texts: Texts, path: Path) {
    Eligible(tree, path) && Millidegrees(texts, path).Some?
  }

  lemma SortedHead(s: seq<Candidate>)
    requires StableSort(s, CandidateLe) != []
    ensures StableSort(s, CandidateLe)[0] in s
    ensures forall c <- s :: KeyLe(StableSort(s, CandidateLe)[0], c)
  {
    var t := StableSort(s, CandidateLe);
    CandidateLeIsPreorder();
    StableSortSpec(s, CandidateLe);
    assert t[0] in multiset(t);
    assert KeyLe(t[0], t[0]) by {
      KeyIsPreorder();
    }
    forall c | c in s ensures KeyLe(t[0], c) {
      assert c in multiset(t);
      var i :| 0 <= i < |t| && t[i] == c;
      assert i == 0 || CandidateLe(t[0], t[i]);
    }
  }

  lemma ZoneCandidates(tree: SensorTree, texts: Texts, c: Candidate)
    ensures c in Collect(tree.zones, PickZone(texts)) <==>
      exists z <- tree.zones :: c in PickZone(texts)(z)
    ensures c in Collect(tree.zones, PickZone(texts)) ==>
      c.path == ZoneTemp(c.name) && SensorValid(tree, texts, c.path) && Millidegrees(texts, c.path) == Some(c.temperature)
  {
    CollectOrigin(tree.zones, PickZone(texts));
  }

  lemma InputCandidates(tree: SensorTree, texts: Texts, c: Candidate)
    ensures c in Collect(tree.inputs, PickInput(texts)) <==>
      exists i <- tree.inputs :: c in PickInput(texts)(i)
    ensures c in Collect(tree.inputs, PickInput(texts)) ==>
      c.path == HwmonInput(c.name) && SensorValid(tree, texts, c.path) && Millidegrees(texts, c.path) == Some(c.temperature)
  {
    CollectOrigin(tree.inputs, PickInput(texts));
  }

  lemma SortEmpty(s: seq<Candidate>)
    ensures StableSort(s, CandidateLe) == [] <==> s == []
  {
    StableSortPermutes(s, CandidateLe);
  }

  /** What discovery finds is a valid sensor with its current temperature, and it finds one if there is one. */
  lemma DiscoverIsSound(tree: SensorTree, texts: Texts)
    ensures Discover(tree, texts).Some? ==>
      var c := Discover(tree, texts).value;
      SensorValid(tree, texts, c.path) && Millidegrees(texts, c.path) == Some(c.temperature)
    ensures Discover(tree, texts).None? <==> forall p :: !SensorValid(tree, texts, p)
  {
    var zones, inputs := Collect(tree.zones, PickZone(texts)), Collect(tree.inputs, PickInput(texts));
    SortEmpty(zones);
    SortEmpty(inputs);
    if zones != [] {
      SortedHead(zones);
      ZoneCandidates(tree, texts, Discover(tree, texts).value);
    } else if inputs != [] {
      SortedHead(inputs);
      InputCandidates(tree, texts, Discover(tree, texts).value);
    } else {
      forall p ensures !SensorValid(tree, texts, p) {
        NoCandidateNoSensor(tree, texts, p);
      }
    }
  }

  lemma NoCandidateNoSensor(tree: SensorTree, texts: Texts, p: Path)
    requires Collect(tree.zones, PickZone(texts)) == [] && Collect(tree.inputs, PickInput(texts)) == []
    ensures !SensorValid(tree, texts, p)
  {
    if SensorValid(tree, texts, p) {
      match p {
        case ZoneTemp(name) =>
          var z :| z in tree.zones && z.name == name;
          ZoneCandidates(tree, texts, PickZone(texts)(z)[0]);
        case HwmonInput(file) =>
          var i :| i in tree.inputs && i.file == file && i.driver !in NON_CPU_HWMON_DRIVERS;
          InputCandidates(tree, texts, PickInput(texts)(i)[0]);
      }
    }
  }

  /** A call is unsupported exactly when no sensor of the tree is currently valid. */
  lemma UnsupportedIffNoSensor(tree: SensorTree, cache: Option<Path>, texts: Texts)
    requires cache.Some? ==> Eligible(tree, cache.value)
    ensures var (cache', out) := TemperatureStep(tree, cache, texts);
      && (out == Unsupported <==> forall p :: !SensorValid(tree, texts, p))
      && (cache'.Some? ==> Eligible(tree, cache'.value))
  {
    DiscoverIsSound(tree, texts);
    if cache.Some? && Millidegrees(texts, cache.value).Some? {
      assert SensorValid(tree, texts, cache.value);
    }
  }

  // ---- The cache agrees with discovery ----

  ghost predicate SameValidSensors(tree: SensorTree, a: Texts, b: Texts) {
    forall p :: SensorValid(tree, a, p) == SensorValid(tree, b, p)
  }

  lemma Counterpart(tree: SensorTree, a: Texts, b: Texts, c: Candidate) returns (d: Candidate)
    requires SameValidSensors(tree, a, b)
    requires c in Collect(tree.zones, PickZone(a)) || c in Collect(tree.inputs, PickInput(a))
    ensures d.path == c.path && KeyLe(d, c) && KeyLe(c, d)
    ensures c in Collect(tree.zones, PickZone(a)) ==> d in Collect(tree.zones, PickZone(b))
    ensures c !in Collect(tree.zones, PickZone(a)) ==> d in Collect(tree.inputs, PickInput(b))
  {
    LexTotal(c.name, c.name);
    ZoneCandidates(tree, a, c);
    InputCandidates(tree, a, c);
    assert SensorValid(tree, b, c.path);
    d := c.(temperature := Millidegrees(b, c.path).value);
    ZoneCandidates(tree, b, d);
    InputCandidates(tree, b, d);
    if c in Collect(tree.zones, PickZone(a)) {
      var z :| z in tree.zones && c in PickZone(a)(z);
      assert d in PickZone(b)(z);
    } else {
      var i :| i in tree.inputs && c in PickInput(a)(i);
      assert d in PickInput(b)(i);
    }
  }

  lemma SameHead(s: seq<Candidate>, t: seq<Candidate>, c: Candidate, d: Candidate)
    requires StableSort(s, CandidateLe) != [] && StableSort(t, CandidateLe) != []
    requires d in t && KeyLe(d, StableSort(s, CandidateLe)[0])
    requires c in s && KeyLe(c, StableSort(t, CandidateLe)[0])
    ensures StableSort(s, CandidateLe)[0].name == StableSort(t, CandidateLe)[0].name
  {
    var x, y := StableSort(s, CandidateLe)[0], StableSort(t, CandidateLe)[0];
    SortedHead(s);
    SortedHead(t);
    KeyIsPreorder();
    assert KeyLe(x, c) && KeyLe(y, d);
    assert KeyLe(x, y) && KeyLe(y, x);
    LexTotal(x.name, y.name);
  }

  /** The sensor discovery prefers depends on which sensors are valid, never on the temperatures. */
  lemma PreferenceIgnoresTemperatures(tree: SensorTree, a: Texts, b: Texts)
    requires SameValidSensors(tree, a, b)
    ensures Discover(tree, a).Some? == Discover(tree, b).Some?
    ensures Discover(tree, a).Some? ==> Discover(tree, a).value.path == Discover(tree, b).value.path
  {
    var za, zb := Collect(tree.zones, PickZone(a)), Collect(tree.zones, PickZone(b));
    var ia, ib := Collect(tree.inputs, PickInput(a)), Collect(tree.inputs, PickInput(b));
    SortEmpty(za);
    SortEmpty(zb);
    SortEmpty(ia);
    SortEmpty(ib);
    if za != [] {
      var x := Counterpart(tree, a, b, za[0]);
    }
    if zb != [] {
      var x := Counterpart(tree, b, a, zb[0]);
    }
    assert za == [] <==> zb == [];
    if za != [] {
      SortedHead(za);
      SortedHead(zb);
      var d := Counterpart(tree, a, b, StableSort(za, CandidateLe)[0]);
      var c := Counterpart(tree, b, a, StableSort(zb, CandidateLe)[0]);
      SameHead(za, zb, c, d);
      ZoneCandidates(tree, a, StableSort(za, CandidateLe)[0]);
      ZoneCandidates(tree, b, StableSort(zb, CandidateLe)[0]);
    } else {
      if ia != [] {
        var x := Counterpart(tree, a, b, ia[0]);
      }
      if ib != [] {
        var x := Counterpart(tree, b, a, ib[0]);
      }
      if ia != [] {
        SortedHead(ia);
        SortedHead(ib);
        var d := Counterpart(tree, a, b, StableSort(ia, CandidateLe)[0]);
        var c := Counterpart(tree, b, a, StableSort(ib, CandidateLe)[0]);
        SameHead(ia, ib, c, d);
        InputCandidates(tree, a, StableSort(ia, CandidateLe)[0]);
        InputCandidates(tree, b, StableSort(ib, CandidateLe)[0]);
      }
    }
  }

  /** A cache that holds discovery's choice answers as discovery would, and keeps holding it. */
  lemma FreshCacheStep(tree: SensorTree, cache: Option<Path>, texts: Texts)
    requires cache.Some? ==> Discover(tree, texts).Some? && cache.value == Discover(tree, texts).value.path
    ensures var (cache', out) := TemperatureStep(tree, cache, texts);
      && out == Discovered(tree, texts)
      && (cache'.Some? <==> Discover(tree, texts).Some?)
      && (cache'.Some? ==> cache'.value == Discover(tree, texts).value.path)
  {
    DiscoverIsSound(tree, texts);
  }

  /** While the set of valid sensors stays the same, every cached answer equals a full rediscovery. */
  lemma {:induction false} CacheAgreesWithDiscovery(tree: SensorTree, cache: Option<Path>, moments: seq<Texts>)
    requires forall i | 0 <= i < |moments| :: SameValidSensors(tree, moments[0], moments[i])
    requires cache.Some? && moments != [] ==>
      Discover(tree, moments[0]).Some? && cache.value == Discover(tree, moments[0]).value.path
    ensures |TemperatureRun(tree, cache, moments)| == |moments|
    ensures forall i | 0 <= i < |moments| :: TemperatureRun(tree, cache, moments)[i] == Discovered(tree, moments[i])
    decreases |moments|
  {
    if moments != [] {
      FreshCacheStep(tree, cache, moments[0]);
      var rest := moments[1..];
      var cache' := TemperatureStep(tree, cache, moments[0]).0;
      if rest != [] {
        assert SameValidSensors(tree, moments[0], moments[1]);
        forall i | 0 <= i < |rest| ensures SameValidSensors(tree, rest[0], rest[i]) {
          assert SameValidSensors(tree, moments[0], moments[i + 1]);
        }
        PreferenceIgnoresTemperatures(tree, moments[0], rest[0]);
      }
      CacheAgreesWithDiscovery(tree, cache', rest);
    }
  }

  // ---- The reader ----

  class LinuxHostReader {
    const selection: Selection
    const tree: SensorTree
    var previousCpu: Option<CpuReading>
    var previousDisk: Option<DiskReading>
    var temperatureFile: Option<Path>

    constructor (selection: Selection, tree: SensorTree)
      ensures this.selection == selection && this.tree == tree
      ensures previousCpu == None && previousDisk == None && temperatureFile == None
    {
      this.selection := selection;
      this.tree := tree;
      previousCpu := None;
      previousDisk := None;
      temperatureFile := None;
    }

    /** A failed read or parse reports nothing and keeps the baseline; a success becomes the baseline. */
    method CpuPercent(stat: Outcome<seq<Line>>) returns (percent: Measurement)
      modifies this`previousCpu
      ensures var parsed := if stat.Ok? then ParseProcStat(stat.value) else None;
        (previousCpu, percent) == CpuStep(old(previousCpu), parsed)
      ensures percent.Num? ==> 0.0 <= percent.value <= 100.0
    {
      var parsed := if stat.Ok? then ParseProcStat(stat.value) else None;
      if parsed.None? {
        return Unsupported;
      }
      var previous := previousCpu;
      previousCpu := parsed;
      if previous.None? {
        return Unsupported;
      }
      var totalDelta := parsed.value.total - previous.value.total;
      var idleDelta := parsed.value.idle - previous.value.idle;
      if totalDelta <= 0 || idleDelta < 0 || idleDelta > totalDelta {
        return Unsupported;
      }
      percent := Num(Clamp((totalDelta - idleDelta) as real * 100.0 / totalDelta as real));
    }

    /** `now` is None when the clock's answer is not a finite number. */
    method DiskRates(diskstats: Outcome<seq<Line>>, now: Outcome<Option<real>>) returns (out: DiskThroughput)
      modifies this`previousDisk
      ensures
        var totals := if diskstats.Ok? then DiskTotals(diskstats.value, selection) else None;
        var parsed := if totals.Some? && now.Ok? && now.value.Some?
                      then Some(DiskReading(now.value.value, totals.value.0, totals.value.1)) else None;
        (previousDisk, out) == DiskStep(old(previousDisk), parsed)
    {
      var totals: Option<(int, int)> := None;
      if diskstats.Ok? {
        totals := ParseDiskstats(diskstats.value, selection);
      }
      if totals.None? || now.Raised? || now.value.None? {
        return DiskThroughput(Unsupported, Unsupported);
      }
      var after := DiskReading(now.value.value, totals.value.0, totals.value.1);
      var previous := previousDisk;
      previousDisk := Some(after);
      if previous.None? {
        return DiskThroughput(Unsupported, Unsupported);
      }
      var elapsed := after.at - previous.value.at;
      if elapsed <= 0.0 {
        return DiskThroughput(Unsupported, Unsupported);
      }
      var readRate, writeRate := Unsupported, Unsupported;
      if after.bytesRead >= previous.value.bytesRead {
        readRate := Num((after.bytesRead - previous.value.bytesRead) as real / elapsed);
      }
      if after.bytesWritten >= previous.value.bytesWritten {
        writeRate := Num((after.bytesWritten - previous.value.bytesWritten) as real / elapsed);
      }
      out := DiskThroughput(readRate, writeRate);
    }

    /** The cached path if it still reads as a temperature, otherwise a fresh discovery. */
    method CpuTemperature(texts: Texts) returns (temperature: Measurement)
      requires temperatureFile.Some? ==> Eligible(tree, temperatureFile.value)
      modifies this`temperatureFile
      ensures (temperatureFile, temperature) == TemperatureStep(tree, old(temperatureFile), texts)
      ensures temperatureFile.Some? ==> Eligible(tree, temperatureFile.value)
      ensures temperature == Unsupported <==> forall p :: !SensorValid(tree, texts, p)
    {
      UnsupportedIffNoSensor(tree, temperatureFile, texts);
      if temperatureFile.Some? {
        var cached := Millidegrees(texts, temperatureFile.value);
        if cached.Some? {
          return Num(cached.value);
        }
        temperatureFile := None;
      }
      var thermal := ThermalCandidates(tree, texts);
      if thermal != [] {
        temperatureFile := Some(thermal[0].path);
        return Num(thermal[0].temperature);
      }
      var hwmon := HwmonCandidates(tree, texts);
      if hwmon != [] {
        temperatureFile := Some(hwmon[0].path);
        return Num(hwmon[0].temperature);
      }
      return Unsupported;
    }
  }
}
