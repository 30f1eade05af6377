/** /proc/meminfo: quantities by name, and what is used of the total. */
module LinuxMemory {
  import opened Telemetry
  import opened Collecting

  const KIB := 1024

  /** A field after the colon, with what int() makes of it. */
  datatype MemoryToken = MemoryToken(number: Option<int>, isKb: bool)

  /** A line without a colon, or a stripped name and the fields after it. */
  datatype MemoryLine = NoColon | Entry(name: string, fields: seq<MemoryToken>)

  datatype MemoryFigures = MemoryFigures(total: Option<int>, available: Option<int>, used: Option<int>)

  /** The bytes a line states for `name`, if it states any. */
  function BytesOf(line: MemoryLine, name: string): Option<int> {
    if line.NoColon? || line.name != name || line.fields == [] then None
    else
      var amount := line.fields[0].number;
      if amount.None? || amount.value < 0 || (|line.fields| > 1 && !line.fields[1].isKb) then None
      else Some(amount.value * KIB)
  }

  /** The last line that states something for `name` decides. */
  function Stated(lines: seq<MemoryLine>, name: string): Option<int> {
    if lines == [] then None
    else
      var n := |lines| - 1;
      if BytesOf(lines[n], name).Some? then BytesOf(lines[n], name) else Stated(lines[..n], name)
  }

  function OrZero(o: Option<int>): int {
    if o.Some? then o.value else 0
  }

  /** `v` is the number nearest to `x` between 0 and the bound, if there is a bound. */
  predicate NearestWithin(v: int, x: int, bound: Option<int>) {
    && v >= 0
    && (bound.Some? ==> v <= bound.value)
    && (v < x ==> bound == Some(v))
    && (v > x ==> v == 0)
  }

  lemma {:induction false} StatedNonNegative(lines: seq<MemoryLine>, name: string)
    ensures Stated(lines, name).Some? ==> Stated(lines, name).value >= 0
  {
    if lines != [] {
      StatedNonNegative(lines[..|lines| - 1], name);
    }
  }

  method MeminfoValues(lines: seq<MemoryLine>) returns (values: map<string, int>)
    ensures forall name :: Stated(lines, name) == if name in values then Some(values[name]) else None
  {
    values := map[];
    for i := 0 to |lines|
      invariant forall name :: Stated(lines[..i], name) == if name in values then Some(values[name]) else None
    {
      ghost var before := values;
      assert lines[..i + 1][..i] == lines[..i] && lines[..i + 1][i] == lines[i];
      if lines[i].NoColon? || lines[i].fields == [] {
        continue;
      }
      var amount := lines[i].fields[0].number;
      if amount.None? || amount.value < 0 || (|lines[i].fields| > 1 && !lines[i].fields[1].isKb) {
        continue;
      }
      values := values[lines[i].name := amount.value * KIB];
      forall name ensures Stated(lines[..i + 1], name) == if name in values then Some(values[name]) else None {
        assert Stated(lines[..i], name) == if name in before then Some(before[name]) else None;
      }
    }
    Whole(lines);
  }

  /**
   * Used and available memory add up to the total whenever all three are known. A stated availability
   * is never altered; an estimated one lies between 0 and the total, so it always leaves `used` known.
   */
  method ParseMeminfo(lines: seq<MemoryLine>) returns (r: MemoryFigures)
    ensures r.total == Stated(lines, "MemTotal")
    ensures Stated(lines, "MemAvailable").Some? ==> r.available == Stated(lines, "MemAvailable")
    ensures Stated(lines, "MemAvailable").None? ==> (r.available.Some? <==> Stated(lines, "MemFree").Some?)
    ensures Stated(lines, "MemAvailable").None? && r.available.Some? ==>
      var estimate := OrZero(Stated(lines, "MemFree")) + OrZero(Stated(lines, "Buffers")) + OrZero(Stated(lines, "Cached"))
        + OrZero(Stated(lines, "SReclaimable")) - OrZero(Stated(lines, "Shmem"));
      NearestWithin(r.available.value, estimate, r.total)
    ensures r.used.Some? <==> r.total.Some? && r.available.Some? && r.available.value <= r.total.value
    ensures r.used.Some? ==> r.used.value >= 0 && r.used.value + r.available.value == r.total.value
    ensures r.total.Some? && r.available.Some? && Stated(lines, "MemAvailable").None? ==> r.used.Some?
  {
    var values := MeminfoValues(lines);
    StatedNonNegative(lines, "MemTotal");
    var total := if "MemTotal" in values then Some(values["MemTotal"]) else None;
    var available := if "MemAvailable" in values then Some(values["MemAvailable"]) else None;
    if available.None? && "MemFree" in values {
      var fallback := values["MemFree"]
        + (if "Buffers" in values then values["Buffers"] else 0)
        + (if "Cached" in values then values["Cached"] else 0)
        + (if "SReclaimable" in values then values["SReclaimable"] else 0)
        - (if "Shmem" in values then values["Shmem"] else 0);
      fallback := if fallback > 0 then fallback else 0;
      if total.Some? && total.value < fallback {
        fallback := total.value;
      }
      available := Some(fallback);
    }
    var used := None;
    if total.Some? && available.Some? && available.value <= total.value {
      used := Some(total.value - available.value);
    }
    r := MemoryFigures(total, available, used);
  }
}
