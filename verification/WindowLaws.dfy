/** Laws of the window's sort, energy estimate and evidence counts. */
module WindowLaws {
  import opened Telemetry
  import opened Sorting
  import opened Collecting
  import opened Window

  // ---- The order of the input ----

  /** Equal timestamps only ever belong to equal snapshots; distinct timestamps are a special case. */
  ghost predicate TiesAreEqual(s: seq<Snapshot>) {
    forall x, y :: x in s && y in s && x.timestamp == y.timestamp ==> x == y
  }

  /** The window does not see the order of its input when no two different snapshots tie. */
  lemma OrderIsIrrelevant(a: seq<Snapshot>, b: seq<Snapshot>)
    requires multiset(a) == multiset(b) && TiesAreEqual(a)
    ensures Chronological(a) == Chronological(b)
    ensures forall g :: ReportOn(Chronological(a), g) == ReportOn(Chronological(b), g)
  {
    NoLaterIsPreorder();
    SortIgnoresOrder(a, b, NoLater);
  }

  lemma PairFirst(a: seq<Snapshot>, i: nat, j: nat) returns (b: seq<Snapshot>)
    requires i < |a| && j < |a| && i != j
    ensures multiset([a[i], a[j]] + b) == multiset([a[j], a[i]] + b) == multiset(a)
  {
    var rest := MoveFirst(a, i);
    b := MoveFirst(rest, if j < i then j else j - 1);
  }

  /** Swapping two different snapshots that tie makes a different window. */
  lemma SwappedTieMatters(x: Snapshot, y: Snapshot, rest: seq<Snapshot>)
    requires x.timestamp == y.timestamp && x != y
    ensures Chronological([x, y] + rest) != Chronological([y, x] + rest)
  {
    var p, q := [x, y] + rest, [y, x] + rest;
    assert Ties(p, x, NoLater)[0] == x;
    assert Ties(q, x, NoLater)[0] == y;
    if Chronological(p) == Chronological(q) {
      NoLaterIsPreorder();
      SameSortSameTies(p, q, NoLater);
    }
  }

  lemma SomeOrderMatters(a: seq<Snapshot>) returns (b: seq<Snapshot>)
    requires !TiesAreEqual(a)
    ensures multiset(b) == multiset(a) && Chronological(b) != Chronological(a)
  {
    var x, y :| x in a && y in a && x.timestamp == y.timestamp && x != y;
    var i :| 0 <= i < |a| && a[i] == x;
    var j :| 0 <= j < |a| && a[j] == y;
    var rest := PairFirst(a, i, j);
    SwappedTieMatters(x, y, rest);
    b := if Chronological([x, y] + rest) != Chronological(a) then [x, y] + rest else [y, x] + rest;
  }

  /** Exactly then: two different snapshots that tie can be swapped into a different window. */
  lemma OrderIsIrrelevantIff(a: seq<Snapshot>)
    ensures TiesAreEqual(a) <==> forall b :: multiset(b) == multiset(a) ==> Chronological(b) == Chronological(a)
  {
    if TiesAreEqual(a) {
      forall b | multiset(b) == multiset(a) ensures Chronological(b) == Chronological(a) {
        OrderIsIrrelevant(a, b);
      }
    } else {
      var b := SomeOrderMatters(a);
    }
  }

  lemma MeasurementsDecideAggregates(s: seq<Snapshot>, t: seq<Snapshot>, g: int)
    requires forall f | f in {VramUsedBytes, PowerWatts, TemperatureC} ::
      |Measurements(s, g, f)| == |Measurements(t, g, f)|
    requires Peak(Measurements(s, g, VramUsedBytes)) == Peak(Measurements(t, g, VramUsedBytes))
    requires Peak(Measurements(s, g, TemperatureC)) == Peak(Measurements(t, g, TemperatureC))
    requires Mean(Measurements(s, g, PowerWatts)) == Mean(Measurements(t, g, PowerWatts))
    ensures SameAggregates(ReportOn(s, g), ReportOn(t, g))
  {
    hide Measurements, EnergyTerms, DeviceSamples, Verdict, Peak, Mean, Total;
    assert VramUsedBytes in {VramUsedBytes, PowerWatts, TemperatureC};
  }

  predicate SameAggregates(p: Report, q: Report) {
    && p.peakVram == q.peakVram && p.meanPower == q.meanPower && p.maxTemperature == q.maxTemperature
    && forall m | m in {PeakVramMetric, MeanPowerMetric, MaxTemperatureMetric} ::
      m in p.counts && m in q.counts && p.counts[m] == q.counts[m]
  }

  /** Peak, mean and maximum do not even depend on how ties are ordered. */
  lemma TiesDoNotMoveAggregates(a: seq<Snapshot>, b: seq<Snapshot>, g: int)
    requires multiset(a) == multiset(b)
    ensures SameAggregates(ReportOn(Chronological(a), g), ReportOn(Chronological(b), g))
  {
    var s, t := Chronological(a), Chronological(b);
    assert multiset(s) == multiset(t) by {
      StableSortPermutes(a, NoLater);
      StableSortPermutes(b, NoLater);
    }
    assert multiset(DeviceSamples(s, g)) == multiset(DeviceSamples(t, g)) by {
      CollectPermutes(s, t, PickDevice(g));
    }
    hide *;
    MeasurementsPermute(s, t, g, VramUsedBytes);
    MeasurementsPermute(s, t, g, PowerWatts);
    MeasurementsPermute(s, t, g, TemperatureC);
    PeakPermutes(Measurements(s, g, VramUsedBytes), Measurements(t, g, VramUsedBytes));
    PeakPermutes(Measurements(s, g, TemperatureC), Measurements(t, g, TemperatureC));
    MeanPermutes(Measurements(s, g, PowerWatts), Measurements(t, g, PowerWatts));
    MeasurementsDecideAggregates(s, t, g);
  }

  lemma MeanPermutes(v: seq<real>, w: seq<real>)
    requires multiset(v) == multiset(w) && |v| == |w|
    ensures Mean(v) == Mean(w)
  {
    SumPermutes(v, w);
  }

  lemma MeasurementsPermute(s: seq<Snapshot>, t: seq<Snapshot>, g: int, f: GpuField)
    requires multiset(DeviceSamples(s, g)) == multiset(DeviceSamples(t, g))
    ensures multiset(Measurements(s, g, f)) == multiset(Measurements(t, g, f))
    ensures |Measurements(s, g, f)| == |Measurements(t, g, f)|
  {
    CollectPermutes(DeviceSamples(s, g), DeviceSamples(t, g), PickValue(f));
    assert |multiset(Measurements(s, g, f))| == |multiset(Measurements(t, g, f))|;
  }

  lemma PeakPermutes(v: seq<real>, w: seq<real>)
    requires multiset(v) == multiset(w)
    ensures Peak(v) == Peak(w)
  {
    assert forall x :: x in multiset(v) <==> x in v;
    assert forall x :: x in multiset(w) <==> x in w;
    if v == [] {
      assert |multiset(w)| == 0;
      assert w == [];
    } else {
      assert v[0] in w;
      assert Peak(v).value in w && Peak(w).value in v;
    }
  }

  // ---- Energy ----

  lemma PairwiseStep(s: seq<Snapshot>)
    requires |s| >= 2
    ensures Pairwise(s) == [(s[0], s[1])] + Pairwise(s[1..])
  {
  }

  /** The integral over a window is its first interval and the integral over the rest. */
  lemma EnergyStep(s: seq<Snapshot>, g: int)
    requires |s| >= 2
    ensures EnergyTerms(s, g) == PickEnergy(g)((s[0], s[1])) + EnergyTerms(s[1..], g)
  {
    PairwiseStep(s);
    assert Pairwise(s)[1..] == Pairwise(s[1..]);
  }

  lemma EnergySumStep(s: seq<Snapshot>, g: int)
    requires |s| >= 2
    ensures Sum(EnergyTerms(s, g)) == Sum(PickEnergy(g)((s[0], s[1]))) + Sum(EnergyTerms(s[1..], g))
  {
    EnergyStep(s, g);
    SumAppend(PickEnergy(g)((s[0], s[1])), EnergyTerms(s[1..], g));
  }

  lemma PairwiseSplit(a: seq<Snapshot>, x: Snapshot, b: seq<Snapshot>)
    ensures Pairwise(a + [x] + b) == Pairwise(a + [x]) + Pairwise([x] + b)
  {
    var s, l, r := a + [x] + b, a + [x], [x] + b;
    var p, q := Pairwise(l), Pairwise(r);
    assert |Pairwise(s)| == |p| + |q| && |p| == |a|;
    forall k | 0 <= k < |p| + |q| ensures Pairwise(s)[k] == (p + q)[k] {
      assert Pairwise(s)[k] == (s[k], s[k + 1]);
      if k < |p| {
        assert p[k] == (l[k], l[k + 1]);
      } else {
        assert q[k - |p|] == (r[k - |p|], r[k - |p| + 1]);
      }
    }
  }

  lemma TermsSplit(a: seq<Snapshot>, x: Snapshot, b: seq<Snapshot>, g: int)
    ensures EnergyTerms(a + [x] + b, g) == EnergyTerms(a + [x], g) + EnergyTerms([x] + b, g)
  {
    hide Pairwise, PickEnergy, Collect;
    PairwiseSplit(a, x, b);
    CollectAppend(Pairwise(a + [x]), Pairwise([x] + b), PickEnergy(g));
  }

  /** Cutting a window at a snapshot that both parts share splits the energy terms. */
  lemma EnergyIsAdditive(a: seq<Snapshot>, x: Snapshot, b: seq<Snapshot>, g: int)
    ensures EnergyTerms(a + [x] + b, g) == EnergyTerms(a + [x], g) + EnergyTerms([x] + b, g)
    ensures Sum(EnergyTerms(a + [x] + b, g)) == Sum(EnergyTerms(a + [x], g)) + Sum(EnergyTerms([x] + b, g))
  {
    TermsSplit(a, x, b, g);
    SumAppend(EnergyTerms(a + [x], g), EnergyTerms([x] + b, g));
  }

  lemma OneInterval(x: Snapshot, y: Snapshot, g: int)
    ensures EnergyTerms([x] + [y], g) == PickEnergy(g)((x, y))
  {
    EnergyStep([x] + [y], g);
    assert EnergyTerms([y], g) == [];
    assert ([x] + [y])[1..] == [y];
  }

  lemma SameTimeSamePick(w: Snapshot, x: Snapshot, y: Snapshot, g: int)
    requires x.timestamp == y.timestamp
    ensures PickEnergy(g)((w, x)) == PickEnergy(g)((w, y))
  {
  }

  lemma LastIntervalSeesOnlyTheTime(a: seq<Snapshot>, x: Snapshot, y: Snapshot, g: int)
    requires x.timestamp == y.timestamp
    ensures EnergyTerms(a + [x], g) == EnergyTerms(a + [y], g)
  {
    if a != [] {
      var n := |a| - 1;
      SameTimeSamePick(a[n], x, y, g);
      hide *;
      OneInterval(a[n], x, g);
      OneInterval(a[n], y, g);
      TermsSplit(a[..n], a[n], [x], g);
      TermsSplit(a[..n], a[n], [y], g);
      assert a == a[..n] + [a[n]];
    }
  }

  /** Of snapshots with equal timestamps only the last matters to the energy of what surrounds them. */
  lemma OnlyTheLastOfATieCounts(a: seq<Snapshot>, x: Snapshot, y: Snapshot, b: seq<Snapshot>, g: int)
    requires x.timestamp == y.timestamp
    ensures EnergyTerms(a + [x] + [y] + b, g) == EnergyTerms(a + [y] + b, g)
  {
    hide EnergyTerms;
    TermsSplit(a + [x], y, b, g);
    TermsSplit(a, y, b, g);
    TermsSplit(a, x, [y], g);
    OneInterval(x, y, g);
    LastIntervalSeesOnlyTheTime(a, x, y, g);
  }

  function CoveredBetween(x: Snapshot, y: Snapshot, g: int): real {
    if IntegrablePower(x, y, g).Some? then y.timestamp - x.timestamp else 0.0
  }

  /** The seconds during which device `g` reported power. */
  function Covered(s: seq<Snapshot>, g: int): real {
    if |s| < 2 then 0.0
    else CoveredBetween(s[0], s[1], g) + Covered(s[1..], g)
  }

  lemma ProductNonNegative(x: real, y: real)
    requires x >= 0.0 && y >= 0.0
    ensures x * y >= 0.0
  {
  }

  lemma RectangleBetween(p: real, lo: real, hi: real, dt: real, covered: real)
    requires lo <= p <= hi && dt > 0.0
    ensures Rectangle(lo, dt + covered) <= Rectangle(p, dt) + Rectangle(lo, covered)
    ensures Rectangle(p, dt) + Rectangle(hi, covered) <= Rectangle(hi, dt + covered)
  {
    ProductNonNegative(p - lo, dt);
    ProductNonNegative(hi - p, dt);
    assert p * dt - lo * dt == (p - lo) * dt;
    assert hi * dt - p * dt == (hi - p) * dt;
    assert lo * (dt + covered) == lo * dt + lo * covered;
    assert hi * (dt + covered) == hi * dt + hi * covered;
  }

  ghost predicate PowerBetween(s: seq<Snapshot>, g: int, lo: real, hi: real) {
    forall i | 0 <= i < |s| - 1 ::
      IntegrablePower(s[i], s[i + 1], g).Some? ==> lo <= IntegrablePower(s[i], s[i + 1], g).value <= hi
  }

  lemma PowerBetweenRest(s: seq<Snapshot>, g: int, lo: real, hi: real)
    requires |s| >= 2 && PowerBetween(s, g, lo, hi)
    ensures PowerBetween(s[1..], g, lo, hi)
  {
    var rest := s[1..];
    forall i | 0 <= i < |rest| - 1
      ensures IntegrablePower(rest[i], rest[i + 1], g).Some? ==> lo <= IntegrablePower(rest[i], rest[i + 1], g).value <= hi
    {
      assert rest[i] == s[i + 1] && rest[i + 1] == s[i + 1 + 1];
    }
  }

  lemma IntervalBetween(x: Snapshot, y: Snapshot, g: int, lo: real, hi: real, covered: real)
    requires IntegrablePower(x, y, g).Some? ==> lo <= IntegrablePower(x, y, g).value <= hi
    ensures Rectangle(lo, CoveredBetween(x, y, g) + covered) <= Sum(PickEnergy(g)((x, y))) + Rectangle(lo, covered)
    ensures Sum(PickEnergy(g)((x, y))) + Rectangle(hi, covered) <= Rectangle(hi, CoveredBetween(x, y, g) + covered)
  {
    var terms := PickEnergy(g)((x, y));
    if IntegrablePower(x, y, g).Some? {
      assert terms[1..] == [];
      RectangleBetween(IntegrablePower(x, y, g).value, lo, hi, y.timestamp - x.timestamp, covered);
    }
  }

  /** The estimate, in joules, lies between the smallest and the largest power times the covered seconds. */
  lemma EnergyBetweenPowerBounds(s: seq<Snapshot>, g: int, lo: real, hi: real)
    requires PowerBetween(s, g, lo, hi)
    ensures lo * Covered(s, g) <= Sum(EnergyTerms(s, g)) <= hi * Covered(s, g)
  {
    EnergyBetweenRectangles(s, g, lo, hi);
  }

  lemma {:induction false} EnergyBetweenRectangles(s: seq<Snapshot>, g: int, lo: real, hi: real)
    requires PowerBetween(s, g, lo, hi)
    ensures Rectangle(lo, Covered(s, g)) <= Sum(EnergyTerms(s, g)) <= Rectangle(hi, Covered(s, g))
  {
    if |s| < 2 {
      assert EnergyTerms(s, g) == [];
    } else {
      PowerBetweenRest(s, g, lo, hi);
      hide EnergyTerms, Rectangle, IntegrablePower;
      EnergyBetweenRectangles(s[1..], g, lo, hi);
      IntervalBetween(s[0], s[1], g, lo, hi, Covered(s[1..], g));
      EnergySumStep(s, g);
      assert Covered(s, g) == CoveredBetween(s[0], s[1], g) + Covered(s[1..], g);
    }
  }

  /** Every interval of positive length has a power reading at its start. */
  ghost predicate PowerThroughout(s: seq<Snapshot>, g: int) {
    forall i | 0 <= i < |s| - 1 && s[i].timestamp < s[i + 1].timestamp :: IntegrablePower(s[i], s[i + 1], g).Some?
  }

  lemma PowerThroughoutStep(s: seq<Snapshot>, g: int)
    requires |s| >= 2
    ensures PowerThroughout(s, g) <==>
      PowerThroughout(s[1..], g) && (s[0].timestamp < s[1].timestamp ==> IntegrablePower(s[0], s[1], g).Some?)
  {
    var rest := s[1..];
    if PowerThroughout(s, g) {
      assert s[0 + 1] == s[1];
      forall i | 0 <= i < |rest| - 1 && rest[i].timestamp < rest[i + 1].timestamp
        ensures IntegrablePower(rest[i], rest[i + 1], g).Some?
      {
        assert rest[i] == s[i + 1] && rest[i + 1] == s[i + 1 + 1];
      }
    } else {
      var i :| 0 <= i < |s| - 1 && s[i].timestamp < s[i + 1].timestamp && IntegrablePower(s[i], s[i + 1], g).None?;
      assert i == 0 || (rest[i - 1] == s[i] && rest[i - 1 + 1] == s[i + 1]);
    }
  }

  /** Covered time never exceeds the window, and fills it exactly when no positive interval lacks power. */
  lemma {:induction false} CoveredAtMostSpan(s: seq<Snapshot>, g: int)
    requires s != [] && Sorted(s, NoLater)
    ensures 0.0 <= Covered(s, g) <= s[|s| - 1].timestamp - s[0].timestamp
    ensures Covered(s, g) == s[|s| - 1].timestamp - s[0].timestamp <==> PowerThroughout(s, g)
  {
    if |s| >= 2 {
      CoveredAtMostSpan(s[1..], g);
      PowerThroughoutStep(s, g);
      hide PowerThroughout;
      assert NoLater(s[0], s[1]);
    }
  }

  /** No interval the integrator looks at is negative, whatever order the snapshots came in. */
  lemma ElapsedNeverNegative(input: seq<Snapshot>, i: nat)
    requires i + 1 < |Chronological(input)|
    ensures Chronological(input)[i + 1].timestamp - Chronological(input)[i].timestamp >= 0.0
  {
    NoLaterIsPreorder();
    StableSortSpec(input, NoLater);
    assert NoLater(Chronological(input)[i], Chronological(input)[i + 1]);
  }

  // ---- Evidence counts ----

  predicate ReportsPower(x: Snapshot, g: int) {
    Collect(PickDevice(g)(x), PickValue(PowerWatts)) != []
  }

  lemma PowerIsOneReading(x: Snapshot, y: Snapshot, g: int)
    ensures |Collect(PickDevice(g)(x), PickValue(PowerWatts))| == if ReportsPower(x, g) then 1 else 0
    ensures x.timestamp < y.timestamp ==> |PickEnergy(g)((x, y))| == if ReportsPower(x, g) then 1 else 0
    ensures |PickEnergy(g)((x, y))| <= if ReportsPower(x, g) then 1 else 0
  {
    match FindDevice(x.gpus, g) {
      case None =>
      case Some(sample) => {
        assert [sample][1..] == [];
        assert Collect([sample], PickValue(PowerWatts)) == PickValue(PowerWatts)(sample) + [];
      }
    }
  }

  lemma PowerCountStep(s: seq<Snapshot>, g: int)
    requires s != []
    ensures |Measurements(s, g, PowerWatts)| ==
      (if ReportsPower(s[0], g) then 1 else 0) + |Measurements(s[1..], g, PowerWatts)|
  {
    CollectAppend(PickDevice(g)(s[0]), DeviceSamples(s[1..], g), PickValue(PowerWatts));
    PowerIsOneReading(s[0], s[0], g);
  }

  /** Energy uses every power reading but one in the final snapshot, which has no duration. */
  lemma {:induction false} EnergyCountIsPowerCountButTheLast(s: seq<Snapshot>, g: int)
    requires s != []
    requires forall i, j :: 0 <= i < j < |s| ==> s[i].timestamp < s[j].timestamp
    ensures EvidenceCount(s, g, MeanPowerMetric) ==
      EvidenceCount(s, g, EnergyMetric) + if ReportsPower(s[|s| - 1], g) then 1 else 0
  {
    PowerCountStep(s, g);
    if |s| == 1 {
      assert s[1..] == [];
    } else {
      PowerIsOneReading(s[0], s[1], g);
      EnergyStep(s, g);
      EnergyCountIsPowerCountButTheLast(s[1..], g);
    }
  }

  /** With ties the energy count can only be smaller. */
  lemma {:induction false} EnergyCountAtMostPowerCount(s: seq<Snapshot>, g: int)
    ensures EvidenceCount(s, g, EnergyMetric) <= EvidenceCount(s, g, MeanPowerMetric)
  {
    if s != [] {
      PowerCountStep(s, g);
      if |s| >= 2 {
        PowerIsOneReading(s[0], s[1], g);
        EnergyStep(s, g);
        EnergyCountAtMostPowerCount(s[1..], g);
      }
    }
  }

  /** A figure is unsupported exactly when its evidence count is zero; a supported one is what it says. */
  lemma FiguresMatchEvidence(s: seq<Snapshot>, g: int)
    ensures var r := ReportOn(s, g);
      && (r.peakVram == Unsupported <==> r.counts[PeakVramMetric] == 0)
      && (r.meanPower == Unsupported <==> r.counts[MeanPowerMetric] == 0)
      && (r.energy == Unsupported <==> r.counts[EnergyMetric] == 0)
      && (r.maxTemperature == Unsupported <==> r.counts[MaxTemperatureMetric] == 0)
      && (r.peakVram.Num? ==> IsMaximum(Measurements(s, g, VramUsedBytes), r.peakVram.value))
      && (r.maxTemperature.Num? ==> IsMaximum(Measurements(s, g, TemperatureC), r.maxTemperature.value))
  {
  }

  /** The mean lies between any bounds on the values it averages. */
  lemma MeanBetweenBounds(s: seq<Snapshot>, g: int, lo: real, hi: real)
    requires forall v <- Measurements(s, g, PowerWatts) :: lo <= v <= hi
    ensures Mean(Measurements(s, g, PowerWatts)).Num? ==> lo <= Mean(Measurements(s, g, PowerWatts)).value <= hi
  {
    var values := Measurements(s, g, PowerWatts);
    hide Measurements, Sum;
    if values != [] {
      SumBetween(values, lo, hi);
      DivideBetween(Sum(values), |values| as real, lo, hi);
    }
  }

  lemma DivideBetween(total: real, n: real, lo: real, hi: real)
    requires n > 0.0 && lo * n <= total <= hi * n
    ensures lo <= total / n <= hi
  {
    var q := total / n;
    assert q * n == total;
  }

  // ---- One device never sees another ----

  /** Two inputs with the same times whose snapshots are related one by one. */
  ghost predicate Aligned(a: seq<Snapshot>, b: seq<Snapshot>, rel: (Snapshot, Snapshot) -> bool) {
    |a| == |b| && forall i | 0 <= i < |a| :: a[i].timestamp == b[i].timestamp && rel(a[i], b[i])
  }

  lemma AlignedParts(a: seq<Snapshot>, b: seq<Snapshot>, c: seq<Snapshot>, d: seq<Snapshot>, rel: (Snapshot, Snapshot) -> bool)
    requires Aligned(a, b, rel) && Aligned(c, d, rel)
    ensures Aligned(a + c, b + d, rel)
  {
  }

  lemma {:induction false} InsertKeepsAlignment(
    x: Snapshot, s: seq<Snapshot>, y: Snapshot, t: seq<Snapshot>, rel: (Snapshot, Snapshot) -> bool)
    requires Aligned(s, t, rel) && Aligned([x], [y], rel)
    ensures Aligned(Insert(x, s, NoLater), Insert(y, t, NoLater), rel)
  {
    assert [x][0].timestamp == [y][0].timestamp;
    if s != [] {
      assert s[0].timestamp == t[0].timestamp && Aligned([s[0]], [t[0]], rel) && Aligned(s[1..], t[1..], rel);
      assert NoLater(x, s[0]) <==> NoLater(y, t[0]);
      hide Aligned, NoLater;
      if NoLater(x, s[0]) {
        AlignedParts([x], [y], s, t, rel);
      } else {
        InsertKeepsAlignment(x, s[1..], y, t[1..], rel);
        AlignedParts([s[0]], [t[0]], Insert(x, s[1..], NoLater), Insert(y, t[1..], NoLater), rel);
      }
    }
  }

  /** Sorting keeps related snapshots side by side. */
  lemma {:induction false} SortKeepsAlignment(a: seq<Snapshot>, b: seq<Snapshot>, rel: (Snapshot, Snapshot) -> bool)
    requires Aligned(a, b, rel)
    ensures Aligned(Chronological(a), Chronological(b), rel)
  {
    if a != [] {
      SortKeepsAlignment(a[1..], b[1..], rel);
      assert Aligned([a[0]], [b[0]], rel);
      InsertKeepsAlignment(a[0], Chronological(a[1..]), b[0], Chronological(b[1..]), rel);
    }
  }

  ghost function ShowsTheSame(g: int): (Snapshot, Snapshot) -> bool {
    (x: Snapshot, y: Snapshot) => FindDevice(x.gpus, g) == FindDevice(y.gpus, g)
  }

  /** Two inputs that show device `g` the same things at the same times. */
  ghost predicate SameView(a: seq<Snapshot>, b: seq<Snapshot>, g: int) {
    Aligned(a, b, ShowsTheSame(g))
  }

  lemma {:induction false} ViewDecidesSequences(s: seq<Snapshot>, t: seq<Snapshot>, g: int)
    requires SameView(s, t, g)
    ensures DeviceSamples(s, g) == DeviceSamples(t, g) && EnergyTerms(s, g) == EnergyTerms(t, g)
  {
    if s != [] {
      assert ShowsTheSame(g)(s[0], t[0]);
      ViewDecidesSequences(s[1..], t[1..], g);
      if |s| >= 2 {
        EnergyStep(s, g);
        EnergyStep(t, g);
      }
    }
  }

  lemma SequencesDecideReport(s: seq<Snapshot>, t: seq<Snapshot>, g: int)
    requires DeviceSamples(s, g) == DeviceSamples(t, g) && EnergyTerms(s, g) == EnergyTerms(t, g)
    ensures ReportOn(s, g) == ReportOn(t, g)
  {
    hide DeviceSamples, EnergyTerms, Verdict, Peak, Mean, Total, Collect;
    forall m ensures EvidenceCount(s, g, m) == EvidenceCount(t, g, m) {
    }
    hide EvidenceCount;
  }

  /** Everything reported about a device is decided by that device's own samples and the times. */
  lemma DevicesDoNotInterfere(a: seq<Snapshot>, b: seq<Snapshot>, g: int)
    requires SameView(a, b, g)
    ensures ReportOn(Chronological(a), g) == ReportOn(Chronological(b), g)
  {
    hide Aligned, ReportOn, Chronological;
    SortKeepsAlignment(a, b, ShowsTheSame(g));
    ViewDecidesSequences(Chronological(a), Chronological(b), g);
    SequencesDecideReport(Chronological(a), Chronological(b), g);
  }

  function OnlyDevice(x: Snapshot, g: int): Snapshot {
    x.(gpus := match FindDevice(x.gpus, g) case Some(sample) => [sample] case None => [])
  }

  lemma {:induction false} FoundHasIndex(gpus: seq<GpuSample>, g: int)
    ensures FindDevice(gpus, g).Some? ==> FindDevice(gpus, g).value.index == g
  {
    if gpus != [] && gpus[0].index != g {
      FoundHasIndex(gpus[1..], g);
    }
  }

  /** Keeping only each snapshot's first sample of device `g` changes nothing about `g`. */
  lemma OtherDevicesCanBeRemoved(a: seq<Snapshot>, g: int)
    ensures ReportOn(Chronological(a), g) == ReportOn(Chronological(seq(|a|, i requires 0 <= i < |a| => OnlyDevice(a[i], g))), g)
  {
    var b := seq(|a|, i requires 0 <= i < |a| => OnlyDevice(a[i], g));
    forall i | 0 <= i < |a|
      ensures a[i].timestamp == b[i].timestamp && FindDevice(a[i].gpus, g) == FindDevice(b[i].gpus, g)
    {
      FoundHasIndex(a[i].gpus, g);
    }
    DevicesDoNotInterfere(a, b, g);
  }
}
