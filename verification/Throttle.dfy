/** How the two NVIDIA backends report throttling, and where their reports agree. */
module Throttle {
  import opened Telemetry
  import opened Collecting

  /** The bit of each reason in NVML's masks, in the order the NVML backend lists reasons. */
  const NVML_BITS: seq<(ThrottleReason, nat)> := [
    (GpuIdle, 0x01), (ApplicationsClocksSetting, 0x02), (SwPowerCap, 0x04), (HwSlowdown, 0x08),
    (SyncBoost, 0x10), (SwThermalSlowdown, 0x20), (HwThermalSlowdown, 0x40), (HwPowerBrakeSlowdown, 0x80)]

  /** The order in which the command backend lists them. */
  const SMI_COLUMNS: seq<ThrottleReason> := [
    GpuIdle, ApplicationsClocksSetting, SwPowerCap, HwSlowdown,
    HwThermalSlowdown, HwPowerBrakeSlowdown, SyncBoost, SwThermalSlowdown]

  predicate HasBit(mask: nat, bit: nat)
    requires bit > 0
  {
    mask / bit % 2 == 1
  }

  datatype ThrottleReport = ThrottleReport(reasons: seq<ThrottleReason>, available: bool)

  function PickBit(supported: nat, current: nat): ((ThrottleReason, nat)) -> seq<ThrottleReason> {
    (entry: (ThrottleReason, nat)) =>
      if entry.1 > 0 && HasBit(supported, entry.1) && HasBit(current, entry.1) then [entry.0] else []
  }

  /** NVML: masks that are not usable integers mean "cannot tell". */
  function FromMasks(supported: Option<int>, current: Option<int>): ThrottleReport {
    if supported.None? || current.None? || supported.value <= 0 || current.value < 0 then ThrottleReport([], false)
    else ThrottleReport(Collect(NVML_BITS, PickBit(supported.value, current.value)), true)
  }

  /** What a throttle cell says once its text is case-folded. */
  datatype CellState = SaysActive | SaysNotActive | SaysNothing

  function PickActive(states: ThrottleReason -> CellState): ThrottleReason -> seq<ThrottleReason> {
    (r: ThrottleReason) => if states(r).SaysActive? then [r] else []
  }

  /** nvidia-smi: "none active" is knowable once one cell says either thing. */
  function FromCells(states: ThrottleReason -> CellState): ThrottleReport {
    ThrottleReport(Collect(SMI_COLUMNS, PickActive(states)), exists r <- SMI_COLUMNS :: !states(r).SaysNothing?)
  }

  /** The command backend's loop over its columns. */
  method ReadCells(states: ThrottleReason -> CellState) returns (report: ThrottleReport)
    ensures report == FromCells(states)
  {
    var active: seq<ThrottleReason> := [];
    var recognized := false;
    for i := 0 to |SMI_COLUMNS|
      invariant active == Collect(SMI_COLUMNS[..i], PickActive(states))
      invariant recognized <==> exists j | 0 <= j < i :: !states(SMI_COLUMNS[j]).SaysNothing?
    {
      var name := SMI_COLUMNS[i];
      CollectStep(SMI_COLUMNS, i, PickActive(states));
      match states(name)
      case SaysActive =>
        recognized := true;
        active := active + [name];
      case SaysNotActive =>
        recognized := true;
      case SaysNothing =>
    }
    Whole(SMI_COLUMNS);
    if recognized {
      var j :| 0 <= j < |SMI_COLUMNS| && !states(SMI_COLUMNS[j]).SaysNothing?;
      assert SMI_COLUMNS[j] in SMI_COLUMNS;
    }
    report := ThrottleReport(active, recognized);
  }

  function BitOf(r: ThrottleReason): nat {
    match r
    case GpuIdle => 0x01
    case ApplicationsClocksSetting => 0x02
    case SwPowerCap => 0x04
    case HwSlowdown => 0x08
    case SyncBoost => 0x10
    case SwThermalSlowdown => 0x20
    case HwThermalSlowdown => 0x40
    case HwPowerBrakeSlowdown => 0x80
    case Other(_) => 0
  }

  /** The cells say Active or Not Active for exactly the supported bits. */
  ghost predicate Mirrors(states: ThrottleReason -> CellState, supported: nat, current: nat) {
    forall r <- SMI_COLUMNS ::
      BitOf(r) > 0 &&
      states(r) == if !HasBit(supported, BitOf(r)) then SaysNothing
                   else if HasBit(current, BitOf(r)) then SaysActive else SaysNotActive
  }

  lemma KnownColumns(r: ThrottleReason)
    ensures r in SMI_COLUMNS <==> !r.Other?
  {
    assert SMI_COLUMNS[0] == GpuIdle && SMI_COLUMNS[1] == ApplicationsClocksSetting && SMI_COLUMNS[2] == SwPowerCap;
    assert SMI_COLUMNS[3] == HwSlowdown && SMI_COLUMNS[4] == HwThermalSlowdown && SMI_COLUMNS[5] == HwPowerBrakeSlowdown;
    assert SMI_COLUMNS[6] == SyncBoost && SMI_COLUMNS[7] == SwThermalSlowdown;
  }

  lemma KnownBits(r: ThrottleReason, b: nat)
    ensures (r, b) in NVML_BITS <==> !r.Other? && b == BitOf(r)
  {
    assert NVML_BITS[0] == (GpuIdle, 0x01) && NVML_BITS[1] == (ApplicationsClocksSetting, 0x02);
    assert NVML_BITS[2] == (SwPowerCap, 0x04) && NVML_BITS[3] == (HwSlowdown, 0x08);
    assert NVML_BITS[4] == (SyncBoost, 0x10) && NVML_BITS[5] == (SwThermalSlowdown, 0x20);
    assert NVML_BITS[6] == (HwThermalSlowdown, 0x40) && NVML_BITS[7] == (HwPowerBrakeSlowdown, 0x80);
  }

  lemma BitReasonsOf(bits: seq<(ThrottleReason, nat)>, supported: nat, current: nat, r: ThrottleReason)
    ensures r in Collect(bits, PickBit(supported, current)) <==>
      exists b: nat :: (r, b) in bits && b > 0 && HasBit(supported, b) && HasBit(current, b)
  {
    CollectOrigin(bits, PickBit(supported, current));
    if b: nat :| (r, b) in bits && b > 0 && HasBit(supported, b) && HasBit(current, b) {
      assert r in PickBit(supported, current)((r, b));
    }
  }

  lemma CellReasonsOf(columns: seq<ThrottleReason>, states: ThrottleReason -> CellState, r: ThrottleReason)
    ensures r in Collect(columns, PickActive(states)) <==> r in columns && states(r).SaysActive?
  {
    CollectOrigin(columns, PickActive(states));
    if r in columns && states(r).SaysActive? {
      assert r in PickActive(states)(r);
    }
  }

  lemma MaskReasons(supported: nat, current: nat, r: ThrottleReason)
    requires supported > 0
    ensures r in FromMasks(Some(supported), Some(current)).reasons <==>
      !r.Other? && HasBit(supported, BitOf(r)) && HasBit(current, BitOf(r))
  {
    BitReasonsOf(NVML_BITS, supported, current, r);
    if !r.Other? {
      KnownBits(r, BitOf(r));
    }
    forall b: nat | (r, b) in NVML_BITS ensures !r.Other? && b == BitOf(r) {
      KnownBits(r, b);
    }
  }

  lemma CellReasons(states: ThrottleReason -> CellState, r: ThrottleReason)
    ensures r in FromCells(states).reasons <==> !r.Other? && states(r).SaysActive?
  {
    CellReasonsOf(SMI_COLUMNS, states, r);
    KnownColumns(r);
  }

  lemma FourBits(mask: nat)
    ensures mask % 16 == 0 <==>
      !HasBit(mask, 0x01) && !HasBit(mask, 0x02) && !HasBit(mask, 0x04) && !HasBit(mask, 0x08)
  {
    TwoBits(mask);
    TwoBits(mask / 4);
    assert mask / 4 / 2 == mask / 8;
    assert mask % 16 == 0 <==> mask % 4 == 0 && mask / 4 % 4 == 0;
  }

  lemma TwoBits(mask: nat)
    ensures mask % 4 == 0 <==> !HasBit(mask, 0x01) && !HasBit(mask, 0x02)
  {
  }

  lemma HighNibble(mask: nat)
    ensures HasBit(mask / 16, 0x01) == HasBit(mask, 0x10) && HasBit(mask / 16, 0x02) == HasBit(mask, 0x20)
    ensures HasBit(mask / 16, 0x04) == HasBit(mask, 0x40) && HasBit(mask / 16, 0x08) == HasBit(mask, 0x80)
  {
    assert mask / 16 / 2 == mask / 32 && mask / 16 / 4 == mask / 64 && mask / 16 / 8 == mask / 128;
  }

  lemma TwoNibbles(mask: nat)
    ensures mask % 256 == 0 <==> mask % 16 == 0 && mask / 16 % 16 == 0
  {
  }

  lemma EightBits(mask: nat)
    ensures mask % 256 == 0 <==>
      !HasBit(mask, 0x01) && !HasBit(mask, 0x02) && !HasBit(mask, 0x04) && !HasBit(mask, 0x08) &&
      !HasBit(mask, 0x10) && !HasBit(mask, 0x20) && !HasBit(mask, 0x40) && !HasBit(mask, 0x80)
  {
    hide HasBit;
    TwoNibbles(mask);
    FourBits(mask);
    FourBits(mask / 16);
    HighNibble(mask);
  }

  lemma LowByte(mask: nat)
    ensures mask % 256 == 0 <==> forall r: ThrottleReason :: !r.Other? ==> !HasBit(mask, BitOf(r))
  {
    EightBits(mask);
    hide HasBit;
    if forall r: ThrottleReason :: !r.Other? ==> !HasBit(mask, BitOf(r)) {
      assert !HasBit(mask, BitOf(GpuIdle)) && !HasBit(mask, BitOf(ApplicationsClocksSetting));
      assert !HasBit(mask, BitOf(SwPowerCap)) && !HasBit(mask, BitOf(HwSlowdown));
      assert !HasBit(mask, BitOf(SyncBoost)) && !HasBit(mask, BitOf(SwThermalSlowdown));
      assert !HasBit(mask, BitOf(HwThermalSlowdown)) && !HasBit(mask, BitOf(HwPowerBrakeSlowdown));
    }
  }

  lemma AnyCellIffLowByte(states: ThrottleReason -> CellState, supported: nat, current: nat)
    requires Mirrors(states, supported, current)
    ensures FromCells(states).available <==> supported % 256 != 0
  {
    LowByte(supported);
    forall r: ThrottleReason ensures r in SMI_COLUMNS <==> !r.Other? {
      KnownColumns(r);
    }
    hide HasBit, BitOf;
    if supported % 256 != 0 {
      var r: ThrottleReason :| !r.Other? && HasBit(supported, BitOf(r));
      assert r in SMI_COLUMNS && !states(r).SaysNothing?;
    } else {
      forall r | r in SMI_COLUMNS ensures states(r).SaysNothing? {
      }
    }
  }

  lemma MirroredReasons(states: ThrottleReason -> CellState, supported: nat, current: nat, r: ThrottleReason)
    requires Mirrors(states, supported, current)
    ensures r in FromMasks(Some(supported), Some(current)).reasons <==> r in FromCells(states).reasons
  {
    KnownColumns(r);
    CellReasons(states, r);
    EmptyMask(current);
    hide FromMasks, FromCells, HasBit, BitOf;
    if supported > 0 {
      MaskReasons(supported, current, r);
    }
  }

  lemma EmptyMask(current: nat)
    ensures FromMasks(Some(0), Some(current)) == ThrottleReport([], false)
    ensures forall bit: nat | bit > 0 :: !HasBit(0, bit)
  {
    hide Collect;
  }

  // ---- Masks that may be missing ----

  predicate Usable(supported: Option<int>, current: Option<int>) {
    supported.Some? && current.Some? && supported.value >= 0 && current.value >= 0
  }

  /** The cells say what the masks say, and nothing where the driver gave no usable masks. */
  ghost predicate MirrorsMasks(states: ThrottleReason -> CellState, supported: Option<int>, current: Option<int>) {
    if Usable(supported, current) then Mirrors(states, supported.value, current.value)
    else forall r <- SMI_COLUMNS :: states(r).SaysNothing?
  }

  /** The device supports reasons, but none that has a name. */
  predicate OnlyUnknownBits(supported: Option<int>, current: Option<int>) {
    Usable(supported, current) && supported.value > 0 && supported.value % 256 == 0
  }

  lemma NoMasksNoReasons(states: ThrottleReason -> CellState, supported: Option<int>, current: Option<int>)
    requires MirrorsMasks(states, supported, current) && !Usable(supported, current)
    ensures FromMasks(supported, current) == ThrottleReport([], false)
    ensures !FromCells(states).available && forall r :: r !in FromCells(states).reasons
  {
    forall r ensures r !in FromCells(states).reasons {
      CellReasons(states, r);
      KnownColumns(r);
    }
    hide Collect;
  }

  lemma HasMember(reasons: seq<ThrottleReason>)
    ensures reasons != [] ==> exists r :: r in reasons
  {
    if reasons != [] {
      assert reasons[0] in reasons;
    }
  }

  lemma NoKnownBitNoReason(supported: nat, current: nat)
    requires supported > 0 && supported % 256 == 0
    ensures FromMasks(Some(supported), Some(current)).reasons == []
  {
    var reasons := FromMasks(Some(supported), Some(current)).reasons;
    LowByte(supported);
    hide FromMasks, HasBit, BitOf;
    forall r ensures r !in reasons {
      MaskReasons(supported, current, r);
    }
    HasMember(reasons);
  }

  /**
   * For all masks the backends agree on the set of active reasons. They agree on availability exactly
   * unless the supported bits are all unknown; then NVML alone claims to know that no reason is active.
   */
  lemma BackendsAgreeOnThrottling(states: ThrottleReason -> CellState, supported: Option<int>, current: Option<int>)
    requires MirrorsMasks(states, supported, current)
    ensures forall r :: r in FromMasks(supported, current).reasons <==> r in FromCells(states).reasons
    ensures FromMasks(supported, current).available == FromCells(states).available <==> !OnlyUnknownBits(supported, current)
    ensures OnlyUnknownBits(supported, current) ==> FromMasks(supported, current) == ThrottleReport([], true)
  {
    hide FromMasks, FromCells, Mirrors;
    if Usable(supported, current) {
      var s, c := supported.value, current.value;
      AnyCellIffLowByte(states, s, c);
      MasksAvailable(s, c);
      forall r ensures r in FromMasks(supported, current).reasons <==> r in FromCells(states).reasons {
        MirroredReasons(states, s, c, r);
      }
      if s > 0 && s % 256 == 0 {
        NoKnownBitNoReason(s, c);
      }
    } else {
      NoMasksNoReasons(states, supported, current);
    }
  }

  lemma MasksAvailable(supported: nat, current: nat)
    ensures FromMasks(Some(supported), Some(current)).available <==> supported > 0
    ensures supported == 0 ==> supported % 256 == 0
  {
    hide Collect;
  }
}
