/** The two settings commands of the Modbus master. Arguments are the 126 holding registers that follow the
    command register, of which the command claims the first `len`. */
module SettingsCommands {
  import opened DeviceTypes
  import opened DeviceConfig
  import opened RegisterMap
  import ConfigManager

  type Args = a: seq<Word> | |a| == 126 witness seq(126, _ => Word(0))

  function HighOf(w: Word): bv8 { ((w.bits >> 8) & 0xFF) as bv8 }
  function LowOf(w: Word): bv8 { (w.bits & 0xFF) as bv8 }

  lemma HalvesJoin(w: Word)
    ensures Pair(HighOf(w), LowOf(w)) == w && Plain(w.bits) == w
  {}

  // ----- Codes -----------------------------------------------------------------------------------

  const INFRARED_SENSOR: bv16 := 0x4576
  const PID_SENSOR: bv16 := 0x3754
  const C3H8: bv8 := 34
  const C5H12: bv8 := 37
  const C2H2: bv8 := 60
  const O2: bv8 := 65
  const TVOC: bv8 := 80
  const VOC: bv8 := 81
  const ISOBUTYLENE: bv8 := 85

  const DFLT_ENERGISED: bv8 := 0x02
  const TRIP_DIRECTION: bv8 := 0x04
  const ALRM_TRG_TYPE: bv8 := 0x08

  /** Three answers, one for each alarm. */
  type Ties = t: seq<bool> | |t| == 3 witness [false, false, false]

  /** The results of floating-point work: the stored doubles, and how rounding decides whether an alarm's
      hysteresis exceeds half its level when the two are exactly equal. */
  datatype FloatFields = FloatFields(reals: Bytes136, calibrationReals: Bytes80, ties: Ties)

  // ----- What a complete sensor package says --------------------------------------------------------

  function Kind(a: Args): bv16 { a[1].bits }
  function Gas(a: Args): bv8 { LowOf(a[2]) }
  function Unit(a: Args): bv8 { LowOf(a[3]) }

  predicate NamesCombustible(a: Args) { Kind(a) == CATALYTIC_SENSOR && Gas(a) != C2H2 }
  predicate NamesVoc(a: Args) { Kind(a) == PID_SENSOR && (Gas(a) == VOC || Gas(a) == TVOC) }

  function AppliedGas(a: Args): bv8 {
    if NamesCombustible(a) || NamesVoc(a) then LowOf(a[6]) else Gas(a)
  }

  /** Alarm `i` trips on a falling value. */
  predicate Falling(a: Args, i: nat)
    requires i < 3
  {
    HighOf(a[22 + 2 * i]) != 0
  }

  predicate Triggered(a: Args, len: nat, i: nat)
    requires i < 3
  {
    len >= 57 && if i == 0 then HighOf(a[56]) != 0 else if i == 1 then LowOf(a[56]) != 0 else HighOf(a[57]) != 0
  }

  function AlarmStatus(autoReset: bool, energised: bool, falling: bool, triggered: bool): bv8 {
    (if autoReset then AUTO_RESET else 0) | (if energised then DFLT_ENERGISED else 0)
    | (if falling then TRIP_DIRECTION else 0) | (if triggered then ALRM_TRG_TYPE else 0)
  }

  function StatusOf(a: Args, len: nat, i: nat): bv8
    requires i < 3
  {
    AlarmStatus(HighOf(a[21 + 2 * i]) != 0, LowOf(a[21 + 2 * i]) != 0, Falling(a, i), Triggered(a, len, i))
  }

  function Factor(a: Args, len: nat): bv16 {
    if len >= 64 && a[63].bits > 0 then a[63].bits else 10
  }

  /** The stored factor keeps only the low byte, and is never zero. */
  function StoredFactor(a: Args, len: nat): bv8 {
    var low := LowOf(Word(Factor(a, len)));
    if low == 0 then 1 else low
  }

  function Supply(a: Args, len: nat): bv8 { if len >= 65 then LowOf(a[64]) else 25 }
  function WarmUp(a: Args, len: nat): bv8 { if len >= 68 then LowOf(a[66]) else 1 }
  function Hottest(a: Args, len: nat): bv16 { if len >= 68 then a[67].bits else 70 }
  function SpanTime(a: Args, len: nat): bv16 { if len >= 71 then a[69].bits else 60 }
  function ZeroTime(a: Args, len: nat): bv16 { if len >= 71 then a[70].bits else 60 }

  // ----- Faults --------------------------------------------------------------------------------------

  predicate Between(low: bv16, w: bv16, high: bv16) { low <= w <= high }
  predicate ByteBetween(low: bv8, b: bv8, high: bv8) { low <= b <= high }

  /** Faults in what identifies the sensor: no model, no such gas, no such unit. */
  predicate HardFault(a: Args) {
    a[0].bits == 0 || Gas(a) < GAS_INDX_OFFSET || !ByteBetween(PPM, Unit(a), PPB)
  }

  predicate AppliedGasFault(a: Args) {
    if NamesCombustible(a) then LowOf(a[6]) !in {Gas(a), CH4, C5H12, C3H8}
    else NamesVoc(a) && LowOf(a[6]) !in {Gas(a), ISOBUTYLENE}
  }

  predicate InfraredFault(a: Args) {
    && Kind(a) == INFRARED_SENSOR
    && (|| !ByteBetween(10, LowOf(a[10]), 50)
        || !ByteBetween(10, LowOf(a[11]), 50)
        || LowOf(a[12]) != 250)
  }

  predicate IntervalFault(a: Args) {
    !ByteBetween(1, LowOf(a[27]), 3) || !ByteBetween(1, LowOf(a[34]), 12)
  }

  predicate VocFault(a: Args) {
    NamesVoc(a) && !Between(1, a[52].bits, 916)
  }

  predicate HysteresisFault(a: Args, len: nat) {
    len >= 57 && (!Between(2, a[53].bits, 20) || !Between(2, a[54].bits, 20) || !Between(2, a[55].bits, 20))
  }

  predicate SupplyFault(a: Args, len: nat) {
    Supply(a, len) > 50 || (len >= 66 && a[65].bits > 10)
  }

  /** Two's complement -65 to -1. */
  predicate ColdLimit(w: bv16) { w >= 0xFFBF }

  predicate LimitFault(a: Args, len: nat) {
    || !ByteBetween(1, WarmUp(a, len), 10)
    || !Between(40, Hottest(a, len), 100)
    || (len >= 69 && !ColdLimit(a[68].bits))
    || !Between(60, SpanTime(a, len), 600)
    || !Between(60, ZeroTime(a, len), 600)
  }

  function Value(w: Word): nat { w.bits as nat }
  function ByteValue(b: bv8): nat { b as nat }

  /** The hysteresis of alarm `i` in percent. */
  function HysteresisOf(kept: Bytes4, a: Args, len: nat, i: nat): nat
    requires i < 3
  {
    ByteValue(if len >= 57 then LowOf(a[53 + i]) else kept[i])
  }

  /** So many percent of the range, which is stored over the factor, exceed half the alarm level. */
  predicate Exceeds(percent: nat, range: nat, factor: nat, level: nat, tie: bool) {
    2 * percent * range > 100 * factor * level || (2 * percent * range == 100 * factor * level && tie)
  }

  predicate TooWideAt(kept: Bytes4, a: Args, len: nat, ties: Ties, i: nat)
    requires i < 3
  {
    Exceeds(HysteresisOf(kept, a, len, i), Value(a[4]), Value(Word(Factor(a, len))), Value(a[7 + i]), ties[i])
  }

  /** Some alarm's hysteresis is too wide. */
  predicate TooWide(kept: Bytes4, a: Args, len: nat, ties: Ties) {
    TooWideAt(kept, a, len, ties, 0) || TooWideAt(kept, a, len, ties, 1) || TooWideAt(kept, a, len, ties, 2)
  }

  predicate Ordered(falling: bool, x: bv16, y: bv16) { if falling then x > y else x < y }

  /** Only oxygen alarms may fall; alarms of one direction must be ordered; alarms 2 and 3 share theirs. */
  predicate DirectionFault(a: Args) {
    || (Gas(a) != O2 && (Falling(a, 0) || Falling(a, 1) || Falling(a, 2)))
    || (Falling(a, 0) == Falling(a, 1) && !Ordered(Falling(a, 0), a[7].bits, a[8].bits))
    || Falling(a, 1) != Falling(a, 2)
    || !Ordered(Falling(a, 1), a[8].bits, a[9].bits)
  }

  /** Faults whose codes the firmware drops at the end, together with any code noted before them. */
  predicate SoftFault(a: Args, len: nat, tooWide: bool) {
    || AppliedGasFault(a) || InfraredFault(a) || IntervalFault(a) || VocFault(a)
    || HysteresisFault(a, len) || SupplyFault(a, len) || LimitFault(a, len)
    || tooWide || DirectionFault(a) || Kind(a) == 0
  }

  /** Exactly when a sensor package is turned down. */
  predicate Rejected(a: Args, len: nat, tooWide: bool) {
    len < 56 || (HardFault(a) && !SoftFault(a, len, tooWide))
  }

  // ----- What is stored --------------------------------------------------------------------------------

  /** Words as byte pairs over the beginning of a text. */
  function Overwritten(kept: seq<bv8>, a: Args, at: nat, words: nat): (text: seq<bv8>)
    requires at + words <= |a| && 2 * words <= |kept|
    ensures |text| == |kept|
  {
    seq(|kept|, i requires 0 <= i < |kept| =>
      if i >= 2 * words then kept[i]
      else if i % 2 == 0 then HighOf(a[at + i / 2])
      else LowOf(a[at + i / 2]))
  }

  /** The same, and a zero behind them. */
  function Text(kept: seq<bv8>, a: Args, at: nat, words: nat): (text: seq<bv8>)
    requires at + words <= |a| && 2 * words < |kept|
    ensures |text| == |kept|
  {
    Overwritten(kept, a, at, words)[2 * words := 0]
  }

  // Fields that keep their value, or take a fixed one, when the package does not speak of them.

  function Tick(a: Args, len: nat, kept: bv8): bv8 {
    if len < 66 then 0 else if a[65].bits <= 10 then LowOf(a[65]) else kept
  }

  function VocGas(a: Args): bv16 {
    if NamesVoc(a) && Between(1, a[52].bits, 916) then a[52].bits - 1 else 0
  }

  function Lamp(a: Args, kept: bv16): bv16 {
    if Kind(a) == INFRARED_SENSOR then LowOf(a[12]) as bv16 else kept
  }

  function Delay(a: Args, i: nat, kept: bv8): bv8
    requires i < |a|
  {
    if Kind(a) == INFRARED_SENSOR then LowOf(a[i]) else kept
  }

  function SpanGas(a: Args, kept: bv8): bv8 {
    if Kind(a) != CATALYTIC_SENSOR then Gas(a) else kept
  }

  function NewSensor(s: SensorData, a: Args, len: nat, f: FloatFields): SensorData {
    SensorData(
      Gas(a), s.calibrationDue, Unit(a), s.disable,
      Tick(a, len, s.filterUpdateTick),
      s.regSwitchedOff, s.pellistorSaver, WarmUp(a, len),
      s.bumpTestDue, LowOf(a[35]), StoredFactor(a, len), Supply(a, len),
      Kind(a), a[0].bits, JoinedDate(a[50], a[51]),
      VocGas(a),
      LowOf(a[27]), s.bumpTestDate,
      Lamp(a, s.lampDrvPeriod), Delay(a, 10, s.rdTimeDelayPeak), Delay(a, 11, s.rdTimeDelayDeep),
      a[48].bits, a[49].bits, SpanTime(a, len), ZeroTime(a, len),
      Text(s.serialNumber, a, 13, 4), Text(s.manId, a, 17, 4),
      f.reals, s.calibrationHead, s.calibrationDate,
      LowOf(a[34]), SpanGas(a, s.spanGasType), AppliedGas(a),
      s.calibrationSpare, f.calibrationReals)
  }

  function JoinedDate(hi: Word, lo: Word): bv16 { (hi.bits << 8) | lo.bits }

  function NewAlarms(d: Settings, a: Args, len: nat): Settings {
    d.(alarmThreshold := [a[7].bits, a[8].bits, a[9].bits, d.alarmThreshold[3]],
       alarmSettings := [StatusOf(a, len, 0), StatusOf(a, len, 1), StatusOf(a, len, 2), d.alarmSettings[3]],
       relayOffDelay := [LowOf(a[22]), LowOf(a[24]), LowOf(a[26]), d.relayOffDelay[3]],
       hysteresis :=
         if len >= 57 then [LowOf(a[53]), LowOf(a[54]), LowOf(a[55]), d.hysteresis[3]] else d.hysteresis)
  }

  function Stored(c: Config, a: Args, len: nat, f: FloatFields): Config {
    Config(NewAlarms(c.device, a, len), NewSensor(c.sensor, a, len, f))
  }

  // ----- Storing a sensor package ------------------------------------------------------------------------

  // The firmware goes through the package once, filling a scratch copy of the sensor data and keeping the
  // code of the last fault it met. Each section below is given the code so far and returns the next.

  /** Codes 0 and 2 to 5 survive to the end; higher ones are dropped. */
  predicate Noted(before: nat, ok: nat, fault: bool) {
    if fault then ok > 5 else ok == before
  }

  function WithFlag(status: bv8, on: bool, flag: bv8): bv8 { if on then status | flag else status }

  function Direction(status: bv8): bv8 { status & TRIP_DIRECTION }

  lemma StatusFlags(r: bool, e: bool, f: bool, t: bool)
    ensures WithFlag(WithFlag(WithFlag(0, r, AUTO_RESET), e, DFLT_ENERGISED), f, TRIP_DIRECTION)
         == AlarmStatus(r, e, f, false)
    ensures WithFlag(AlarmStatus(r, e, f, false), t, ALRM_TRG_TYPE) == AlarmStatus(r, e, f, t)
    ensures Direction(AlarmStatus(r, e, f, t)) == if f then TRIP_DIRECTION else 0
  {}

  // Codes: identity, applied gas, infrared timing, intervals, limits, directions.

  method CheckIdentity(model: bv16, kind: bv16, gas: bv8, unit: bv8) returns (ok: nat)
    ensures ok in {0, 2, 3, 4, 5}
    ensures ok == 0 <==> model != 0 && kind != 0 && gas >= GAS_INDX_OFFSET && ByteBetween(PPM, unit, PPB)
  {
    ok := 0;
    if model == 0 {
      ok := 2;
    }
    if kind == 0 {
      ok := 3;
    }
    if gas < GAS_INDX_OFFSET {
      ok := 4;
    }
    if unit < PPM || unit > PPB {
      ok := 5;
    }
  }

  method ReadAppliedGas(a: Args, before: nat) returns (applied: bv8, ok: nat)
    ensures applied == AppliedGas(a)
    ensures Noted(before, ok, AppliedGasFault(a))
  {
    hide LowOf;
    ok := before;
    applied := LowOf(a[6]);
    if Kind(a) == CATALYTIC_SENSOR && Gas(a) != C2H2 {
      if applied != Gas(a) && applied != CH4 && applied != C5H12 && applied != C3H8 {
        ok := 19;
      }
    } else if Kind(a) == PID_SENSOR && (Gas(a) == VOC || Gas(a) == TVOC) {
      if applied != Gas(a) && applied != ISOBUTYLENE {
        ok := 19;
      }
    } else {
      applied := Gas(a);
    }
  }

  method CheckInfrared(peak: bv8, deep: bv8, lamp: bv8, before: nat) returns (ok: nat)
    ensures Noted(before, ok, !ByteBetween(10, peak, 50) || !ByteBetween(10, deep, 50) || lamp != 250)
  {
    ok := before;
    if peak < 10 || peak > 50 {
      ok := 24;
    }
    if deep < 10 || deep > 50 {
      ok := 25;
    }
    var period: bv16 := lamp as bv16;
    if period != 250 && period != 500 {
      ok := 26;
    }
  }

  method CheckIntervals(bump: bv8, cycle: bv8, before: nat) returns (ok: nat)
    ensures Noted(before, ok, !ByteBetween(1, bump, 3) || !ByteBetween(1, cycle, 12))
  {
    ok := before;
    if bump == 0 || bump > 3 {
      ok := 27;
    }
    if cycle < 1 || cycle > 12 {
      ok := 28;
    }
  }

  method ReadVocGas(a: Args, before: nat) returns (voc: bv16, ok: nat)
    ensures voc == VocGas(a)
    ensures Noted(before, ok, VocFault(a))
  {
    hide LowOf;
    voc, ok := 0, before;
    if Kind(a) == PID_SENSOR && (Gas(a) == VOC || Gas(a) == TVOC) {
      if a[52].bits <= 916 && a[52].bits > 0 {
        voc := a[52].bits - 1;
      } else {
        ok := 34;
      }
    }
  }

  method CheckHysteresis(h1: bv16, h2: bv16, h3: bv16, before: nat) returns (ok: nat)
    ensures Noted(before, ok, !Between(2, h1, 20) || !Between(2, h2, 20) || !Between(2, h3, 20))
  {
    ok := before;
    if h1 < 2 || h1 > 20 {
      ok := 35;
    } else if h2 < 2 || h2 > 20 {
      ok := 36;
    } else if h3 < 2 || h3 > 20 {
      ok := 37;
    }
  }

  method CheckLimits(warmUp: bv8, hottest: bv16, coldest: bv16, span: bv16, zero: bv16, before: nat)
    returns (ok: nat)
    ensures Noted(before, ok,
      || !ByteBetween(1, warmUp, 10) || !Between(40, hottest, 100) || !ColdLimit(coldest)
      || !Between(60, span, 600) || !Between(60, zero, 600))
  {
    ok := before;
    if warmUp < 1 || warmUp > 10 {
      ok := 42;
    }
    if hottest > 100 || hottest < 40 {
      ok := 43;
    }
    if !ColdLimit(coldest) {
      ok := 44;
    }
    if span < 60 || span > 600 {
      ok := 45;
    }
    if zero < 60 || zero > 600 {
      ok := 46;
    }
  }

  /** The two direction chains and the last alarm; falling directions are read off the status bytes. */
  method CheckDirections(s1: bv8, s2: bv8, s3: bv8, t1: bv16, t2: bv16, t3: bv16, gas: bv8, before: nat)
    returns (ok: nat)
    requires forall s :: s in {s1, s2, s3} ==> Direction(s) == TRIP_DIRECTION || Direction(s) == 0
    ensures
      var f1, f2, f3 := Direction(s1) != 0, Direction(s2) != 0, Direction(s3) != 0;
      Noted(before, ok,
        || (gas != O2 && (f1 || f2 || f3))
        || (f1 == f2 && !Ordered(f1, t1, t2))
        || f2 != f3
        || !Ordered(f2, t2, t3))
  {
    hide Direction;
    ok := before;
    var direction := Direction(s1);
    if direction == TRIP_DIRECTION && gas != O2 {
      ok := 37;
    } else if direction != Direction(s2) {
    } else if direction == 0 && t1 < t2 {
    } else if direction == TRIP_DIRECTION && t1 > t2 {
    } else {
      ok := 31;
    }
    direction := Direction(s2);
    if direction == TRIP_DIRECTION && gas != O2 {
      ok := 36;
    } else if direction != Direction(s3) {
      ok := 32;
    } else if direction == 0 && t2 < t3 {
    } else if direction == TRIP_DIRECTION && t2 > t3 {
    } else {
      ok := 33;
    }
    direction := Direction(s3);
    if direction == TRIP_DIRECTION && gas != O2 {
      ok := 35;
    }
  }

  /** Which codes survive. */
  method FinalCode(before: nat) returns (ok: nat)
    ensures ok == if before in {2, 3, 4, 5} then before else 0
  {
    ok := before;
    if ok == 31 || ok == 32 || ok == 33 {
      ok := 0;
    }
    if ok != 0 && ok != 2 && ok != 3 && ok != 4 && ok != 5 {
      ok := 0;
    }
  }

  // The scratch copy.

  method ReadIdentity(a: Args, len: nat, s: SensorData) returns (settings: SensorData)
    ensures settings == s.(model := a[0].bits, kind := Kind(a), gas := Gas(a), displayUnit := Unit(a),
                           mulFactor := LowOf(Word(Factor(a, len))))
  {
    hide LowOf;
    var factor := 10;
    if len >= 64 && a[63].bits > 0 {
      factor := a[63].bits;
    }
    assert factor == Factor(a, len);
    hide Factor;
    settings := s.(model := a[0].bits, kind := a[1].bits, gas := LowOf(a[2]), displayUnit := LowOf(a[3]),
                   mulFactor := LowOf(Word(factor)));
  }

  method ReadInfrared(a: Args, s: SensorData, before: nat) returns (settings: SensorData, ok: nat)
    ensures settings ==
      s.(rdTimeDelayPeak := Delay(a, 10, s.rdTimeDelayPeak), rdTimeDelayDeep := Delay(a, 11, s.rdTimeDelayDeep),
         lampDrvPeriod := Lamp(a, s.lampDrvPeriod))
    ensures Noted(before, ok, InfraredFault(a))
  {
    hide LowOf;
    settings, ok := s, before;
    if a[1].bits == INFRARED_SENSOR {
      settings := settings.(rdTimeDelayPeak := LowOf(a[10]));
      settings := settings.(rdTimeDelayDeep := LowOf(a[11]));
      settings := settings.(lampDrvPeriod := LowOf(a[12]) as bv16);
      ok := CheckInfrared(LowOf(a[10]), LowOf(a[11]), LowOf(a[12]), before);
    }
  }

  method ReadText(kept: seq<bv8>, a: Args, at: nat, words: nat) returns (text: seq<bv8>)
    requires at + words <= |a| && 2 * words <= |kept|
    ensures text == Overwritten(kept, a, at, words)
  {
    hide LowOf, HighOf;
    text := kept;
    for i := 0 to words
      invariant |text| == |kept|
      invariant forall k :: 0 <= k < 2 * i ==>
        text[k] == if k % 2 == 0 then HighOf(a[at + k / 2]) else LowOf(a[at + k / 2])
      invariant forall k :: 2 * i <= k < |kept| ==> text[k] == kept[k]
    {
      text := text[2 * i := HighOf(a[at + i])];
      text := text[2 * i + 1 := LowOf(a[at + i])];
    }
  }

  method ReadAlarms(a: Args) returns (status: seq<bv8>, delay: seq<bv8>)
    ensures |status| == 3 && |delay| == 3
    ensures forall i :: 0 <= i < 3 ==> status[i] == StatusOf(a, 0, i) && delay[i] == LowOf(a[22 + 2 * i])
  {
    hide LowOf, HighOf, WithFlag, AlarmStatus;
    status, delay := [], [];
    var indx := 21;
    for i := 0 to 3
      invariant indx == 21 + 2 * i && |status| == i && |delay| == i
      invariant forall k :: 0 <= k < i ==> status[k] == StatusOf(a, 0, k) && delay[k] == LowOf(a[22 + 2 * k])
    {
      var s: bv8 := 0;
      s := WithFlag(s, HighOf(a[indx]) != 0, AUTO_RESET);
      s := WithFlag(s, LowOf(a[indx]) != 0, DFLT_ENERGISED);
      StatusFlags(HighOf(a[indx]) != 0, LowOf(a[indx]) != 0, HighOf(a[indx + 1]) != 0, false);
      indx := indx + 1;
      s := WithFlag(s, HighOf(a[indx]) != 0, TRIP_DIRECTION);
      status := status + [s];
      delay := delay + [LowOf(a[indx])];
      indx := indx + 1;
    }
  }

  /** Hysteresis and trigger types, which short packages leave out. */
  method ReadTriggers(a: Args, len: nat, kept: Bytes4, plain: seq<bv8>, before: nat)
    returns (status: seq<bv8>, hysteresis: Bytes4, ok: nat)
    requires |plain| == 3 && forall i :: 0 <= i < 3 ==> plain[i] == StatusOf(a, 0, i)
    ensures |status| == 3 && forall i :: 0 <= i < 3 ==> status[i] == StatusOf(a, len, i)
    ensures hysteresis == if len >= 57 then [LowOf(a[53]), LowOf(a[54]), LowOf(a[55]), kept[3]] else kept
    ensures Noted(before, ok, HysteresisFault(a, len))
  {
    hide LowOf, HighOf, WithFlag, AlarmStatus;
    status, hysteresis, ok := plain, kept, before;
    if len >= 57 {
      hysteresis := [LowOf(a[53]), LowOf(a[54]), LowOf(a[55]), kept[3]];
      ok := CheckHysteresis(a[53].bits, a[54].bits, a[55].bits, before);
      forall i | 0 <= i < 3
        ensures WithFlag(plain[i], Triggered(a, len, i), ALRM_TRG_TYPE) == StatusOf(a, len, i)
      {
        StatusFlags(HighOf(a[21 + 2 * i]) != 0, LowOf(a[21 + 2 * i]) != 0, Falling(a, i), Triggered(a, len, i));
      }
      status := [
        WithFlag(plain[0], HighOf(a[56]) != 0, ALRM_TRG_TYPE),
        WithFlag(plain[1], LowOf(a[56]) != 0, ALRM_TRG_TYPE),
        WithFlag(plain[2], HighOf(a[57]) != 0, ALRM_TRG_TYPE)];
    }
  }

  method ReadSupply(a: Args, len: nat, kept: bv8, before: nat) returns (supply: bv8, tick: bv8, ok: nat)
    ensures supply == Supply(a, len)
    ensures tick == Tick(a, len, kept)
    ensures Noted(before, ok, SupplyFault(a, len))
  {
    hide LowOf;
    ok, tick := before, kept;
    if len >= 65 {
      supply := LowOf(a[64]);
    } else {
      supply := 25;
    }
    if supply > 50 {
      ok := 40;
    }
    if len >= 66 {
      if a[65].bits <= 10 {
        tick := LowOf(a[65]);
      } else {
        ok := 41;
      }
    } else {
      tick := 0;
    }
  }

  method ReadLimits(a: Args, len: nat, before: nat) returns (warmUp: bv8, span: bv16, zero: bv16, ok: nat)
    ensures warmUp == WarmUp(a, len) && span == SpanTime(a, len) && zero == ZeroTime(a, len)
    ensures Noted(before, ok, LimitFault(a, len))
  {
    hide LowOf;
    var hottest, coldest := 70, 0xFFD8;
    warmUp, span, zero := 1, 60, 60;
    if len >= 68 {
      warmUp, hottest := LowOf(a[66]), a[67].bits;
    }
    if len >= 69 {
      coldest := a[68].bits;
    }
    if len >= 71 {
      span, zero := a[69].bits, a[70].bits;
    }
    ok := CheckLimits(warmUp, hottest, coldest, span, zero, before);
  }

  method ReadDirections(a: Args, len: nat, status: seq<bv8>, before: nat) returns (ok: nat)
    requires |status| == 3 && forall i :: 0 <= i < 3 ==> status[i] == StatusOf(a, len, i)
    ensures Noted(before, ok, DirectionFault(a))
  {
    hide LowOf, HighOf, AlarmStatus, Direction, Ordered;
    forall i | 0 <= i < 3 ensures Direction(status[i]) == if Falling(a, i) then TRIP_DIRECTION else 0 {
      StatusFlags(HighOf(a[21 + 2 * i]) != 0, LowOf(a[21 + 2 * i]) != 0, Falling(a, i), Triggered(a, len, i));
    }
    ok := CheckDirections(status[0], status[1], status[2], a[7].bits, a[8].bits, a[9].bits, Gas(a), before);
  }

  /** What the checks make of a package, and the scratch values they leave. */
  datatype Readings = Readings(
    applied: bv8, voc: bv16, supply: bv8, tick: bv8, warmUp: bv8, span: bv16, zero: bv16,
    status: seq<bv8>, delay: seq<bv8>, hysteresis: Bytes4)

  predicate Reads(r: Readings, a: Args, len: nat, keptTick: bv8, kept: Bytes4) {
    && r.applied == AppliedGas(a)
    && r.voc == VocGas(a)
    && r.supply == Supply(a, len)
    && r.tick == Tick(a, len, keptTick)
    && r.warmUp == WarmUp(a, len) && r.span == SpanTime(a, len) && r.zero == ZeroTime(a, len)
    && |r.status| == 3 && |r.delay| == 3
    && (forall i :: 0 <= i < 3 ==> r.status[i] == StatusOf(a, len, i) && r.delay[i] == LowOf(a[22 + 2 * i]))
    && r.hysteresis == if len >= 57 then [LowOf(a[53]), LowOf(a[54]), LowOf(a[55]), kept[3]] else kept
  }

  /** The comparison as the firmware makes it, in exact arithmetic, is the one in whole numbers. */
  lemma InWholeNumbers(percent: nat, range: nat, factor: nat, level: nat)
    requires factor > 0
    ensures
      var width, half := percent as real / 100.0 * (range as real / factor as real), level as real / 2.0;
      && (width > half <==> 2 * percent * range > 100 * factor * level)
      && (width == half <==> 2 * percent * range == 100 * factor * level)
  {
    var width, half := percent as real / 100.0 * (range as real / factor as real), level as real / 2.0;
    var scale := 200.0 * factor as real;
    ScaledWidth(percent as real, range as real, factor as real);
    assert half * scale == (100 * factor * level) as real;
    assert (2 * percent * range) as real == 2.0 * percent as real * range as real;
    ScaledOrder(width, half, scale);
  }

  lemma ScaledWidth(percent: real, range: real, factor: real)
    requires factor > 0.0
    ensures percent / 100.0 * (range / factor) * (200.0 * factor) == 2.0 * percent * range
  {
    var share := range / factor;
    assert share * factor == range;
  }

  lemma ScaledOrder(x: real, y: real, scale: real)
    requires scale > 0.0
    ensures x > y <==> x * scale > y * scale
    ensures x == y <==> x * scale == y * scale
  {}

  lemma FactorIsPositive(a: Args, len: nat)
    ensures Value(Word(Factor(a, len))) > 0
  {}

  method CheckWidth(percent: nat, range: real, level: nat, tie: bool, ghost full: nat, ghost factor: nat)
    returns (wide: bool)
    requires factor > 0 && range == full as real / factor as real
    ensures wide == Exceeds(percent, full, factor, level, tie)
  {
    InWholeNumbers(percent, full, factor, level);
    var width := percent as real / 100.0 * range;
    var half := level as real / 2.0;
    wide := width > half || (width == half && tie);
  }

  /** Hysteresis against level, alarm by alarm. */
  method CheckWidths(kept: Bytes4, a: Args, len: nat, ties: Ties, before: nat) returns (ok: nat)
    ensures Noted(before, ok, TooWide(kept, a, len, ties))
  {
    FactorIsPositive(a, len);
    hide LowOf, ByteValue, Value, Factor, Exceeds, HysteresisOf;
    ok := before;
    var full, factor := Value(a[4]), Value(Word(Factor(a, len)));
    var range := full as real / factor as real;
    for i := 0 to 3
      invariant Noted(before, ok,
        || (i > 0 && TooWideAt(kept, a, len, ties, 0))
        || (i > 1 && TooWideAt(kept, a, len, ties, 1))
        || (i > 2 && TooWideAt(kept, a, len, ties, 2)))
    {
      var wide := CheckWidth(HysteresisOf(kept, a, len, i), range, Value(a[7 + i]), ties[i], full, factor);
      assert wide == TooWideAt(kept, a, len, ties, i);
      if wide {
        ok := 38;
      }
    }
  }

  method Judge(a: Args, len: nat, ties: Ties, keptTick: bv8, kept: Bytes4, s: SensorData)
    returns (r: Readings, infrared: SensorData, ok: nat)
    ensures Reads(r, a, len, keptTick, kept)
    ensures infrared ==
      s.(rdTimeDelayPeak := Delay(a, 10, s.rdTimeDelayPeak), rdTimeDelayDeep := Delay(a, 11, s.rdTimeDelayDeep),
         lampDrvPeriod := Lamp(a, s.lampDrvPeriod))
    ensures ok == 0 <==> !(HardFault(a) && !SoftFault(a, len, TooWide(kept, a, len, ties)))
  {
    hide LowOf, HighOf, AlarmStatus, AppliedGasFault, InfraredFault, VocFault, HysteresisFault,
      SupplyFault, LimitFault, DirectionFault, StatusOf, AppliedGas, NamesVoc, ByteBetween, Between,
      Lamp, Delay, Tick, VocGas, TooWide;
    ok := CheckIdentity(a[0].bits, Kind(a), Gas(a), Unit(a));
    var applied, voc, supply, tick, warmUp, span, zero, status, delay, hysteresis;
    applied, ok := ReadAppliedGas(a, ok);
    infrared, ok := ReadInfrared(a, s, ok);
    status, delay := ReadAlarms(a);
    ok := CheckIntervals(LowOf(a[27]), LowOf(a[34]), ok);
    voc, ok := ReadVocGas(a, ok);
    status, hysteresis, ok := ReadTriggers(a, len, kept, status, ok);
    supply, tick, ok := ReadSupply(a, len, keptTick, ok);
    warmUp, span, zero, ok := ReadLimits(a, len, ok);
    ok := CheckWidths(kept, a, len, ties, ok);
    ok := ReadDirections(a, len, status, ok);
    if Kind(a) == 0 {
      ok := 34;
    }
    ok := FinalCode(ok);
    r := Readings(applied, voc, supply, tick, warmUp, span, zero, status, delay, hysteresis);
  }

  /** Fills in the rest of the scratch copy. */
  method Finish(a: Args, len: nat, f: FloatFields, s: SensorData, r: Readings, scratch: SensorData)
    returns (settings: SensorData)
    requires exists kept :: Reads(r, a, len, s.filterUpdateTick, kept)
    requires scratch == s.(
      model := a[0].bits, kind := Kind(a), gas := Gas(a), displayUnit := Unit(a),
      mulFactor := LowOf(Word(Factor(a, len))), rdTimeDelayPeak := Delay(a, 10, s.rdTimeDelayPeak),
      rdTimeDelayDeep := Delay(a, 11, s.rdTimeDelayDeep), lampDrvPeriod := Lamp(a, s.lampDrvPeriod))
    ensures settings == NewSensor(s, a, len, f)
  {
    hide LowOf, HighOf, Overwritten, JoinedDate, StatusOf, AppliedGas, VocGas, Tick, Lamp, Delay, Factor, Supply,
      WarmUp, SpanTime, ZeroTime;
    var serial := ReadText(scratch.serialNumber, a, 13, 4);
    serial := serial[8 := 0];
    var maker := ReadText(scratch.manId, a, 17, 4);
    maker := maker[8 := 0];
    var factor, span := scratch.mulFactor, scratch.spanGasType;
    if factor == 0 {
      factor := 1;
    }
    if scratch.kind != CATALYTIC_SENSOR {
      span := scratch.gas;
    }
    assert factor == StoredFactor(a, len) && span == SpanGas(a, s.spanGasType);
    hide StoredFactor, SpanGas, Kind, Gas, Unit;
    settings := scratch.(
      appliedGas := r.applied, vocGas := r.voc, supplyVoltage := r.supply, filterUpdateTick := r.tick,
      warmUpTime := r.warmUp, callSpanTime := r.span, callZeroTime := r.zero,
      serialNumber := serial, manId := maker, mulFactor := factor, spanGasType := span,
      bumpTestInterval := LowOf(a[27]), cycle := LowOf(a[34]), wrProtect := LowOf(a[35]),
      thResistor := a[48].bits, thBeta := a[49].bits, manDate := JoinedDate(a[50], a[51]),
      reals := f.reals, calibrationReals := f.calibrationReals);
  }

  /** All or nothing: the package is turned down exactly when `Rejected` says so, and then nothing has
      changed; otherwise everything is stored and marked for saving. */
  method SaveSensorSettings(store: ConfigManager.Store, a: Args, len: nat, f: FloatFields) returns (ack: bool)
    modifies store
    ensures ack <==> !Rejected(a, len, TooWide(old(store.device).hysteresis, a, len, f.ties))
    ensures ack ==> store.Live() == Stored(old(store.Live()), a, len, f)
    ensures ack ==> store.saveSensorInfo && store.saveDevSettings
    ensures !ack ==> store.Live() == old(store.Live())
    ensures !ack ==> store.saveSensorInfo == old(store.saveSensorInfo)
    ensures !ack ==> store.saveDevSettings == old(store.saveDevSettings)
  {
    hide LowOf, HighOf, HardFault, SoftFault, NewSensor, NewAlarms, Factor, Reads, Lamp, Delay, Tick, VocGas, TooWide;
    if len < 56 {
      return false;
    }
    var d, s := store.device, store.sensor;
    var settings := ReadIdentity(a, len, s);
    var r, ok;
    r, settings, ok := Judge(a, len, f.ties, s.filterUpdateTick, d.hysteresis, settings);
    if ok != 0 {
      return false;
    }
    settings := Finish(a, len, f, s, r, settings);
    d := Commit(d, a, len, r);
    store.device, store.sensor := d, settings;
    store.saveSensorInfo, store.saveDevSettings := true, true;
    return true;
  }

  /** The first three entries are replaced, one by one. */
  method Overlay<T>(kept: seq<T>, put: seq<T>) returns (entries: seq<T>)
    requires |kept| == 4 && |put| == 3
    ensures entries == put + kept[3..]
  {
    entries := kept;
    for i := 0 to 3
      invariant entries == put[..i] + kept[i..]
    {
      entries := entries[i := put[i]];
    }
  }

  method Commit(kept: Settings, a: Args, len: nat, r: Readings) returns (d: Settings)
    requires exists tick :: Reads(r, a, len, tick, kept.hysteresis)
    ensures d == NewAlarms(kept, a, len)
  {
    hide LowOf, HighOf, StatusOf, AppliedGas, Tick, VocGas, Supply, WarmUp, SpanTime, ZeroTime;
    var threshold := Overlay(kept.alarmThreshold, [a[7].bits, a[8].bits, a[9].bits]);
    var status := Overlay(kept.alarmSettings, r.status);
    var delay := Overlay(kept.relayOffDelay, r.delay);
    var hysteresis := Overlay(kept.hysteresis, r.hysteresis[..3]);
    assert hysteresis == r.hysteresis;
    d := kept.(alarmThreshold := threshold, alarmSettings := status, relayOffDelay := delay, hysteresis := hysteresis);
  }

  // ----- Storing a base package ------------------------------------------------------------------------

  /** The flags of the configuration register, by bit number. */
  const TEST_DUE_FLT_INHIBIT: nat := 0
  const ZERO_SUPPRESSION_EN: nat := 1
  const RS485_FLT_INHIBIT: nat := 2
  const RELAY_CARD_INSTALLED: nat := 3
  const CALL_DUE_FLT_INHIBIT: nat := 4
  const BATTERY_FLT_INHIBIT: nat := 5
  const ANLG_OUT_FLT_AUTO_RESET: nat := 6
  const OVER_RANGE_FLT_AUTO_RESET: nat := 7
  const FLAGS: seq<bv16> := [0x01, 0x02, 0x04, 0x08, 0x10, 0x20, 0x40, 0x80]

  function And(a: bv16, b: bv16): bv16 { a & b }
  function Or(a: bv16, b: bv16): bv16 { a | b }
  function Not(a: bv16): bv16 { !a }

  predicate Flag(reg: bv16, i: nat)
    requires i < 8
  {
    And(reg, FLAGS[i]) != 0
  }

  function Rest(reg: bv16): bv16 { And(reg, 0xFF00) }

  predicate ValidId(a: Args) { Between(1, a[0].bits, 247) }

  predicate On(a: Args, i: nat)
    requires i < |a|
  {
    a[i].bits == 1
  }

  /** What each of the eight flags shall be; those the package is too short for stay. */
  predicate FlagsFollow(before: bv16, after: bv16, a: Args, len: nat) {
    && Flag(after, TEST_DUE_FLT_INHIBIT) == On(a, 29)
    && Flag(after, ZERO_SUPPRESSION_EN) == On(a, 30)
    && Flag(after, RS485_FLT_INHIBIT) == On(a, 41)
    && Flag(after, RELAY_CARD_INSTALLED) == On(a, 42)
    && Flag(after, CALL_DUE_FLT_INHIBIT) == (if len >= 47 then On(a, 45) else Flag(before, CALL_DUE_FLT_INHIBIT))
    && Flag(after, BATTERY_FLT_INHIBIT) == (if len >= 47 then On(a, 46) else Flag(before, BATTERY_FLT_INHIBIT))
    && Flag(after, ANLG_OUT_FLT_AUTO_RESET)
      == (if len >= 51 && ValidId(a) then On(a, 47) else Flag(before, ANLG_OUT_FLT_AUTO_RESET))
    && Flag(after, OVER_RANGE_FLT_AUTO_RESET)
      == (if len >= 53 then a[52].bits != 0 else Flag(before, OVER_RANGE_FLT_AUTO_RESET))
    && Rest(after) == Rest(before)
  }

  function PutFlag(reg: bv16, i: nat, on: bool): bv16
    requires i < 8
  {
    if on then Or(reg, FLAGS[i]) else And(reg, Not(FLAGS[i]))
  }

  function BasicFlags(a: Args, before: bv16): bv16 {
    var tests := PutFlag(PutFlag(before, TEST_DUE_FLT_INHIBIT, On(a, 29)), ZERO_SUPPRESSION_EN, On(a, 30));
    PutFlag(PutFlag(tests, RS485_FLT_INHIBIT, On(a, 41)), RELAY_CARD_INSTALLED, On(a, 42))
  }

  function InhibitFlags(a: Args, before: bv16): bv16 {
    PutFlag(PutFlag(before, CALL_DUE_FLT_INHIBIT, On(a, 45)), BATTERY_FLT_INHIBIT, On(a, 46))
  }

  /** The flag register a package makes, one flag after the other. */
  function NewFlags(a: Args, len: nat, before: bv16): bv16 {
    var basic := BasicFlags(a, before);
    var inhibits := if len >= 47 then InhibitFlags(a, basic) else basic;
    var resets :=
      if len >= 51 && ValidId(a) then PutFlag(inhibits, ANLG_OUT_FLT_AUTO_RESET, On(a, 47)) else inhibits;
    if len >= 53 then PutFlag(resets, OVER_RANGE_FLT_AUTO_RESET, a[52].bits != 0) else resets
  }

  lemma AndOverOr(r: bv16, mask: bv16, m: bv16)
    ensures And(Or(r, mask), m) == Or(And(r, m), And(mask, m))
  {}

  lemma OrIsZero(a: bv16, b: bv16)
    ensures Or(a, b) == 0 <==> a == 0 && b == 0
    ensures Or(a, 0) == a
  {}

  lemma MaskedAway(r: bv16, mask: bv16, m: bv16)
    ensures And(mask, m) == 0 ==> And(And(r, Not(mask)), m) == And(r, m)
    ensures And(mask, m) == m ==> And(And(r, Not(mask)), m) == 0
  {}

  lemma SingleBits(i: nat, j: nat)
    requires i < 8 && j < 8
    ensures And(FLAGS[i], FLAGS[j]) == if i == j then FLAGS[j] else 0
    ensures FLAGS[j] != 0 && And(FLAGS[j], 0xFF00) == 0
  {}

  /** Raising one flag, or clearing it, touches no other. */
  lemma OneFlag(r: bv16, i: nat)
    requires i < 8
    ensures forall j :: 0 <= j < 8 ==> Flag(Or(r, FLAGS[i]), j) == (i == j || Flag(r, j))
    ensures forall j :: 0 <= j < 8 ==> Flag(And(r, Not(FLAGS[i])), j) == (i != j && Flag(r, j))
    ensures Rest(Or(r, FLAGS[i])) == Rest(r) && Rest(And(r, Not(FLAGS[i]))) == Rest(r)
  {
    hide And, Or, Not;
    forall j | 0 <= j < 8
      ensures Flag(Or(r, FLAGS[i]), j) == (i == j || Flag(r, j))
      ensures Flag(And(r, Not(FLAGS[i])), j) == (i != j && Flag(r, j))
    {
      SingleBits(i, j);
      AndOverOr(r, FLAGS[i], FLAGS[j]);
      OrIsZero(And(r, FLAGS[j]), And(FLAGS[i], FLAGS[j]));
      MaskedAway(r, FLAGS[i], FLAGS[j]);
    }
    SingleBits(i, i);
    AndOverOr(r, FLAGS[i], 0xFF00);
    OrIsZero(And(r, 0xFF00), 0);
    MaskedAway(r, FLAGS[i], 0xFF00);
  }

  lemma FlagPut(reg: bv16, i: nat, on: bool)
    requires i < 8
    ensures forall j :: 0 <= j < 8 ==> Flag(PutFlag(reg, i, on), j) == if j == i then on else Flag(reg, j)
    ensures Rest(PutFlag(reg, i, on)) == Rest(reg)
  {
    hide And, Or, Not, Flag, Rest;
    OneFlag(reg, i);
  }

  lemma GroupMasks(j: nat)
    requires j < 8
    ensures And(0x0F, FLAGS[j]) == if j < 4 then FLAGS[j] else 0
    ensures And(0x30, FLAGS[j]) == if j == 4 || j == 5 then FLAGS[j] else 0
    ensures And(0x0F, 0xFF00) == 0 && And(0x30, 0xFF00) == 0
  {}

  lemma GroupsCleared(r: bv16)
    ensures forall j :: 0 <= j < 8 ==> Flag(And(r, Not(0x0F)), j) == (j >= 4 && Flag(r, j))
    ensures forall j :: 0 <= j < 8 ==> Flag(And(r, Not(0x30)), j) == (j != 4 && j != 5 && Flag(r, j))
    ensures Rest(And(r, Not(0x0F))) == Rest(r) && Rest(And(r, Not(0x30))) == Rest(r)
  {
    hide And, Not;
    forall j | 0 <= j < 8
      ensures Flag(And(r, Not(0x0F)), j) == (j >= 4 && Flag(r, j))
      ensures Flag(And(r, Not(0x30)), j) == (j != 4 && j != 5 && Flag(r, j))
    {
      GroupMasks(j);
      MaskedAway(r, 0x0F, FLAGS[j]);
      MaskedAway(r, 0x30, FLAGS[j]);
    }
    GroupMasks(0);
    MaskedAway(r, 0x0F, 0xFF00);
    MaskedAway(r, 0x30, 0xFF00);
  }

  lemma SameFlag(x: bv16, y: bv16, i: nat)
    requires i < 8 && Flag(x, i) == Flag(y, i)
    ensures And(x, FLAGS[i]) == And(y, FLAGS[i])
  {
    FlagIsAll(x, i);
    FlagIsAll(y, i);
    hide And;
  }

  lemma FlagIsAll(x: bv16, i: nat)
    requires i < 8
    ensures And(x, FLAGS[i]) == if Flag(x, i) then FLAGS[i] else 0
  {}

  /** A register is made of its flags and its rest. */
  function Assembled(rest: bv16, f0: bv16, f1: bv16, f2: bv16, f3: bv16,
                     f4: bv16, f5: bv16, f6: bv16, f7: bv16): bv16 {
    Or(rest, Or(Or(Or(f0, f1), Or(f2, f3)), Or(Or(f4, f5), Or(f6, f7))))
  }

  lemma FlagsAssemble(x: bv16)
    ensures x == Assembled(Rest(x), And(x, 0x01), And(x, 0x02), And(x, 0x04), And(x, 0x08),
                           And(x, 0x10), And(x, 0x20), And(x, 0x40), And(x, 0x80))
  {}

  /** Two registers with the same flags and the same rest are the same. */
  lemma FlagsDetermine(x: bv16, y: bv16)
    requires forall j :: 0 <= j < 8 ==> Flag(x, j) == Flag(y, j)
    requires Rest(x) == Rest(y)
    ensures x == y
  {
    hide And, Flag, Rest, Assembled;
    FlagsAssemble(x);
    FlagsAssemble(y);
    forall i | 0 <= i < 8 ensures And(x, FLAGS[i]) == And(y, FLAGS[i]) {
      SameFlag(x, y, i);
    }
    assert And(x, FLAGS[0]) == And(y, FLAGS[0]) && And(x, FLAGS[1]) == And(y, FLAGS[1]);
    assert And(x, FLAGS[2]) == And(y, FLAGS[2]) && And(x, FLAGS[3]) == And(y, FLAGS[3]);
    assert And(x, FLAGS[4]) == And(y, FLAGS[4]) && And(x, FLAGS[5]) == And(y, FLAGS[5]);
    assert And(x, FLAGS[6]) == And(y, FLAGS[6]) && And(x, FLAGS[7]) == And(y, FLAGS[7]);
  }

  method RaiseIf(reg: bv16, on: bool, i: nat) returns (r: bv16)
    requires i < 8
    ensures forall j :: 0 <= j < 8 ==> Flag(r, j) == (Flag(reg, j) || (j == i && on))
    ensures Rest(r) == Rest(reg)
  {
    OneFlag(reg, i);
    hide And, Or, Flag, Rest;
    r := if on then Or(reg, FLAGS[i]) else reg;
  }

  /** All four are cleared at once, then raised one by one. */
  method SetBasicFlags(a: Args, before: bv16) returns (r: bv16)
    ensures r == BasicFlags(a, before)
  {
    hide And, Or, Not, Flag, Rest, On, PutFlag;
    GroupsCleared(before);
    r := And(before, Not(0x0F));
    r := RaiseIf(r, On(a, 29), TEST_DUE_FLT_INHIBIT);
    r := RaiseIf(r, On(a, 30), ZERO_SUPPRESSION_EN);
    r := RaiseIf(r, On(a, 41), RS485_FLT_INHIBIT);
    r := RaiseIf(r, On(a, 42), RELAY_CARD_INSTALLED);
    BasicFlagsAre(a, before);
    FlagsDetermine(r, BasicFlags(a, before));
  }

  lemma BasicFlagsAre(a: Args, before: bv16)
    ensures forall j :: 0 <= j < 8 ==>
      Flag(BasicFlags(a, before), j)
      == if j == 0 then On(a, 29) else if j == 1 then On(a, 30) else if j == 2 then On(a, 41)
         else if j == 3 then On(a, 42) else Flag(before, j)
    ensures Rest(BasicFlags(a, before)) == Rest(before)
  {
    hide And, Or, Not, Flag, Rest, On, PutFlag;
    var one := PutFlag(before, TEST_DUE_FLT_INHIBIT, On(a, 29));
    var two := PutFlag(one, ZERO_SUPPRESSION_EN, On(a, 30));
    var three := PutFlag(two, RS485_FLT_INHIBIT, On(a, 41));
    FlagPut(before, TEST_DUE_FLT_INHIBIT, On(a, 29));
    FlagPut(one, ZERO_SUPPRESSION_EN, On(a, 30));
    assert forall j :: 0 <= j < 8 ==>
      Flag(two, j) == if j == 0 then On(a, 29) else if j == 1 then On(a, 30) else Flag(before, j);
    FlagPut(two, RS485_FLT_INHIBIT, On(a, 41));
    FlagPut(three, RELAY_CARD_INSTALLED, On(a, 42));
  }

  method SetInhibits(a: Args, before: bv16) returns (r: bv16)
    ensures r == InhibitFlags(a, before)
  {
    hide And, Or, Not, Flag, Rest, On, PutFlag;
    GroupsCleared(before);
    r := And(before, Not(0x30));
    r := RaiseIf(r, On(a, 45), CALL_DUE_FLT_INHIBIT);
    r := RaiseIf(r, On(a, 46), BATTERY_FLT_INHIBIT);
    FlagPut(before, CALL_DUE_FLT_INHIBIT, On(a, 45));
    FlagPut(PutFlag(before, CALL_DUE_FLT_INHIBIT, On(a, 45)), BATTERY_FLT_INHIBIT, On(a, 46));
    FlagsDetermine(r, InhibitFlags(a, before));
  }

  method SetFlags(a: Args, len: nat, before: bv16) returns (r: bv16)
    ensures r == NewFlags(a, len, before)
  {
    hide And, Or, Not, On, ValidId, BasicFlags, InhibitFlags;
    r := SetBasicFlags(a, before);
    if len >= 47 {
      r := SetInhibits(a, r);
    }
    if len >= 51 && ValidId(a) {
      ghost var kept := r;
      r := And(r, Not(FLAGS[ANLG_OUT_FLT_AUTO_RESET]));
      if On(a, 47) {
        r := Or(r, FLAGS[ANLG_OUT_FLT_AUTO_RESET]);
      }
      ClearThenRaise(kept, ANLG_OUT_FLT_AUTO_RESET);
    }
    if len >= 53 {
      if a[52].bits != 0 {
        r := Or(r, FLAGS[OVER_RANGE_FLT_AUTO_RESET]);
      } else {
        r := And(r, Not(FLAGS[OVER_RANGE_FLT_AUTO_RESET]));
      }
    }
  }

  lemma ClearThenRaise(r: bv16, i: nat)
    requires i < 8
    ensures Or(And(r, Not(FLAGS[i])), FLAGS[i]) == Or(r, FLAGS[i])
  {
    hide And, Or, Not, Flag, Rest;
    var cleared := And(r, Not(FLAGS[i]));
    OneFlag(r, i);
    OneFlag(cleared, i);
    FlagsDetermine(Or(cleared, FLAGS[i]), Or(r, FLAGS[i]));
  }

  lemma InhibitFlagsAre(a: Args, before: bv16)
    ensures forall j :: 0 <= j < 8 ==>
      Flag(InhibitFlags(a, before), j)
      == if j == 4 then On(a, 45) else if j == 5 then On(a, 46) else Flag(before, j)
    ensures Rest(InhibitFlags(a, before)) == Rest(before)
  {
    hide Flag, Rest, On, PutFlag;
    FlagPut(before, CALL_DUE_FLT_INHIBIT, On(a, 45));
    FlagPut(PutFlag(before, CALL_DUE_FLT_INHIBIT, On(a, 45)), BATTERY_FLT_INHIBIT, On(a, 46));
  }

  predicate FirstSix(before: bv16, after: bv16, a: Args, len: nat) {
    && Flag(after, TEST_DUE_FLT_INHIBIT) == On(a, 29)
    && Flag(after, ZERO_SUPPRESSION_EN) == On(a, 30)
    && Flag(after, RS485_FLT_INHIBIT) == On(a, 41)
    && Flag(after, RELAY_CARD_INSTALLED) == On(a, 42)
    && Flag(after, CALL_DUE_FLT_INHIBIT) == (if len >= 47 then On(a, 45) else Flag(before, CALL_DUE_FLT_INHIBIT))
    && Flag(after, BATTERY_FLT_INHIBIT) == (if len >= 47 then On(a, 46) else Flag(before, BATTERY_FLT_INHIBIT))
  }

  lemma FirstSixAre(a: Args, len: nat, before: bv16)
    ensures
      var basic := BasicFlags(a, before);
      var after := if len >= 47 then InhibitFlags(a, basic) else basic;
      && FirstSix(before, after, a, len)
      && Rest(after) == Rest(before)
      && Flag(after, ANLG_OUT_FLT_AUTO_RESET) == Flag(before, ANLG_OUT_FLT_AUTO_RESET)
      && Flag(after, OVER_RANGE_FLT_AUTO_RESET) == Flag(before, OVER_RANGE_FLT_AUTO_RESET)
  {
    hide On, BasicFlags, InhibitFlags, Flag, Rest;
    BasicFlagsAre(a, before);
    InhibitFlagsAre(a, BasicFlags(a, before));
  }

  lemma FirstSixKept(before: bv16, middle: bv16, a: Args, len: nat, i: nat, on: bool)
    requires FirstSix(before, middle, a, len) && 6 <= i < 8
    ensures FirstSix(before, PutFlag(middle, i, on), a, len)
    ensures Rest(PutFlag(middle, i, on)) == Rest(middle)
    ensures Flag(PutFlag(middle, i, on), 6) == if i == 6 then on else Flag(middle, 6)
    ensures Flag(PutFlag(middle, i, on), 7) == if i == 7 then on else Flag(middle, 7)
  {
    hide On, Flag, Rest, PutFlag;
    FlagPut(middle, i, on);
  }

  /** The chain of flags is what the package asks for. */
  lemma NewFlagsFollow(a: Args, len: nat, before: bv16)
    ensures FlagsFollow(before, NewFlags(a, len, before), a, len)
  {
    hide On, ValidId, BasicFlags, InhibitFlags, Flag, Rest, PutFlag;
    var basic := BasicFlags(a, before);
    var inhibits := if len >= 47 then InhibitFlags(a, basic) else basic;
    FirstSixAre(a, len, before);
    var resets := inhibits;
    if len >= 51 && ValidId(a) {
      resets := PutFlag(inhibits, ANLG_OUT_FLT_AUTO_RESET, On(a, 47));
      FirstSixKept(before, inhibits, a, len, ANLG_OUT_FLT_AUTO_RESET, On(a, 47));
    }
    if len >= 53 {
      FirstSixKept(before, resets, a, len, OVER_RANGE_FLT_AUTO_RESET, a[52].bits != 0);
    }
  }

  /** The base settings a package makes of `d`, with the flag register given. */
  function NewBase(d: Settings, a: Args, reg: bv16): Settings {
    d.(id := if ValidId(a) then a[0].bits else d.id,
       baseSerial := Overwritten(d.baseSerial, a, 1, 4),
       location := Text(d.location, a, 13, 12),
       configReg := reg,
       manDateYear := LowOf(a[31]) as bv16, manDateMonth := LowOf(a[32]) as bv16,
       analogOut := [LowOf(a[33]), LowOf(a[34]), LowOf(a[35]), LowOf(a[36]), LowOf(a[37]), LowOf(a[38])]
                    + d.analogOut[6..],
       display := Shown(a[39], a[40]),
       baudrate := JoinedWide(a[43], a[44]))
  }

  function Shown(language: Word, on: Word): bv16 {
    (language.bits & 0x0F) | (if on.bits == 1 then DISPLAY_ON else 0)
  }

  function JoinedWide(hi: Word, lo: Word): bv32 { ((hi.bits as bv32) << 16) | (lo.bits as bv32) }

  method ReadBase(d: Settings, a: Args, len: nat) returns (base: Settings)
    ensures base == NewBase(d, a, NewFlags(a, len, d.configReg))
  {
    hide LowOf, HighOf, On, Flag, Rest, Overwritten, JoinedWide, NewFlags;
    var serial := ReadText(d.baseSerial, a, 1, 4);
    var location := ReadText(d.location, a, 13, 12);
    location := location[24 := 0];
    var levels := d.analogOut;
    for i := 0 to 6
      invariant forall k :: 0 <= k < i ==> levels[k] == LowOf(a[33 + k])
      invariant forall k :: i <= k < 8 ==> levels[k] == d.analogOut[k]
    {
      levels := levels[i := LowOf(a[33 + i])];
    }
    assert levels == NewBase(d, a, 0).analogOut;
    var display := a[39].bits & 0x0F;
    if a[40].bits == 1 {
      display := display | DISPLAY_ON;
    }
    assert display == Shown(a[39], a[40]);
    var reg := SetFlags(a, len, d.configReg);
    base := d.(
      id := if ValidId(a) then a[0].bits else d.id,
      baseSerial := serial, location := location, configReg := reg,
      manDateYear := LowOf(a[31]) as bv16, manDateMonth := LowOf(a[32]) as bv16,
      analogOut := levels, display := display, baudrate := JoinedWide(a[43], a[44]));
  }

  /** Not all or nothing: with an invalid id the command fails, and yet every other setting of the package
      has been taken over, except the flag `ANLG_OUT_FLT_AUTO_RESET`. */
  method SaveBaseSettings(store: ConfigManager.Store, slave: bv8, a: Args, len: nat)
    returns (ok: bool, address: bv8)
    modifies store
    ensures ok <==> len >= 45 && ValidId(a)
    ensures len < 45 ==> store.device == old(store.device)
    ensures len >= 45 ==>
      store.device == NewBase(old(store.device), a, NewFlags(a, len, old(store.device).configReg))
    ensures store.sensor == old(store.sensor) && store.saveSensorInfo == old(store.saveSensorInfo)
    ensures store.saveDevSettings == (ok || old(store.saveDevSettings))
    ensures address == if ok then LowOf(a[0]) else slave
  {
    hide NewFlags, NewBase;
    address := slave;
    if len < 45 {
      return false, address;
    }
    ok := ValidId(a);
    if ok {
      address := LowOf(a[0]);
    }
    var base := ReadBase(store.device, a, len);
    store.device := base;
    if ok {
      store.saveDevSettings := true;
    }
  }

  // ----- What a stored package leads to -----------------------------------------------------------------

  lemma TextHolds(kept: seq<bv8>, a: Args, at: nat, words: nat)
    requires at + words <= |a| && 2 * words <= |kept|
    ensures Pairs(Overwritten(kept, a, at, words), words) == a[at..at + words]
    ensures 2 * words < |kept| ==> Pairs(Text(kept, a, at, words), words) == a[at..at + words]
  {
    hide Pair, HighOf, LowOf;
    var piece := a[at..at + words];
    forall i | 0 <= i < words ensures Pair(HighOf(piece[i]), LowOf(piece[i])) == piece[i] {
      HalvesJoin(piece[i]);
    }
  }

  lemma PlainHolds(w: Word)
    ensures Plain(w.bits) == w
  {}

  /** The identity, thresholds and numbers of the package stand in a table. */
  predicate ShowsSensor(t: Registers, a: Args) {
    && t[0x20] == a[1] && t[0x21] == Wide(LowOf(a[2])) && t[0x22] == Wide(LowOf(a[3]))
    && t[0x26..0x29] == a[7..10]
    && t[0x34..0x38] == a[17..21]
    && t[0x3C..0x40] == a[13..17]
    && t[0x58] == a[48] && t[0x59] == a[49]
  }

  lemma ShowsStored(t: Registers, c: Config, a: Args, len: nat, f: FloatFields)
    requires ShowsConfig(t, Stored(c, a, len, f))
    ensures ShowsSensor(t, a)
  {
    hide Pairs, Text, LowOf, HighOf, Plain, Wide, StatusOf;
    TextHolds(c.sensor.manId, a, 17, 4);
    TextHolds(c.sensor.serialNumber, a, 13, 4);
    PlainHolds(a[1]);
    PlainHolds(a[7]);
    PlainHolds(a[8]);
    PlainHolds(a[9]);
    PlainHolds(a[48]);
    PlainHolds(a[49]);
  }

  /** After publishing, both tables show the sensor package just stored. */
  lemma SensorPublished(c: Config, a: Args, len: nat, f: FloatFields, r: Registers, s: Source)
    requires s.config == Stored(c, a, len, f)
    ensures ShowsSensor(SyncedHolding(r, s), a) && ShowsSensor(SyncedInput(r, s), a)
  {
    hide *;
    TablesShowConfig(r, s);
    ShowsStored(SyncedHolding(r, s), c, a, len, f);
    ShowsStored(SyncedInput(r, s), c, a, len, f);
  }

  /** The limits of a complete package stand in a table; the gas index only where it means something. */
  predicate ShowsPackageLimits(t: Registers, a: Args) {
    && t[0x56] == Wide(LowOf(a[34])) && t[0x66] == Plain(JoinedDate(a[50], a[51]))
    && t[0x68] == Pair(LowOf(a[53]), LowOf(a[54])) && t[0x69] == Wide(LowOf(a[55]))
    && t[0x6A] == (if NamesVoc(a) && !VocFault(a) then a[52] else Plain(1))
    && t[0x6B] == Wide(LowOf(a[64])) && t[0x6C] == Wide(LowOf(a[66]))
    && t[0x71] == a[69] && t[0x72] == a[70]
  }

  lemma IndexHolds(w: Word)
    ensures NextIndex(w.bits - 1) == w && NextIndex(0) == Plain(1)
  {}

  lemma ShowsStoredLimits(t: Registers, c: Config, a: Args, len: nat, f: FloatFields)
    requires len >= 71 && ShowsLimits(t, Stored(c, a, len, f))
    ensures ShowsPackageLimits(t, a)
  {
    hide Text, LowOf, HighOf, Plain, Wide, Pair, NextIndex, StatusOf, AppliedGas, Tick, Lamp, Delay, SpanGas,
      JoinedDate;
    IndexHolds(a[52]);
    PlainHolds(a[69]);
    PlainHolds(a[70]);
  }

  /** After a complete package both tables show its limits. */
  lemma LimitsPublished(c: Config, a: Args, len: nat, f: FloatFields, r: Registers, s: Source)
    requires len >= 71 && s.config == Stored(c, a, len, f)
    ensures ShowsPackageLimits(SyncedHolding(r, s), a) && ShowsPackageLimits(SyncedInput(r, s), a)
  {
    hide *;
    TablesShowLimits(r, s);
    ShowsStoredLimits(SyncedHolding(r, s), c, a, len, f);
    ShowsStoredLimits(SyncedInput(r, s), c, a, len, f);
  }

  /** The status byte says of each alarm flag whether it was asked for. */
  lemma StatusTells(r: bool, e: bool, f: bool, t: bool)
    ensures
      var s := AlarmStatus(r, e, f, t);
      && (s & AUTO_RESET != 0 <==> r) && (s & DFLT_ENERGISED != 0 <==> e)
      && (s & TRIP_DIRECTION != 0 <==> f) && (s & ALRM_TRG_TYPE != 0 <==> t)
      && s & 0xF0 == 0
  {}

  /** Serial number, location and flags of a base package stand in a table. */
  predicate ShowsBase(t: Registers, a: Args, reg: bv16) {
    t[0x38..0x3C] == a[1..5] && t[0x40..0x4C] == a[13..25] && t[0x4D] == Plain(reg)
  }

  /** Analog levels, display and baud rate, the last in hundreds. Reads of 0x32 show the line's rate instead. */
  predicate ShowsBasePanel(t: Registers, a: Args) {
    && t[0x1D] == Wide(LowOf(a[33])) && t[0x1E] == Wide(LowOf(a[34])) && t[0x1F] == Wide(LowOf(a[35]))
    && t[0x31] == Plain(Shown(a[39], a[40])) && t[0x32] == BaudWord(JoinedWide(a[43], a[44]))
  }

  lemma PanelPublished(d: Settings, a: Args, reg: bv16, r: Registers, s: Source)
    requires s.config.device == NewBase(d, a, reg)
    ensures ShowsBasePanel(SyncedHolding(r, s), a)
  {
    hide SyncedHolding, LowOf, Plain, Wide, Overwritten, Text, JoinedWide, Shown, BaudWord;
    TablesShowPanel(r, s);
  }

  lemma BasePublished(d: Settings, a: Args, reg: bv16, r: Registers, s: Source)
    requires s.config.device == NewBase(d, a, reg)
    ensures ShowsBase(SyncedHolding(r, s), a, reg) && ShowsBase(SyncedInput(r, s), a, reg)
  {
    hide SyncedHolding, SyncedInput, LowOf, HighOf, Plain, Wide, Overwritten, Pair, JoinedWide, Shown;
    TablesShowConfig(r, s);
    TextHolds(d.baseSerial, a, 1, 4);
    TextHolds(d.location, a, 13, 12);
    assert Pairs(s.config.device.location, 13)[..12] == Pairs(s.config.device.location, 12);
    assert SyncedHolding(r, s)[0x40..0x4D][..12] == SyncedHolding(r, s)[0x40..0x4C];
    assert SyncedInput(r, s)[0x40..0x4D][..12] == SyncedInput(r, s)[0x40..0x4C];
  }

  /** What a stored sensor package is worth at the next start: the configuration is valid exactly when the
      package had no hard fault and a sensor type. */
  lemma StoredIsValid(c: Config, a: Args, len: nat, f: FloatFields)
    requires ValidRuntime(c)
    ensures ValidRuntime(Stored(c, a, len, f)) <==> !HardFault(a) && Kind(a) != 0
  {
    hide LowOf, HighOf, Text, StatusOf, AppliedGas, VocGas, Tick, Lamp, Delay, SpanGas, Supply, WarmUp, SpanTime,
      ZeroTime, JoinedDate, Factor;
  }

  /** Restored exactly then; a package whose hard fault was masked by a soft one is accepted and saved, and
      the next start falls back to the defaults. */
  lemma StoredIsRestored(c: Config, a: Args, len: nat, f: FloatFields)
    requires ValidRuntime(c)
    ensures
      Load(Image(Stored(c, a, len, f)))
      == if HardFault(a) || Kind(a) == 0 then UseDefaults else Restored(Stored(c, a, len, f))
  {
    hide *;
    StoredIsValid(c, a, len, f);
    SavedIsRestored(Stored(c, a, len, f));
  }

  /** A blank package: accepted at any sufficient length, and lost at the next start. */
  lemma BlankIsAccepted(c: Config, len: nat, f: FloatFields)
    requires ValidRuntime(c) && len >= 56
    ensures
      var blank := seq(126, _ => Word(0));
      (forall tooWide :: !Rejected(blank, len, tooWide)) && Load(Image(Stored(c, blank, len, f))) == UseDefaults
  {
    hide Image, Load, Stored, ValidRuntime;
    StoredIsRestored(c, seq(126, _ => Word(0)), len, f);
  }

  /** A base package leaves a valid configuration exactly when it names a supported baud rate, whatever its
      id. */
  lemma BaseIsValid(c: Config, a: Args, reg: bv16)
    requires ValidRuntime(c)
    ensures ValidRuntime(c.(device := NewBase(c.device, a, reg))) <==> SupportedBaudrate(JoinedWide(a[43], a[44]))
  {
    hide LowOf, HighOf, Text, Overwritten, Shown, JoinedWide;
  }

  /** Restored exactly then; an acknowledged base package with an unsupported baud rate loses the whole
      configuration, id included, at the next start. */
  lemma BaseIsRestored(c: Config, a: Args, reg: bv16)
    requires ValidRuntime(c)
    ensures
      var n := c.(device := NewBase(c.device, a, reg));
      Load(Image(n)) == if SupportedBaudrate(JoinedWide(a[43], a[44])) then Restored(n) else UseDefaults
  {
    hide *;
    BaseIsValid(c, a, reg);
    SavedIsRestored(c.(device := NewBase(c.device, a, reg)));
  }
}
