/** What the two settings commands make of their arguments, said in the numbers of the packages: every word by
    its place, every limit as a number. */
module SettingsNumbers {
  import opened DeviceTypes
  import opened DeviceConfig
  import opened RegisterMap
  import opened SettingsCommands

  /** The low byte of a word. */
  function Low(w: Word): bv8 { (w.bits % 256) as bv8 }

  /** The high byte of a word. */
  function High(w: Word): bv8 { (w.bits / 256) as bv8 }

  lemma HalvesInNumbers()
    ensures forall w: Word :: LowOf(w) == Low(w)
    ensures forall w: Word :: HighOf(w) == High(w)
  {}

  lemma OrIsPlus(hi: bv16, lo: bv16)
    ensures JoinedWide(Word(hi), Word(lo)) == 0x10000 * (hi as bv32) + (lo as bv32)
  {}

  /** The high half of a double word comes first. */
  lemma WideInNumbers(hi: Word, lo: Word)
    ensures JoinedWide(hi, lo) == 0x10000 * (hi.bits as bv32) + (lo.bits as bv32)
  {
    hide *;
    OrIsPlus(hi.bits, lo.bits);
  }

  lemma ShiftIsTimes(hi: bv16, lo: bv16)
    ensures JoinedDate(Word(hi), Word(lo)) == (256 * hi) | lo
  {}

  lemma OrIsPlusByte(hi: bv16, lo: bv16)
    requires lo < 256
    ensures (256 * hi) | lo == 256 * hi + lo
  {}

  /** What a date is made of. */
  lemma DateInNumbers(hi: Word, lo: Word)
    ensures JoinedDate(hi, lo) == (256 * hi.bits) | lo.bits
    ensures lo.bits < 256 ==> JoinedDate(hi, lo) == 256 * hi.bits + lo.bits
  {
    hide *;
    ShiftIsTimes(hi.bits, lo.bits);
    if lo.bits < 256 {
      OrIsPlusByte(hi.bits, lo.bits);
    }
  }

  /** The display's language and its switch. */
  lemma ShownInNumbers(language: Word, on: Word)
    ensures Shown(language, on) == language.bits % 16 + if on.bits == 1 then 128 else 0
  {}

  // The faults of a sensor package, from its words.

  predicate AppliedGasWrong(a: Args) {
    var kind, gas, applied := a[1].bits, Low(a[2]), Low(a[6]);
    if kind == 0x6522 && gas != 60 then applied != gas && applied != 31 && applied != 37 && applied != 34
    else kind == 0x3754 && (gas == 80 || gas == 81) && applied != gas && applied != 85
  }

  predicate TimingWrong(a: Args) {
    a[1].bits == 0x4576 && !(10 <= Low(a[10]) <= 50 && 10 <= Low(a[11]) <= 50 && Low(a[12]) == 250)
  }

  predicate IntervalsWrong(a: Args) {
    !(1 <= Low(a[27]) <= 3 && 1 <= Low(a[34]) <= 12)
  }

  predicate IndexWrong(a: Args) {
    a[1].bits == 0x3754 && (Low(a[2]) == 80 || Low(a[2]) == 81) && !(1 <= a[52].bits <= 916)
  }

  predicate HysteresisWrong(a: Args, len: nat) {
    len >= 57 && !(2 <= a[53].bits <= 20 && 2 <= a[54].bits <= 20 && 2 <= a[55].bits <= 20)
  }

  predicate SupplyWrong(a: Args, len: nat) {
    (len >= 65 && Low(a[64]) > 50) || (len >= 66 && a[65].bits > 10)
  }

  /** Warm-up 1 to 10, hottest 40 to 100, coldest -65 to -1 (65471 to 65535), times 60 to 600. */
  predicate LimitsWrong(a: Args, len: nat) {
    || (len >= 68 && !(1 <= Low(a[66]) <= 10 && 40 <= a[67].bits <= 100))
    || (len >= 69 && a[68].bits < 65471)
    || (len >= 71 && !(60 <= a[69].bits <= 600 && 60 <= a[70].bits <= 600))
  }

  predicate Misordered(oxygen: bool, down1: bool, down2: bool, down3: bool, t1: bv16, t2: bv16, t3: bv16) {
    || (!oxygen && (down1 || down2 || down3))
    || (down1 && down2 && t1 <= t2)
    || (!down1 && !down2 && t1 >= t2)
    || down2 != down3
    || (down3 && t2 <= t3)
    || (!down3 && t2 >= t3)
  }

  predicate DirectionsWrong(a: Args) {
    Misordered(Low(a[2]) == 65, High(a[22]) != 0, High(a[24]) != 0, High(a[26]) != 0,
               a[7].bits, a[8].bits, a[9].bits)
  }

  lemma SoftFaultsInNumbers(a: Args, len: nat)
    ensures AppliedGasFault(a) == AppliedGasWrong(a) && InfraredFault(a) == TimingWrong(a)
    ensures IntervalFault(a) == IntervalsWrong(a) && VocFault(a) == IndexWrong(a)
    ensures HysteresisFault(a, len) == HysteresisWrong(a, len) && SupplyFault(a, len) == SupplyWrong(a, len)
  {
    HalvesInNumbers();
    hide LowOf, HighOf, Low, High;
  }

  lemma LimitFaultInNumbers(a: Args, len: nat)
    ensures LimitFault(a, len) == LimitsWrong(a, len)
  {
    HalvesInNumbers();
    hide LowOf, HighOf, Low, High;
  }

  lemma MisorderedIs(oxygen: bool, down1: bool, down2: bool, down3: bool, t1: bv16, t2: bv16, t3: bv16)
    ensures Misordered(oxygen, down1, down2, down3, t1, t2, t3)
      <==> || (!oxygen && (down1 || down2 || down3)) || (down1 == down2 && !Ordered(down1, t1, t2))
           || down2 != down3 || !Ordered(down2, t2, t3)
  {}

  lemma DirectionFaultInNumbers(a: Args)
    ensures DirectionFault(a) == DirectionsWrong(a)
  {
    hide LowOf, HighOf, Low, High, Ordered, Misordered;
    HalvesInNumbers();
    MisorderedIs(Low(a[2]) == 65, High(a[22]) != 0, High(a[24]) != 0, High(a[26]) != 0,
                 a[7].bits, a[8].bits, a[9].bits);
  }

  /** Exactly which packages are turned down: those too short, and those without a model, or with a gas code
      below 30, or with a unit outside 2 to 5, if nothing else about them is wrong. */
  lemma RejectedInNumbers(a: Args, len: nat, tooWide: bool)
    ensures Rejected(a, len, tooWide) <==>
      || len < 56
      || (&& (a[0].bits == 0 || Low(a[2]) < 30 || !(2 <= Low(a[3]) <= 5))
          && a[1].bits != 0 && !tooWide
          && !AppliedGasWrong(a) && !TimingWrong(a) && !IntervalsWrong(a) && !IndexWrong(a)
          && !HysteresisWrong(a, len) && !SupplyWrong(a, len) && !LimitsWrong(a, len) && !DirectionsWrong(a))
  {
    HalvesInNumbers();
    SoftFaultsInNumbers(a, len);
    LimitFaultInNumbers(a, len);
    DirectionFaultInNumbers(a);
    hide LowOf, HighOf, Low, AppliedGasWrong, TimingWrong, IntervalsWrong, IndexWrong, HysteresisWrong, SupplyWrong,
      LimitsWrong, DirectionsWrong, AppliedGasFault, InfraredFault, IntervalFault, VocFault, HysteresisFault,
      SupplyFault, LimitFault, DirectionFault;
  }

  /** A hysteresis exceeds half its alarm's level: percent of the range over the factor against the level, all
      cleared of fractions. */
  predicate WideAt(kept: Bytes4, a: Args, len: nat, ties: Ties, i: nat)
    requires i < 3
  {
    var percent := ByteValue(if len >= 57 then Low(a[53 + i]) else kept[i]);
    var factor := Value(if len >= 64 && a[63].bits > 0 then a[63] else Word(10));
    var range, level := Value(a[4]), Value(a[7 + i]);
    2 * percent * range > 100 * factor * level || (2 * percent * range == 100 * factor * level && ties[i])
  }

  lemma TooWideInNumbers(kept: Bytes4, a: Args, len: nat, ties: Ties)
    ensures TooWide(kept, a, len, ties) <==>
      WideAt(kept, a, len, ties, 0) || WideAt(kept, a, len, ties, 1) || WideAt(kept, a, len, ties, 2)
  {
    HalvesInNumbers();
    hide LowOf, Low, Value, ByteValue;
    forall i | 0 <= i < 3 ensures TooWideAt(kept, a, len, ties, i) == WideAt(kept, a, len, ties, i) {
      assert HysteresisOf(kept, a, len, i) == ByteValue(if len >= 57 then Low(a[53 + i]) else kept[i]);
      assert Word(Factor(a, len)) == if len >= 64 && a[63].bits > 0 then a[63] else Word(10);
    }
  }

  // ----- Alarms ----------------------------------------------------------------------------------------

  /** A published alarm register: the off-delay below, and above it four flags. */
  predicate AlarmRegister(w: Word, request: Word, delay: Word, triggered: bool) {
    && w.bits % 256 == delay.bits % 256
    && (w.bits / 256 % 2 == 1 <==> request.bits / 256 != 0)
    && (w.bits / 512 % 2 == 1 <==> request.bits % 256 != 0)
    && (w.bits / 1024 % 2 == 1 <==> delay.bits / 256 != 0)
    && (w.bits / 2048 % 2 == 1 <==> triggered)
    && w.bits / 4096 == 0
  }

  /** Each alarm register follows its own two words, and its trigger flag a byte of words 56 and 57. */
  predicate ShowsPackageAlarms(t: Registers, a: Args, len: nat) {
    && AlarmRegister(t[0x1A], a[21], a[22], len >= 57 && a[56].bits / 256 != 0)
    && AlarmRegister(t[0x1B], a[23], a[24], len >= 57 && a[56].bits % 256 != 0)
    && AlarmRegister(t[0x1C], a[25], a[26], len >= 57 && a[57].bits / 256 != 0)
  }

  lemma StatusInNumbers(r: bool, e: bool, f: bool, t: bool, low: bv8)
    ensures
      var w := Pair(AlarmStatus(r, e, f, t), low).bits;
      && w % 256 == low as bv16 && (w / 256 % 2 == 1 <==> r) && (w / 512 % 2 == 1 <==> e)
      && (w / 1024 % 2 == 1 <==> f) && (w / 2048 % 2 == 1 <==> t) && w / 4096 == 0
  {}

  lemma HalvesAreBytes(w: Word)
    ensures LowOf(w) as bv16 == w.bits % 256
    ensures HighOf(w) != 0 <==> w.bits / 256 != 0
    ensures LowOf(w) != 0 <==> w.bits % 256 != 0
  {}

  lemma AlarmInNumbers(request: Word, delay: Word, triggered: bool)
    ensures
      var status := AlarmStatus(HighOf(request) != 0, LowOf(request) != 0, HighOf(delay) != 0, triggered);
      AlarmRegister(Pair(status, LowOf(delay)), request, delay, triggered)
  {
    hide Pair, AlarmStatus, LowOf, HighOf;
    StatusInNumbers(HighOf(request) != 0, LowOf(request) != 0, HighOf(delay) != 0, triggered, LowOf(delay));
    HalvesAreBytes(request);
    HalvesAreBytes(delay);
  }

  lemma ShowsStoredAlarms(t: Registers, d: Settings, a: Args, len: nat)
    requires ShowsAlarms(t, NewAlarms(d, a, len))
    ensures ShowsPackageAlarms(t, a, len)
  {
    hide Pair, AlarmStatus, LowOf, HighOf, AlarmRegister;
    HalvesAreBytes(a[56]);
    HalvesAreBytes(a[57]);
    AlarmInNumbers(a[21], a[22], Triggered(a, len, 0));
    AlarmInNumbers(a[23], a[24], Triggered(a, len, 1));
    AlarmInNumbers(a[25], a[26], Triggered(a, len, 2));
  }

  /** After publishing, both tables show the alarms of the sensor package just stored. */
  lemma AlarmsPublished(c: Config, a: Args, len: nat, f: FloatFields, r: Registers, s: Source)
    requires s.config == Stored(c, a, len, f)
    ensures ShowsPackageAlarms(SyncedHolding(r, s), a, len) && ShowsPackageAlarms(SyncedInput(r, s), a, len)
  {
    TablesShowAlarms(r, s);
    assert s.config.device == NewAlarms(c.device, a, len);
    hide *;
    ShowsStoredAlarms(SyncedHolding(r, s), c.device, a, len);
    ShowsStoredAlarms(SyncedInput(r, s), c.device, a, len);
  }

  // ----- What is stored ----------------------------------------------------------------------------------

  /** The words from `at` on as byte pairs over the beginning of a text, high byte first. */
  predicate TextIs(text: seq<bv8>, kept: seq<bv8>, a: Args, at: nat, words: nat)
    requires at + words <= 126 && 2 * words <= |kept|
  {
    && |text| == |kept|
    && (forall i :: 0 <= i < words ==> text[2 * i] == High(a[at + i]) && text[2 * i + 1] == Low(a[at + i]))
  }

  lemma OverwrittenInNumbers(kept: seq<bv8>, a: Args, at: nat, words: nat)
    requires at + words <= 126 && 2 * words <= |kept|
    ensures TextIs(Overwritten(kept, a, at, words), kept, a, at, words)
    ensures Overwritten(kept, a, at, words)[2 * words..] == kept[2 * words..]
    ensures 2 * words < |kept| ==>
      && TextIs(Text(kept, a, at, words), kept, a, at, words)
      && Text(kept, a, at, words)[2 * words..] == [0] + kept[2 * words + 1..]
  {
    hide LowOf, HighOf, Low, High;
    HalvesInNumbers();
  }

  /** The gas that is applied, and the one the span is made with. */
  predicate GasesStored(n: SensorData, s: SensorData, a: Args) {
    var kind, gas := a[1].bits, Low(a[2]);
    var voc := kind == 0x3754 && (gas == 80 || gas == 81);
    && n.gas == gas && n.displayUnit == Low(a[3]) && n.kind == kind && n.model == a[0].bits
    && n.appliedGas == (if (kind == 0x6522 && gas != 60) || voc then Low(a[6]) else gas)
    && n.spanGasType == (if kind == 0x6522 then s.spanGasType else gas)
    && n.vocGas == (if voc && 1 <= a[52].bits <= 916 then a[52].bits - 1 else 0)
  }

  /** Numbers whose words every accepted package holds. */
  predicate NumbersStored(n: SensorData, a: Args) {
    && n.bumpTestInterval == Low(a[27]) && n.cycle == Low(a[34]) && n.wrProtect == Low(a[35])
    && n.thResistor == a[48].bits && n.thBeta == a[49].bits && n.manDate == (256 * a[50].bits) | a[51].bits
  }

  /** The infrared timing follows the package only for that kind of sensor. */
  predicate TimingStored(n: SensorData, s: SensorData, a: Args) {
    if a[1].bits == 0x4576
    then n.rdTimeDelayPeak == Low(a[10]) && n.rdTimeDelayDeep == Low(a[11]) && n.lampDrvPeriod == a[12].bits % 256
    else n.rdTimeDelayPeak == s.rdTimeDelayPeak && n.rdTimeDelayDeep == s.rdTimeDelayDeep
         && n.lampDrvPeriod == s.lampDrvPeriod
  }

  predicate TextsStored(n: SensorData, s: SensorData, a: Args) {
    && TextIs(n.serialNumber, s.serialNumber, a, 13, 4) && n.serialNumber[8..] == [0] + s.serialNumber[9..]
    && TextIs(n.manId, s.manId, a, 17, 4) && n.manId[8..] == [0] + s.manId[9..]
  }

  /** Numbers that shorter packages leave to a default. */
  predicate DefaultedStored(n: SensorData, s: SensorData, a: Args, len: nat) {
    && n.mulFactor == (if len < 64 || a[63].bits == 0 then 10 else if Low(a[63]) == 0 then 1 else Low(a[63]))
    && n.supplyVoltage == (if len >= 65 then Low(a[64]) else 25)
    && n.filterUpdateTick
      == (if len < 66 then 0 else if a[65].bits <= 10 then Low(a[65]) else s.filterUpdateTick)
    && n.warmUpTime == (if len >= 68 then Low(a[66]) else 1)
    && n.callSpanTime == (if len >= 71 then a[69].bits else 60)
    && n.callZeroTime == (if len >= 71 then a[70].bits else 60)
  }

  /** What a package never speaks of. */
  predicate RestKept(n: SensorData, s: SensorData) {
    && n.calibrationDue == s.calibrationDue && n.disable == s.disable && n.regSwitchedOff == s.regSwitchedOff
    && n.pellistorSaver == s.pellistorSaver && n.bumpTestDue == s.bumpTestDue && n.bumpTestDate == s.bumpTestDate
    && n.calibrationHead == s.calibrationHead && n.calibrationDate == s.calibrationDate
    && n.calibrationSpare == s.calibrationSpare
  }

  lemma GasesInNumbers(s: SensorData, a: Args, len: nat, f: FloatFields)
    ensures GasesStored(NewSensor(s, a, len, f), s, a)
  {
    hide LowOf, HighOf, Low, High, Text, JoinedDate, Factor, StoredFactor, Tick, Lamp, Delay;
    HalvesInNumbers();
  }

  lemma NumbersInNumbers(s: SensorData, a: Args, len: nat, f: FloatFields)
    ensures NumbersStored(NewSensor(s, a, len, f), a)
  {
    hide LowOf, HighOf, Low, High, Text, JoinedDate, StoredFactor, Tick, AppliedGas, VocGas, SpanGas, Lamp, Delay;
    HalvesInNumbers();
    DateInNumbers(a[50], a[51]);
  }

  lemma TimingInNumbers(s: SensorData, a: Args, len: nat, f: FloatFields)
    ensures TimingStored(NewSensor(s, a, len, f), s, a)
  {
    hide LowOf, HighOf, Low, High, Text, JoinedDate, StoredFactor, Tick, AppliedGas, VocGas, SpanGas;
    HalvesInNumbers();
    HalvesAreBytes(a[12]);
  }

  lemma TextsInNumbers(s: SensorData, a: Args, len: nat, f: FloatFields)
    ensures TextsStored(NewSensor(s, a, len, f), s, a)
  {
    hide LowOf, HighOf, Low, High, Text, TextIs, JoinedDate, StoredFactor, Tick, AppliedGas, VocGas, SpanGas, Lamp,
      Delay;
    OverwrittenInNumbers(s.serialNumber, a, 13, 4);
    OverwrittenInNumbers(s.manId, a, 17, 4);
  }

  lemma DefaultedInNumbers(s: SensorData, a: Args, len: nat, f: FloatFields)
    ensures DefaultedStored(NewSensor(s, a, len, f), s, a, len)
  {
    LowOfTen();
    hide LowOf, HighOf, Low, High, Text, JoinedDate, Lamp, Delay, AppliedGas, VocGas, SpanGas;
    HalvesInNumbers();
  }

  lemma LowOfTen()
    ensures LowOf(Word(10)) == 10
  {}

  /** An accepted sensor package, field by field. */
  lemma SensorInNumbers(c: Config, a: Args, len: nat, f: FloatFields)
    ensures
      var n := Stored(c, a, len, f).sensor;
      && GasesStored(n, c.sensor, a) && NumbersStored(n, a) && TimingStored(n, c.sensor, a)
      && TextsStored(n, c.sensor, a) && DefaultedStored(n, c.sensor, a, len)
      && RestKept(n, c.sensor) && n.reals == f.reals && n.calibrationReals == f.calibrationReals
  {
    hide Text, LowOf, HighOf, JoinedDate, AppliedGas, VocGas, SpanGas, Tick, Lamp, Delay, StoredFactor, Supply,
      WarmUp, SpanTime, ZeroTime, GasesStored, NumbersStored, TimingStored, TextsStored, DefaultedStored;
    GasesInNumbers(c.sensor, a, len, f);
    NumbersInNumbers(c.sensor, a, len, f);
    TimingInNumbers(c.sensor, a, len, f);
    TextsInNumbers(c.sensor, a, len, f);
    DefaultedInNumbers(c.sensor, a, len, f);
  }

  /** What it does to the settings: alarm levels, off-delays, hysteresis and the status bytes, of which the
      registers 0x1A to 0x1C speak, and nothing else. */
  lemma AlarmsInNumbers(c: Config, a: Args, len: nat, f: FloatFields)
    ensures
      var d, n := c.device, Stored(c, a, len, f).device;
      && n == d.(alarmThreshold := n.alarmThreshold, relayOffDelay := n.relayOffDelay, hysteresis := n.hysteresis,
                 alarmSettings := n.alarmSettings)
      && n.alarmThreshold == [a[7].bits, a[8].bits, a[9].bits, d.alarmThreshold[3]]
      && n.relayOffDelay == [Low(a[22]), Low(a[24]), Low(a[26]), d.relayOffDelay[3]]
      && n.hysteresis == (if len >= 57 then [Low(a[53]), Low(a[54]), Low(a[55]), d.hysteresis[3]] else d.hysteresis)
      && n.alarmSettings[3] == d.alarmSettings[3]
  {
    hide LowOf, Low, StatusOf, NewSensor;
    HalvesInNumbers();
  }

  lemma BaseTexts(d: Settings, a: Args, reg: bv16)
    ensures
      var n := NewBase(d, a, reg);
      && TextIs(n.baseSerial, d.baseSerial, a, 1, 4)
      && TextIs(n.location, d.location, a, 13, 12) && n.location[24..] == [0] + d.location[25..]
  {
    hide LowOf, HighOf, Low, High, Text, Overwritten, Shown, JoinedWide, TextIs;
    OverwrittenInNumbers(d.baseSerial, a, 1, 4);
    OverwrittenInNumbers(d.location, a, 13, 12);
  }

  lemma BasePanel(d: Settings, a: Args, reg: bv16)
    ensures
      var n := NewBase(d, a, reg);
      && n.manDateYear == a[31].bits % 256 && n.manDateMonth == a[32].bits % 256
      && n.analogOut == [Low(a[33]), Low(a[34]), Low(a[35]), Low(a[36]), Low(a[37]), Low(a[38])] + d.analogOut[6..]
      && n.display == a[39].bits % 16 + (if a[40].bits == 1 then 128 else 0)
      && n.baudrate == 0x10000 * (a[43].bits as bv32) + (a[44].bits as bv32)
  {
    hide LowOf, Low, Text, Overwritten, Shown, JoinedWide;
    HalvesAreBytes(a[31]);
    HalvesAreBytes(a[32]);
    HalvesInNumbers();
    ShownInNumbers(a[39], a[40]);
    WideInNumbers(a[43], a[44]);
  }

  /** A base package, field by field; the flags are the subject of `FlagsInNumbers`. */
  lemma BaseInNumbers(d: Settings, a: Args, reg: bv16)
    ensures
      var n := NewBase(d, a, reg);
      && n == d.(id := n.id, baseSerial := n.baseSerial, location := n.location, configReg := reg,
                 manDateYear := n.manDateYear, manDateMonth := n.manDateMonth, analogOut := n.analogOut,
                 display := n.display, baudrate := n.baudrate)
      && n.id == (if 1 <= a[0].bits <= 247 then a[0].bits else d.id)
      && TextIs(n.baseSerial, d.baseSerial, a, 1, 4)
      && TextIs(n.location, d.location, a, 13, 12) && n.location[24..] == [0] + d.location[25..]
      && n.manDateYear == a[31].bits % 256 && n.manDateMonth == a[32].bits % 256
      && n.analogOut == [Low(a[33]), Low(a[34]), Low(a[35]), Low(a[36]), Low(a[37]), Low(a[38])] + d.analogOut[6..]
      && n.display == a[39].bits % 16 + (if a[40].bits == 1 then 128 else 0)
      && n.baudrate == 0x10000 * (a[43].bits as bv32) + (a[44].bits as bv32)
  {
    BaseTexts(d, a, reg);
    BasePanel(d, a, reg);
    hide LowOf, HighOf, Low, High, Text, Overwritten, Shown, JoinedWide, TextIs;
  }

  lemma LowerFlags(x: bv16)
    ensures And(x, 0x01) != 0 <==> x % 2 == 1
    ensures And(x, 0x02) != 0 <==> x / 2 % 2 == 1
    ensures And(x, 0x04) != 0 <==> x / 4 % 2 == 1
    ensures And(x, 0x08) != 0 <==> x / 8 % 2 == 1
  {}

  lemma UpperFlags(x: bv16)
    ensures And(x, 0x10) != 0 <==> x / 16 % 2 == 1
    ensures And(x, 0x20) != 0 <==> x / 32 % 2 == 1
    ensures And(x, 0x40) != 0 <==> x / 64 % 2 == 1
    ensures And(x, 0x80) != 0 <==> x / 128 % 2 == 1
  {}

  lemma FlagIsBit(x: bv16)
    ensures Flag(x, 0) == (x % 2 == 1) && Flag(x, 1) == (x / 2 % 2 == 1)
    ensures Flag(x, 2) == (x / 4 % 2 == 1) && Flag(x, 3) == (x / 8 % 2 == 1)
    ensures Flag(x, 4) == (x / 16 % 2 == 1) && Flag(x, 5) == (x / 32 % 2 == 1)
    ensures Flag(x, 6) == (x / 64 % 2 == 1) && Flag(x, 7) == (x / 128 % 2 == 1)
  {
    hide And;
    LowerFlags(x);
    UpperFlags(x);
  }

  lemma RestIsHigh(x: bv16, y: bv16)
    requires Rest(x) == Rest(y)
    ensures x / 256 == y / 256
  {}

  /** The flag register of a base package, bit by bit: the first four always follow their words, the next two
      from 47 words on, the seventh from 51 words on if the id is valid, the last from 53 words on; the rest
      stays. */
  lemma FlagsInNumbers(a: Args, len: nat, x: bv16)
    ensures
      var y := NewFlags(a, len, x);
      && (y % 2 == 1 <==> a[29].bits == 1)
      && (y / 2 % 2 == 1 <==> a[30].bits == 1)
      && (y / 4 % 2 == 1 <==> a[41].bits == 1)
      && (y / 8 % 2 == 1 <==> a[42].bits == 1)
      && (y / 16 % 2 == 1 <==> if len >= 47 then a[45].bits == 1 else x / 16 % 2 == 1)
      && (y / 32 % 2 == 1 <==> if len >= 47 then a[46].bits == 1 else x / 32 % 2 == 1)
      && (y / 64 % 2 == 1 <==>
            if len >= 51 && 1 <= a[0].bits <= 247 then a[47].bits == 1 else x / 64 % 2 == 1)
      && (y / 128 % 2 == 1 <==> if len >= 53 then a[52].bits != 0 else x / 128 % 2 == 1)
      && y / 256 == x / 256
  {
    hide Flag, Rest, NewFlags;
    var y := NewFlags(a, len, x);
    NewFlagsFollow(a, len, x);
    FlagIsBit(x);
    FlagIsBit(y);
    RestIsHigh(x, y);
  }

  // ----- What survives a restart --------------------------------------------------------------------------

  /** A stored sensor package survives exactly with a model, a type, a known gas code and a known unit. */
  lemma PackageSurvives(c: Config, a: Args, len: nat, f: FloatFields)
    requires ValidRuntime(c)
    ensures Survives(Stored(c, a, len, f)) <==>
      a[0].bits != 0 && a[1].bits != 0 && Low(a[2]) >= 30 && 2 <= Low(a[3]) <= 5
  {
    HalvesInNumbers();
    hide LowOf, Low, ValidRuntime, Load, Image, Stored;
    StoredIsRestored(c, a, len, f);
  }

  /** A base package survives exactly with one of five baud rates. */
  lemma BaseSurvives(c: Config, a: Args, reg: bv16)
    requires ValidRuntime(c)
    ensures Survives(c.(device := NewBase(c.device, a, reg))) <==>
      0x10000 * (a[43].bits as bv32) + (a[44].bits as bv32) in {9600, 19200, 38400, 57600, 115200}
  {
    hide ValidRuntime, Load, Image, NewBase, JoinedWide;
    BaseIsRestored(c, a, reg);
    WideInNumbers(a[43], a[44]);
  }
}
