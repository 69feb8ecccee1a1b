/** The Modbus register file and the table that `syncAll` publishes into it. */
module RegisterMap {
  import opened DeviceTypes
  import opened DeviceConfig
  import ErrorManager

  const REGISTERS: nat := 128

  /** A 16-bit register. */
  datatype Word = Word(bits: bv16)

  type Registers = r: seq<Word> | |r| == REGISTERS witness seq(REGISTERS, _ => Word(0))

  const COMMAND_CODE: nat := 0x01
  const COMMAND_ARG1: nat := 0x02
  const REG_BAUD_RATE: nat := 0x32

  /** The build date baked into the firmware. */
  datatype Build = Build(year: bv8, month: bv8, day: bv8, hour: bv8, minute: bv8, second: bv8)

  /** The four registers computed in floating point, whose values are left open. */
  datatype FloatWords = FloatWords(range: Word, lel: Word, calibration: Word, temperatureMax: Word)

  /** Everything `syncAll` reads. */
  datatype Source = Source(config: Config, build: Build, floats: FloatWords, errors: ErrorManager.Condition)

  function Plain(w: bv16): Word { Word(w) }

  function Pair(hi: bv8, lo: bv8): Word {
    Word(((hi as bv16) << 8) | (lo as bv16))
  }

  function Wide(b: bv8): Word { Word(b as bv16) }

  function BaudWord(baudrate: bv32): Word {
    Word(((baudrate / 100) & 0xFFFF) as bv16)
  }

  function Counter(n: ErrorManager.byte): Word { Word(n as bv16) }

  /** Two 8-bit counters in one register. */
  function CounterPair(hi: ErrorManager.byte, lo: ErrorManager.byte): Word {
    Word((hi as bv16 << 8) | (lo as bv16))
  }

  function NextIndex(w: bv16): Word { Word(w + 1) }

  // ----- The published table: what each register holds after `syncAll` ---------------------------------

  /** Registers that both tables share; `kept` stays where nothing is published. */
  function Shared(i: nat, kept: Word, s: Source): Word {
    if i < 0x34 then Codes(i, kept, s)
    else if i < 0x50 then Texts(i, s)
    else if i < 0x74 then Limits(i, kept, s)
    else Diagnostic(i, kept, s.errors)
  }

  function Codes(i: nat, kept: Word, s: Source): Word {
    var d, n, b := s.config.device, s.config.sensor, s.build;
    if i == 0x00 then Plain(0x0021)
    else if i == 0x0F || i == 0x2F then Pair(b.year, b.month)
    else if i == 0x10 then Wide(b.day)
    else if i == 0x11 then Pair(b.hour, b.minute)
    else if i == 0x12 then Pair(b.second, 0)
    else if 0x1A <= i <= 0x1C then Pair(d.alarmSettings[i - 0x1A], d.relayOffDelay[i - 0x1A])
    else if i == 0x20 then Plain(n.kind)
    else if i == 0x21 then Wide(n.gas)
    else if i == 0x22 then Wide(n.displayUnit)
    else if i == 0x23 then s.floats.range
    else if i == 0x24 then s.floats.lel
    else if i == 0x25 then Wide(n.appliedGas)
    else if 0x26 <= i <= 0x28 then Plain(d.alarmThreshold[i - 0x26])
    else if i == 0x2D then Plain(0x0103)
    else if i == 0x30 then Pair(b.day, 0)
    else if i == 0x33 then Plain(0x5202)
    else kept
  }

  function Texts(i: nat, s: Source): Word
    requires 0x34 <= i < 0x50
  {
    var d, n := s.config.device, s.config.sensor;
    if i <= 0x37 then Pair(n.manId[2 * (i - 0x34)], n.manId[2 * (i - 0x34) + 1])
    else if i <= 0x3B then Pair(d.baseSerial[2 * (i - 0x38)], d.baseSerial[2 * (i - 0x38) + 1])
    else if i <= 0x3F then Pair(n.serialNumber[2 * (i - 0x3C)], n.serialNumber[2 * (i - 0x3C) + 1])
    else if i == 0x4D then Plain(d.configReg)
    else Pair(d.location[2 * (i - 0x40)], d.location[2 * (i - 0x40) + 1])
  }

  function Limits(i: nat, kept: Word, s: Source): Word {
    var d, n := s.config.device, s.config.sensor;
    if i == 0x53 then s.floats.calibration
    else if i == 0x56 then Wide(n.cycle)
    else if i == 0x58 then Plain(n.thResistor)
    else if i == 0x59 then Plain(n.thBeta)
    else if i == 0x66 then Plain(n.manDate)
    else if i == 0x68 then Pair(d.hysteresis[0], d.hysteresis[1])
    else if i == 0x69 then Wide(d.hysteresis[2])
    else if i == 0x6A then NextIndex(n.vocGas)
    else if i == 0x6B then Wide(n.supplyVoltage)
    else if i == 0x6C then Wide(n.warmUpTime)
    else if i == 0x70 then s.floats.temperatureMax
    else if i == 0x71 then Plain(n.callSpanTime)
    else if i == 0x72 then Plain(n.callZeroTime)
    else kept
  }

  /** The diagnostic mirror. */
  function Diagnostic(i: nat, kept: Word, e: ErrorManager.Condition): Word {
    if i < 0x74 then kept
    else if i == 0x74 then Counter(e.totals.crc)
    else if i == 0x75 then Counter(e.totals.uartOverflow)
    else if i == 0x76 then Counter(e.totals.sensorReadFail)
    else if i == 0x77 then Counter(e.totals.i2cRecovery)
    else if i == 0x78 then Counter(e.totals.watchdogReset)
    else if i == 0x79 then Counter(e.totals.flashSaveFail)
    else if i == 0x7A then (if e.flags.fatalFault then Plain(0) else Plain(1))
    else if i == 0x7B then CounterPair(e.streaks.sensorFails, e.streaks.overflows)
    else kept
  }

  /** The holding table adds the analog levels not overwritten by sensor data, the display and the baud
      rate. */
  function Holding(i: nat, kept: Word, s: Source): Word {
    if 0x1D <= i <= 0x1F then Wide(s.config.device.analogOut[i - 0x1D])
    else if i == 0x31 then Plain(s.config.device.display)
    else if i == 0x32 then BaudWord(s.config.device.baudrate)
    else Shared(i, kept, s)
  }

  /** The input table adds the fixed scaling factor. */
  function Input(i: nat, kept: Word, s: Source): Word {
    if i == 0x29 then Plain(10) else Shared(i, kept, s)
  }

  function SyncedHolding(r: Registers, s: Source): Registers {
    seq(REGISTERS, i requires 0 <= i < REGISTERS => Holding(i, r[i], s))
  }

  function SyncedInput(r: Registers, s: Source): Registers {
    seq(REGISTERS, i requires 0 <= i < REGISTERS => Input(i, r[i], s))
  }

  function Diagnosed(r: Registers, e: ErrorManager.Condition): Registers {
    seq(REGISTERS, i requires 0 <= i < REGISTERS => Diagnostic(i, r[i], e))
  }

  /** `n` registers from byte pairs. */
  function Pairs(bytes: seq<bv8>, n: nat): (words: seq<Word>)
    requires 2 * n <= |bytes|
    ensures |words| == n
  {
    seq(n, i requires 0 <= i < n => Pair(bytes[2 * i], bytes[2 * i + 1]))
  }

  /** Identity, alarm thresholds, numbers and texts of a configuration stand in a table. */
  predicate ShowsConfig(t: Registers, c: Config) {
    && t[0x20] == Plain(c.sensor.kind) && t[0x21] == Wide(c.sensor.gas) && t[0x22] == Wide(c.sensor.displayUnit)
    && t[0x26..0x29] == Thresholds(c.device)
    && ShowsTexts(t, c)
    && t[0x58] == Plain(c.sensor.thResistor) && t[0x59] == Plain(c.sensor.thBeta)
  }

  predicate ShowsTexts(t: Registers, c: Config) {
    && t[0x34..0x38] == Pairs(c.sensor.manId, 4)
    && t[0x38..0x3C] == Pairs(c.device.baseSerial, 4)
    && t[0x3C..0x40] == Pairs(c.sensor.serialNumber, 4)
    && t[0x40..0x4D] == Pairs(c.device.location, 13)
    && t[0x4D] == Plain(c.device.configReg)
    && t[0x4E] == Pair(c.device.location[28], c.device.location[29])
    && t[0x4F] == Pair(c.device.location[30], c.device.location[31])
  }

  function Thresholds(d: Settings): seq<Word> {
    [Plain(d.alarmThreshold[0]), Plain(d.alarmThreshold[1]), Plain(d.alarmThreshold[2])]
  }

  /** Calibration cycle, hysteresis, supply, times and the like stand in a table. */
  predicate ShowsLimits(t: Registers, c: Config) {
    var d, n := c.device, c.sensor;
    && t[0x56] == Wide(n.cycle) && t[0x66] == Plain(n.manDate)
    && t[0x68] == Pair(d.hysteresis[0], d.hysteresis[1]) && t[0x69] == Wide(d.hysteresis[2])
    && t[0x6A] == NextIndex(n.vocGas) && t[0x6B] == Wide(n.supplyVoltage) && t[0x6C] == Wide(n.warmUpTime)
    && t[0x71] == Plain(n.callSpanTime) && t[0x72] == Plain(n.callZeroTime)
  }

  lemma TablesShowLimits(r: Registers, s: Source)
    ensures ShowsLimits(SyncedHolding(r, s), s.config) && ShowsLimits(SyncedInput(r, s), s.config)
  {
    hide Plain, Pair, Wide, BaudWord, NextIndex, Diagnostic, Codes, Texts;
  }

  /** Analog levels, display and baud rate stand in the holding table. */
  predicate ShowsPanel(t: Registers, d: Settings) {
    && t[0x1D] == Wide(d.analogOut[0]) && t[0x1E] == Wide(d.analogOut[1]) && t[0x1F] == Wide(d.analogOut[2])
    && t[0x31] == Plain(d.display) && t[0x32] == BaudWord(d.baudrate)
  }

  lemma TablesShowPanel(r: Registers, s: Source)
    ensures ShowsPanel(SyncedHolding(r, s), s.config.device)
  {
    hide Plain, Wide, BaudWord, Shared;
  }

  /** Model, versions and build date stand in a table. */
  predicate ShowsBuild(t: Registers, b: Build) {
    && t[0x00] == Plain(0x0021) && t[0x2D] == Plain(0x0103) && t[0x33] == Plain(0x5202)
    && t[0x0F] == t[0x2F] == Pair(b.year, b.month) && t[0x10] == Wide(b.day) && t[0x30] == Pair(b.day, 0)
    && t[0x11] == Pair(b.hour, b.minute) && t[0x12] == Pair(b.second, 0)
  }

  /** Status byte and off-delay of each alarm stand in a table. */
  predicate ShowsAlarms(t: Registers, d: Settings) {
    && t[0x1A] == Pair(d.alarmSettings[0], d.relayOffDelay[0])
    && t[0x1B] == Pair(d.alarmSettings[1], d.relayOffDelay[1])
    && t[0x1C] == Pair(d.alarmSettings[2], d.relayOffDelay[2])
  }

  predicate ShowsFloats(t: Registers, f: FloatWords) {
    t[0x23] == f.range && t[0x24] == f.lel && t[0x53] == f.calibration && t[0x70] == f.temperatureMax
  }

  /** The fault counters, the health and the two streaks stand in a table. */
  predicate ShowsFaults(t: Registers, e: ErrorManager.Condition) {
    && t[0x74] == Counter(e.totals.crc) && t[0x75] == Counter(e.totals.uartOverflow)
    && t[0x76] == Counter(e.totals.sensorReadFail) && t[0x77] == Counter(e.totals.i2cRecovery)
    && t[0x78] == Counter(e.totals.watchdogReset) && t[0x79] == Counter(e.totals.flashSaveFail)
    && t[0x7A] == Plain(if e.flags.fatalFault then 0 else 1)
    && t[0x7B] == CounterPair(e.streaks.sensorFails, e.streaks.overflows)
  }

  lemma TablesShowBuild(r: Registers, s: Source)
    ensures ShowsBuild(SyncedHolding(r, s), s.build) && ShowsBuild(SyncedInput(r, s), s.build)
  {
    hide Plain, Pair, Wide, BaudWord, NextIndex, Diagnostic, Texts, Limits;
  }

  lemma TablesShowAlarms(r: Registers, s: Source)
    ensures ShowsAlarms(SyncedHolding(r, s), s.config.device) && ShowsAlarms(SyncedInput(r, s), s.config.device)
    ensures SyncedHolding(r, s)[0x25] == SyncedInput(r, s)[0x25] == Wide(s.config.sensor.appliedGas)
    ensures SyncedInput(r, s)[0x29] == Plain(10)
  {
    hide Plain, Pair, Wide, BaudWord, NextIndex, Diagnostic, Texts, Limits;
  }

  lemma TablesShowFloats(r: Registers, s: Source)
    ensures ShowsFloats(SyncedHolding(r, s), s.floats) && ShowsFloats(SyncedInput(r, s), s.floats)
  {
    hide Plain, Pair, Wide, BaudWord, NextIndex, Diagnostic, Texts;
  }

  lemma TablesShowFaults(r: Registers, s: Source)
    ensures ShowsFaults(SyncedHolding(r, s), s.errors) && ShowsFaults(SyncedInput(r, s), s.errors)
  {
    hide Plain, Pair, Wide, BaudWord, NextIndex, Counter, CounterPair, Codes, Texts, Limits;
  }

  lemma MirrorShowsFaults(r: Registers, e: ErrorManager.Condition)
    ensures ShowsFaults(Diagnosed(r, e), e)
  {
    hide Plain, Counter, CounterPair;
  }

  /** Registers for which nothing is published. */
  predicate Unpublished(i: nat) {
    || 0x01 <= i <= 0x0E || 0x13 <= i <= 0x19 || 0x2A <= i <= 0x2C || i == 0x2E
    || 0x50 <= i <= 0x52 || i == 0x54 || i == 0x55 || i == 0x57 || 0x5A <= i <= 0x65 || i == 0x67
    || 0x6D <= i <= 0x6F || i == 0x73 || 0x7C <= i <= 0x7F
  }

  /** They keep their contents; the input table also keeps those of the panel, and the holding table 0x29. */
  lemma TablesKeepTheRest(r: Registers, s: Source, i: nat)
    requires i < 128
    ensures Unpublished(i) || i == 0x29 ==> SyncedHolding(r, s)[i] == r[i]
    ensures Unpublished(i) || 0x1D <= i <= 0x1F || i == 0x31 || i == 0x32 ==> SyncedInput(r, s)[i] == r[i]
    ensures i < 0x74 || i > 0x7B ==> Diagnosed(r, s.errors)[i] == r[i]
  {
    hide Plain, Pair, Wide, BaudWord, NextIndex, Counter, CounterPair;
  }

  // ----- In plain numbers --------------------------------------------------------------------------------

  /** What the words are, in the arithmetic of 16 bits. */
  lemma WordsInNumbers(hi: bv8, lo: bv8, w: bv16, rate: bv32)
    ensures Pair(hi, lo).bits == 256 * (hi as bv16) + (lo as bv16)
    ensures Wide(lo).bits == lo as bv16 && Plain(w).bits == w && NextIndex(w).bits == w + 1
    ensures BaudWord(rate).bits as bv32 == rate / 100 % 0x10000
  {}

  lemma CountersInNumbers(m: ErrorManager.byte, n: ErrorManager.byte)
    ensures Counter(m).bits == m as bv16
    ensures CounterPair(m, n).bits == 256 * (m as bv16) + (n as bv16)
  {}

  /** What a master reads from a device that started without a stored configuration. */
  predicate ShowsFresh(t: Registers) {
    && t[0x1A].bits == t[0x1B].bits == t[0x1C].bits == 0x0100
    && t[0x20].bits == 0x6522 && t[0x21].bits == 31 && t[0x22].bits == 4 && t[0x25].bits == 31
    && t[0x26].bits == 500 && t[0x27].bits == 100 && t[0x28].bits == 800
    && t[0x4D].bits == 0x80 && t[0x56].bits == 1 && t[0x58].bits == 0 && t[0x59].bits == 0
    && t[0x68].bits == 0x0202 && t[0x69].bits == 2 && t[0x6A].bits == 1 && t[0x6B].bits == 5 && t[0x6C].bits == 1
    && t[0x71].bits == 0 && t[0x72].bits == 0
    && forall i :: 0x34 <= i < 0x4D ==> t[i].bits == 0
  }

  lemma FreshRegisters(r: Registers, s: Source)
    requires s.config == Defaults()
    ensures ShowsFresh(SyncedHolding(r, s)) && ShowsFresh(SyncedInput(r, s))
    ensures
      var t := SyncedHolding(r, s);
      t[0x1D].bits == 10 && t[0x1E].bits == 20 && t[0x1F].bits == 20 && t[0x31].bits == 0x80 && t[0x32].bits == 576
  {
    TablesShowConfig(r, s);
    TablesShowLimits(r, s);
    TablesShowAlarms(r, s);
    TablesShowPanel(r, s);
    DefaultSettingsInNumbers();
    DefaultSensorInNumbers();
    DefaultsElsewhere();
    hide SyncedHolding, SyncedInput, Defaults;
    FreshTable(SyncedHolding(r, s), s.config);
    FreshTable(SyncedInput(r, s), s.config);
  }

  lemma FreshTable(t: Registers, c: Config)
    requires c == Defaults()
    requires ShowsConfig(t, c) && ShowsLimits(t, c) && ShowsAlarms(t, c.device)
    requires t[0x25] == Wide(c.sensor.appliedGas)
    ensures ShowsFresh(t)
  {
    DefaultSettingsInNumbers();
    DefaultSensorInNumbers();
    DefaultsElsewhere();
    hide Defaults;
    FreshTexts(t, c);
  }

  lemma FreshTexts(t: Registers, c: Config)
    requires ShowsTexts(t, c)
    requires forall i :: 0 <= i < 8 ==> c.device.baseSerial[i] == 0
    requires forall i :: 0 <= i < 32 ==> c.device.location[i] == 0
    requires forall i :: 0 <= i < 12 ==> c.sensor.serialNumber[i] == 0 && c.sensor.manId[i] == 0
    ensures forall i :: 0x34 <= i < 0x4D ==> t[i].bits == 0
  {
    forall i | 0x34 <= i < 0x4D ensures t[i].bits == 0 {
      if i < 0x38 {
        assert t[i] == t[0x34..0x38][i - 0x34];
      } else if i < 0x3C {
        assert t[i] == t[0x38..0x3C][i - 0x38];
      } else if i < 0x40 {
        assert t[i] == t[0x3C..0x40][i - 0x3C];
      } else {
        assert t[i] == t[0x40..0x4D][i - 0x40];
      }
    }
  }

  lemma TablesShowTexts(t: Registers, s: Source)
    requires forall i :: 0x34 <= i < 0x50 ==> t[i] == Texts(i, s)
    ensures ShowsTexts(t, s.config)
  {
    hide Plain, Pair;
  }

  lemma TablesShowCodes(t: Registers, s: Source)
    requires forall i :: 0x20 <= i < 0x29 ==> t[i] == Codes(i, t[i], s)
    requires t[0x58] == Limits(0x58, t[0x58], s) && t[0x59] == Limits(0x59, t[0x59], s)
    requires ShowsTexts(t, s.config)
    ensures ShowsConfig(t, s.config)
  {
    hide Plain, Pair, Wide, NextIndex, ShowsTexts;
    assert t[0x20] == Codes(0x20, t[0x20], s) && t[0x21] == Codes(0x21, t[0x21], s);
    assert t[0x22] == Codes(0x22, t[0x22], s) && t[0x26] == Codes(0x26, t[0x26], s);
    assert t[0x27] == Codes(0x27, t[0x27], s) && t[0x28] == Codes(0x28, t[0x28], s);
    assert t[0x26..0x29] == [t[0x26], t[0x27], t[0x28]];
  }

  lemma HoldingParts(i: nat, kept: Word, s: Source)
    requires i < REGISTERS
    ensures 0x34 <= i < 0x50 ==> Holding(i, kept, s) == Texts(i, s) == Input(i, kept, s)
    ensures 0x20 <= i < 0x29 ==> Holding(i, kept, s) == Codes(i, Holding(i, kept, s), s)
    ensures 0x20 <= i < 0x29 ==> Input(i, kept, s) == Codes(i, Input(i, kept, s), s)
    ensures i == 0x58 || i == 0x59 ==> Holding(i, kept, s) == Limits(i, Holding(i, kept, s), s)
    ensures i == 0x58 || i == 0x59 ==> Input(i, kept, s) == Limits(i, Input(i, kept, s), s)
  {
    hide Plain, Pair, Wide, BaudWord, NextIndex, Diagnostic, Texts;
  }

  /** Both tables show the configuration they were published from. */
  lemma TablesShowConfig(r: Registers, s: Source)
    ensures ShowsConfig(SyncedHolding(r, s), s.config) && ShowsConfig(SyncedInput(r, s), s.config)
  {
    hide Plain, Pair, Wide, Holding, Input, Texts, Codes, Limits, ShowsTexts, ShowsConfig;
    var holding, input := SyncedHolding(r, s), SyncedInput(r, s);
    forall i | 0 <= i < REGISTERS
      ensures 0x34 <= i < 0x50 ==> holding[i] == Texts(i, s) == input[i]
      ensures 0x20 <= i < 0x29 ==> holding[i] == Codes(i, holding[i], s) && input[i] == Codes(i, input[i], s)
      ensures i == 0x58 || i == 0x59 ==>
        holding[i] == Limits(i, holding[i], s) && input[i] == Limits(i, input[i], s)
    {
      HoldingParts(i, r[i], s);
    }
    TablesShowTexts(holding, s);
    TablesShowTexts(input, s);
    TablesShowCodes(holding, s);
    TablesShowCodes(input, s);
  }

  // ----- syncAll itself: overlapping writes in the order of the firmware ------------------------------

  // What each stage leaves in a register.

  function IdentityStage(i: nat, kept: Word, b: Build): Word {
    if i == 0x00 then Plain(0x0021) else if i == 0x33 then Plain(0x5202) else if i == 0x2D then Plain(0x0103)
    else if i == 0x2F then Pair(b.year, b.month) else if i == 0x30 then Pair(b.day, 0)
    else if i == 0x11 then Pair(b.hour, b.minute) else if i == 0x12 then Pair(b.second, 0)
    else kept
  }

  function DeviceStage(i: nat, kept: Word, d: Settings, b: Build): Word {
    if i < 0x34 then AlarmStage(i, kept, d, b)
    else if i < 0x50 then TextStage(i, kept, d)
    else if i == 0x68 then Pair(d.hysteresis[0], d.hysteresis[1])
    else if i == 0x69 then Wide(d.hysteresis[2])
    else kept
  }

  function AlarmStage(i: nat, kept: Word, d: Settings, b: Build): Word {
    if 0x1A <= i <= 0x1C then Pair(d.alarmSettings[i - 0x1A], d.relayOffDelay[i - 0x1A])
    else if 0x26 <= i <= 0x28 then Plain(d.alarmThreshold[i - 0x26])
    else if i == 0x0F then Pair(b.year, b.month)
    else if i == 0x10 then Wide(b.day)
    else kept
  }

  function TextStage(i: nat, kept: Word, d: Settings): Word {
    if 0x38 <= i <= 0x3B then Pair(d.baseSerial[2 * (i - 0x38)], d.baseSerial[2 * (i - 0x38) + 1])
    else if i == 0x4D then Plain(d.configReg)
    else if 0x40 <= i <= 0x4F then Pair(d.location[2 * (i - 0x40)], d.location[2 * (i - 0x40) + 1])
    else kept
  }

  function DeviceHolding(i: nat, kept: Word, d: Settings, b: Build): Word {
    if 0x1D <= i <= 0x22 then Wide(d.analogOut[i - 0x1D])
    else if i == 0x31 then Plain(d.display)
    else if i == 0x32 then BaudWord(d.baudrate)
    else DeviceStage(i, kept, d, b)
  }

  function DeviceInput(i: nat, kept: Word, d: Settings, b: Build): Word {
    if i == 0x21 then Plain(0x31) else if i == 0x29 then Plain(10) else DeviceStage(i, kept, d, b)
  }

  function SensorStage(i: nat, kept: Word, n: SensorData, f: FloatWords): Word {
    if i < 0x34
    then CodeStage(i, kept, Plain(n.kind), Wide(n.gas), Wide(n.displayUnit), f.range, Wide(n.appliedGas), f.lel)
    else if i <= 0x66
    then FactoryStage(i, kept, f.calibration, Wide(n.cycle), Plain(n.thResistor), Plain(n.thBeta), Plain(n.manDate))
    else LimitStage(i, kept, NextIndex(n.vocGas), Wide(n.supplyVoltage), Wide(n.warmUpTime), f.temperatureMax,
                    Plain(n.callSpanTime), Plain(n.callZeroTime))
  }

  function CodeStage(i: nat, kept: Word,
                     kind: Word, gas: Word, unit: Word, range: Word, appliedGas: Word, lel: Word): Word {
    if i == 0x20 then kind else if i == 0x21 then gas else if i == 0x22 then unit
    else if i == 0x23 then range else if i == 0x24 then lel else if i == 0x25 then appliedGas
    else kept
  }

  function FactoryStage(i: nat, kept: Word,
                        calibration: Word, cycle: Word, resistor: Word, beta: Word, date: Word): Word {
    if i == 0x53 then calibration else if i == 0x56 then cycle
    else if i == 0x58 then resistor else if i == 0x59 then beta else if i == 0x66 then date
    else kept
  }

  function LimitStage(i: nat, kept: Word,
                      voc: Word, supply: Word, warmUp: Word, hottest: Word, span: Word, zero: Word): Word {
    if i == 0x6A then voc else if i == 0x6B then supply else if i == 0x6C then warmUp
    else if i == 0x70 then hottest else if i == 0x71 then span else if i == 0x72 then zero
    else kept
  }

  function NumberStage(i: nat, kept: Word, n: SensorData): Word {
    if 0x34 <= i <= 0x37 then Pair(n.manId[2 * (i - 0x34)], n.manId[2 * (i - 0x34) + 1])
    else if 0x3C <= i <= 0x3F then Pair(n.serialNumber[2 * (i - 0x3C)], n.serialNumber[2 * (i - 0x3C) + 1])
    else kept
  }

  function SensorStages(i: nat, kept: Word, s: Source): Word {
    var n := s.config.sensor;
    Diagnostic(i, NumberStage(i, SensorStage(i, kept, n, s.floats), n), s.errors)
  }

  function HoldingStages(i: nat, kept: Word, s: Source): Word {
    var d, b := s.config.device, s.build;
    SensorStages(i, DeviceHolding(i, IdentityStage(i, kept, b), d, b), s)
  }

  function InputStages(i: nat, kept: Word, s: Source): Word {
    var d, b := s.config.device, s.build;
    SensorStages(i, DeviceInput(i, IdentityStage(i, kept, b), d, b), s)
  }

  // The stages, one over the other, leave exactly the table.

  lemma BuildStaged(i: nat, kept: Word, s: Source)
    requires i < 0x20
    ensures HoldingStages(i, kept, s) == Holding(i, kept, s) && InputStages(i, kept, s) == Input(i, kept, s)
  {
    hide Plain, Pair, Wide, BaudWord, NextIndex, Counter, CounterPair;
    hide Texts, Limits, TextStage, FactoryStage, LimitStage;
  }

  lemma CodesStaged(i: nat, kept: Word, s: Source)
    requires 0x20 <= i <= 0x25
    ensures HoldingStages(i, kept, s) == Holding(i, kept, s) && InputStages(i, kept, s) == Input(i, kept, s)
  {
    hide Plain, Pair, Wide, BaudWord, NextIndex, Counter, CounterPair;
    hide Texts, Limits, TextStage, FactoryStage, LimitStage;
  }

  lemma AlarmsStaged(i: nat, kept: Word, s: Source)
    requires 0x26 <= i < 0x34
    ensures HoldingStages(i, kept, s) == Holding(i, kept, s) && InputStages(i, kept, s) == Input(i, kept, s)
  {
    hide Plain, Pair, Wide, BaudWord, NextIndex, Counter, CounterPair;
    hide Texts, Limits, TextStage, FactoryStage, LimitStage;
  }

  lemma TextsStaged(i: nat, kept: Word, s: Source)
    requires 0x34 <= i < 0x50
    ensures HoldingStages(i, kept, s) == Holding(i, kept, s) && InputStages(i, kept, s) == Input(i, kept, s)
  {
    hide Plain, Pair, Wide, BaudWord, NextIndex, Counter, CounterPair;
    hide Codes, Limits, AlarmStage, CodeStage, LimitStage;
  }

  lemma FactoryStaged(i: nat, kept: Word, s: Source)
    requires 0x50 <= i <= 0x66
    ensures HoldingStages(i, kept, s) == Holding(i, kept, s) && InputStages(i, kept, s) == Input(i, kept, s)
  {
    hide Plain, Pair, Wide, BaudWord, NextIndex, Counter, CounterPair;
    hide Codes, Texts, AlarmStage, TextStage, CodeStage, LimitStage;
  }

  lemma LimitsStaged(i: nat, kept: Word, s: Source)
    requires 0x66 < i < 0x74
    ensures HoldingStages(i, kept, s) == Holding(i, kept, s) && InputStages(i, kept, s) == Input(i, kept, s)
  {
    hide Plain, Pair, Wide, BaudWord, NextIndex, Counter, CounterPair;
    hide Codes, Texts, AlarmStage, TextStage, CodeStage, FactoryStage;
  }

  lemma DiagnosticStaged(i: nat, kept: Word, s: Source)
    requires i >= 0x74
    ensures HoldingStages(i, kept, s) == Holding(i, kept, s) && InputStages(i, kept, s) == Input(i, kept, s)
  {
    hide Plain, Pair, Wide, BaudWord, NextIndex, Counter, CounterPair;
    hide Codes, Texts, Limits, AlarmStage, TextStage, CodeStage, FactoryStage, Diagnostic;
  }

  lemma StagesMakeTables(i: nat, kept: Word, s: Source)
    ensures HoldingStages(i, kept, s) == Holding(i, kept, s) && InputStages(i, kept, s) == Input(i, kept, s)
  {
    hide HoldingStages, Holding, InputStages, Input;
    if i < 0x20 {
      BuildStaged(i, kept, s);
    } else if i <= 0x25 {
      CodesStaged(i, kept, s);
    } else if i < 0x34 {
      AlarmsStaged(i, kept, s);
    } else if i < 0x50 {
      TextsStaged(i, kept, s);
    } else if i <= 0x66 {
      FactoryStaged(i, kept, s);
    } else if i < 0x74 {
      LimitsStaged(i, kept, s);
    } else {
      DiagnosticStaged(i, kept, s);
    }
  }

  // Most values go into both tables, so each stage is one method called for either.

  /** Consecutive registers from byte pairs, high byte first. */
  method PutPairs(r: array<Word>, at: nat, bytes: seq<bv8>, n: nat)
    requires at + n <= r.Length && 2 * n <= |bytes|
    modifies r
    ensures forall i :: 0 <= i < r.Length ==>
      r[i] == if at <= i < at + n then Pair(bytes[2 * (i - at)], bytes[2 * (i - at) + 1]) else old(r[i])
  {
    for k := 0 to n
      invariant forall i :: 0 <= i < r.Length ==>
        r[i] == if at <= i < at + k then Pair(bytes[2 * (i - at)], bytes[2 * (i - at) + 1]) else old(r[i])
    {
      r[at + k] := Pair(bytes[2 * k], bytes[2 * k + 1]);
    }
  }

  /** The build date, twice over, and the model numbers. */
  method PutIdentity(r: array<Word>, date: Word, day: Word, hour: Word, second: Word)
    requires r.Length == REGISTERS
    modifies r
    ensures r[0x00] == Plain(0x0021) && r[0x33] == Plain(0x5202) && r[0x2D] == Plain(0x0103)
    ensures r[0x2F] == date && r[0x30] == day && r[0x11] == hour && r[0x12] == second
    ensures forall i :: 0 <= i < REGISTERS && i !in {0x00, 0x11, 0x12, 0x2D, 0x2F, 0x30, 0x33} ==> r[i] == old(r[i])
  {
    hide Plain;
    r[0x00] := Plain(0x0021);
    r[0x33] := Plain(0x5202);
    r[0x2D] := Plain(0x0103);
    r[0x2F] := Plain(0x1A04);
    r[0x2F] := date;
    r[0x30] := day;
    r[0x11] := hour;
    r[0x12] := second;
  }

  method PublishIdentity(r: array<Word>, b: Build)
    requires r.Length == REGISTERS
    modifies r
    ensures forall i :: 0 <= i < REGISTERS ==> r[i] == IdentityStage(i, old(r[i]), b)
  {
    hide Plain, Pair;
    PutIdentity(r, Pair(b.year, b.month), Pair(b.day, 0), Pair(b.hour, b.minute), Pair(b.second, 0));
  }

  method PublishAlarmConfig(r: array<Word>, d: Settings)
    requires r.Length == REGISTERS
    modifies r
    ensures forall i :: 0 <= i < REGISTERS ==>
      r[i] == if 0x1A <= i <= 0x1C then Pair(d.alarmSettings[i - 0x1A], d.relayOffDelay[i - 0x1A]) else old(r[i])
  {
    for k := 0 to 3
      invariant forall i :: 0 <= i < REGISTERS ==>
        r[i] == if 0x1A <= i < 0x1A + k then Pair(d.alarmSettings[i - 0x1A], d.relayOffDelay[i - 0x1A]) else old(r[i])
    {
      r[0x1A + k] := Pair(d.alarmSettings[k], d.relayOffDelay[k]);
    }
  }

  /** Six analog levels; the last three land on the sensor registers 0x20..0x22, which are written again
      later. */
  method PublishAnalog(r: array<Word>, d: Settings)
    requires r.Length == REGISTERS
    modifies r
    ensures forall i :: 0 <= i < REGISTERS ==>
      r[i] == if 0x1D <= i <= 0x22 then Wide(d.analogOut[i - 0x1D]) else old(r[i])
  {
    for k := 0 to 6
      invariant forall i :: 0 <= i < REGISTERS ==>
        r[i] == if 0x1D <= i < 0x1D + k then Wide(d.analogOut[i - 0x1D]) else old(r[i])
    {
      r[0x1D + k] := Wide(d.analogOut[k]);
    }
  }

  method PutAlarms(r: array<Word>, high: Word, low: Word, humid: Word, date: Word, day: Word)
    requires r.Length == REGISTERS
    modifies r
    ensures r[0x26] == high && r[0x27] == low && r[0x28] == humid && r[0x0F] == date && r[0x10] == day
    ensures forall i :: 0 <= i < REGISTERS && i !in {0x0F, 0x10, 0x26, 0x27, 0x28} ==> r[i] == old(r[i])
  {
    r[0x26] := high;
    r[0x27] := low;
    r[0x28] := humid;
    r[0x0F] := date;
    r[0x10] := day;
  }

  method PublishAlarms(r: array<Word>, d: Settings, b: Build)
    requires r.Length == REGISTERS
    modifies r
    ensures forall i :: 0 <= i < REGISTERS ==> r[i] == if i < 0x34 then AlarmStage(i, old(r[i]), d, b) else old(r[i])
  {
    hide Plain, Pair, Wide;
    PutAlarms(r, Plain(d.alarmThreshold[0]), Plain(d.alarmThreshold[1]), Plain(d.alarmThreshold[2]),
              Pair(b.year, b.month), Wide(b.day));
    PublishAlarmConfig(r, d);
  }

  method PublishTexts(r: array<Word>, d: Settings)
    requires r.Length == REGISTERS
    modifies r
    ensures forall i :: 0 <= i < REGISTERS ==>
      r[i] == if 0x34 <= i < 0x50 then TextStage(i, old(r[i]), d) else old(r[i])
  {
    hide Plain, Pair;
    PutPairs(r, 0x38, d.baseSerial, 4);
    PutPairs(r, 0x40, d.location, 16);
    r[0x4D] := Plain(d.configReg);
  }

  /** The device settings common to both tables. */
  method PublishDevice(r: array<Word>, d: Settings, b: Build)
    requires r.Length == REGISTERS
    modifies r
    ensures forall i :: 0 <= i < REGISTERS ==> r[i] == DeviceStage(i, old(r[i]), d, b)
  {
    hide Plain, Pair, Wide, AlarmStage, TextStage;
    PublishTexts(r, d);
    PublishAlarms(r, d, b);
    r[0x68] := Pair(d.hysteresis[0], d.hysteresis[1]);
    r[0x69] := Wide(d.hysteresis[2]);
  }

  method PutCodes(r: array<Word>, kind: Word, gas: Word, unit: Word, range: Word, appliedGas: Word, lel: Word)
    requires r.Length == REGISTERS
    modifies r
    ensures r[0x20] == kind && r[0x21] == gas && r[0x22] == unit
    ensures r[0x23] == range && r[0x25] == appliedGas && r[0x24] == lel
    ensures forall i :: 0 <= i < REGISTERS && !(0x20 <= i <= 0x25) ==> r[i] == old(r[i])
  {
    r[0x20] := kind;
    r[0x21] := gas;
    r[0x22] := unit;
    r[0x23] := range;
    r[0x25] := appliedGas;
    r[0x24] := lel;
  }

  method PutFactory(r: array<Word>, calibration: Word, cycle: Word, resistor: Word, beta: Word, date: Word)
    requires r.Length == REGISTERS
    modifies r
    ensures r[0x53] == calibration && r[0x56] == cycle
    ensures r[0x58] == resistor && r[0x59] == beta && r[0x66] == date
    ensures forall i :: 0 <= i < REGISTERS && !(i in {0x53, 0x56, 0x58, 0x59, 0x66}) ==> r[i] == old(r[i])
  {
    r[0x53] := calibration;
    r[0x56] := cycle;
    r[0x58] := resistor;
    r[0x59] := beta;
    r[0x66] := date;
  }

  method PutLimits(r: array<Word>, voc: Word, supply: Word, warmUp: Word, hottest: Word, span: Word, zero: Word)
    requires r.Length == REGISTERS
    modifies r
    ensures r[0x6A] == voc && r[0x6B] == supply && r[0x6C] == warmUp
    ensures r[0x70] == hottest && r[0x71] == span && r[0x72] == zero
    ensures forall i :: 0 <= i < REGISTERS && !(i in {0x6A, 0x6B, 0x6C, 0x70, 0x71, 0x72}) ==> r[i] == old(r[i])
  {
    r[0x6A] := voc;
    r[0x6B] := supply;
    r[0x6C] := warmUp;
    r[0x70] := hottest;
    r[0x71] := span;
    r[0x72] := zero;
  }

  method PublishCodes(r: array<Word>, n: SensorData, f: FloatWords)
    requires r.Length == REGISTERS
    modifies r
    ensures forall i :: 0 <= i < REGISTERS ==> r[i] == if i < 0x34 then SensorStage(i, old(r[i]), n, f) else old(r[i])
  {
    var gas, unit, applied := Wide(n.gas), Wide(n.displayUnit), Wide(n.appliedGas);
    hide Plain, Wide, NextIndex, FactoryStage, LimitStage;
    PutCodes(r, Plain(n.kind), gas, unit, f.range, applied, f.lel);
  }

  method PublishFactory(r: array<Word>, n: SensorData, f: FloatWords)
    requires r.Length == REGISTERS
    modifies r
    ensures forall i :: 0 <= i < REGISTERS ==>
      r[i] == if 0x34 <= i <= 0x66 then SensorStage(i, old(r[i]), n, f) else old(r[i])
  {
    hide Plain, Wide, NextIndex, CodeStage, LimitStage;
    PutFactory(r, f.calibration, Wide(n.cycle), Plain(n.thResistor), Plain(n.thBeta), Plain(n.manDate));
  }

  method PublishLimits(r: array<Word>, n: SensorData, f: FloatWords)
    requires r.Length == REGISTERS
    modifies r
    ensures forall i :: 0 <= i < REGISTERS ==> r[i] == if i > 0x66 then SensorStage(i, old(r[i]), n, f) else old(r[i])
  {
    hide Plain, Wide, NextIndex, CodeStage, FactoryStage;
    PutLimits(r, NextIndex(n.vocGas), Wide(n.supplyVoltage), Wide(n.warmUpTime), f.temperatureMax,
              Plain(n.callSpanTime), Plain(n.callZeroTime));
  }

  method PublishSensor(r: array<Word>, n: SensorData, f: FloatWords)
    requires r.Length == REGISTERS
    modifies r
    ensures forall i :: 0 <= i < REGISTERS ==> r[i] == SensorStage(i, old(r[i]), n, f)
  {
    hide SensorStage;
    PublishCodes(r, n, f);
    PublishFactory(r, n, f);
    PublishLimits(r, n, f);
  }

  method PublishNumbers(r: array<Word>, n: SensorData)
    requires r.Length == REGISTERS
    modifies r
    ensures forall i :: 0 <= i < REGISTERS ==> r[i] == NumberStage(i, old(r[i]), n)
  {
    hide Plain, Pair;
    PutPairs(r, 0x3C, n.serialNumber, 4);
    PutPairs(r, 0x34, n.manId, 4);
  }

  method PutCounters(r: array<Word>, t: ErrorManager.Totals)
    requires r.Length == REGISTERS
    modifies r
    ensures r[..] == old(r[..])[0x74 := Counter(t.crc)][0x75 := Counter(t.uartOverflow)]
      [0x76 := Counter(t.sensorReadFail)][0x77 := Counter(t.i2cRecovery)]
      [0x78 := Counter(t.watchdogReset)][0x79 := Counter(t.flashSaveFail)]
  {
    hide Plain, Counter;
    r[0x74] := Counter(t.crc);
    r[0x75] := Counter(t.uartOverflow);
    r[0x76] := Counter(t.sensorReadFail);
    r[0x77] := Counter(t.i2cRecovery);
    r[0x78] := Counter(t.watchdogReset);
    r[0x79] := Counter(t.flashSaveFail);
  }

  lemma DiagnosticPut(i: nat, kept: seq<Word>, e: ErrorManager.Condition)
    requires |kept| == REGISTERS && i < REGISTERS
    ensures
      kept[0x74 := Counter(e.totals.crc)][0x75 := Counter(e.totals.uartOverflow)]
          [0x76 := Counter(e.totals.sensorReadFail)][0x77 := Counter(e.totals.i2cRecovery)]
          [0x78 := Counter(e.totals.watchdogReset)][0x79 := Counter(e.totals.flashSaveFail)]
          [0x7A := if e.flags.fatalFault then Plain(0) else Plain(1)]
          [0x7B := CounterPair(e.streaks.sensorFails, e.streaks.overflows)][i]
      == Diagnostic(i, kept[i], e)
  {
    hide Plain, Counter, CounterPair;
  }

  method UpdateDiagnostics(r: array<Word>, e: ErrorManager.Condition)
    requires r.Length == REGISTERS
    modifies r
    ensures forall i :: 0 <= i < REGISTERS ==> r[i] == Diagnostic(i, old(r[i]), e)
    ensures r[..] == Diagnosed(old(r[..]), e)
  {
    hide Plain, Counter, CounterPair, Diagnostic;
    ghost var kept := r[..];
    PutCounters(r, e.totals);
    r[0x7A] := if e.flags.fatalFault then Plain(0) else Plain(1);
    r[0x7B] := CounterPair(e.streaks.sensorFails, e.streaks.overflows);
    forall i | 0 <= i < REGISTERS ensures r[..][i] == Diagnostic(i, kept[i], e) {
      DiagnosticPut(i, kept, e);
    }
  }

  method SyncHolding(r: array<Word>, s: Source)
    requires r.Length == REGISTERS
    modifies r
    ensures r[..] == SyncedHolding(old(r[..]), s)
  {
    var d, n := s.config.device, s.config.sensor;
    hide DeviceStage, IdentityStage, SensorStage, NumberStage, Diagnostic, Holding;
    PublishIdentity(r, s.build);
    PublishDevice(r, d, s.build);
    PublishAnalog(r, d);
    r[0x32] := BaudWord(d.baudrate);
    r[0x31] := Plain(d.display);
    assert forall i :: 0 <= i < REGISTERS ==>
      r[i] == DeviceHolding(i, IdentityStage(i, old(r[i]), s.build), d, s.build);
    hide DeviceHolding;
    PublishSensor(r, n, s.floats);
    PublishNumbers(r, n);
    UpdateDiagnostics(r, s.errors);
    forall i | 0 <= i < REGISTERS ensures r[..][i] == Holding(i, old(r[i]), s) {
      StagesMakeTables(i, old(r[i]), s);
    }
  }

  method SyncInput(r: array<Word>, s: Source)
    requires r.Length == REGISTERS
    modifies r
    ensures r[..] == SyncedInput(old(r[..]), s)
  {
    var d, n := s.config.device, s.config.sensor;
    hide DeviceStage, IdentityStage, SensorStage, NumberStage, Diagnostic, Input;
    PublishIdentity(r, s.build);
    PublishDevice(r, d, s.build);
    r[0x21] := Plain(0x31);
    r[0x29] := Plain(10);
    assert forall i :: 0 <= i < REGISTERS ==> r[i] == DeviceInput(i, IdentityStage(i, old(r[i]), s.build), d, s.build);
    hide DeviceInput;
    PublishSensor(r, n, s.floats);
    PublishNumbers(r, n);
    UpdateDiagnostics(r, s.errors);
    forall i | 0 <= i < REGISTERS ensures r[..][i] == Input(i, old(r[i]), s) {
      StagesMakeTables(i, old(r[i]), s);
    }
  }

  method SyncAll(holding: array<Word>, input: array<Word>, s: Source)
    requires holding.Length == REGISTERS && input.Length == REGISTERS && holding != input
    modifies holding, input
    ensures holding[..] == SyncedHolding(old(holding[..]), s)
    ensures input[..] == SyncedInput(old(input[..]), s)
  {
    SyncHolding(holding, s);
    SyncInput(input, s);
  }
}
