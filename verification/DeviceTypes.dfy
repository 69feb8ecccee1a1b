/** The device's persistent structures, their packed byte images, and their validity. Floating-point
    members are kept as raw bytes. */
module DeviceTypes {
  import opened Layout

  // ----- Constants of the firmware ---------------------------------------------------------------

  const CONFIG_MAGIC_NUM: bv32 := 0xABCD1234
  const DEFAULT_BAUDRATE: bv32 := 57600
  const DISPLAY_ON: bv16 := 0x80
  const ENGLISH: bv16 := 0
  const OVER_RANGE_AUTO_RESET: bv16 := 0x0080
  const AUTO_RESET: bv8 := 0x01
  const MIN_HYSTERESIS: bv8 := 2
  const PPM: bv8 := 2
  const LEL: bv8 := 4
  const PPB: bv8 := 5
  const GAS_INDX_OFFSET: bv8 := 30
  const CH4: bv8 := 31
  const GENERIC_MODEL_DET: bv16 := 0x5202
  const CATALYTIC_SENSOR: bv16 := 0x6522

  // ----- Byte arrays of the structures ------------------------------------------------------------

  type Bytes2 = b: seq<bv8> | |b| == 2 witness [0, 0]
  type Bytes3 = b: seq<bv8> | |b| == 3 witness [0, 0, 0]
  type Bytes4 = b: seq<bv8> | |b| == 4 witness [0, 0, 0, 0]
  type Bytes8 = b: seq<bv8> | |b| == 8 witness [0, 0, 0, 0, 0, 0, 0, 0]
  type Bytes12 = b: seq<bv8> | |b| == 12 witness [0, 0, 0, 0, 0, 0, 0, 0, 0, 0, 0, 0]
  type Bytes32 = b: seq<bv8> | |b| == 32 witness Zeros(32)
  type Bytes80 = b: seq<bv8> | |b| == 80 witness Zeros(80)
  type Bytes92 = b: seq<bv8> | |b| == 92 witness Zeros(92)
  type Bytes136 = b: seq<bv8> | |b| == 136 witness Zeros(136)
  type Words4 = w: seq<bv16> | |w| == 4 witness [0, 0, 0, 0]

  function Zeros(n: nat): (b: seq<bv8>)
    ensures |b| == n
  {
    seq(n, _ => 0)
  }

  // ----- The structures ---------------------------------------------------------------------------

  /** `SettingsStruct`; `rest` is the HART block with the spare word and the trailing padding. */
  datatype Settings = Settings(
    fill: Bytes8,
    verifyKey: bv32,
    id: bv16,
    hartConfig: Bytes2,
    password: Bytes4,
    baseSerial: Bytes8,
    location: Bytes32,
    display: bv16,
    configReg: bv16,
    analogOut: Bytes8,
    alarmThreshold: Words4,
    hysteresis: Bytes4,
    alarmSettings: Bytes4,
    relayOffDelay: Bytes4,
    manDateYear: bv16,
    manDateMonth: bv16,
    baudrate: bv32,
    rest: Bytes92)

  /** `SensorStruct`. `reals` holds its eleven doubles and the six linearisation coefficients; the
      calibration record follows with its integer head, dates and gas codes, and ten doubles. */
  datatype SensorData = SensorData(
    gas: bv8, calibrationDue: bv8, displayUnit: bv8, disable: bv8,
    filterUpdateTick: bv8, regSwitchedOff: bv8, pellistorSaver: bv8, warmUpTime: bv8,
    bumpTestDue: bv8, wrProtect: bv8, mulFactor: bv8, supplyVoltage: bv8,
    kind: bv16, model: bv16, manDate: bv16, vocGas: bv16,
    bumpTestInterval: bv8, bumpTestDate: Bytes3,
    lampDrvPeriod: bv16, rdTimeDelayPeak: bv8, rdTimeDelayDeep: bv8,
    thResistor: bv16, thBeta: bv16, callSpanTime: bv16, callZeroTime: bv16,
    serialNumber: Bytes12, manId: Bytes12,
    reals: Bytes136,
    calibrationHead: Bytes12, calibrationDate: Bytes3,
    cycle: bv8, spanGasType: bv8, appliedGas: bv8, calibrationSpare: Bytes2,
    calibrationReals: Bytes80)

  // ----- Packed images: four groups of members each ----------------------------------------------------

  const SETTINGS_SIZE: nat := 192
  const SENSOR_SIZE: nat := 296

  function Identity(s: Settings): seq<seq<bv8>> {
    [s.fill, U32(s.verifyKey), U16(s.id), s.hartConfig, s.password, s.baseSerial]
  }

  function Panel(s: Settings): seq<seq<bv8>> {
    [s.location, U16(s.display), U16(s.configReg), s.analogOut]
  }

  function Alarms(s: Settings): seq<seq<bv8>> {
    [U16(s.alarmThreshold[0]), U16(s.alarmThreshold[1]), U16(s.alarmThreshold[2]), U16(s.alarmThreshold[3]),
     s.hysteresis, s.alarmSettings, s.relayOffDelay]
  }

  function Line(s: Settings): seq<seq<bv8>> {
    [U16(s.manDateYear), U16(s.manDateMonth), U32(s.baudrate), s.rest]
  }

  const IDENTITY_SIZES: seq<nat> := [8, 4, 2, 2, 4, 8]
  const PANEL_SIZES: seq<nat> := [32, 2, 2, 8]
  const ALARM_SIZES: seq<nat> := [2, 2, 2, 2, 4, 4, 4]
  const LINE_SIZES: seq<nat> := [2, 2, 4, 92]
  const SETTINGS_GROUPS: seq<nat> := [28, 44, 20, 100]

  function SettingsImage(s: Settings): seq<bv8> {
    Pack([Pack(Identity(s)), Pack(Panel(s)), Pack(Alarms(s)), Pack(Line(s))])
  }

  function SettingsFrom(image: seq<bv8>): Settings
    requires |image| == SETTINGS_SIZE
  {
    SettingsTotals();
    var groups := Unpack(image, SETTINGS_GROUPS);
    SettingsOf(Unpack(groups[0], IDENTITY_SIZES), Unpack(groups[1], PANEL_SIZES),
               Unpack(groups[2], ALARM_SIZES), Unpack(groups[3], LINE_SIZES))
  }

  function SettingsOf(a: seq<seq<bv8>>, b: seq<seq<bv8>>, c: seq<seq<bv8>>, d: seq<seq<bv8>>): Settings
    requires Sized(a, IDENTITY_SIZES) && Sized(b, PANEL_SIZES) && Sized(c, ALARM_SIZES) && Sized(d, LINE_SIZES)
  {
    Settings(a[0], AsU32(a[1]), AsU16(a[2]), a[3], a[4], a[5],
             b[0], AsU16(b[1]), AsU16(b[2]), b[3],
             [AsU16(c[0]), AsU16(c[1]), AsU16(c[2]), AsU16(c[3])], c[4], c[5], c[6],
             AsU16(d[0]), AsU16(d[1]), AsU32(d[2]), d[3])
  }

  function Codes(s: SensorData): seq<seq<bv8>> {
    [[s.gas, s.calibrationDue, s.displayUnit, s.disable],
     [s.filterUpdateTick, s.regSwitchedOff, s.pellistorSaver, s.warmUpTime],
     [s.bumpTestDue, s.wrProtect, s.mulFactor, s.supplyVoltage],
     U16(s.kind), U16(s.model), U16(s.manDate), U16(s.vocGas)]
  }

  function Testing(s: SensorData): seq<seq<bv8>> {
    [[s.bumpTestInterval], s.bumpTestDate, U16(s.lampDrvPeriod), [s.rdTimeDelayPeak, s.rdTimeDelayDeep]]
  }

  function Numbers(s: SensorData): seq<seq<bv8>> {
    [U16(s.thResistor), U16(s.thBeta), U16(s.callSpanTime), U16(s.callZeroTime), s.serialNumber, s.manId]
  }

  function Measures(s: SensorData): seq<seq<bv8>> {
    [s.reals, s.calibrationHead, s.calibrationDate, [s.cycle, s.spanGasType, s.appliedGas],
     s.calibrationSpare, s.calibrationReals]
  }

  const CODE_SIZES: seq<nat> := [4, 4, 4, 2, 2, 2, 2]
  const TESTING_SIZES: seq<nat> := [1, 3, 2, 2]
  const NUMBER_SIZES: seq<nat> := [2, 2, 2, 2, 12, 12]
  const MEASURE_SIZES: seq<nat> := [136, 12, 3, 3, 2, 80]
  const SENSOR_GROUPS: seq<nat> := [20, 8, 32, 236]

  function SensorImage(s: SensorData): seq<bv8> {
    Pack([Pack(Codes(s)), Pack(Testing(s)), Pack(Numbers(s)), Pack(Measures(s))])
  }

  function SensorFrom(image: seq<bv8>): SensorData
    requires |image| == SENSOR_SIZE
  {
    SensorTotals();
    var groups := Unpack(image, SENSOR_GROUPS);
    SensorOf(Unpack(groups[0], CODE_SIZES), Unpack(groups[1], TESTING_SIZES),
             Unpack(groups[2], NUMBER_SIZES), Unpack(groups[3], MEASURE_SIZES))
  }

  function SensorOf(a: seq<seq<bv8>>, b: seq<seq<bv8>>, c: seq<seq<bv8>>, d: seq<seq<bv8>>): SensorData
    requires Sized(a, CODE_SIZES) && Sized(b, TESTING_SIZES) && Sized(c, NUMBER_SIZES) && Sized(d, MEASURE_SIZES)
  {
    SensorData(a[0][0], a[0][1], a[0][2], a[0][3],
               a[1][0], a[1][1], a[1][2], a[1][3],
               a[2][0], a[2][1], a[2][2], a[2][3],
               AsU16(a[3]), AsU16(a[4]), AsU16(a[5]), AsU16(a[6]),
               b[0][0], b[1], AsU16(b[2]), b[3][0], b[3][1],
               AsU16(c[0]), AsU16(c[1]), AsU16(c[2]), AsU16(c[3]), c[4], c[5],
               d[0], d[1], d[2], d[3][0], d[3][1], d[3][2], d[4], d[5])
  }

  // ----- Sizes ----------------------------------------------------------------------------------------

  lemma {:induction false} TotalConcat(a: seq<nat>, b: seq<nat>)
    ensures Total(a + b) == Total(a) + Total(b)
  {
    if a == [] {
      assert a + b == b;
    } else {
      assert (a + b)[1..] == a[1..] + b;
      TotalConcat(a[1..], b);
    }
  }

  lemma TotalOfTwo(a: nat, b: nat)
    ensures Total([a, b]) == a + b && Total([a]) == a
  {
    assert [a, b][1..] == [b] && [a][1..] == [] && [b][1..] == [];
    assert Total([a]) == a && Total([b]) == b;
  }

  lemma TotalOfFour(a: nat, b: nat, c: nat, d: nat)
    ensures Total([a, b, c, d]) == a + b + c + d
  {
    assert [a, b, c, d] == [a, b] + [c, d];
    TotalConcat([a, b], [c, d]);
    TotalOfTwo(a, b);
    TotalOfTwo(c, d);
  }

  lemma SettingsTotals()
    ensures Total(SETTINGS_GROUPS) == SETTINGS_SIZE
    ensures Total(IDENTITY_SIZES) == 28 && Total(PANEL_SIZES) == 44
    ensures Total(ALARM_SIZES) == 20 && Total(LINE_SIZES) == 100
  {
    hide Total;
    TotalOfFour(28, 44, 20, 100);
    TotalOfFour(8, 4, 2, 2);
    TotalOfTwo(4, 8);
    assert IDENTITY_SIZES == [8, 4, 2, 2] + [4, 8];
    TotalConcat([8, 4, 2, 2], [4, 8]);
    TotalOfFour(32, 2, 2, 8);
    TotalOfFour(2, 2, 2, 2);
    TotalOfTwo(4, 4);
    assert ALARM_SIZES == [2, 2, 2, 2] + ([4, 4] + [4]);
    TotalConcat([2, 2, 2, 2], [4, 4] + [4]);
    TotalConcat([4, 4], [4]);
    TotalOfFour(2, 2, 4, 92);
  }

  lemma SensorTotals()
    ensures Total(SENSOR_GROUPS) == SENSOR_SIZE
    ensures Total(CODE_SIZES) == 20 && Total(TESTING_SIZES) == 8
    ensures Total(NUMBER_SIZES) == 32 && Total(MEASURE_SIZES) == 236
  {
    hide Total;
    TotalOfFour(20, 8, 32, 236);
    TotalOfTwo(4, 4);
    TotalOfFour(2, 2, 2, 2);
    assert CODE_SIZES == ([4, 4] + [4]) + [2, 2, 2, 2];
    TotalConcat([4, 4] + [4], [2, 2, 2, 2]);
    TotalConcat([4, 4], [4]);
    TotalOfFour(1, 3, 2, 2);
    TotalOfTwo(12, 12);
    assert NUMBER_SIZES == [2, 2, 2, 2] + [12, 12];
    TotalConcat([2, 2, 2, 2], [12, 12]);
    TotalOfFour(136, 12, 3, 3);
    TotalOfTwo(2, 80);
    assert MEASURE_SIZES == [136, 12, 3, 3] + [2, 80];
    TotalConcat([136, 12, 3, 3], [2, 80]);
  }

  // ----- Round trips ------------------------------------------------------------------------------------

  lemma GroupRoundTrip(a: seq<seq<bv8>>, b: seq<seq<bv8>>, c: seq<seq<bv8>>, d: seq<seq<bv8>>,
                       sa: seq<nat>, sb: seq<nat>, sc: seq<nat>, sd: seq<nat>)
    requires Sized(a, sa) && Sized(b, sb) && Sized(c, sc) && Sized(d, sd)
    ensures
      var image := Pack([Pack(a), Pack(b), Pack(c), Pack(d)]);
      var sizes := [Total(sa), Total(sb), Total(sc), Total(sd)];
      && |image| == Total(sizes)
      && Unpack(image, sizes) == [Pack(a), Pack(b), Pack(c), Pack(d)]
    ensures |Pack(a)| == Total(sa) && Unpack(Pack(a), sa) == a
    ensures |Pack(b)| == Total(sb) && Unpack(Pack(b), sb) == b
    ensures |Pack(c)| == Total(sc) && Unpack(Pack(c), sc) == c
    ensures |Pack(d)| == Total(sd) && Unpack(Pack(d), sd) == d
  {
    hide Pack, Unpack, Total;
    UnpackPack(a, sa);
    UnpackPack(b, sb);
    UnpackPack(c, sc);
    UnpackPack(d, sd);
    UnpackPack([Pack(a), Pack(b), Pack(c), Pack(d)], [Total(sa), Total(sb), Total(sc), Total(sd)]);
  }

  lemma SettingsBlocksRoundTrip(s: Settings)
    ensures Sized(Identity(s), IDENTITY_SIZES) && Sized(Panel(s), PANEL_SIZES)
    ensures Sized(Alarms(s), ALARM_SIZES) && Sized(Line(s), LINE_SIZES)
    ensures SettingsOf(Identity(s), Panel(s), Alarms(s), Line(s)) == s
  {
    U32RoundTrip(s.verifyKey);
    U16RoundTrip(s.id);
    U16RoundTrip(s.display);
    U16RoundTrip(s.configReg);
    U16RoundTrip(s.alarmThreshold[0]);
    U16RoundTrip(s.alarmThreshold[1]);
    U16RoundTrip(s.alarmThreshold[2]);
    U16RoundTrip(s.alarmThreshold[3]);
    U16RoundTrip(s.manDateYear);
    U16RoundTrip(s.manDateMonth);
    U32RoundTrip(s.baudrate);
    hide AsU16, AsU32, U16, U32;
    var t := s.alarmThreshold;
    assert [t[0], t[1], t[2], t[3]] == t;
  }

  /** Storing the settings structure and reading it back gives the same settings. */
  lemma SettingsRoundTrip(s: Settings)
    ensures |SettingsImage(s)| == SETTINGS_SIZE && SettingsFrom(SettingsImage(s)) == s
  {
    hide Pack, Unpack, Total, Identity, Panel, Alarms, Line, SettingsOf, Sized;
    SettingsTotals();
    SettingsBlocksRoundTrip(s);
    GroupRoundTrip(Identity(s), Panel(s), Alarms(s), Line(s), IDENTITY_SIZES, PANEL_SIZES, ALARM_SIZES, LINE_SIZES);
  }

  lemma SensorBlocksRoundTrip(s: SensorData)
    ensures Sized(Codes(s), CODE_SIZES) && Sized(Testing(s), TESTING_SIZES)
    ensures Sized(Numbers(s), NUMBER_SIZES) && Sized(Measures(s), MEASURE_SIZES)
    ensures SensorOf(Codes(s), Testing(s), Numbers(s), Measures(s)) == s
  {
    U16RoundTrip(s.kind);
    U16RoundTrip(s.model);
    U16RoundTrip(s.manDate);
    U16RoundTrip(s.vocGas);
    U16RoundTrip(s.lampDrvPeriod);
    U16RoundTrip(s.thResistor);
    U16RoundTrip(s.thBeta);
    U16RoundTrip(s.callSpanTime);
    U16RoundTrip(s.callZeroTime);
    hide AsU16, U16;
  }

  lemma SensorRoundTrip(s: SensorData)
    ensures |SensorImage(s)| == SENSOR_SIZE && SensorFrom(SensorImage(s)) == s
  {
    hide Pack, Unpack, Total, Codes, Testing, Numbers, Measures, SensorOf, Sized;
    SensorTotals();
    SensorBlocksRoundTrip(s);
    GroupRoundTrip(Codes(s), Testing(s), Numbers(s), Measures(s),
                   CODE_SIZES, TESTING_SIZES, NUMBER_SIZES, MEASURE_SIZES);
  }

  // ----- The converse: every image is the image of what is read from it ------------------------------------

  lemma GroupInverse(image: seq<bv8>, groups: seq<nat>, sa: seq<nat>, sb: seq<nat>, sc: seq<nat>, sd: seq<nat>)
    requires groups == [Total(sa), Total(sb), Total(sc), Total(sd)] && |image| == Total(groups)
    ensures
      var g := Unpack(image, groups);
      && |g| == 4
      && |g[0]| == Total(sa) && |g[1]| == Total(sb) && |g[2]| == Total(sc) && |g[3]| == Total(sd)
      && Pack([Pack(Unpack(g[0], sa)), Pack(Unpack(g[1], sb)), Pack(Unpack(g[2], sc)), Pack(Unpack(g[3], sd))]) == image
  {
    hide Pack, Total;
    PackUnpack(image, groups);
    var g := Unpack(image, groups);
    hide Unpack;
    PackUnpack(g[0], sa);
    PackUnpack(g[1], sb);
    PackUnpack(g[2], sc);
    PackUnpack(g[3], sd);
    assert g == [g[0], g[1], g[2], g[3]];
  }

  lemma SettingsBlocksInverse(a: seq<seq<bv8>>, b: seq<seq<bv8>>, c: seq<seq<bv8>>, d: seq<seq<bv8>>)
    requires Sized(a, IDENTITY_SIZES) && Sized(b, PANEL_SIZES) && Sized(c, ALARM_SIZES) && Sized(d, LINE_SIZES)
    ensures
      var s := SettingsOf(a, b, c, d);
      Identity(s) == a && Panel(s) == b && Alarms(s) == c && Line(s) == d
  {
    AsU32RoundTrip(a[1]);
    AsU16RoundTrip(a[2]);
    AsU16RoundTrip(b[1]);
    AsU16RoundTrip(b[2]);
    AsU16RoundTrip(c[0]);
    AsU16RoundTrip(c[1]);
    AsU16RoundTrip(c[2]);
    AsU16RoundTrip(c[3]);
    AsU16RoundTrip(d[0]);
    AsU16RoundTrip(d[1]);
    AsU32RoundTrip(d[2]);
    hide AsU16, AsU32, U16, U32;
  }

  /** Reading any image of the settings structure and storing it again gives the same bytes. */
  lemma SettingsInverse(image: seq<bv8>)
    requires |image| == SETTINGS_SIZE
    ensures SettingsImage(SettingsFrom(image)) == image
  {
    hide Pack, Unpack, Total, Identity, Panel, Alarms, Line, SettingsOf, Sized;
    SettingsTotals();
    GroupInverse(image, SETTINGS_GROUPS, IDENTITY_SIZES, PANEL_SIZES, ALARM_SIZES, LINE_SIZES);
    var g := Unpack(image, SETTINGS_GROUPS);
    SettingsBlocksInverse(Unpack(g[0], IDENTITY_SIZES), Unpack(g[1], PANEL_SIZES),
                          Unpack(g[2], ALARM_SIZES), Unpack(g[3], LINE_SIZES));
  }

  lemma SensorHeadInverse(a: seq<seq<bv8>>, b: seq<seq<bv8>>, c: seq<seq<bv8>>, d: seq<seq<bv8>>)
    requires Sized(a, CODE_SIZES) && Sized(b, TESTING_SIZES) && Sized(c, NUMBER_SIZES) && Sized(d, MEASURE_SIZES)
    ensures Codes(SensorOf(a, b, c, d)) == a && Testing(SensorOf(a, b, c, d)) == b
  {
    AsU16RoundTrip(a[3]);
    AsU16RoundTrip(a[4]);
    AsU16RoundTrip(a[5]);
    AsU16RoundTrip(a[6]);
    AsU16RoundTrip(b[2]);
    hide AsU16, U16;
    assert forall i :: 0 <= i < 3 ==> a[i] == [a[i][0], a[i][1], a[i][2], a[i][3]];
    assert b[0] == [b[0][0]] && b[3] == [b[3][0], b[3][1]];
  }

  lemma SensorTailInverse(a: seq<seq<bv8>>, b: seq<seq<bv8>>, c: seq<seq<bv8>>, d: seq<seq<bv8>>)
    requires Sized(a, CODE_SIZES) && Sized(b, TESTING_SIZES) && Sized(c, NUMBER_SIZES) && Sized(d, MEASURE_SIZES)
    ensures Numbers(SensorOf(a, b, c, d)) == c && Measures(SensorOf(a, b, c, d)) == d
  {
    AsU16RoundTrip(c[0]);
    AsU16RoundTrip(c[1]);
    AsU16RoundTrip(c[2]);
    AsU16RoundTrip(c[3]);
    hide AsU16, U16;
    assert d[3] == [d[3][0], d[3][1], d[3][2]];
  }

  lemma SensorInverse(image: seq<bv8>)
    requires |image| == SENSOR_SIZE
    ensures SensorImage(SensorFrom(image)) == image
  {
    hide Pack, Unpack, Total, Codes, Testing, Numbers, Measures, SensorOf, Sized;
    SensorTotals();
    GroupInverse(image, SENSOR_GROUPS, CODE_SIZES, TESTING_SIZES, NUMBER_SIZES, MEASURE_SIZES);
    var g := Unpack(image, SENSOR_GROUPS);
    var a, b := Unpack(g[0], CODE_SIZES), Unpack(g[1], TESTING_SIZES);
    var c, d := Unpack(g[2], NUMBER_SIZES), Unpack(g[3], MEASURE_SIZES);
    SensorHeadInverse(a, b, c, d);
    SensorTailInverse(a, b, c, d);
  }

  // ----- Where each member lies ----------------------------------------------------------------------------

  predicate IdentityLies(image: seq<bv8>, s: Settings)
    requires |image| == 192
  {
    && image[0..8] == s.fill
    && image[8..12] == U32(s.verifyKey)
    && image[12..14] == U16(s.id)
    && image[14..16] == s.hartConfig
    && image[16..20] == s.password
    && image[20..28] == s.baseSerial
  }

  lemma IdentityLaid(image: seq<bv8>, s: Settings)
    requires |image| == 192 && image[0..28] == Pack(Identity(s))
    ensures IdentityLies(image, s)
  {
    SettingsBlocksRoundTrip(s);
    hide Pack, SettingsOf, SensorOf, U16, U32;
    BlocksAt(Identity(s), IDENTITY_SIZES);
    SliceOfSlice(image, 0, 28, 0, 8);
    SliceOfSlice(image, 0, 28, 8, 12);
    SliceOfSlice(image, 0, 28, 12, 14);
    SliceOfSlice(image, 0, 28, 14, 16);
    SliceOfSlice(image, 0, 28, 16, 20);
    SliceOfSlice(image, 0, 28, 20, 28);
  }

  predicate PanelLies(image: seq<bv8>, s: Settings)
    requires |image| == 192
  {
    && image[28..60] == s.location
    && image[60..62] == U16(s.display)
    && image[62..64] == U16(s.configReg)
    && image[64..72] == s.analogOut
  }

  lemma PanelLaid(image: seq<bv8>, s: Settings)
    requires |image| == 192 && image[28..72] == Pack(Panel(s))
    ensures PanelLies(image, s)
  {
    SettingsBlocksRoundTrip(s);
    hide Pack, SettingsOf, SensorOf, U16, U32;
    BlocksAt(Panel(s), PANEL_SIZES);
    SliceOfSlice(image, 28, 44, 0, 32);
    SliceOfSlice(image, 28, 44, 32, 34);
    SliceOfSlice(image, 28, 44, 34, 36);
    SliceOfSlice(image, 28, 44, 36, 44);
  }

  predicate AlarmsLies(image: seq<bv8>, s: Settings)
    requires |image| == 192
  {
    && image[72..74] == U16(s.alarmThreshold[0])
    && image[74..76] == U16(s.alarmThreshold[1])
    && image[76..78] == U16(s.alarmThreshold[2])
    && image[78..80] == U16(s.alarmThreshold[3])
    && image[80..84] == s.hysteresis
    && image[84..88] == s.alarmSettings
    && image[88..92] == s.relayOffDelay
  }

  lemma AlarmsLaid(image: seq<bv8>, s: Settings)
    requires |image| == 192 && image[72..92] == Pack(Alarms(s))
    ensures AlarmsLies(image, s)
  {
    SettingsBlocksRoundTrip(s);
    hide Pack, SettingsOf, SensorOf, U16, U32;
    BlocksAt(Alarms(s), ALARM_SIZES);
    SliceOfSlice(image, 72, 20, 0, 2);
    SliceOfSlice(image, 72, 20, 2, 4);
    SliceOfSlice(image, 72, 20, 4, 6);
    SliceOfSlice(image, 72, 20, 6, 8);
    SliceOfSlice(image, 72, 20, 8, 12);
    SliceOfSlice(image, 72, 20, 12, 16);
    SliceOfSlice(image, 72, 20, 16, 20);
  }

  predicate LineLies(image: seq<bv8>, s: Settings)
    requires |image| == 192
  {
    && image[92..94] == U16(s.manDateYear)
    && image[94..96] == U16(s.manDateMonth)
    && image[96..100] == U32(s.baudrate)
    && image[100..192] == s.rest
  }

  lemma LineLaid(image: seq<bv8>, s: Settings)
    requires |image| == 192 && image[92..192] == Pack(Line(s))
    ensures LineLies(image, s)
  {
    SettingsBlocksRoundTrip(s);
    hide Pack, SettingsOf, SensorOf, U16, U32;
    BlocksAt(Line(s), LINE_SIZES);
    SliceOfSlice(image, 92, 100, 0, 2);
    SliceOfSlice(image, 92, 100, 2, 4);
    SliceOfSlice(image, 92, 100, 4, 8);
    SliceOfSlice(image, 92, 100, 8, 100);
  }

  /** The members of the packed structure, by offset. */
  lemma SettingsLayout(s: Settings)
    ensures
      var image := SettingsImage(s);
      |image| == 192 && IdentityLies(image, s) && PanelLies(image, s) && AlarmsLies(image, s) && LineLies(image, s)
  {
    SettingsTotals();
    SettingsBlocksRoundTrip(s);
    hide Pack, Total, SettingsOf, SensorOf, U16, U32;
    hide Identity, Panel, Alarms, Line, IdentityLies, PanelLies, AlarmsLies, LineLies;
    var blocks, image := [Pack(Identity(s)), Pack(Panel(s)), Pack(Alarms(s)), Pack(Line(s))], SettingsImage(s);
    PackLength(Identity(s), IDENTITY_SIZES);
    PackLength(Panel(s), PANEL_SIZES);
    PackLength(Alarms(s), ALARM_SIZES);
    PackLength(Line(s), LINE_SIZES);
    BlocksAt(blocks, SETTINGS_GROUPS);
    PackLength(blocks, SETTINGS_GROUPS);
    IdentityLaid(image, s);
    PanelLaid(image, s);
    AlarmsLaid(image, s);
    LineLaid(image, s);
  }

  predicate CodesLies(image: seq<bv8>, s: SensorData)
    requires |image| == 296
  {
    && image[0..4] == [s.gas, s.calibrationDue, s.displayUnit, s.disable]
    && image[4..8] == [s.filterUpdateTick, s.regSwitchedOff, s.pellistorSaver, s.warmUpTime]
    && image[8..12] == [s.bumpTestDue, s.wrProtect, s.mulFactor, s.supplyVoltage]
    && image[12..14] == U16(s.kind)
    && image[14..16] == U16(s.model)
    && image[16..18] == U16(s.manDate)
    && image[18..20] == U16(s.vocGas)
  }

  lemma CodesLaid(image: seq<bv8>, s: SensorData)
    requires |image| == 296 && image[0..20] == Pack(Codes(s))
    ensures CodesLies(image, s)
  {
    SensorBlocksRoundTrip(s);
    hide Pack, SettingsOf, SensorOf, U16, U32;
    BlocksAt(Codes(s), CODE_SIZES);
    SliceOfSlice(image, 0, 20, 0, 4);
    SliceOfSlice(image, 0, 20, 4, 8);
    SliceOfSlice(image, 0, 20, 8, 12);
    SliceOfSlice(image, 0, 20, 12, 14);
    SliceOfSlice(image, 0, 20, 14, 16);
    SliceOfSlice(image, 0, 20, 16, 18);
    SliceOfSlice(image, 0, 20, 18, 20);
  }

  predicate TestingLies(image: seq<bv8>, s: SensorData)
    requires |image| == 296
  {
    && image[20..21] == [s.bumpTestInterval]
    && image[21..24] == s.bumpTestDate
    && image[24..26] == U16(s.lampDrvPeriod)
    && image[26..28] == [s.rdTimeDelayPeak, s.rdTimeDelayDeep]
  }

  lemma TestingLaid(image: seq<bv8>, s: SensorData)
    requires |image| == 296 && image[20..28] == Pack(Testing(s))
    ensures TestingLies(image, s)
  {
    SensorBlocksRoundTrip(s);
    hide Pack, SettingsOf, SensorOf, U16, U32;
    BlocksAt(Testing(s), TESTING_SIZES);
    SliceOfSlice(image, 20, 8, 0, 1);
    SliceOfSlice(image, 20, 8, 1, 4);
    SliceOfSlice(image, 20, 8, 4, 6);
    SliceOfSlice(image, 20, 8, 6, 8);
  }

  predicate NumbersLies(image: seq<bv8>, s: SensorData)
    requires |image| == 296
  {
    && image[28..30] == U16(s.thResistor)
    && image[30..32] == U16(s.thBeta)
    && image[32..34] == U16(s.callSpanTime)
    && image[34..36] == U16(s.callZeroTime)
    && image[36..48] == s.serialNumber
    && image[48..60] == s.manId
  }

  lemma NumbersLaid(image: seq<bv8>, s: SensorData)
    requires |image| == 296 && image[28..60] == Pack(Numbers(s))
    ensures NumbersLies(image, s)
  {
    SensorBlocksRoundTrip(s);
    hide Pack, SettingsOf, SensorOf, U16, U32;
    BlocksAt(Numbers(s), NUMBER_SIZES);
    SliceOfSlice(image, 28, 32, 0, 2);
    SliceOfSlice(image, 28, 32, 2, 4);
    SliceOfSlice(image, 28, 32, 4, 6);
    SliceOfSlice(image, 28, 32, 6, 8);
    SliceOfSlice(image, 28, 32, 8, 20);
    SliceOfSlice(image, 28, 32, 20, 32);
  }

  predicate MeasuresLies(image: seq<bv8>, s: SensorData)
    requires |image| == 296
  {
    && image[60..196] == s.reals
    && image[196..208] == s.calibrationHead
    && image[208..211] == s.calibrationDate
    && image[211..214] == [s.cycle, s.spanGasType, s.appliedGas]
    && image[214..216] == s.calibrationSpare
    && image[216..296] == s.calibrationReals
  }

  lemma MeasuresLaid(image: seq<bv8>, s: SensorData)
    requires |image| == 296 && image[60..296] == Pack(Measures(s))
    ensures MeasuresLies(image, s)
  {
    SensorBlocksRoundTrip(s);
    hide Pack, SettingsOf, SensorOf, U16, U32;
    BlocksAt(Measures(s), MEASURE_SIZES);
    SliceOfSlice(image, 60, 236, 0, 136);
    SliceOfSlice(image, 60, 236, 136, 148);
    SliceOfSlice(image, 60, 236, 148, 151);
    SliceOfSlice(image, 60, 236, 151, 154);
    SliceOfSlice(image, 60, 236, 154, 156);
    SliceOfSlice(image, 60, 236, 156, 236);
  }

  /** The members of the packed structure, by offset. */
  lemma SensorLayout(s: SensorData)
    ensures
      var image := SensorImage(s);
      |image| == 296 && CodesLies(image, s) && TestingLies(image, s) && NumbersLies(image, s) && MeasuresLies(image, s)
  {
    SensorTotals();
    SensorBlocksRoundTrip(s);
    hide Pack, Total, SettingsOf, SensorOf, U16, U32;
    hide Codes, Testing, Numbers, Measures, CodesLies, TestingLies, NumbersLies, MeasuresLies;
    var blocks, image := [Pack(Codes(s)), Pack(Testing(s)), Pack(Numbers(s)), Pack(Measures(s))], SensorImage(s);
    PackLength(Codes(s), CODE_SIZES);
    PackLength(Testing(s), TESTING_SIZES);
    PackLength(Numbers(s), NUMBER_SIZES);
    PackLength(Measures(s), MEASURE_SIZES);
    BlocksAt(blocks, SENSOR_GROUPS);
    PackLength(blocks, SENSOR_GROUPS);
    CodesLaid(image, s);
    TestingLaid(image, s);
    NumbersLaid(image, s);
    MeasuresLaid(image, s);
  }
}
