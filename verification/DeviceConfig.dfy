/** Validity of a configuration, the defaults, and the image that is kept in flash. */
module DeviceConfig {
  import opened Bits
  import opened Crc16
  import opened CrcDistance
  import opened DeviceTypes
  import opened Layout

  datatype Config = Config(device: Settings, sensor: SensorData)

  // ----- Validity -----------------------------------------------------------------------------

  predicate SupportedBaudrate(baudrate: bv32) {
    || baudrate == 9600 || baudrate == 19200 || baudrate == 38400
    || baudrate == 57600 || baudrate == 115200
  }

  predicate ValidRuntime(c: Config) {
    && c.device.verifyKey == CONFIG_MAGIC_NUM
    && c.device.id != 0 && c.device.id <= 247
    && SupportedBaudrate(c.device.baudrate)
    && c.sensor.kind != 0 && c.sensor.model != 0
    && c.sensor.mulFactor != 0
    && PPM <= c.sensor.displayUnit <= PPB
    && c.sensor.gas >= GAS_INDX_OFFSET
  }

  // ----- Defaults -------------------------------------------------------------------------------

  // The doubles 100, 70, -40, 96 and 50 as stored, lowest byte first.
  const D100: Bytes8 := [0, 0, 0, 0, 0, 0, 0x59, 0x40]
  const D70: Bytes8 := [0, 0, 0, 0, 0, 0x80, 0x51, 0x40]
  const DM40: Bytes8 := [0, 0, 0, 0, 0, 0, 0x44, 0xC0]
  const D96: Bytes8 := [0, 0, 0, 0, 0, 0, 0x58, 0x40]
  const D50: Bytes8 := [0, 0, 0, 0, 0, 0, 0x49, 0x40]

  function DefaultSettings(): Settings {
    Settings(
      Zeros(8), CONFIG_MAGIC_NUM, 1, Zeros(2), Zeros(4), Zeros(8), Zeros(32),
      DISPLAY_ON | ENGLISH, OVER_RANGE_AUTO_RESET,
      [10, 20, 20, 20, 22, 40, 0, 0],
      [500, 100, 800, 0],
      [MIN_HYSTERESIS, MIN_HYSTERESIS, MIN_HYSTERESIS, MIN_HYSTERESIS],
      [AUTO_RESET, AUTO_RESET, AUTO_RESET, AUTO_RESET],
      Zeros(4), 0, 0, DEFAULT_BAUDRATE, Zeros(92))
  }

  function DefaultReals(): Bytes136 {
    Zeros(8) + D100 + D100 + Zeros(24) + D70 + DM40 + D100 + Zeros(8) + D96 + Zeros(48)
  }

  function DefaultSensor(): SensorData {
    SensorData(
      CH4, 0, LEL, 0,
      0, 0, 0, 1,
      0, 0, 10, 5,
      CATALYTIC_SENSOR, GENERIC_MODEL_DET, 0, 0,
      0, Zeros(3), 0, 0, 0, 0, 0, 0, 0,
      Zeros(12), Zeros(12), DefaultReals(),
      Zeros(12), Zeros(3), 1, CH4, CH4, Zeros(2),
      Zeros(48) + D50 + Zeros(24))
  }

  function Defaults(): Config {
    Config(DefaultSettings(), DefaultSensor())
  }

  lemma DefaultsAreValid()
    ensures ValidRuntime(Defaults())
  {}

  // ----- The flash image --------------------------------------------------------------------------

  const IMAGE_SIZE: nat := SETTINGS_SIZE + SENSOR_SIZE + 2

  function Body(c: Config): (body: seq<bv8>)
    ensures |body| == SETTINGS_SIZE + SENSOR_SIZE
  {
    SettingsRoundTrip(c.device);
    SensorRoundTrip(c.sensor);
    SettingsImage(c.device) + SensorImage(c.sensor)
  }

  /** What `saveDeviceConfig` writes: both structures and their CRC, low byte first. */
  function Image(c: Config): (image: seq<bv8>)
    ensures |image| == IMAGE_SIZE
  {
    Sealed(Body(c))
  }

  /** The packed flash structure read as a configuration, valid or not. */
  function Decoded(image: seq<bv8>): Config
    requires |image| == IMAGE_SIZE
  {
    Config(SettingsFrom(image[..SETTINGS_SIZE]), SensorFrom(image[SETTINGS_SIZE..SETTINGS_SIZE + SENSOR_SIZE]))
  }

  predicate ValidFlash(image: seq<bv8>)
    requires |image| == IMAGE_SIZE
  {
    Accepts(image) && Decoded(image).device.verifyKey == CONFIG_MAGIC_NUM
  }

  datatype Loaded = Restored(config: Config) | UseDefaults

  /** The decision `loadOrDefaults` takes on the bytes it has read. */
  function Load(image: seq<bv8>): Loaded
    requires |image| == IMAGE_SIZE
  {
    if ValidFlash(image) && ValidRuntime(Decoded(image)) then Restored(Decoded(image)) else UseDefaults
  }

  /** What is live after `loadOrDefaults`. */
  function Revived(image: seq<bv8>): Config
    requires |image| == IMAGE_SIZE
  {
    match Load(image)
    case Restored(c) => c
    case UseDefaults => Defaults()
  }

  /** Whatever the sector holds, what is live afterwards is a valid runtime configuration. */
  lemma LiveIsValid(image: seq<bv8>)
    requires |image| == IMAGE_SIZE
    ensures ValidRuntime(Revived(image))
  {
    hide Decoded, ValidRuntime, ValidFlash, Defaults;
    DefaultsAreValid();
  }

  lemma DecodedImage(c: Config)
    ensures Decoded(Image(c)) == c
  {
    hide SettingsImage, SensorImage, SettingsFrom, SensorFrom, Crc;
    SettingsRoundTrip(c.device);
    SensorRoundTrip(c.sensor);
    var image := Image(c);
    assert image[..SETTINGS_SIZE] == SettingsImage(c.device);
    assert image[SETTINGS_SIZE..SETTINGS_SIZE + SENSOR_SIZE] == SensorImage(c.sensor);
  }

  /** Round trip: a saved configuration is restored exactly when it is valid at run time. */
  lemma SavedIsRestored(c: Config)
    ensures Load(Image(c)) == if ValidRuntime(c) then Restored(c) else UseDefaults
  {
    hide Decoded, Body, Accepts;
    DecodedImage(c);
    SealedIsAccepted(Body(c));
  }

  /** An intact image is the image of the configuration read from it. */
  lemma IntactIsImage(image: seq<bv8>)
    requires |image| == IMAGE_SIZE && Accepts(image)
    ensures Image(Decoded(image)) == image
  {
    hide SettingsImage, SensorImage, SettingsFrom, SensorFrom, Crc, Accepts;
    var device, sensor := image[..SETTINGS_SIZE], image[SETTINGS_SIZE..SETTINGS_SIZE + SENSOR_SIZE];
    SettingsInverse(device);
    SensorInverse(sensor);
    AcceptedIsSealed(image);
    assert device + sensor == image[..|image| - 2];
  }

  /** Exactly which contents of the sector are restored, and as what: the images of valid configurations. */
  lemma RestoredExactly(image: seq<bv8>, c: Config)
    requires |image| == IMAGE_SIZE
    ensures Load(image) == Restored(c) <==> image == Image(c) && ValidRuntime(c)
  {
    hide Decoded, Image, Accepts, ValidRuntime;
    SavedIsRestored(c);
    if Accepts(image) {
      IntactIsImage(image);
    }
  }

  /** Different configurations have different images. */
  lemma ImageDetermines(a: Config, b: Config)
    requires Image(a) == Image(b)
    ensures a == b
  {
    hide Decoded, Image;
    DecodedImage(a);
    DecodedImage(b);
  }

  /** An image damaged by an odd number of flipped bits, by at most three, or by any burst within 16
      bits is never taken for a configuration. */
  lemma DamageIsDetected(c: Config, damaged: seq<bv8>, start: nat)
    requires |damaged| == IMAGE_SIZE && damaged != Image(c)
    requires
      var flips := Flipped(Image(c), damaged);
      || Ones(flips) % 2 == 1
      || Ones(flips) <= 3
      || forall i :: 0 <= i < |flips| && flips[i] ==> start <= i < start + 16
    ensures Load(damaged) == UseDefaults
  {
    hide Accepts, Ones, Decoded, Body;
    SealedIsAccepted(Body(c));
    var flips := Flipped(Image(c), damaged);
    if Ones(flips) % 2 == 1 {
      OddFlipsDetected(Image(c), damaged);
    } else if Ones(flips) <= 3 {
      FewFlipsDetected(Image(c), damaged);
    } else {
      BurstDetected(Image(c), damaged, start);
    }
  }

  // ----- In plain numbers --------------------------------------------------------------------------------

  /** What makes a configuration valid. */
  predicate ValidInNumbers(c: Config) {
    && c.device.verifyKey == 0xABCD1234
    && 1 <= c.device.id <= 247
    && (|| c.device.baudrate == 9600 || c.device.baudrate == 19200 || c.device.baudrate == 38400
        || c.device.baudrate == 57600 || c.device.baudrate == 115200)
    && c.sensor.kind != 0 && c.sensor.model != 0 && c.sensor.mulFactor != 0
    && 2 <= c.sensor.displayUnit <= 5
    && c.sensor.gas >= 30
  }

  /** Exactly these configurations survive a restart; any other ends in the defaults. */
  lemma RestoredInNumbers(c: Config)
    ensures ValidRuntime(c) <==> ValidInNumbers(c)
    ensures Load(Image(c)) == if ValidInNumbers(c) then Restored(c) else UseDefaults
  {
    assert ValidRuntime(c) <==> ValidInNumbers(c);
    hide ValidRuntime, ValidInNumbers, Load, Image;
    SavedIsRestored(c);
  }

  /** It is what the next start makes live. */
  predicate Survives(c: Config) {
    Load(Image(c)) == Restored(c)
  }

  lemma SurvivesInNumbers(c: Config)
    ensures Survives(c) <==> ValidInNumbers(c)
  {
    hide Load, Image, ValidInNumbers;
    RestoredInNumbers(c);
  }

  /** In a valid configuration, each checked member of the settings may be replaced by exactly these values. */
  lemma SettingsSurvive(c: Config, w: bv16, v: bv32)
    requires ValidRuntime(c)
    ensures Survives(c.(device := c.device.(verifyKey := v))) <==> v == 0xABCD1234
    ensures Survives(c.(device := c.device.(id := w))) <==> 1 <= w <= 247
    ensures Survives(c.(device := c.device.(baudrate := v))) <==> v in {9600, 19200, 38400, 57600, 115200}
  {
    hide Survives, Load, Image;
    RestoredInNumbers(c);
    SurvivesInNumbers(c.(device := c.device.(verifyKey := v)));
    SurvivesInNumbers(c.(device := c.device.(id := w)));
    SurvivesInNumbers(c.(device := c.device.(baudrate := v)));
    hide ValidRuntime;
  }

  /** And each checked member of the sensor data by these. */
  lemma SensorSurvives(c: Config, w: bv16, b: bv8)
    requires ValidRuntime(c)
    ensures Survives(c.(sensor := c.sensor.(kind := w))) <==> w != 0
    ensures Survives(c.(sensor := c.sensor.(model := w))) <==> w != 0
    ensures Survives(c.(sensor := c.sensor.(mulFactor := b))) <==> b != 0
    ensures Survives(c.(sensor := c.sensor.(displayUnit := b))) <==> b in {2, 3, 4, 5}
    ensures Survives(c.(sensor := c.sensor.(gas := b))) <==> b >= 30
  {
    hide Survives, Load, Image;
    RestoredInNumbers(c);
    SurvivesInNumbers(c.(sensor := c.sensor.(kind := w)));
    SurvivesInNumbers(c.(sensor := c.sensor.(model := w)));
    SurvivesInNumbers(c.(sensor := c.sensor.(mulFactor := b)));
    SurvivesInNumbers(c.(sensor := c.sensor.(displayUnit := b)));
    SurvivesInNumbers(c.(sensor := c.sensor.(gas := b)));
    hide ValidRuntime;
  }

  /** The image: 192 bytes of settings, 296 of sensor data, and the CRC of both, low byte first. */
  lemma ImageInNumbers(c: Config)
    ensures |Image(c)| == 490
    ensures Image(c)[..192] == SettingsImage(c.device) && Image(c)[192..488] == SensorImage(c.sensor)
    ensures Image(c)[488] as bv16 == Crc(Image(c)[..488]) % 256
    ensures Image(c)[489] as bv16 == Crc(Image(c)[..488]) / 256
  {
    var d, n := SettingsImage(c.device), SensorImage(c.sensor);
    SettingsRoundTrip(c.device);
    SensorRoundTrip(c.sensor);
    assert Image(c) == Sealed(d + n);
    hide *;
    SealedPair(d, n);
  }

  lemma SealedPair(d: seq<bv8>, n: seq<bv8>)
    requires |d| == 192 && |n| == 296
    ensures
      var image := Sealed(d + n);
      && |image| == 490 && image[..192] == d && image[192..488] == n
      && image[488] as bv16 == Crc(image[..488]) % 256 && image[489] as bv16 == Crc(image[..488]) / 256
  {
    hide Crc, Sealed;
    var body := d + n;
    SealedParts(body);
    assert body[..192] == d && body[192..488] == n;
    var image := Sealed(body);
    assert image[..488] == body;
    assert image[..192] == body[..192] && image[192..488] == body[192..488];
  }

  lemma SealedParts(body: seq<bv8>)
    ensures |Sealed(body)| == |body| + 2 && Sealed(body)[..|body|] == body
    ensures Sealed(body)[|body|] as bv16 == Crc(body) % 256
    ensures Sealed(body)[|body| + 1] as bv16 == Crc(body) / 256
  {
    CrcBytes(Crc(body));
    hide Crc, LowByte, HighByte;
  }

  lemma CrcBytes(crc: bv16)
    ensures LowByte(crc) as bv16 == crc % 256 && HighByte(crc) as bv16 == crc / 256
  {}

  /** The settings of a device without a stored configuration: slave 1 at 57600 baud, display on, alarms at
      500, 100 and 800. */
  lemma DefaultSettingsInNumbers()
    ensures
      var d := Defaults().device;
      && d.verifyKey == 0xABCD1234 && d.id == 1 && d.baudrate == 57600
      && d.display == 0x80 && d.configReg == 0x80
      && d.alarmThreshold == [500, 100, 800, 0]
      && d.hysteresis == [2, 2, 2, 2] && d.alarmSettings == [1, 1, 1, 1] && d.relayOffDelay == [0, 0, 0, 0]
      && d.analogOut == [10, 20, 20, 20, 22, 40, 0, 0]
      && d.manDateYear == 0 && d.manDateMonth == 0
  {}

  /** Everything else is zero but the doubles 100, 100, 70, -40, 100, 96 and 50. */
  lemma DefaultsElsewhere()
    ensures
      var d, n := Defaults().device, Defaults().sensor;
      && forall i :: 0 <= i < 8 ==> d.fill[i] == 0 && d.baseSerial[i] == 0
    ensures forall i :: 0 <= i < 32 ==> Defaults().device.location[i] == 0
    ensures forall i :: 0 <= i < 92 ==> Defaults().device.rest[i] == 0
    ensures forall i :: 0 <= i < 12 ==> Defaults().sensor.serialNumber[i] == 0 && Defaults().sensor.manId[i] == 0
    ensures Defaults().device.hartConfig == [0, 0] && Defaults().device.password == [0, 0, 0, 0]
    ensures Defaults().sensor.reals[8..16] == Defaults().sensor.reals[16..24] == [0, 0, 0, 0, 0, 0, 0x59, 0x40]
    ensures Defaults().sensor.reals[48..56] == [0, 0, 0, 0, 0, 0x80, 0x51, 0x40]
    ensures Defaults().sensor.reals[56..64] == [0, 0, 0, 0, 0, 0, 0x44, 0xC0]
    ensures Defaults().sensor.reals[64..72] == [0, 0, 0, 0, 0, 0, 0x59, 0x40]
    ensures Defaults().sensor.reals[80..88] == [0, 0, 0, 0, 0, 0, 0x58, 0x40]
    ensures Defaults().sensor.calibrationReals[48..56] == [0, 0, 0, 0, 0, 0, 0x49, 0x40]
  {}

  /** The sensor of such a device: a catalytic one for methane, in percent of the explosive limit. */
  lemma DefaultSensorInNumbers()
    ensures
      var n := Defaults().sensor;
      && n.kind == 0x6522 && n.model == 0x5202 && n.gas == 31 && n.displayUnit == 4
      && n.appliedGas == 31 && n.spanGasType == 31
      && n.mulFactor == 10 && n.warmUpTime == 1 && n.supplyVoltage == 5 && n.cycle == 1
      && n.thResistor == 0 && n.thBeta == 0 && n.callSpanTime == 0 && n.callZeroTime == 0
      && n.manDate == 0 && n.vocGas == 0 && n.bumpTestInterval == 0 && n.lampDrvPeriod == 0
      && n.filterUpdateTick == 0 && n.wrProtect == 0 && n.rdTimeDelayPeak == 0 && n.rdTimeDelayDeep == 0
  {}

  lemma ImageHasKey(c: Config)
    requires c.device.verifyKey == 0xABCD1234
    ensures Image(c)[8..12] == [0x34, 0x12, 0xCD, 0xAB]
  {
    KeyBytes();
    hide Image, SettingsImage, U32, U16, PanelLies, AlarmsLies, LineLies;
    ImageInNumbers(c);
    SettingsLayout(c.device);
    SliceOfSlice(Image(c), 0, 192, 8, 12);
  }

  lemma KeyBytes()
    ensures U32(0xABCD1234) == [0x34, 0x12, 0xCD, 0xAB]
  {}

  /** What is restored carries the key 0xABCD1234 at byte 8, lowest byte first. */
  lemma RestoredHasKey(image: seq<bv8>)
    requires |image| == 490 && Load(image).Restored?
    ensures image[8..12] == [0x34, 0x12, 0xCD, 0xAB]
  {
    hide Load, Image, ValidRuntime;
    var c := Load(image).config;
    RestoredExactly(image, c);
    RestoredInNumbers(c);
    ImageHasKey(c);
  }

  /** An erased sector holds no configuration. */
  lemma ErasedIsDefaults(image: seq<bv8>)
    requires |image| == 490 && forall i :: 0 <= i < 490 ==> image[i] == 0xFF
    ensures Load(image) == UseDefaults
  {
    hide Load;
    assert image[8..12][0] == 0xFF;
    if Load(image).Restored? {
      RestoredHasKey(image);
      assert false;
    }
  }
}
