/** The live configuration (the firmware's global `DeviceConfig`, `Sensor` and save flags) and its manager,
    which restores it from flash and saves it there. */
module ConfigManager {
  import opened DeviceTypes
  import opened DeviceConfig
  import opened FlashStorage
  import opened Crc16

  /** The globals. */
  class Store {
    var device: Settings
    var sensor: SensorData
    var saveDevSettings: bool
    var saveSensorInfo: bool

    constructor (device: Settings, sensor: SensorData)
      ensures this.device == device && this.sensor == sensor && !saveDevSettings && !saveSensorInfo
    {
      this.device, this.sensor, saveDevSettings, saveSensorInfo := device, sensor, false, false;
    }

    function Live(): Config
      reads this
    {
      Config(device, sensor)
    }

    /** Everything is zeroed, then the fields that must not be zero are set, four alarms in a loop. */
    method SetDefaults()
      modifies this`device, this`sensor
      ensures Live() == Defaults()
    {
      var d := Settings(
        Zeros(8), 0, 0, Zeros(2), Zeros(4), Zeros(8), Zeros(32), 0, 0, Zeros(8),
        [0, 0, 0, 0], Zeros(4), Zeros(4), Zeros(4), 0, 0, 0, Zeros(92));
      d := d.(verifyKey := CONFIG_MAGIC_NUM, id := 1, baudrate := DEFAULT_BAUDRATE,
              display := DISPLAY_ON | ENGLISH, configReg := OVER_RANGE_AUTO_RESET);
      d := d.(alarmThreshold := [500, 100, 800, 0]);
      var settings, hysteresis, delay := Zeros(4), Zeros(4), Zeros(4);
      for i := 0 to 4
        invariant |settings| == 4 && |hysteresis| == 4 && |delay| == 4
        invariant forall k :: 0 <= k < i ==> settings[k] == AUTO_RESET && hysteresis[k] == MIN_HYSTERESIS
        invariant forall k :: 0 <= k < 4 ==> delay[k] == 0
      {
        settings := settings[i := AUTO_RESET];
        hysteresis := hysteresis[i := MIN_HYSTERESIS];
        delay := delay[i := 0];
      }
      assert settings == DefaultSettings().alarmSettings;
      assert hysteresis == DefaultSettings().hysteresis;
      assert delay == Zeros(4);
      d := d.(alarmSettings := settings, hysteresis := hysteresis, relayOffDelay := delay);
      d := d.(analogOut := [10, 20, 20, 20, 22, 40, 0, 0]);
      device := d;
      sensor := DefaultSensor();
    }
  }

  class Manager {
    const flash: Flash
    const store: Store
    /** The manager's own copy of the settings. */
    var config: Settings

    ghost predicate Valid()
      reads this, flash
    {
      flash.AtRest()
    }

    constructor (flash: Flash, store: Store)
      requires flash.AtRest()
      ensures Valid() && this.flash == flash && this.store == store
    {
      this.flash, this.store := flash, store;
      config := DefaultSettings();
    }

    /** The bytes at the place of the configuration image. */
    ghost function Stored(): (image: seq<bv8>)
      requires Valid()
      reads this, flash, flash.sector
      ensures |image| == IMAGE_SIZE
    {
      flash.sector[..IMAGE_SIZE]
    }

    /** Writes the live configuration. Success means the flash now holds exactly its image, and follows
        whenever no hardware operation fails. The live configuration changes only in its magic number. */
    method SaveDeviceConfig() returns (ok: bool)
      requires Valid()
      modifies this`config, flash, flash.sector, store`device
      ensures Valid() && flash.ops >= old(flash.ops)
      ensures store.Live() == old(store.Live()).(device := old(store.device).(verifyKey := CONFIG_MAGIC_NUM))
      ensures config == store.device
      ensures ok ==> Stored() == Image(store.Live())
      ensures flash.Flawless(old(flash.ops), flash.ops) ==> ok
    {
      store.device := store.device.(verifyKey := CONFIG_MAGIC_NUM);
      var body := Body(store.Live());
      var buffer := new bv8[|body|](i requires 0 <= i < |body| => body[i]);
      assert buffer[..|body|] == body;
      var crc := ComputeCrc(buffer, |body|);
      var image := body + [LowByte(crc), HighByte(crc)];
      assert image == Image(store.Live());
      config := store.device;

      hide Image, Body, Crc;
      var erased := flash.EraseConfigSector();
      if !erased {
        return false;
      }
      ok := flash.Write(CONFIG_FLASH_ADDRESS, image);
      assert ok ==> flash.sector[0..0 + |image|] == image;
    }

    /** Restores the stored configuration if it is intact and valid; otherwise installs the defaults and
        tries to store them, which succeeds if no hardware operation fails. Either way the live
        configuration is valid, whatever the sector held and whatever the hardware does. */
    method LoadOrDefaults() returns (result: Settings)
      requires Valid()
      modifies this`config, flash, flash.sector, store`device, store`sensor
      ensures Valid() && ValidRuntime(store.Live()) && flash.ops >= old(flash.ops)
      ensures result == config == store.device
      ensures store.Live() == Revived(old(Stored()))
      ensures Load(old(Stored())).Restored? ==> flash.sector[..] == old(flash.sector[..])
      ensures Load(old(Stored())).UseDefaults? && flash.Flawless(old(flash.ops), flash.ops)
        ==> Stored() == Image(Defaults())
    {
      hide ValidRuntime, Load, Defaults, Image, Revived;
      LiveIsValid(Stored());
      var restored := Restore();
      if !restored {
        InstallDefaults();
      }
      return config;
    }

    /** Reads the stored configuration and makes it live if it is intact and valid. */
    method Restore() returns (restored: bool)
      requires Valid()
      modifies this`config, store`device, store`sensor
      ensures restored == Load(Stored()).Restored?
      ensures if restored then store.Live() == Revived(Stored()) && config == store.device
              else Revived(Stored()) == Defaults()
    {
      hide ValidRuntime, Decoded, ValidFlash, Load, Defaults;
      var ok, image := flash.Read(CONFIG_FLASH_ADDRESS, IMAGE_SIZE);
      assert image == Stored();
      if ok {
        match Load(image)
        case Restored(c) =>
          store.device, store.sensor := c.device, c.sensor;
          config := store.device;
          return true;
        case UseDefaults =>
      }
      return false;
    }

    method InstallDefaults()
      requires Valid()
      modifies this`config, flash, flash.sector, store`device, store`sensor
      ensures Valid() && flash.ops >= old(flash.ops)
      ensures store.Live() == Defaults() && config == store.device
      ensures flash.Flawless(old(flash.ops), flash.ops) ==> Stored() == Image(Defaults())
    {
      DefaultKey();
      hide Defaults, Image;
      store.SetDefaults();
      config := store.device;
      var _ := SaveDeviceConfig();
    }

    /** Makes the manager's own copy live, then saves. */
    method Save() returns (ok: bool)
      requires Valid()
      modifies this`config, flash, flash.sector, store`device
      ensures Valid() && config == store.device == old(config).(verifyKey := CONFIG_MAGIC_NUM)
      ensures ok ==> Stored() == Image(store.Live())
      ensures flash.ops >= old(flash.ops) && (flash.Flawless(old(flash.ops), flash.ops) ==> ok)
    {
      config := config.(verifyKey := CONFIG_MAGIC_NUM);
      store.device := config;
      ok := SaveDeviceConfig();
    }
  }

  lemma DefaultKey()
    ensures Defaults().device.(verifyKey := CONFIG_MAGIC_NUM) == Defaults().device
  {}

  /** Persistence round trip: a valid configuration that was saved successfully is restored, unchanged and
      without touching the flash, by the next start; and it is saved if no hardware operation fails. */
  method SaveThenRestart(manager: Manager, restarted: Manager) returns (saved: bool)
    requires manager.Valid() && restarted.flash == manager.flash
    requires restarted.store != manager.store && restarted != manager
    requires ValidRuntime(manager.store.Live())
    modifies manager, manager.flash, manager.flash.sector, manager.store, restarted, restarted.store
    ensures manager.Valid() && restarted.Valid()
    ensures saved ==> restarted.store.Live() == old(manager.store.Live())
    ensures saved ==> manager.Stored() == Image(old(manager.store.Live()))
    ensures !saved ==> ValidRuntime(restarted.store.Live())
    ensures manager.flash.Flawless(old(manager.flash.ops), manager.flash.ops) ==> saved
  {
    hide Image, Load;
    ghost var before := manager.store.Live();
    var ok := manager.SaveDeviceConfig();
    saved := ok;
    assert before.device.(verifyKey := CONFIG_MAGIC_NUM) == before.device;
    SavedIsRestored(before);
    var _ := restarted.LoadOrDefaults();
  }
}
