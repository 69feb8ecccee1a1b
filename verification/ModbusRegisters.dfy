/** What a Modbus master observes of the registers: reads, writes, and the settings commands. */
module ModbusRegisters {
  import opened Crc16
  import opened DeviceTypes
  import opened DeviceConfig
  import opened RegisterMap
  import opened SettingsCommands
  import opened SettingsNumbers
  import opened FrameQueue
  import opened ModbusSlave
  import ErrorManager

  /** An undamaged frame for this slave, of the given function. */
  predicate Asks(s: Slave, f: FrameItem, fn: bv8)
    requires f.Valid()
  {
    Intact(f) && ForUs(Ready(s), f) && f.data[1] == fn
  }

  lemma AsksIsDispatched(s: Slave, f: FrameItem, fn: bv8, env: Env)
    requires f.Valid() && Asks(s, f, fn)
    ensures Processed(s, f, env) == Dispatched(Ready(s), f, env)
    ensures SameData(s, Ready(s))
  {
    hide Accepts, Dispatched, Following, ErrorManager.After;
    ReadyKeepsData(s);
  }

  // ----- Reading ---------------------------------------------------------------------------------------

  /** The register values a read reply carries. */
  function Carried(reply: seq<bv8>, n: nat): seq<Word>
    requires 3 + 2 * n <= |reply|
  {
    Pairs(reply[3..3 + 2 * n], n)
  }

  lemma PairsOfBytes(words: seq<Word>)
    ensures Pairs(Bytes(words), |words|) == words
  {
    hide Pair, HighOf, LowOf;
    forall i | 0 <= i < |words| ensures Pair(HighOf(words[i]), LowOf(words[i])) == words[i] {
      HalvesJoin(words[i]);
    }
  }

  lemma ReplyCarries(s: Slave, f: FrameItem, fn: bv8, values: seq<Word>)
    requires f.Valid() && f.data[0] != BROADCAST && |values| <= 125
    ensures
      var o := ReadReply(s, f, fn, values);
      && |o.sent| == 1 && |o.sent[0]| == 5 + 2 * |values| <= 255
      && o.sent[0][2] == ByteOf(2 * |values|)
      && Carried(o.sent[0], |values|) == values
  {
    hide Sealed, Accepts, Bytes, Pairs, ByteOf;
    var head := [s.address, fn, ByteOf(2 * |values|)];
    var message := head + Bytes(values);
    SealedReply(message);
    var reply := Sealed(message);
    assert reply[3..3 + 2 * |values|] == Bytes(values) by {
      assert reply[..|message|][3..] == message[3..] == Bytes(values);
    }
    PairsOfBytes(values);
  }

  /** A read of the holding registers is answered exactly when its range is readable, and the answer, of
      `5 + 2 * n <= 255` bytes, carries the registers' values. No data changes. */
  lemma HoldingIsRead(s: Slave, f: FrameItem, env: Env)
    requires f.Valid() && Asks(s, f, FC_READ_HOLDING) && f.data[0] != BROADCAST
    ensures
      var o, n := Processed(s, f, env), Quantity(f);
      && SameData(s, o.slave)
      && (o.done <==> Readable(f))
      && (Readable(f) ==>
        && |o.sent| == 1 && |o.sent[0]| == 5 + 2 * n <= 255
        && Carried(o.sent[0], n) == HoldingValues(s.holding, Start(f), n, env.baudRate))
  {
    hide Accepts, ForUs, Ready, Start, Quantity, HoldingValues, Carried, Sealed, ReadReply, Answer;
    AsksIsDispatched(s, f, FC_READ_HOLDING, env);
    if Readable(f) {
      ReplyCarries(Ready(s), f, FC_READ_HOLDING, HoldingValues(s.holding, Start(f), Quantity(f), env.baudRate));
      ReadReplyState(Ready(s), f, FC_READ_HOLDING, HoldingValues(s.holding, Start(f), Quantity(f), env.baudRate));
    }
  }

  lemma ReadReplyState(s: Slave, f: FrameItem, fn: bv8, values: seq<Word>)
    requires f.Valid() && |values| < 128
    ensures ReadReply(s, f, fn, values).slave == s && ReadReply(s, f, fn, values).done
  {}

  /** The same for the input registers, which are refreshed first. */
  lemma InputIsRead(s: Slave, f: FrameItem, env: Env)
    requires f.Valid() && Asks(s, f, FC_READ_INPUT) && f.data[0] != BROADCAST
    ensures
      var o, n := Processed(s, f, env), Quantity(f);
      && (o.done <==> Readable(f))
      && SameData(if Readable(f) then Refreshed(Ready(s)) else s, o.slave)
      && (Readable(f) ==>
        && |o.sent| == 1 && |o.sent[0]| == 5 + 2 * n <= 255
        && Carried(o.sent[0], n) == o.slave.input[Start(f)..Start(f) + n])
  {
    hide Accepts, ForUs, Ready, Start, Quantity, Carried, Sealed, ReadReply, Answer, Refreshed, Processed, Intact;
    AsksIsDispatched(s, f, FC_READ_INPUT, env);
    if Readable(f) {
      var live := Refreshed(Ready(s));
      ReplyCarries(live, f, FC_READ_INPUT, live.input[Start(f)..Start(f) + Quantity(f)]);
      ReadReplyState(live, f, FC_READ_INPUT, live.input[Start(f)..Start(f) + Quantity(f)]);
    }
  }

  /** Refreshing touches the status and humidity inputs and the diagnostic mirror, nothing else. */
  lemma RefreshIsLocal(s: Slave, i: nat)
    requires i < 128
    ensures i < 0x74 || i > 0x7B ==> Refreshed(s).holding[i] == s.holding[i]
    ensures (i < 0x74 && i != 0x20 && i != 0x05) || i > 0x7B ==> Refreshed(s).input[i] == s.input[i]
    ensures Refreshed(s).config == s.config
  {
    hide Plain, Counter, CounterPair, TooHot;
  }

  /** What a refresh shows: a humidity of 60.0, the faults, and whether the fixed 25.0 degrees are above the
      high alarm, which as a signed number is negative from 0x8000 on. */
  lemma RefreshShows(s: Slave)
    ensures Refreshed(s).input[0x20] == Word(600)
    ensures
      var alarm := s.holding[0x26].bits;
      Refreshed(s).input[0x05] == Word(if alarm < 250 || alarm >= 0x8000 then 1 else 0)
    ensures ShowsFaults(Refreshed(s).holding, s.errors) && ShowsFaults(Refreshed(s).input, s.errors)
  {
    var alarm := s.holding[0x26];
    StatusWords();
    MirrorShowsFaults(s.holding, s.errors);
    hide Plain, Counter, CounterPair;
    var status := if TooHot(alarm) then Plain(1) else Plain(0);
    MirrorShowsFaults(s.input[0x20 := Plain(600)][0x05 := status], s.errors);
  }

  lemma StatusWords()
    ensures Plain(600) == Word(600) && Plain(1) == Word(1) && Plain(0) == Word(0)
  {}

  // ----- Writing ---------------------------------------------------------------------------------------

  /** The registers an accepted write of either kind addresses. */
  function WriteCount(f: FrameItem): nat
    requires f.Valid()
  {
    if f.data[1] == FC_WRITE_SINGLE then 1 else Quantity(f)
  }

  function WriteWords(f: FrameItem): (words: seq<Word>)
    requires f.Valid() && (f.data[1] == FC_WRITE_SINGLE || Quantity(f) <= 123)
    ensures |words| == WriteCount(f)
  {
    if f.data[1] == FC_WRITE_SINGLE then [Pair(f.data[4], f.data[5])] else Words(f, Quantity(f))
  }

  /** When a write is accepted. */
  predicate Acceptable(f: FrameItem)
    requires f.Valid()
  {
    if f.data[1] == FC_WRITE_SINGLE then f.len >= 8 && Start(f) < REGISTERS else f.len >= 9 && Writable(f)
  }

  predicate IsWrite(fn: bv8) { fn == FC_WRITE_SINGLE || fn == FC_WRITE_MULTIPLE }

  /** A write is done exactly when acceptable, and is echoed. It then changes exactly the registers it
      addresses, unless it is a multiple write that covers the command register. */
  lemma WriteIsExact(s: Slave, f: FrameItem, env: Env)
    requires f.Valid() && IsWrite(f.data[1]) && Asks(s, f, f.data[1])
    ensures
      var o := Processed(s, f, env);
      && (o.done <==> Acceptable(f))
      && (o.done ==> o.sent == Answer(f, f.data[..6]))
      && (o.done && (f.data[1] == FC_WRITE_SINGLE || !HitsCommand(Start(f), Quantity(f))) ==>
            && SameData(s.(holding := Written(s.holding, Start(f), WriteWords(f))), o.slave)
            && o.slave.address == Ready(s).address)
  {
    hide Accepts, ForUs, Ready, Start, Quantity, Words, Answer, Execute, Published, Pair, Refused;
    AsksIsDispatched(s, f, f.data[1], env);
    RefusedState(Ready(s), f, f.data[1]);
    if f.data[1] == FC_WRITE_SINGLE && Acceptable(f) {
      assert s.holding[Start(f) := Pair(f.data[4], f.data[5])] == Written(s.holding, Start(f), WriteWords(f));
    }
  }

  lemma RefusedState(s: Slave, f: FrameItem, fn: bv8)
    requires f.Valid()
    ensures
      var o := Refused(s, f, fn, ILLEGAL_DATA_ADDRESS);
      o.slave == s && !o.done
  {}

  /** What a register reads as after the write. */
  function ReadBack(s: Slave, w: FrameItem, i: nat, baudRate: bv16): Word
    requires w.Valid() && IsWrite(w.data[1]) && Acceptable(w) && i < REGISTERS
  {
    if i == REG_BAUD_RATE then Plain(baudRate / 100)
    else if Start(w) <= i < Start(w) + WriteCount(w) then WriteWords(w)[i - Start(w)]
    else s.holding[i]
  }

  function ReadBacks(s: Slave, w: FrameItem, start: nat, n: nat, baudRate: bv16): (values: seq<Word>)
    requires w.Valid() && IsWrite(w.data[1]) && Acceptable(w) && start + n <= REGISTERS
    ensures |values| == n
  {
    seq(n, i requires 0 <= i < n => ReadBack(s, w, start + i, baudRate))
  }

  lemma WrittenAt(r: Registers, start: nat, words: seq<Word>, i: nat)
    requires start + |words| <= REGISTERS && i < REGISTERS
    ensures Written(r, start, words)[i] == if start <= i < start + |words| then words[i - start] else r[i]
  {}

  /** A read of any range after an accepted write gives exactly the written values where it was written,
      the old ones elsewhere, and the line's rate at the baud rate register. */
  lemma ReadAfterWrite(s: Slave, w: FrameItem, f: FrameItem, env: Env, later: Env)
    requires w.Valid() && IsWrite(w.data[1]) && Asks(s, w, w.data[1]) && Acceptable(w)
    requires w.data[1] == FC_WRITE_SINGLE || !HitsCommand(Start(w), Quantity(w))
    requires
      var t := Processed(s, w, env).slave;
      f.Valid() && Asks(t, f, FC_READ_HOLDING) && f.data[0] != BROADCAST && Readable(f)
    ensures
      var o := Processed(Processed(s, w, env).slave, f, later);
      && |o.sent| == 1 && |o.sent[0]| == 5 + 2 * Quantity(f)
      && Carried(o.sent[0], Quantity(f)) == ReadBacks(s, w, Start(f), Quantity(f), later.baudRate)
  {
    hide Accepts, ForUs, Ready, Start, Quantity, Pair, Plain, Processed, Carried, Asks, Written;
    WriteIsExact(s, w, env);
    var t := Processed(s, w, env).slave;
    HoldingIsRead(t, f, later);
    var n := Quantity(f);
    var shown, expected :=
      HoldingValues(t.holding, Start(f), n, later.baudRate), ReadBacks(s, w, Start(f), n, later.baudRate);
    assert t.holding == Written(s.holding, Start(w), WriteWords(w));
    forall i | 0 <= i < n ensures shown[i] == expected[i] {
      WrittenAt(s.holding, Start(w), WriteWords(w), Start(f) + i);
      assert shown[i] == HoldingAt(t.holding, Start(f) + i, later.baudRate);
      assert expected[i] == ReadBack(s, w, Start(f) + i, later.baudRate);
    }
  }

  // ----- Commands ----------------------------------------------------------------------------------------

  /** An accepted multiple write that covers the command register. */
  predicate GivesCommand(s: Slave, f: FrameItem)
    requires f.Valid()
  {
    Asks(s, f, FC_WRITE_MULTIPLE) && Acceptable(f) && HitsCommand(Start(f), Quantity(f))
  }

  /** The holding registers when the command is looked at. */
  function AtCommand(s: Slave, f: FrameItem): Registers
    requires f.Valid() && GivesCommand(s, f)
  {
    Written(s.holding, Start(f), WriteWords(f))
  }

  lemma CommandState(s: Slave, f: FrameItem, env: Env)
    requires f.Valid() && GivesCommand(s, f)
    ensures
      var ready := Ready(s).(holding := AtCommand(s, f));
      var o := Processed(s, f, env);
      o.done && o.slave == Commanded(ready, Start(f), Quantity(f), env)
  {
    hide Accepts, ForUs, Ready, Start, Quantity, Words, Answer, Commanded, Written, Refused;
    AsksIsDispatched(s, f, FC_WRITE_MULTIPLE, env);
  }

  /** The arguments a command claims were carried by its request exactly when more than the command
      register was written; a lone write of the command register claims 255 of them. The count is exact only
      for writes that start at register 0. */
  lemma ArgumentsCarried(start: nat, n: nat)
    requires HitsCommand(start, n) && n <= 123
    ensures 2 + ArgumentCount(n) <= start + n <==> n != 1
    ensures ArgumentCount(n) == if n == 1 then 255 else n - 2
    ensures ArgumentCount(n) == start + n - 2 <==> start == 0
  {}

  /** The words of the request from the first argument register on. */
  lemma ArgumentsAreWritten(s: Slave, f: FrameItem, i: nat)
    requires f.Valid() && GivesCommand(s, f) && 2 + i < 128
    ensures Arguments(AtCommand(s, f))[i] ==
      if 2 + i < Start(f) + Quantity(f) then WriteWords(f)[2 + i - Start(f)] else s.holding[2 + i]
  {
    hide Accepts, ForUs, Ready, Words, Start, Quantity;
    WrittenAt(s.holding, Start(f), WriteWords(f), 2 + i);
  }

  predicate SavesAsBefore(s: Slave, t: Slave) {
    t.saveDevice == s.saveDevice && t.saveSensor == s.saveSensor
  }

  predicate RejectedNow(s: Slave, a: Args, len: nat, env: Env) {
    Rejected(a, len, TooWide(s.config.device.hysteresis, a, len, env.fields.ties))
  }

  predicate SensorOutcome(s: Slave, t: Slave, a: Args, len: nat, env: Env) {
    if RejectedNow(s, a, len, env)
    then
      && t.config == s.config && SavesAsBefore(s, t) && t.input == s.input
      && t.holding == s.holding[COMMAND_CODE := Plain(0)]
      && (len < 56 || HardFault(a))
    else
      && t.config == Stored(s.config, a, len, env.fields) && t.saveDevice && t.saveSensor
     
      && ShowsSensor(t.holding, a) && ShowsSensor(t.input, a)
      && ShowsPackageAlarms(t.holding, a, len) && ShowsPackageAlarms(t.input, a, len)
      && (len >= 71 ==> ShowsPackageLimits(t.holding, a) && ShowsPackageLimits(t.input, a))
  }

  lemma SensorCommanded(s: Slave, start: nat, n: nat, env: Env)
    requires HitsCommand(start, n) && s.holding[COMMAND_CODE].bits == SET_SENSOR_DATA
    ensures SensorOutcome(s, Commanded(s, start, n, env), Arguments(s.holding), ArgumentCount(n), env)
  {
    hide Rejected, Stored, Plain, ShowsSensor, ShowsPackageLimits, ShowsPackageAlarms, SyncedHolding, SyncedInput,
      HardFault;
    var a, len := Arguments(s.holding), ArgumentCount(n);
    if RejectedNow(s, a, len, env) {
      RejectionMeansFault(a, len, TooWide(s.config.device.hysteresis, a, len, env.fields.ties));
    } else {
      var stored := SensorCommand(s, a, len, env).0;
      SensorPublished(s.config, a, len, env.fields, stored.holding, SourceOf(stored, env));
      SensorPublished(s.config, a, len, env.fields, stored.input, SourceOf(stored, env));
      AlarmsPublished(s.config, a, len, env.fields, stored.holding, SourceOf(stored, env));
      AlarmsPublished(s.config, a, len, env.fields, stored.input, SourceOf(stored, env));
      if len >= 71 {
        LimitsPublished(s.config, a, len, env.fields, stored.holding, SourceOf(stored, env));
        LimitsPublished(s.config, a, len, env.fields, stored.input, SourceOf(stored, env));
      }
      ShowsWithoutCommand(Published(stored, env).holding, a, len);
    }
  }

  /** The sensor settings command is all or nothing: turned down exactly when `Rejected` says so, leaving
      every setting, the input registers and all but the written holding registers alone; otherwise the
      package is stored, marked for saving, and shown by both tables. */
  lemma SensorSettings(s: Slave, f: FrameItem, env: Env)
    requires f.Valid() && GivesCommand(s, f) && AtCommand(s, f)[1].bits == 0x7327
    ensures
      var written := s.(holding := AtCommand(s, f));
      SensorOutcome(written, Processed(s, f, env).slave, Arguments(AtCommand(s, f)), ArgumentCount(Quantity(f)), env)
  {
    assert HitsCommand(Start(f), Quantity(f));
    hide Ready, AtCommand, GivesCommand, Start, Quantity, Processed, Commanded, SensorOutcome, HitsCommand, SameData;
    CommandState(s, f, env);
    ReadyKeepsData(s);
    var h := AtCommand(s, f);
    SensorCommanded(Ready(s).(holding := h), Start(f), Quantity(f), env);
    OutcomeOfData(s, Ready(s), h, Processed(s, f, env).slave, Arguments(h), ArgumentCount(Quantity(f)), env);
  }

  /** The outcome does not depend on the address and the fault record before the command. */
  lemma OutcomeOfData(s: Slave, ready: Slave, h: Registers, t: Slave, a: Args, len: nat, env: Env)
    requires SameData(s, ready) && SensorOutcome(ready.(holding := h), t, a, len, env)
    ensures SensorOutcome(s.(holding := h), t, a, len, env)
  {
    hide Rejected, Stored, ShowsSensor, HardFault, ShowsPackageLimits, ShowsPackageAlarms, TooWide;
  }

  lemma ClearsCommand(s: Slave, start: nat, n: nat, env: Env)
    requires HitsCommand(start, n)
    ensures Commanded(s, start, n, env).holding[1] == Plain(0)
  {
    hide SensorCommand, BaseCommand, SyncedHolding, SyncedInput, Plain;
    assert COMMAND_CODE == 1;
    var (done, ack) := Execute(s, s.holding[COMMAND_CODE].bits, Arguments(s.holding), ArgumentCount(n), env);
    var published := if ack then Published(done, env) else done;
    assert Commanded(s, start, n, env) == published.(holding := published.holding[COMMAND_CODE := Plain(0)]);
  }

  lemma ZeroWord()
    ensures Plain(0) == Word(0)
  {}

  /** Whatever the command was and however it ended, the command register then reads zero. */
  lemma CommandIsCleared(s: Slave, f: FrameItem, env: Env)
    requires f.Valid() && GivesCommand(s, f)
    ensures Processed(s, f, env).slave.holding[1] == Word(0)
  {
    assert HitsCommand(Start(f), Quantity(f));
    hide *;
    ZeroWord();
    CommandState(s, f, env);
    ClearsCommand(Ready(s).(holding := AtCommand(s, f)), Start(f), Quantity(f), env);
  }

  lemma RejectionMeansFault(a: Args, len: nat, tooWide: bool)
    requires Rejected(a, len, tooWide)
    ensures len < 56 || HardFault(a)
  {}

  lemma ShowsWithoutCommand(t: Registers, a: Args, len: nat)
    requires ShowsSensor(t, a) && ShowsPackageAlarms(t, a, len)
    ensures ShowsSensor(t[COMMAND_CODE := Plain(0)], a)
    ensures ShowsPackageAlarms(t[COMMAND_CODE := Plain(0)], a, len)
    ensures ShowsPackageLimits(t, a) ==> ShowsPackageLimits(t[COMMAND_CODE := Plain(0)], a)
  {
    hide Plain, Wide, LowOf, Pair, JoinedDate, NamesVoc, VocFault, AlarmRegister;
    var u := t[COMMAND_CODE := Plain(0)];
    assert u[0x26..0x29] == t[0x26..0x29] && u[0x34..0x38] == t[0x34..0x38] && u[0x3C..0x40] == t[0x3C..0x40];
  }

  /** A lone write of the sensor command stores whatever the argument registers held before. */
  lemma StaleArguments(s: Slave, f: FrameItem, env: Env)
    requires f.Valid() && GivesCommand(s, f) && Quantity(f) == 1
    requires WriteWords(f) == [Word(0x7327)]
    requires !RejectedNow(s, Arguments(s.holding), 255, env)
    ensures Processed(s, f, env).slave.config == Stored(s.config, Arguments(s.holding), 255, env.fields)
  {
    hide Rejected, Stored, Processed, GivesCommand, Words, ShowsSensor, ShowsPackageAlarms;
    assert Start(f) == 1 by { LoneWrite(s, f); }
    hide Start, Quantity;
    assert Arguments(AtCommand(s, f)) == Arguments(s.holding);
    SensorSettings(s, f, env);
  }

  lemma LoneWrite(s: Slave, f: FrameItem)
    requires f.Valid() && GivesCommand(s, f) && Quantity(f) == 1
    ensures Start(f) == 1
  {
    hide Asks, Acceptable, Start, Quantity;
  }

  predicate BaseOutcome(s: Slave, t: Slave, a: Args, len: nat) {
    var device := s.config.device;
    var rewritten := NewBase(device, a, NewFlags(a, len, device.configReg));
    && t.config == (if len < 45 then s.config else s.config.(device := rewritten))
    && t.saveSensor == s.saveSensor
    && t.saveDevice == (s.saveDevice || (len >= 45 && ValidId(a)))
    && if len >= 45 && ValidId(a)
       then
         var reg := NewFlags(a, len, device.configReg);
         && t.address == LowOf(a[0])
         && ShowsBase(t.holding, a, reg) && ShowsBase(t.input, a, reg) && ShowsBasePanel(t.holding, a)
       else t.address == s.address && t.input == s.input && t.holding == s.holding[COMMAND_CODE := Plain(0)]
  }

  lemma BaseCommanded(s: Slave, start: nat, n: nat, env: Env)
    requires HitsCommand(start, n) && s.holding[COMMAND_CODE].bits == SET_DETECTOR_DATA
    ensures BaseOutcome(s, Commanded(s, start, n, env), Arguments(s.holding), ArgumentCount(n))
  {
    hide NewBase, NewFlags, Plain, ShowsBase, ShowsBasePanel, SyncedHolding, SyncedInput, ValidId, LowOf;
    var a, len := Arguments(s.holding), ArgumentCount(n);
    if len >= 45 && ValidId(a) {
      var stored := BaseCommand(s, a, len).0;
      var reg := NewFlags(a, len, s.config.device.configReg);
      BasePublished(s.config.device, a, reg, stored.holding, SourceOf(stored, env));
      BasePublished(s.config.device, a, reg, stored.input, SourceOf(stored, env));
      PanelPublished(s.config.device, a, reg, stored.holding, SourceOf(stored, env));
      BaseWithoutCommand(Published(stored, env).holding, a, reg);
    }
  }

  /** The base settings command, given enough arguments, always takes the settings over, also when the id
      is invalid (except for one flag); but only with a valid id are they marked for saving and published,
      and does the slave answer under the new id. */
  lemma BaseSettings(s: Slave, f: FrameItem, env: Env)
    requires f.Valid() && GivesCommand(s, f) && AtCommand(s, f)[1].bits == 0x7372
    ensures
      var written := Ready(s).(holding := AtCommand(s, f));
      BaseOutcome(written, Processed(s, f, env).slave, Arguments(AtCommand(s, f)), ArgumentCount(Quantity(f)))
  {
    assert HitsCommand(Start(f), Quantity(f));
    hide Ready, AtCommand, GivesCommand, Start, Quantity, Processed, Commanded, BaseOutcome;
    CommandState(s, f, env);
    BaseCommanded(Ready(s).(holding := AtCommand(s, f)), Start(f), Quantity(f), env);
  }

  lemma BaseWithoutCommand(t: Registers, a: Args, reg: bv16)
    requires ShowsBase(t, a, reg) && ShowsBasePanel(t, a)
    ensures ShowsBase(t[COMMAND_CODE := Plain(0)], a, reg) && ShowsBasePanel(t[COMMAND_CODE := Plain(0)], a)
  {
    hide Plain, Wide, LowOf, Shown, BaudWord, JoinedWide;
    var u := t[COMMAND_CODE := Plain(0)];
    assert u[0x38..0x3C] == t[0x38..0x3C] && u[0x40..0x4C] == t[0x40..0x4C];
  }

  // ----- Runs ------------------------------------------------------------------------------------------------

  /** One received frame and what the environment was at the time. */
  datatype Reception = Reception(frame: FrameItem, env: Env)

  ghost predicate AllFramesValid(run: seq<Reception>) {
    forall i :: 0 <= i < |run| ==> run[i].frame.Valid()
  }

  function After(s: Slave, run: seq<Reception>): Outcome
    requires AllFramesValid(run)
  {
    if run == [] then Outcome(s, [], true)
    else
      var before := After(s, run[..|run| - 1]);
      var last := run[|run| - 1];
      var o := Processed(before.slave, last.frame, last.env);
      Outcome(o.slave, before.sent + o.sent, o.done)
  }

  predicate SameSettings(s: Slave, t: Slave) {
    t.config == s.config && t.saveDevice == s.saveDevice && t.saveSensor == s.saveSensor
  }

  /** Whether a frame can carry a settings command at all: undamaged, a multiple write over register 1. */
  predicate MayCommand(f: FrameItem)
    requires f.Valid()
  {
    Intact(f) && f.data[1] == FC_WRITE_MULTIPLE && f.len >= 9 && Writable(f) && HitsCommand(Start(f), Quantity(f))
  }

  lemma DispatchedKeepsSettings(s: Slave, f: FrameItem, env: Env)
    requires f.Valid() && !(f.data[1] == FC_WRITE_MULTIPLE && Acceptable(f) && HitsCommand(Start(f), Quantity(f)))
    ensures SameSettings(s, Dispatched(s, f, env).slave)
  {
    hide Start, Quantity, Diagnosed, TooHot, Bytes, Words, Written, HoldingValues, Answer;
  }

  lemma OnlyCommandsConfigure(s: Slave, f: FrameItem, env: Env)
    requires f.Valid() && !MayCommand(f)
    ensures SameSettings(s, Processed(s, f, env).slave)
  {
    hide Accepts, Start, Quantity, Dispatched, ForUs, ErrorManager.After, Following, HitsCommand, Writable;
    ReadyKeepsData(s);
    if !Intact(f) || !ForUs(Ready(s), f) {
      IgnoredFrames(s, f, env);
    } else {
      DispatchedKeepsSettings(Ready(s), f, env);
    }
  }

  /** Over every run in which no undamaged multiple write covers the command register, whatever else is
      received, no setting changes and nothing is marked for saving; at most one reply leaves per frame,
      and each passes the CRC test. */
  lemma {:induction false} SettingsAreSafe(s: Slave, run: seq<Reception>)
    requires AllFramesValid(run) && forall i :: 0 <= i < |run| ==> !MayCommand(run[i].frame)
    ensures
      var o := After(s, run);
      && SameSettings(s, o.slave)
      && |o.sent| <= |run|
      && forall i :: 0 <= i < |o.sent| ==> Accepts(o.sent[i])
  {
    hide Accepts, Processed, MayCommand;
    if run != [] {
      var n := |run| - 1;
      SettingsAreSafe(s, run[..n]);
      var before := After(s, run[..n]).slave;
      OnlyCommandsConfigure(before, run[n].frame, run[n].env);
      ResponseDiscipline(before, run[n].frame, run[n].env);
    }
  }

  predicate AnswersUnderId(s: Slave) {
    0 < s.config.device.id <= 247 ==> s.address == LowOf(Word(s.config.device.id))
  }

  lemma NewIds(d: Settings, a: Args, len: nat, reg: bv16)
    ensures NewAlarms(d, a, len).id == d.id
    ensures NewBase(d, a, reg).id == if ValidId(a) then a[0].bits else d.id
    ensures Word(a[0].bits) == a[0]
  {
    hide LowOf, HighOf, StatusOf, Overwritten, Text, Shown, JoinedWide, ValidId;
  }

  lemma ExecuteAnswers(s: Slave, command: bv16, a: Args, len: nat, env: Env)
    requires AnswersUnderId(s)
    ensures AnswersUnderId(Execute(s, command, a, len, env).0)
  {
    NewIds(s.config.device, a, len, NewFlags(a, len, s.config.device.configReg));
    hide NewBase, NewAlarms, NewSensor, NewFlags, Rejected, LowOf, ValidId;
  }

  lemma CommandedAnswers(s: Slave, start: nat, n: nat, env: Env)
    requires AnswersUnderId(s)
    ensures AnswersUnderId(Commanded(s, start, n, env))
  {
    hide SyncedHolding, SyncedInput, Execute, LowOf, Plain;
    ExecuteAnswers(s, s.holding[COMMAND_CODE].bits, Arguments(s.holding), ArgumentCount(n), env);
  }

  lemma DispatchedAnswers(s: Slave, f: FrameItem, env: Env)
    requires f.Valid() && AnswersUnderId(s)
    ensures AnswersUnderId(Dispatched(s, f, env).slave)
  {
    hide Start, Quantity, Diagnosed, TooHot, Bytes, Words, Written, HoldingValues, Answer, Commanded, LowOf;
    if f.data[1] == FC_WRITE_MULTIPLE && f.len >= 9 && Writable(f) {
      CommandedAnswers(s.(holding := Written(s.holding, Start(f), Words(f, Quantity(f)))), Start(f), Quantity(f), env);
    }
  }

  /** After any undamaged frame the slave answers under its configured id, whenever that id is valid. */
  lemma AddressFollowsId(s: Slave, f: FrameItem, env: Env)
    requires f.Valid() && Intact(f)
    ensures AnswersUnderId(Processed(s, f, env).slave)
  {
    hide Accepts, Dispatched, LowOf, ErrorManager.After, ForUs;
    assert AnswersUnderId(Ready(s));
    hide Ready, Following, AnswersUnderId, Recorded;
    DispatchedAnswers(Ready(s), f, env);
  }
}
