/** What the Modbus slave does with one frame, as a function of its state, and the properties of that. */
module ModbusSlave {
  import opened Bits
  import opened Crc16
  import opened CrcDistance
  import opened DeviceTypes
  import opened DeviceConfig
  import opened RegisterMap
  import opened SettingsCommands
  import opened FrameQueue
  import ErrorManager

  const FC_READ_HOLDING: bv8 := 0x03
  const FC_READ_INPUT: bv8 := 0x04
  const FC_WRITE_SINGLE: bv8 := 0x06
  const FC_WRITE_MULTIPLE: bv8 := 0x10
  const ILLEGAL_FUNCTION: bv8 := 0x01
  const ILLEGAL_DATA_ADDRESS: bv8 := 0x02
  const BROADCAST: bv8 := 0

  const SET_SENSOR_DATA: bv16 := 0x7327
  const SET_DETECTOR_DATA: bv16 := 0x7372
  const SET_TIME_DATE: bv16 := 0x3607
  const RESET_DETECTOR: bv16 := 0x3482

  const HUMIDITY: bv16 := 600
  const REG_HUMIDITY: nat := 0x20
  const REG_SENSOR_STATUS: nat := 0x05
  const REG_TEMP_HIGH_ALARM: nat := 0x26

  datatype Slave = Slave(
    holding: Registers,
    input: Registers,
    config: Config,
    saveDevice: bool,
    saveSensor: bool,
    address: bv8,
    errors: ErrorManager.Condition)

  /** What the slave reads from elsewhere: the build date, floating-point results, the line's baud rate. */
  datatype Env = Env(build: Build, words: FloatWords, fields: FloatFields, baudRate: bv16)

  /** `sent` lists what is put on the line. */
  datatype Outcome = Outcome(slave: Slave, sent: seq<seq<bv8>>, done: bool)

  // ----- Fields of a frame -------------------------------------------------------------------------

  function Number(hi: bv8, lo: bv8): nat { 256 * (hi as nat) + lo as nat }

  /** The address field; a short frame leaves older bytes of the buffer here. */
  function Start(f: FrameItem): nat
    requires f.Valid()
  {
    Number(f.data[2], f.data[3])
  }

  function Quantity(f: FrameItem): nat
    requires f.Valid()
  {
    Number(f.data[4], f.data[5])
  }

  /** The words of a multiple write. */
  function Words(f: FrameItem, n: nat): (words: seq<Word>)
    requires f.Valid() && 7 + 2 * n <= FRAME_BYTES
    ensures |words| == n
  {
    Pairs(f.data[7..7 + 2 * n], n)
  }

  // ----- Replies --------------------------------------------------------------------------------------

  function Bytes(words: seq<Word>): (bytes: seq<bv8>)
    ensures |bytes| == 2 * |words|
  {
    seq(2 * |words|, i requires 0 <= i < 2 * |words| =>
      if i % 2 == 0 then HighOf(words[i / 2]) else LowOf(words[i / 2]))
  }

  function ByteOf(n: nat): bv8
    requires n < 256
  {
    n as bv8
  }

  lemma NextByte(b: bv8)
    requires b < 255
    ensures (b + 1) as nat == b as nat + 1
  {}

  /** A byte for every number below 256, counted up. */
  lemma {:induction false} SomeByte(n: nat) returns (b: bv8)
    requires n < 256
    ensures b as nat == n
  {
    if n == 0 {
      b := 0;
    } else {
      var before := SomeByte(n - 1);
      assert before < 255;
      NextByte(before);
      b := before + 1;
    }
  }

  lemma ByteOfIs(n: nat)
    requires n < 256
    ensures ByteOf(n) as nat == n && Number(0, ByteOf(n)) == n
  {
    var b := SomeByte(n);
    assert ByteOf(b as nat) == b;
  }

  function WithHighBit(fn: bv8): bv8 { fn | 0x80 }

  /** Nothing is ever sent in answer to a broadcast. */
  function Answer(f: FrameItem, message: seq<bv8>): seq<seq<bv8>>
    requires f.Valid()
  {
    if f.data[0] == BROADCAST then [] else [Sealed(message)]
  }

  function Refused(s: Slave, f: FrameItem, fn: bv8, code: bv8): Outcome
    requires f.Valid()
  {
    Outcome(s, Answer(f, [s.address, WithHighBit(fn), code]), false)
  }

  function ReadReply(s: Slave, f: FrameItem, fn: bv8, values: seq<Word>): Outcome
    requires f.Valid() && |values| < 128
  {
    Outcome(s, Answer(f, [s.address, fn, ByteOf(2 * |values|)] + Bytes(values)), true)
  }

  // ----- Reading ----------------------------------------------------------------------------------------

  predicate Readable(f: FrameItem)
    requires f.Valid()
  {
    1 <= Quantity(f) <= 125 && Start(f) + Quantity(f) <= REGISTERS
  }

  /** The baud rate register shows the rate of the line, whatever has been written to it. */
  function HoldingAt(r: Registers, i: nat, baudRate: bv16): Word
    requires i < REGISTERS
  {
    if i == REG_BAUD_RATE then Plain(baudRate / 100) else r[i]
  }

  function HoldingValues(r: Registers, start: nat, n: nat, baudRate: bv16): (values: seq<Word>)
    requires start + n <= REGISTERS
    ensures |values| == n
  {
    seq(n, i requires 0 <= i < n => HoldingAt(r, start + i, baudRate))
  }

  function ReadHolding(s: Slave, f: FrameItem, env: Env): Outcome
    requires f.Valid()
  {
    if !Readable(f) then Refused(s, f, FC_READ_HOLDING, ILLEGAL_DATA_ADDRESS)
    else ReadReply(s, f, FC_READ_HOLDING, HoldingValues(s.holding, Start(f), Quantity(f), env.baudRate))
  }

  /** The fixed temperature of 25.0 exceeds the high alarm, read as a signed number. */
  predicate TooHot(alarm: Word) { alarm.bits >= 0x8000 || alarm.bits < 250 }

  function Refreshed(s: Slave): Slave {
    var input := s.input[REG_HUMIDITY := Plain(HUMIDITY)];
    var status := if TooHot(s.holding[REG_TEMP_HIGH_ALARM]) then Plain(1) else Plain(0);
    s.(holding := Diagnosed(s.holding, s.errors),
       input := Diagnosed(input[REG_SENSOR_STATUS := status], s.errors))
  }

  function ReadInput(s: Slave, f: FrameItem): Outcome
    requires f.Valid()
  {
    if !Readable(f) then Refused(s, f, FC_READ_INPUT, ILLEGAL_DATA_ADDRESS)
    else
      var live := Refreshed(s);
      ReadReply(live, f, FC_READ_INPUT, live.input[Start(f)..Start(f) + Quantity(f)])
  }

  // ----- Writing ---------------------------------------------------------------------------------------

  function WriteSingle(s: Slave, f: FrameItem): Outcome
    requires f.Valid()
  {
    if f.len < 8 then Outcome(s, [], false)
    else if Start(f) >= REGISTERS then Refused(s, f, FC_WRITE_SINGLE, ILLEGAL_DATA_ADDRESS)
    else Outcome(s.(holding := s.holding[Start(f) := Pair(f.data[4], f.data[5])]), Answer(f, f.data[..6]), true)
  }

  predicate Writable(f: FrameItem)
    requires f.Valid()
  {
    && 1 <= Quantity(f) <= 123
    && f.data[6] as nat == 2 * Quantity(f)
    && Start(f) + Quantity(f) <= REGISTERS
    && f.len >= 9 + 2 * Quantity(f)
  }

  function Written(r: Registers, start: nat, words: seq<Word>): Registers
    requires start + |words| <= REGISTERS
  {
    r[..start] + words + r[start + |words|..]
  }

  function WriteMultiple(s: Slave, f: FrameItem, env: Env): Outcome
    requires f.Valid()
  {
    if f.len < 9 then Outcome(s, [], false)
    else if !Writable(f) then Refused(s, f, FC_WRITE_MULTIPLE, ILLEGAL_DATA_ADDRESS)
    else
      var written := s.(holding := Written(s.holding, Start(f), Words(f, Quantity(f))));
      Outcome(Commanded(written, Start(f), Quantity(f), env), Answer(f, f.data[..6]), true)
  }

  // ----- The command register ------------------------------------------------------------------------------

  predicate HitsCommand(start: nat, n: nat) { start <= COMMAND_CODE < start + n }

  /** The argument count in 8 bits: two fewer than the registers written. */
  function ArgumentCount(n: nat): nat { (n + 254) % 256 }

  function Arguments(r: Registers): Args { r[COMMAND_ARG1..] }

  function SourceOf(s: Slave, env: Env): Source {
    Source(s.config, env.build, env.words, s.errors)
  }

  function Published(s: Slave, env: Env): Slave {
    s.(holding := SyncedHolding(s.holding, SourceOf(s, env)), input := SyncedInput(s.input, SourceOf(s, env)))
  }

  function SensorCommand(s: Slave, a: Args, len: nat, env: Env): (Slave, bool) {
    if Rejected(a, len, TooWide(s.config.device.hysteresis, a, len, env.fields.ties)) then (s, false)
    else (s.(config := Stored(s.config, a, len, env.fields), saveDevice := true, saveSensor := true), true)
  }

  function BaseCommand(s: Slave, a: Args, len: nat): (Slave, bool) {
    if len < 45 then (s, false)
    else
      var device := NewBase(s.config.device, a, NewFlags(a, len, s.config.device.configReg));
      if ValidId(a)
      then (s.(config := s.config.(device := device), saveDevice := true, address := LowOf(a[0])), true)
      else (s.(config := s.config.(device := device)), false)
  }

  function Execute(s: Slave, command: bv16, a: Args, len: nat, env: Env): (Slave, bool) {
    if command == SET_SENSOR_DATA then SensorCommand(s, a, len, env)
    else if command == SET_DETECTOR_DATA then BaseCommand(s, a, len)
    else (s, command == SET_TIME_DATE || command == RESET_DETECTOR)
  }

  /** A write that covers the command register runs the command there, publishes everything if it was
      acknowledged, and clears the register. */
  function Commanded(s: Slave, start: nat, n: nat, env: Env): Slave {
    if !HitsCommand(start, n) then s
    else
      var (done, ack) := Execute(s, s.holding[COMMAND_CODE].bits, Arguments(s.holding), ArgumentCount(n), env);
      var published := if ack then Published(done, env) else done;
      published.(holding := published.holding[COMMAND_CODE := Plain(0)])
  }

  // ----- One frame -----------------------------------------------------------------------------------------

  function Recorded(s: Slave, e: ErrorManager.Event): Slave {
    s.(errors := ErrorManager.After(s.errors, e))
  }

  /** The slave follows a valid configured id. */
  function Following(s: Slave): Slave {
    var id := s.config.device.id;
    if 0 < id <= 247 then s.(address := LowOf(Word(id))) else s
  }

  predicate Intact(f: FrameItem)
    requires f.Valid()
  {
    f.len >= 4 && Accepts(f.Payload())
  }

  predicate ForUs(s: Slave, f: FrameItem)
    requires f.Valid()
  {
    f.data[0] == BROADCAST || f.data[0] == s.address
  }

  function Dispatched(s: Slave, f: FrameItem, env: Env): Outcome
    requires f.Valid()
  {
    if f.data[1] == FC_READ_HOLDING then ReadHolding(s, f, env)
    else if f.data[1] == FC_READ_INPUT then ReadInput(s, f)
    else if f.data[1] == FC_WRITE_SINGLE then WriteSingle(s, f)
    else if f.data[1] == FC_WRITE_MULTIPLE then WriteMultiple(s, f, env)
    else Refused(s, f, f.data[1], ILLEGAL_FUNCTION)
  }

  function Processed(s: Slave, f: FrameItem, env: Env): Outcome
    requires f.Valid()
  {
    if f.len < 4 then Outcome(s, [], false)
    else if !Accepts(f.Payload()) then Outcome(Recorded(s, ErrorManager.CrcError), [], false)
    else
      var ready := Following(Recorded(s, ErrorManager.ValidModbusFrame));
      if !ForUs(ready, f) then Outcome(ready, [], false) else Dispatched(ready, f, env)
  }

  // ----- Which replies there are ---------------------------------------------------------------------------

  predicate HasHighBit(b: bv8) { b & 0x80 != 0 }

  lemma HighBits(b: bv8)
    ensures HasHighBit(WithHighBit(b))
    ensures !HasHighBit(FC_READ_HOLDING) && !HasHighBit(FC_READ_INPUT)
    ensures !HasHighBit(FC_WRITE_SINGLE) && !HasHighBit(FC_WRITE_MULTIPLE)
  {}

  /** Registers, configuration and save marks are the same. */
  predicate SameData(s: Slave, t: Slave) {
    t == s.(address := t.address, errors := t.errors)
  }

  predicate Supported(fn: bv8) {
    fn in {FC_READ_HOLDING, FC_READ_INPUT, FC_WRITE_SINGLE, FC_WRITE_MULTIPLE}
  }

  function Ready(s: Slave): Slave { Following(Recorded(s, ErrorManager.ValidModbusFrame)) }

  lemma ReadyKeepsData(s: Slave)
    ensures SameData(s, Ready(s))
  {
    hide ErrorManager.After, LowOf;
  }

  /** A frame that is short, damaged or for another slave is met with silence and changes no data; one that
      is short changes nothing at all. */
  lemma IgnoredFrames(s: Slave, f: FrameItem, env: Env)
    requires f.Valid()
    requires !Intact(f) || !ForUs(Ready(s), f)
    ensures
      var o := Processed(s, f, env);
      && o.sent == [] && !o.done && SameData(s, o.slave)
      && (f.len < 4 ==> o.slave == s)
      && (f.len >= 4 && !Intact(f) ==> o.slave == Recorded(s, ErrorManager.CrcError))
  {
    hide Accepts, Dispatched, ErrorManager.After, Following;
    ReadyKeepsData(s);
  }

  /** What each function code may send and change. */
  predicate Orderly(s: Slave, f: FrameItem, o: Outcome)
    requires f.Valid()
  {
    && |o.sent| <= 1
    && (f.data[0] == BROADCAST ==> o.sent == [])
    && (!o.done ==> SameData(s, o.slave))
    && (o.sent != [] ==> ProperReply(f, o.sent[0], o.done))
  }

  /** A sealed message from the slave asked; bit 7 of the function code marks exactly the refusals, whose
      code tells an unknown function from everything else. */
  predicate ProperReply(f: FrameItem, reply: seq<bv8>, done: bool)
    requires f.Valid()
  {
    && 5 <= |reply| <= FRAME_BYTES && Accepts(reply)
    && reply[0] == f.data[0]
    && (HasHighBit(reply[1]) <==> !done)
    && (done ==> Supported(f.data[1]) && reply[1] == f.data[1])
    && (!done ==> |reply| == 5 && reply[1] == WithHighBit(f.data[1])
                  && reply[2] == if Supported(f.data[1]) then ILLEGAL_DATA_ADDRESS else ILLEGAL_FUNCTION)
  }

  lemma SealedReply(message: seq<bv8>)
    requires |message| >= 2
    ensures |Sealed(message)| == |message| + 2 && Accepts(Sealed(message))
    ensures Sealed(message)[..|message|] == message
    ensures forall i :: 0 <= i < |message| ==> Sealed(message)[i] == message[i]
  {
    hide Crc;
    SealedIsAccepted(message);
  }

  lemma RefusedIsOrderly(s: Slave, f: FrameItem, fn: bv8, code: bv8)
    requires f.Valid() && ForUs(s, f) && f.data[1] == fn
    requires code == if Supported(fn) then ILLEGAL_DATA_ADDRESS else ILLEGAL_FUNCTION
    ensures Orderly(s, f, Refused(s, f, fn, code))
  {
    hide Sealed, Accepts, HasHighBit, WithHighBit;
    SealedReply([s.address, WithHighBit(fn), code]);
    HighBits(fn);
  }

  lemma ReadIsOrderly(s: Slave, t: Slave, f: FrameItem, fn: bv8, values: seq<Word>)
    requires f.Valid() && ForUs(t, f) && f.data[1] == fn && fn in {FC_READ_HOLDING, FC_READ_INPUT}
    requires 1 <= |values| <= 125
    ensures Orderly(s, f, ReadReply(t, f, fn, values))
  {
    hide Sealed, Accepts, HasHighBit, WithHighBit, Bytes, ByteOf;
    SealedReply([t.address, fn, ByteOf(2 * |values|)] + Bytes(values));
    HighBits(fn);
  }

  lemma EchoIsOrderly(s: Slave, t: Slave, f: FrameItem)
    requires f.Valid() && f.data[1] in {FC_WRITE_SINGLE, FC_WRITE_MULTIPLE}
    ensures Orderly(s, f, Outcome(t, Answer(f, f.data[..6]), true))
  {
    hide Sealed, Accepts, HasHighBit, WithHighBit;
    SealedReply(f.data[..6]);
    HighBits(f.data[1]);
  }

  lemma DispatchedIsOrderly(s: Slave, f: FrameItem, env: Env)
    requires f.Valid() && ForUs(s, f)
    ensures Orderly(s, f, Dispatched(s, f, env))
  {
    hide Refused, ReadReply, Answer, Orderly, HoldingValues, Refreshed, Commanded, Words, Written, Start, Quantity;
    var fn := f.data[1];
    if fn == FC_READ_HOLDING {
      if Readable(f) {
        ReadIsOrderly(s, s, f, fn, HoldingValues(s.holding, Start(f), Quantity(f), env.baudRate));
      } else {
        RefusedIsOrderly(s, f, fn, ILLEGAL_DATA_ADDRESS);
      }
    } else if fn == FC_READ_INPUT {
      if Readable(f) {
        RefreshedKeepsAddress(s);
        ReadIsOrderly(s, Refreshed(s), f, fn, Refreshed(s).input[Start(f)..Start(f) + Quantity(f)]);
      } else {
        RefusedIsOrderly(s, f, fn, ILLEGAL_DATA_ADDRESS);
      }
    } else if fn == FC_WRITE_SINGLE || fn == FC_WRITE_MULTIPLE {
      EchoIsOrderly(s, Dispatched(s, f, env).slave, f);
      RefusedIsOrderly(s, f, fn, ILLEGAL_DATA_ADDRESS);
      NothingIsOrderly(s, f);
    } else {
      RefusedIsOrderly(s, f, fn, ILLEGAL_FUNCTION);
    }
  }

  lemma RefreshedKeepsAddress(s: Slave)
    ensures Refreshed(s).address == s.address
  {
    hide Diagnosed, TooHot;
  }

  lemma NothingIsOrderly(s: Slave, f: FrameItem)
    requires f.Valid()
    ensures Orderly(s, f, Outcome(s, [], false))
  {}

  /** Response discipline: at most one send; none to a broadcast; what is sent passes the slave's own CRC
      test and carries the address it was asked under; exactly the refusals carry bit 7, and what is
      refused or unanswered has changed no register and no setting. */
  lemma ResponseDiscipline(s: Slave, f: FrameItem, env: Env)
    requires f.Valid()
    ensures Orderly(s, f, Processed(s, f, env))
  {
    hide Dispatched, Accepts, Following, ErrorManager.After, ForUs;
    if !Intact(f) || !ForUs(Ready(s), f) {
      IgnoredFrames(s, f, env);
    } else {
      ReadyKeepsData(s);
      DispatchedIsOrderly(Ready(s), f, env);
    }
  }

  /** A frame damaged in transit by an odd number of flipped bits, by at most three, or by a burst within
      16 bits is only counted. */
  lemma DamageIsInert(s: Slave, sent: FrameItem, f: FrameItem, start: nat, env: Env)
    requires sent.Valid() && f.Valid() && Intact(sent) && f.len == sent.len && f.Payload() != sent.Payload()
    requires
      var flips := Flipped(sent.Payload(), f.Payload());
      || Ones(flips) % 2 == 1
      || Ones(flips) <= 3
      || forall i :: 0 <= i < |flips| && flips[i] ==> start <= i < start + 16
    ensures Processed(s, f, env) == Outcome(Recorded(s, ErrorManager.CrcError), [], false)
  {
    hide Accepts, Ones, Dispatched, Recorded, Following;
    var flips := Flipped(sent.Payload(), f.Payload());
    if Ones(flips) % 2 == 1 {
      OddFlipsDetected(sent.Payload(), f.Payload());
    } else if Ones(flips) <= 3 {
      FewFlipsDetected(sent.Payload(), f.Payload());
    } else {
      BurstDetected(sent.Payload(), f.Payload(), start);
    }
  }
}
