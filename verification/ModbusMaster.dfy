/** The other end of the line: the requests a master builds, how the slave understands them, and the round
    trip of a write and a read over the wire. */
module ModbusMaster {
  import opened Crc16
  import opened RegisterMap
  import opened SettingsCommands
  import opened FrameQueue
  import opened ModbusSlave
  import opened ModbusRegisters
  import ErrorManager

  // ----- Requests ----------------------------------------------------------------------------------------

  /** The frame is a message with its CRC; what lies behind it in the buffer is arbitrary. */
  ghost predicate Brings(f: FrameItem, message: seq<bv8>) {
    f.Valid() && f.Payload() == Sealed(message)
  }

  function ReadMessage(address: bv8, start: nat, n: nat): (message: seq<bv8>)
    requires start < REGISTERS && n <= 125
    ensures |message| == 6
  {
    [address, FC_READ_HOLDING, 0, ByteOf(start), 0, ByteOf(n)]
  }

  function WriteMessage(address: bv8, start: nat, words: seq<Word>): (message: seq<bv8>)
    requires start < REGISTERS && |words| <= 123
    ensures |message| == 7 + 2 * |words|
  {
    [address, FC_WRITE_MULTIPLE, 0, ByteOf(start), 0, ByteOf(|words|), ByteOf(2 * |words|)] + Bytes(words)
  }

  // ----- How they are understood --------------------------------------------------------------------------

  lemma MessageArrives(f: FrameItem, message: seq<bv8>)
    requires 2 <= |message| && Brings(f, message)
    ensures Intact(f) && f.len == |message| + 2
    ensures f.data[..|message|] == message
    ensures forall i :: 0 <= i < |message| ==> f.data[i] == message[i]
  {
    hide Sealed, Accepts;
    SealedReply(message);
    assert f.data[..|message|] == f.Payload()[..|message|];
  }

  lemma ReadIsUnderstood(s: Slave, start: nat, n: nat, f: FrameItem)
    requires 1 <= n <= 125 && start + n <= REGISTERS && Brings(f, ReadMessage(Ready(s).address, start, n))
    ensures Asks(s, f, FC_READ_HOLDING) && Start(f) == start && Quantity(f) == n && Readable(f)
    ensures f.data[0] == Ready(s).address
  {
    hide Accepts, Sealed, ByteOf, Number, Ready, Intact;
    MessageArrives(f, ReadMessage(Ready(s).address, start, n));
    ByteOfIs(start);
    ByteOfIs(n);
  }

  lemma WordsArrive(address: bv8, start: nat, words: seq<Word>, f: FrameItem)
    requires start < REGISTERS && |words| <= 123 && Brings(f, WriteMessage(address, start, words))
    ensures Words(f, |words|) == words
  {
    hide Accepts, Sealed, ByteOf, Intact, Bytes, Pairs;
    var message := WriteMessage(address, start, words);
    MessageArrives(f, message);
    assert f.data[7..7 + 2 * |words|] == f.data[..|message|][7..] == Bytes(words);
    PairsOfBytes(words);
  }

  lemma WriteIsUnderstood(s: Slave, start: nat, words: seq<Word>, f: FrameItem)
    requires 1 <= |words| <= 123 && start + |words| <= REGISTERS
    requires Brings(f, WriteMessage(Ready(s).address, start, words))
    ensures Asks(s, f, FC_WRITE_MULTIPLE) && f.data[1] == FC_WRITE_MULTIPLE
    ensures Start(f) == start && Quantity(f) == |words| && Acceptable(f) && WriteWords(f) == words
    ensures f.data[0] == Ready(s).address
  {
    hide Accepts, Sealed, ByteOf, Number, Ready, Intact, Bytes, Words;
    var n := |words|;
    var message := WriteMessage(Ready(s).address, start, words);
    MessageArrives(f, message);
    WordsArrive(Ready(s).address, start, words, f);
    ByteOfIs(start);
    ByteOfIs(n);
    ByteOfIs(2 * n);
    assert f.data[1] == message[1] && f.data[3] == message[3] && f.data[5] == message[5] && f.data[6] == message[6];
  }

  // ----- The round trip -----------------------------------------------------------------------------------

  lemma ReadyAgain(s: Slave, t: Slave)
    requires SameSettings(s, t) && t.address == Ready(s).address
    ensures Ready(t).address == Ready(s).address
  {
    hide LowOf, ErrorManager.After;
  }

  /** What a master writes to any registers but the command and baud rate registers, and then reads back, it
      gets back; both requests are answered, and no other register has changed. */
  lemma WriteThenRead(s: Slave, start: nat, words: seq<Word>, env: Env, later: Env, w: FrameItem, r: FrameItem)
    requires 1 <= |words| <= 123 && start + |words| <= REGISTERS && Ready(s).address != BROADCAST
    requires !HitsCommand(start, |words|)
    requires !(start <= REG_BAUD_RATE < start + |words|)
    requires Brings(w, WriteMessage(Ready(s).address, start, words))
    requires Brings(r, ReadMessage(Ready(s).address, start, |words|))
    ensures
      var written := Processed(s, w, env);
      var read := Processed(written.slave, r, later);
      && |written.sent| == 1 && written.done
      && |read.sent| == 1 && read.done
      && |read.sent[0]| == 5 + 2 * |words| && Carried(read.sent[0], |words|) == words
      && SameData(s.(holding := Written(s.holding, start, words)), read.slave)
  {
    hide Accepts, Sealed, ReadMessage, WriteMessage, Processed, Ready, Carried, Asks, Written, Intact;
    hide Start, Quantity, Acceptable, Readable;
    var n := |words|;
    var t := Processed(s, w, env).slave;
    WriteIsUnderstood(s, start, words, w);
    WriteIsExact(s, w, env);
    ReadyAgain(s, t);
    ReadIsUnderstood(t, start, n, r);
    HoldingIsRead(t, r, later);
    WrittenReads(s.holding, start, words, later.baudRate);
  }

  lemma WrittenReads(kept: Registers, start: nat, words: seq<Word>, baudRate: bv16)
    requires start + |words| <= REGISTERS && !(start <= REG_BAUD_RATE < start + |words|)
    ensures HoldingValues(Written(kept, start, words), start, |words|, baudRate) == words
  {
    hide Plain, Written;
    var shown := HoldingValues(Written(kept, start, words), start, |words|, baudRate);
    forall i | 0 <= i < |words| ensures shown[i] == words[i] {
      WrittenAt(kept, start, words, start + i);
      assert shown[i] == HoldingAt(Written(kept, start, words), start + i, baudRate);
    }
  }

  // ----- A sensor package over the wire ----------------------------------------------------------------------

  /** A package sent with the command register in front arrives as the command's arguments, but is counted
      one short; its fate is that of `SensorOutcome`. */
  lemma PackageOverWire(s: Slave, package: seq<Word>, env: Env, w: FrameItem)
    requires 1 <= |package| <= 122
    requires Brings(w, WriteMessage(Ready(s).address, COMMAND_CODE, [Plain(SET_SENSOR_DATA)] + package))
    ensures
      var atCommand := Written(s.holding, COMMAND_CODE, [Plain(SET_SENSOR_DATA)] + package);
      var a := Arguments(atCommand);
      && a[..|package|] == package
      && SensorOutcome(s.(holding := atCommand), Processed(s, w, env).slave, a, |package| - 1, env)
  {
    hide Accepts, Sealed, WriteMessage, Processed, Ready, Asks, Intact, Start, Quantity, Acceptable;
    hide SensorOutcome, WriteWords;
    var words := [Plain(SET_SENSOR_DATA)] + package;
    WriteIsUnderstood(s, COMMAND_CODE, words, w);
    CommandStands(s.holding, package);
    assert (|package| + 1 + 254) % 256 == |package| - 1;
    SensorSettings(s, w, env);
  }

  /** Written from register 0 on, with any word in front, the package is counted in full. */
  lemma PackageFromZero(s: Slave, any: Word, package: seq<Word>, env: Env, w: FrameItem)
    requires |package| <= 121
    requires Brings(w, WriteMessage(Ready(s).address, 0, [any, Plain(SET_SENSOR_DATA)] + package))
    ensures
      var atCommand := Written(s.holding, 0, [any, Plain(SET_SENSOR_DATA)] + package);
      var a := Arguments(atCommand);
      && a[..|package|] == package
      && SensorOutcome(s.(holding := atCommand), Processed(s, w, env).slave, a, |package|, env)
  {
    hide Accepts, Sealed, WriteMessage, Processed, Ready, Asks, Intact, Start, Quantity, Acceptable;
    hide SensorOutcome, WriteWords;
    var words := [any, Plain(SET_SENSOR_DATA)] + package;
    WriteIsUnderstood(s, 0, words, w);
    CommandStandsFromZero(s.holding, any, package);
    assert (|package| + 2 + 254) % 256 == |package|;
    SensorSettings(s, w, env);
  }

  lemma CommandStandsFromZero(kept: Registers, any: Word, package: seq<Word>)
    requires |package| <= 121
    ensures
      var atCommand := Written(kept, 0, [any, Plain(SET_SENSOR_DATA)] + package);
      atCommand[COMMAND_CODE].bits == SET_SENSOR_DATA && Arguments(atCommand)[..|package|] == package
  {
    var words := [any, Plain(SET_SENSOR_DATA)] + package;
    assert Written(kept, 0, words)[COMMAND_CODE] == words[1];
    hide Plain;
  }

  lemma CommandStands(kept: Registers, package: seq<Word>)
    requires 1 <= |package| <= 122
    ensures
      var atCommand := Written(kept, COMMAND_CODE, [Plain(SET_SENSOR_DATA)] + package);
      atCommand[COMMAND_CODE].bits == SET_SENSOR_DATA && Arguments(atCommand)[..|package|] == package
  {
    var words := [Plain(SET_SENSOR_DATA)] + package;
    assert Written(kept, COMMAND_CODE, words)[COMMAND_CODE] == words[0];
    hide Plain;
  }
}
