/** What the slave does with an undamaged frame, said in the bytes of the frame and the numbers of the protocol. */
module ModbusNumbers {
  import opened Crc16
  import opened DeviceTypes
  import opened DeviceConfig
  import opened RegisterMap
  import opened SettingsCommands
  import opened FrameQueue
  import opened ModbusSlave
  import opened ModbusRegisters
  import ErrorManager

  // ----- Whom a frame is for -------------------------------------------------------------------------

  /** Everyone, this slave by its configured id, or, while that is no valid id, by the address it has. */
  predicate Addressed(s: Slave, f: FrameItem)
    requires f.Valid()
  {
    var id := s.config.device.id;
    f.data[0] == 0 || if 0 < id <= 247 then SameNumber(f.data[0], id) else f.data[0] == s.address
  }

  predicate SameNumber(b: bv8, id: bv16) { b as bv16 == id }

  lemma IdIsByte(id: bv16, b: bv8)
    requires 0 < id <= 247
    ensures SameNumber(b, id) <==> b == LowOf(Word(id))
  {}

  lemma ReadyAddress(s: Slave)
    ensures
      var id := s.config.device.id;
      Ready(s).address == if 0 < id <= 247 then LowOf(Word(id)) else s.address
  {
    hide LowOf, ErrorManager.After;
  }

  lemma AddressedIsForUs(s: Slave, f: FrameItem)
    requires f.Valid()
    ensures Addressed(s, f) <==> ForUs(Ready(s), f)
  {
    hide LowOf, Ready, SameNumber;
    ReadyAddress(s);
    if 0 < s.config.device.id <= 247 {
      IdIsByte(s.config.device.id, f.data[0]);
    }
  }

  /** Exactly the frames addressed to the slave are dispatched; the others are met with silence. */
  lemma AddressExactly(s: Slave, f: FrameItem, env: Env)
    requires f.Valid() && f.len >= 4 && Accepts(f.Payload())
    ensures
      var o := Processed(s, f, env);
      if Addressed(s, f) then o == Dispatched(Ready(s), f, env)
      else o == Outcome(Ready(s), [], false)
  {
    hide Addressed, ForUs, Following, Accepts, Dispatched;
    AddressedIsForUs(s, f);
  }

  lemma CommandedKeepsErrors(s: Slave, start: nat, n: nat, env: Env)
    ensures Commanded(s, start, n, env).errors == s.errors
  {
    hide SyncedHolding, SyncedInput, Plain, Stored, Rejected, NewBase, NewFlags, LowOf, ValidId, TooWide;
  }

  lemma DispatchedKeepsErrors(s: Slave, f: FrameItem, env: Env)
    requires f.Valid()
    ensures Dispatched(s, f, env).slave.errors == s.errors
  {
    hide Start, Quantity, Diagnosed, TooHot, Bytes, Words, Written, HoldingValues, Answer, Commanded;
    if f.data[1] == FC_WRITE_MULTIPLE && f.len >= 9 && Writable(f) {
      CommandedKeepsErrors(s.(holding := Written(s.holding, Start(f), Words(f, Quantity(f)))), Start(f), Quantity(f),
                           env);
    }
  }

  /** Every frame of at least four bytes is reported once, for whomever it is: as valid, or as damaged. */
  lemma FramesAreReported(s: Slave, f: FrameItem, env: Env)
    requires f.Valid()
    ensures
      Processed(s, f, env).slave.errors
      == if f.len < 4 then s.errors
         else if Accepts(f.Payload()) then ErrorManager.After(s.errors, ErrorManager.ValidModbusFrame)
         else ErrorManager.After(s.errors, ErrorManager.CrcError)
  {
    hide Accepts, Dispatched, ErrorManager.After, ForUs, LowOf;
    DispatchedKeepsErrors(Ready(s), f, env);
  }

  /** The two numbers of a request, high byte first. */
  lemma FieldsInNumbers(f: FrameItem)
    requires f.Valid()
    ensures Start(f) == 256 * (f.data[2] as nat) + f.data[3] as nat
    ensures Quantity(f) == 256 * (f.data[4] as nat) + f.data[5] as nat
  {}

  // ----- Writes --------------------------------------------------------------------------------------

  /** When a write is accepted: one register, or up to 123 with as many bytes as they need. */
  predicate WriteAccepted(f: FrameItem)
    requires f.Valid()
  {
    var start, n := Start(f), Quantity(f);
    if f.data[1] == 0x06 then f.len >= 8 && start < 128
    else
      && f.len >= 9 && 1 <= n <= 123 && f.data[6] as nat == 2 * n && start + n <= 128 && f.len >= 9 + 2 * n
  }

  /** An accepted write that is not about the command register, or is single. */
  predicate PlainWrite(f: FrameItem)
    requires f.Valid()
  {
    var start, n := Start(f), Quantity(f);
    f.data[1] == 0x06 || !(start <= 1 < start + n)
  }

  /** Register `i` after an accepted write: the high byte comes first. */
  function WrittenWord(f: FrameItem, i: nat, kept: Word): Word
    requires f.Valid()
  {
    var start, n := Start(f), Quantity(f);
    if f.data[1] == 0x06 then
      if i == start then BytePair(f.data[4], f.data[5]) else kept
    else if start <= i < start + n && n <= 123 then BytePair(f.data[7 + 2 * (i - start)], f.data[8 + 2 * (i - start)])
    else kept
  }

  function BytePair(hi: bv8, lo: bv8): Word { Word(256 * (hi as bv16) + (lo as bv16)) }

  lemma PairIsBytePair(hi: bv8, lo: bv8)
    ensures Pair(hi, lo) == BytePair(hi, lo)
  {}

  lemma AcceptedIs(f: FrameItem)
    requires f.Valid()
    ensures Acceptable(f) <==> WriteAccepted(f)
    ensures PlainWrite(f) <==> f.data[1] == FC_WRITE_SINGLE || !HitsCommand(Start(f), Quantity(f))
  {
    hide Start, Quantity;
  }

  lemma WrittenIs(r: Registers, f: FrameItem, i: nat)
    requires f.Valid() && Acceptable(f) && (f.data[1] == FC_WRITE_MULTIPLE || f.data[1] == FC_WRITE_SINGLE) && i < 128
    ensures Written(r, Start(f), WriteWords(f))[i] == WrittenWord(f, i, r[i])
  {
    hide Start, Quantity, Pair, BytePair, Written;
    WrittenAt(r, Start(f), WriteWords(f), i);
    if f.data[1] == FC_WRITE_SINGLE {
      PairIsBytePair(f.data[4], f.data[5]);
    } else if Start(f) <= i < Start(f) + Quantity(f) {
      PairIsBytePair(f.data[7 + 2 * (i - Start(f))], f.data[8 + 2 * (i - Start(f))]);
    }
  }

  /** Writes, whether to this slave or to everyone: done exactly when accepted, echoed unless broadcast, and
      then exactly the registers addressed hold what the request carried. */
  lemma WritesInNumbers(s: Slave, f: FrameItem, env: Env)
    requires f.Valid() && f.len >= 4 && Accepts(f.Payload()) && Addressed(s, f) && f.data[1] in {0x06, 0x10}
    ensures
      var o := Processed(s, f, env);
      && (o.done <==> WriteAccepted(f))
      && (o.done ==> o.sent == if f.data[0] == 0 then [] else [Sealed(f.data[..6])])
      && (o.done && PlainWrite(f) ==>
            && SameData(s.(holding := o.slave.holding), o.slave)
            && forall i :: 0 <= i < 128 ==> o.slave.holding[i] == WrittenWord(f, i, s.holding[i]))
  {
    AddressedIsForUs(s, f);
    hide ForUs, Accepts, Ready, Start, Quantity, Processed, SameData, Written, WriteAccepted, PlainWrite, HitsCommand,
      WriteWords, WrittenWord, Addressed, Acceptable;
    WriteIsExact(s, f, env);
    AcceptedIs(f);
    if WriteAccepted(f) && PlainWrite(f) {
      forall i | 0 <= i < 128
        ensures Written(s.holding, Start(f), WriteWords(f))[i] == WrittenWord(f, i, s.holding[i])
      {
        WrittenIs(s.holding, f, i);
      }
    }
  }

  /** A broadcast write is carried out in silence. */
  lemma BroadcastIsCarriedOut(s: Slave, f: FrameItem, env: Env)
    requires f.Valid() && f.len >= 4 && Accepts(f.Payload()) && f.data[0] == 0
    requires f.data[1] in {0x06, 0x10} && WriteAccepted(f) && PlainWrite(f)
    ensures
      var o := Processed(s, f, env);
      && o.done && o.sent == []
      && SameData(s.(holding := o.slave.holding), o.slave)
      && forall i :: 0 <= i < 128 ==> o.slave.holding[i] == WrittenWord(f, i, s.holding[i])
  {
    hide Accepts, Processed, SameData, WriteAccepted, PlainWrite, WrittenWord;
    WritesInNumbers(s, f, env);
  }

  // ----- Reads -----------------------------------------------------------------------------------------

  /** When a read is answered with values. */
  predicate ReadAccepted(f: FrameItem)
    requires f.Valid()
  {
    1 <= Quantity(f) <= 125 && Start(f) + Quantity(f) <= 128
  }

  /** What register `i` reads as; the baud rate comes from the line. */
  function Shows(holding: Registers, i: nat, rate: bv16): Word
    requires i < 128
  {
    if i == 0x32 then Word(rate / 100) else holding[i]
  }

  /** A reply from the slave asked, with its function, the byte count, and `n` words, high bytes first. */
  predicate Carries(reply: seq<bv8>, f: FrameItem, values: seq<Word>)
    requires f.Valid()
  {
    && |reply| == 5 + 2 * |values| && Accepts(reply)
    && reply[0] == f.data[0] && reply[1] == f.data[1] && reply[2] as nat == 2 * |values|
    && forall k :: 0 <= k < |values| ==> values[k] == BytePair(reply[3 + 2 * k], reply[4 + 2 * k])
  }

  lemma CarriedInNumbers(reply: seq<bv8>, n: nat)
    requires 3 + 2 * n <= |reply|
    ensures forall k :: 0 <= k < n ==> Carried(reply, n)[k] == BytePair(reply[3 + 2 * k], reply[4 + 2 * k])
  {
    hide Pair, BytePair;
    forall k | 0 <= k < n ensures Carried(reply, n)[k] == BytePair(reply[3 + 2 * k], reply[4 + 2 * k]) {
      PairIsBytePair(reply[3 + 2 * k], reply[4 + 2 * k]);
    }
  }

  lemma ReplyIsCarried(s: Slave, f: FrameItem, values: seq<Word>)
    requires f.Valid() && f.data[0] != 0 && s.address == f.data[0] && |values| <= 125
    ensures
      var o := ReadReply(s, f, f.data[1], values);
      |o.sent| == 1 && Carries(o.sent[0], f, values)
  {
    hide Sealed, Accepts, Bytes, ByteOf, BytePair, Carried;
    ReplyCarries(s, f, f.data[1], values);
    SealedReply([s.address, f.data[1], ByteOf(2 * |values|)] + Bytes(values));
    ByteOfIs(2 * |values|);
    CarriedInNumbers(ReadReply(s, f, f.data[1], values).sent[0], |values|);
  }

  /** Holding registers as a reply shows them. */
  function ShownFrom(holding: Registers, start: nat, n: nat, rate: bv16): (values: seq<Word>)
    requires start + n <= 128
    ensures |values| == n
  {
    seq(n, i requires 0 <= i < n => Shows(holding, start + i, rate))
  }

  lemma ShownFromIs(holding: Registers, start: nat, n: nat, rate: bv16)
    requires start + n <= 128
    ensures HoldingValues(holding, start, n, rate) == ShownFrom(holding, start, n, rate)
  {
    hide Plain;
    PlainIsWord(rate / 100);
    var values, shown := HoldingValues(holding, start, n, rate), ShownFrom(holding, start, n, rate);
    forall i | 0 <= i < n ensures values[i] == shown[i] {
      assert values[i] == HoldingAt(holding, start + i, rate) && shown[i] == Shows(holding, start + i, rate);
    }
  }

  lemma PlainIsWord(w: bv16)
    ensures Plain(w) == Word(w)
  {}

  /** Reads of the holding registers: done exactly when accepted, and then answered with the values, or with
      nothing if broadcast. */
  lemma HoldingInNumbers(s: Slave, f: FrameItem, env: Env)
    requires f.Valid() && f.len >= 4 && Accepts(f.Payload()) && Addressed(s, f)
    requires f.data[1] == 0x03
    ensures
      var o := Processed(s, f, env);
      && (o.done <==> ReadAccepted(f))
      && o.slave == Ready(s)
      && (f.data[0] == 0 ==> o.sent == [])
      && (f.data[0] != 0 && o.done ==>
            && |o.sent| == 1
            && Carries(o.sent[0], f, ShownFrom(s.holding, Start(f), Quantity(f), env.baudRate)))
  {
    hide ForUs, Accepts, Ready, Start, Quantity, ReadReply, Carries, HoldingValues, ShownFrom, Addressed, Answer;
    AddressedIsForUs(s, f);
    AddressExactly(s, f, env);
    ReadyKeepsData(s);
    ResponseDiscipline(s, f, env);
    if ReadAccepted(f) {
      ShownFromIs(s.holding, Start(f), Quantity(f), env.baudRate);
      var values := HoldingValues(s.holding, Start(f), Quantity(f), env.baudRate);
      ReadReplyState(Ready(s), f, 0x03, values);
      if f.data[0] != 0 {
        AddressIsTheirs(s, f);
        ReplyIsCarried(Ready(s), f, values);
      }
    }
  }

  lemma AddressIsTheirs(s: Slave, f: FrameItem)
    requires f.Valid() && ForUs(Ready(s), f) && f.data[0] != 0
    ensures Ready(s).address == f.data[0]
  {
    hide Ready;
  }

  /** Reads of the input registers: the same, from the registers as they are after refreshing. */
  lemma InputInNumbers(s: Slave, f: FrameItem, env: Env)
    requires f.Valid() && f.len >= 4 && Accepts(f.Payload()) && Addressed(s, f)
    requires f.data[1] == 0x04
    ensures
      var o := Processed(s, f, env);
      && (o.done <==> ReadAccepted(f))
      && o.slave == (if o.done then Refreshed(Ready(s)) else Ready(s))
      && (f.data[0] == 0 ==> o.sent == [])
      && (f.data[0] != 0 && o.done ==>
            && |o.sent| == 1
            && Carries(o.sent[0], f, o.slave.input[Start(f)..Start(f) + Quantity(f)]))
  {
    hide ForUs, Accepts, Ready, Start, Quantity, ReadReply, Carries, Refreshed, Addressed, Answer;
    AddressedIsForUs(s, f);
    AddressExactly(s, f, env);
    ResponseDiscipline(s, f, env);
    if ReadAccepted(f) {
      var live := Refreshed(Ready(s));
      RefreshedKeepsAddress(Ready(s));
      ReadReplyState(live, f, 0x04, live.input[Start(f)..Start(f) + Quantity(f)]);
      if f.data[0] != 0 {
        AddressIsTheirs(s, f);
        ReplyIsCarried(live, f, live.input[Start(f)..Start(f) + Quantity(f)]);
      }
    }
  }

  // ----- Refusals ----------------------------------------------------------------------------------------

  /** Writes too short for their own fixed part are dropped without a word. */
  predicate Dropped(f: FrameItem)
    requires f.Valid()
  {
    (f.data[1] == 0x06 && f.len < 8) || (f.data[1] == 0x10 && f.len < 9)
  }

  /** What is refused: bad ranges and counts, and functions other than 3, 4, 6 and 16. */
  predicate Unacceptable(f: FrameItem)
    requires f.Valid()
  {
    && !Dropped(f)
    && if f.data[1] == 0x03 || f.data[1] == 0x04 then !ReadAccepted(f)
       else f.data[1] in {0x06, 0x10} ==> !WriteAccepted(f)
  }

  lemma HighBitInNumbers(b: bv8)
    ensures WithHighBit(b) == b % 128 + 128
  {}

  /** A refusal carries the function with bit 7 set, and code 2 for a bad range or count, 1 for an unknown
      function. */
  lemma RefusalsInNumbers(s: Slave, f: FrameItem, env: Env)
    requires f.Valid() && f.len >= 4 && Accepts(f.Payload()) && Addressed(s, f)
    ensures Dropped(f) ==> Processed(s, f, env) == Outcome(Ready(s), [], false)
    ensures Unacceptable(f) ==>
      var code: bv8 := if f.data[1] in {0x03, 0x04, 0x06, 0x10} then 2 else 1;
      Processed(s, f, env)
      == Outcome(Ready(s), if f.data[0] == 0 then [] else [Sealed([f.data[0], f.data[1] % 128 + 128, code])], false)
  {
    hide ForUs, Accepts, Ready, Start, Quantity, Addressed, Sealed, Refreshed, Commanded, Words, WithHighBit;
    AddressedIsForUs(s, f);
    AddressExactly(s, f, env);
    HighBitInNumbers(f.data[1]);
    if f.data[0] != 0 {
      AddressIsTheirs(s, f);
    }
  }

  // ----- Commands ----------------------------------------------------------------------------------------

  /** The commands that set the clock and restart the detector are acknowledged and nothing more: everything
      is published. An unknown command changes no register but its own. */
  predicate OtherOutcome(s: Slave, t: Slave, env: Env) {
    var code, source := s.holding[1].bits, Source(s.config, env.build, env.words, s.errors);
    if code == 0x3607 || code == 0x3482 then
      t == s.(holding := SyncedHolding(s.holding, source)[1 := Word(0)], input := SyncedInput(s.input, source))
    else code != 0x7327 && code != 0x7372 ==> t == s.(holding := s.holding[1 := Word(0)])
  }

  lemma OtherCommanded(s: Slave, start: nat, n: nat, env: Env)
    requires HitsCommand(start, n)
    ensures OtherOutcome(s, Commanded(s, start, n, env), env)
  {
    hide SyncedHolding, SyncedInput, Plain, SensorCommand, BaseCommand;
    PlainIsWord(0);
  }

  lemma OtherCommands(s: Slave, f: FrameItem, env: Env)
    requires f.Valid() && GivesCommand(s, f)
    ensures OtherOutcome(Ready(s).(holding := AtCommand(s, f)), Processed(s, f, env).slave, env)
  {
    assert HitsCommand(Start(f), Quantity(f));
    hide *;
    CommandState(s, f, env);
    OtherCommanded(Ready(s).(holding := AtCommand(s, f)), Start(f), Quantity(f), env);
  }
}
