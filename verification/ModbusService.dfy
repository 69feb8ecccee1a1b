/** The Modbus service: register tables, scratch buffers and the frame queue, updated in place. */
module ModbusService {
  import opened Crc16
  import opened DeviceTypes
  import opened DeviceConfig
  import opened RegisterMap
  import opened SettingsCommands
  import opened FrameQueue
  import opened ModbusSlave
  import ConfigManager
  import ErrorManager

  class Service {
    const holding: array<Word>
    const input: array<Word>
    const response: array<bv8>
    const store: ConfigManager.Store
    const errors: ErrorManager.Manager
    var address: bv8
    /** Everything handed to the transmitter. */
    var sent: seq<seq<bv8>>

    ghost predicate Valid()
      reads this
    {
      && holding.Length == REGISTERS && input.Length == REGISTERS && holding != input
      && response.Length == FRAME_BYTES
    }

    ghost function State(): Slave
      requires Valid()
      reads this, holding, input, store, errors
    {
      Slave(holding[..], input[..], store.Live(), store.saveDevSettings, store.saveSensorInfo, address, errors.State())
    }

    constructor (store: ConfigManager.Store, errors: ErrorManager.Manager)
      ensures Valid() && this.store == store && this.errors == errors
      ensures State().holding == State().input == seq(REGISTERS, _ => Word(0))
      ensures address == 1 && sent == []
      ensures fresh(holding) && fresh(input) && fresh(response)
    {
      holding := new Word[REGISTERS](_ => Word(0));
      input := new Word[REGISTERS](_ => Word(0));
      response := new bv8[FRAME_BYTES](_ => 0);
      this.store, this.errors := store, errors;
      address, sent := 1, [];
    }

    /** Seals the first `n` bytes of a buffer and sends them, unless the frame was broadcast. */
    method SendSealed(f: FrameItem, buffer: array<bv8>, n: nat)
      requires Valid() && f.Valid() && n + 2 <= buffer.Length
      modifies this`sent, buffer
      ensures sent == old(sent) + Answer(f, old(buffer[..n]))
    {
      hide Crc, LowByte, HighByte;
      ghost var message := buffer[..n];
      var crc := ComputeCrc(buffer, n);
      buffer[n] := LowByte(crc);
      buffer[n + 1] := HighByte(crc);
      assert buffer[..n] == message;
      assert buffer[..n + 2] == Sealed(message);
      if f.data[0] != BROADCAST {
        sent := sent + [buffer[..n + 2]];
      }
    }

    method SendErrorResponse(f: FrameItem, fn: bv8, code: bv8)
      requires Valid() && f.Valid()
      modifies this`sent
      ensures sent == old(sent) + Answer(f, [address, WithHighBit(fn), code])
    {
      hide WithHighBit, Sealed;
      if f.data[0] != BROADCAST {
        var resp := new bv8[5];
        resp[0] := address;
        resp[1] := WithHighBit(fn);
        resp[2] := code;
        assert resp[..3] == [address, WithHighBit(fn), code];
        SendSealed(f, resp, 3);
      }
    }

    /** The answer to a write repeats its first six bytes. */
    method SendEcho(f: FrameItem)
      requires Valid() && f.Valid()
      modifies this`sent
      ensures sent == old(sent) + Answer(f, f.data[..6])
    {
      hide Sealed;
      if f.data[0] != BROADCAST {
        var resp := new bv8[8];
        forall i | 0 <= i < 6 {
          resp[i] := f.data[i];
        }
        assert resp[..6] == f.data[..6];
        SendSealed(f, resp, 6);
      }
    }

    method PutHead(fn: bv8, n: nat)
      requires Valid() && n <= 125
      modifies response
      ensures response[..3] == [address, fn, ByteOf(2 * n)]
    {
      response[0] := address;
      response[1] := fn;
      response[2] := ByteOf(2 * n);
    }

    method PutWord(at: nat, w: Word)
      requires Valid() && at + 2 <= FRAME_BYTES
      modifies response
      ensures response[..at + 2] == old(response[..at]) + [HighOf(w), LowOf(w)]
    {
      hide HighOf, LowOf;
      response[at] := HighOf(w);
      response[at + 1] := LowOf(w);
    }

    method HoldingRegister(reg: nat, baudRate: bv16) returns (w: Word)
      requires Valid()
      ensures w == if reg < REGISTERS then HoldingAt(holding[..], reg, baudRate) else Plain(0)
    {
      hide Plain;
      if reg < REGISTERS {
        if reg == REG_BAUD_RATE {
          return Plain(baudRate / 100);
        }
        return holding[reg];
      }
      return Plain(0);
    }

    method InputRegister(reg: nat) returns (w: Word)
      requires Valid()
      ensures w == if reg < REGISTERS then input[reg] else Plain(0)
    {
      w := if reg < REGISTERS then input[reg] else Plain(0);
    }

    method FillHolding(addr: nat, qty: nat, baudRate: bv16) returns (idx: nat)
      requires Valid() && qty <= 125 && addr + qty <= REGISTERS
      modifies response
      ensures idx == 3 + 2 * qty
      ensures response[..idx]
           == [address, FC_READ_HOLDING, ByteOf(2 * qty)] + Bytes(HoldingValues(holding[..], addr, qty, baudRate))
    {
      hide HighOf, LowOf, ByteOf, Plain, Bytes, HoldingAt;
      ghost var values := HoldingValues(holding[..], addr, qty, baudRate);
      PutHead(FC_READ_HOLDING, qty);
      ghost var head := response[..3];
      idx := 3;
      BytesOfNone();
      for i := 0 to qty
        invariant idx == 3 + 2 * i
        invariant response[..idx] == head + Bytes(values[..i])
      {
        var val := HoldingRegister(addr + i, baudRate);
        PutWord(idx, val);
        idx := idx + 2;
        assert val == values[i];
        BytesOfNext(values, i);
      }
      assert values[..qty] == values;
    }

    method ProcessReadHolding(f: FrameItem, env: Env) returns (done: bool)
      requires Valid() && f.Valid()
      modifies this`sent, response
      ensures
        var o := ReadHolding(old(State()), f, env);
        State() == o.slave && sent == old(sent) + o.sent && done == o.done
    {
      hide HoldingValues, ByteOf, Start, Quantity, Sealed, WithHighBit, Bytes, Answer;
      var addr, qty := Start(f), Quantity(f);
      if qty == 0 || qty > 125 || addr + qty > REGISTERS {
        SendErrorResponse(f, FC_READ_HOLDING, ILLEGAL_DATA_ADDRESS);
        return false;
      }
      var idx := FillHolding(addr, qty, env.baudRate);
      SendSealed(f, response, idx);
      return true;
    }

    method FillInput(addr: nat, qty: nat) returns (idx: nat)
      requires Valid() && qty <= 125 && addr + qty <= REGISTERS
      modifies response
      ensures idx == 3 + 2 * qty
      ensures response[..idx] == [address, FC_READ_INPUT, ByteOf(2 * qty)] + Bytes(input[addr..addr + qty])
    {
      hide HighOf, LowOf, ByteOf, Plain, Bytes, HoldingAt;
      ghost var values := input[addr..addr + qty];
      PutHead(FC_READ_INPUT, qty);
      ghost var head := response[..3];
      idx := 3;
      BytesOfNone();
      for i := 0 to qty
        invariant idx == 3 + 2 * i
        invariant response[..idx] == head + Bytes(values[..i])
      {
        var val := InputRegister(addr + i);
        PutWord(idx, val);
        idx := idx + 2;
        assert val == values[i];
        BytesOfNext(values, i);
      }
      assert values[..qty] == values;
    }

    method ProcessReadInput(f: FrameItem) returns (done: bool)
      requires Valid() && f.Valid()
      modifies this`sent, response, holding, input
      ensures
        var o := ReadInput(old(State()), f);
        State() == o.slave && sent == old(sent) + o.sent && done == o.done
    {
      hide ByteOf, Start, Quantity, Sealed, WithHighBit, Bytes, Answer, Refreshed;
      var addr, qty := Start(f), Quantity(f);
      if qty == 0 || qty > 125 || addr + qty > REGISTERS {
        SendErrorResponse(f, FC_READ_INPUT, ILLEGAL_DATA_ADDRESS);
        return false;
      }
      UpdateLiveInputs();
      RefreshedKeepsAddress(old(State()));
      var idx := FillInput(addr, qty);
      SendSealed(f, response, idx);
      return true;
    }

    method ProcessWriteSingle(f: FrameItem) returns (done: bool)
      requires Valid() && f.Valid()
      modifies this`sent, holding
      ensures
        var o := WriteSingle(old(State()), f);
        State() == o.slave && sent == old(sent) + o.sent && done == o.done
    {
      hide Start, Sealed, WithHighBit, Pair, Answer;
      if f.len < 8 {
        return false;
      }
      var addr, val := Start(f), Pair(f.data[4], f.data[5]);
      if addr >= REGISTERS {
        SendErrorResponse(f, FC_WRITE_SINGLE, ILLEGAL_DATA_ADDRESS);
        return false;
      }
      holding[addr] := val;
      SendEcho(f);
      return true;
    }

    method PutWords(f: FrameItem, addr: nat, qty: nat)
      requires Valid() && f.Valid() && 7 + 2 * qty <= FRAME_BYTES && addr + qty <= REGISTERS
      modifies holding
      ensures holding[..] == Written(old(holding[..]), addr, Words(f, qty))
    {
      hide Pair;
      for i := 0 to qty
        invariant holding[..addr] == old(holding[..addr])
        invariant holding[addr..addr + i] == Words(f, qty)[..i]
        invariant holding[addr + i..] == old(holding[addr + i..])
      {
        holding[addr + i] := Pair(f.data[7 + 2 * i], f.data[8 + 2 * i]);
      }
    }

    method ProcessWriteMultiple(f: FrameItem, env: Env) returns (done: bool)
      requires Valid() && f.Valid()
      modifies this`sent, this`address, holding, input, store
      ensures
        var o := WriteMultiple(old(State()), f, env);
        State() == o.slave && sent == old(sent) + o.sent && done == o.done
    {
      hide Start, Quantity, Sealed, WithHighBit, Words, Written, Answer, Commanded;
      if f.len < 9 {
        return false;
      }
      var addr, qty, byteCnt := Start(f), Quantity(f), f.data[6] as nat;
      ghost var before := State();
      if qty == 0 || qty > 123 || byteCnt != 2 * qty || addr + qty > REGISTERS || f.len < 9 + byteCnt {
        SendErrorResponse(f, FC_WRITE_MULTIPLE, ILLEGAL_DATA_ADDRESS);
        return false;
      }
      assert Writable(f);
      hide Writable;
      PutWords(f, addr, qty);
      SendEcho(f);
      assert State() == before.(holding := Written(before.holding, addr, Words(f, qty)));
      RunCommand(addr, qty, env);
      return true;
    }

    method RunCommand(start: nat, n: nat, env: Env)
      requires Valid() && n <= 123
      modifies this`address, holding, input, store
      ensures State() == Commanded(old(State()), start, n, env)
    {
      hide Plain, SyncedHolding, SyncedInput, Execute;
      if start <= COMMAND_CODE && start + n > COMMAND_CODE {
        var ack := Dispatch(holding[COMMAND_CODE].bits, holding[COMMAND_ARG1..], ArgumentCount(n), env);
        if ack {
          var e := errors.Current();
          SyncAll(holding, input, Source(store.Live(), env.build, env.words, e));
        }
        holding[COMMAND_CODE] := Plain(0);
      }
    }

    method Dispatch(command: bv16, a: Args, len: nat, env: Env) returns (ack: bool)
      requires Valid()
      modifies this`address, store
      ensures (State(), ack) == Execute(old(State()), command, a, len, env)
    {
      hide Rejected, Stored, NewBase, NewFlags, ValidId, LowOf;
      match command {
        case 0x7327 =>
          ack := SaveSensorSettings(store, a, len, env.fields);
        case 0x7372 =>
          ack, address := SaveBaseSettings(store, address, a, len);
        case 0x3607 =>
          ack := true;
        case 0x3482 =>
          ack := true;
        case _ =>
          ack := false;
      }
    }

    /** The CRC over all but the last two bytes against those two. */
    method CheckCrc(f: FrameItem) returns (ok: bool)
      requires f.Valid() && f.len >= 2
      ensures ok == Accepts(f.Payload())
    {
      hide Crc;
      var data := new bv8[f.len];
      forall i | 0 <= i < f.len {
        data[i] := f.data[i];
      }
      assert data[..f.len - 2] == f.Payload()[..f.len - 2];
      var crcRx := Crc16.Word(f.data[f.len - 2], f.data[f.len - 1]);
      var crc := ComputeCrc(data, f.len - 2);
      ok := crc == crcRx;
    }

    method FollowId()
      requires Valid()
      modifies this`address
      ensures State() == Following(old(State()))
    {
      hide LowOf;
      if 0 < store.device.id <= 247 {
        address := LowOf(RegisterMap.Word(store.device.id));
      }
    }

    /** The frame may be missing. */
    method ProcessFrame(target: Target, env: Env) returns (done: bool)
      requires Valid() && (target.Into? ==> target.frame.Valid())
      modifies this`sent, this`address, holding, input, response, store, errors
      ensures target.Null? ==> State() == old(State()) && sent == old(sent) && !done
      ensures target.Into? ==>
        var o := Processed(old(State()), target.frame, env);
        State() == o.slave && sent == old(sent) + o.sent && done == o.done
    {
      hide Dispatched, ErrorManager.After, Following, Accepts;
      if target.Null? || target.frame.len < 4 {
        return false;
      }
      var f := target.frame;
      var ok := CheckCrc(f);
      if !ok {
        errors.ReportCrcError();
        return false;
      }
      errors.ReportValidModbusFrame();
      FollowId();
      if f.data[0] != BROADCAST && f.data[0] != address {
        return false;
      }
      done := Answered(f, env);
    }

    method Answered(f: FrameItem, env: Env) returns (done: bool)
      requires Valid() && f.Valid()
      modifies this`sent, this`address, holding, input, response, store
      ensures
        var o := Dispatched(old(State()), f, env);
        State() == o.slave && sent == old(sent) + o.sent && done == o.done
    {
      hide ReadHolding, ReadInput, WriteSingle, WriteMultiple, Answer, WithHighBit;
      match f.data[1] {
        case 0x03 =>
          done := ProcessReadHolding(f, env);
        case 0x04 =>
          done := ProcessReadInput(f);
        case 0x06 =>
          done := ProcessWriteSingle(f);
        case 0x10 =>
          done := ProcessWriteMultiple(f, env);
        case _ =>
          SendErrorResponse(f, f.data[1], ILLEGAL_FUNCTION);
          done := false;
      }
    }

    method UpdateLiveInputs()
      requires Valid()
      modifies holding, input
      ensures State() == Refreshed(old(State()))
    {
      hide Plain, Diagnosed, TooHot;
      ghost var before := input[..];
      input[REG_HUMIDITY] := Plain(HUMIDITY);
      input[REG_SENSOR_STATUS] := if TooHot(holding[REG_TEMP_HIGH_ALARM]) then Plain(1) else Plain(0);
      var e := errors.Current();
      UpdateDiagnostics(holding, e);
      UpdateDiagnostics(input, e);
    }
  }

  lemma BytesOfNone()
    ensures Bytes([]) == []
  {}

  lemma BytesOfNext(words: seq<Word>, i: nat)
    requires i < |words|
    ensures Bytes(words[..i + 1]) == Bytes(words[..i]) + [HighOf(words[i]), LowOf(words[i])]
  {
    hide HighOf, LowOf;
  }
}
