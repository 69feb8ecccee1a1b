/** The SHT3x driver: reading a measurement and converting the raw words. */
module Sht3x {
  import opened Bits
  import opened Crc8
  import Crc8Distance

  datatype I2cStatus = Ok | Timeout | Nack | BusError | InvalidArgument

  /** What one I2C read transaction delivers. */
  datatype BusRead = BusRead(status: I2cStatus, frame: seq<bv8>)

  /** The driver reads six bytes: two words, each followed by its CRC. */
  predicate WellFormed(bus: BusRead) {
    |bus.frame| == 6
  }

  predicate WordsPass(frame: seq<bv8>)
    requires |frame| == 6
  {
    Accepts(frame[..3]) && Accepts(frame[3..])
  }

  function BigEndian(hi: bv8, lo: bv8): bv16 {
    ((hi as bv16) << 8) | (lo as bv16)
  }

  /** The high byte comes first. */
  lemma BigEndianInNumbers(hi: bv8, lo: bv8)
    ensures BigEndian(hi, lo) == 256 * (hi as bv16) + (lo as bv16)
  {}

  /** The third byte covers the first two, the sixth the fourth and fifth. */
  lemma WordsPassByBytes(frame: seq<bv8>)
    requires |frame| == 6
    ensures WordsPass(frame) <==> Crc([frame[0], frame[1]]) == frame[2] && Crc([frame[3], frame[4]]) == frame[5]
  {
    hide Crc;
    assert frame[..3][..2] == [frame[0], frame[1]] && frame[3..][..2] == [frame[3], frame[4]];
  }

  /** `rawTemperature` and `rawHumidity` are reference parameters: the old values come in, and they
      come out unchanged unless the whole measurement is good. */
  method ReadMeasurement(bus: BusRead, temperature: bv16, humidity: bv16)
    returns (status: I2cStatus, rawTemperature: bv16, rawHumidity: bv16)
    requires WellFormed(bus)
    ensures status == Ok <==> bus.status == Ok && WordsPass(bus.frame)
    ensures status != Ok ==> rawTemperature == temperature && rawHumidity == humidity
    ensures status != Ok ==> status == if bus.status == Ok then BusError else bus.status
    ensures status == Ok ==> rawTemperature == BigEndian(bus.frame[0], bus.frame[1])
    ensures status == Ok ==> rawHumidity == BigEndian(bus.frame[3], bus.frame[4])
  {
    rawTemperature, rawHumidity := temperature, humidity;
    status := bus.status;
    if status != Ok {
      return;
    }
    var frame := new bv8[6](i requires 0 <= i < 6 => bus.frame[i]);
    assert frame[..] == bus.frame;
    var first := ComputeCrc(frame, 0, 2);
    var second := ComputeCrc(frame, 3, 2);
    assert frame[0..2] == bus.frame[..3][..2] && frame[3..5] == bus.frame[3..][..2];
    if first != frame[2] || second != frame[5] {
      status := BusError;
      return;
    }
    rawTemperature := ((frame[0] as bv16) << 8) | (frame[1] as bv16);
    rawHumidity := ((frame[3] as bv16) << 8) | (frame[4] as bv16);
  }

  /** Six good bytes damaged by an odd number of flips or by one to three flips in either word group, or by a
      burst of at most 8 bits anywhere in the 48, are never taken for a measurement. */
  lemma DamagedFrameFails(sent: seq<bv8>, received: seq<bv8>, start: nat)
    requires |sent| == |received| == 6 && WordsPass(sent) && sent != received
    requires
      || Ones(FlippedMsbFirst(sent[..3], received[..3])) % 2 == 1
      || Ones(FlippedMsbFirst(sent[3..], received[3..])) % 2 == 1
      || (sent[..3] != received[..3] && Ones(FlippedMsbFirst(sent[..3], received[..3])) <= 3)
      || (sent[3..] != received[3..] && Ones(FlippedMsbFirst(sent[3..], received[3..])) <= 3)
      || (var flips := FlippedMsbFirst(sent, received);
          forall i :: 0 <= i < 48 && flips[i] ==> start <= i < start + 8)
    ensures !WordsPass(received)
  {
    hide Accepts, Ones, FlippedMsbFirst;
    var first, second := FlippedMsbFirst(sent[..3], received[..3]), FlippedMsbFirst(sent[3..], received[3..]);
    assert sent == sent[..3] + sent[3..] && received == received[..3] + received[3..];
    FlippedConcat(sent[..3], sent[3..], received[..3], received[3..]);
    var flips := first + second;
    if Ones(first) % 2 == 1 {
      OddFlipsDetected(sent[..3], received[..3]);
    } else if Ones(second) % 2 == 1 {
      OddFlipsDetected(sent[3..], received[3..]);
    } else if sent[..3] != received[..3] && Ones(first) <= 3 {
      Crc8Distance.FewFlipsDetected(sent[..3], received[..3]);
    } else if sent[3..] != received[3..] && Ones(second) <= 3 {
      Crc8Distance.FewFlipsDetected(sent[3..], received[3..]);
    } else if sent[..3] != received[..3] {
      assert forall i :: 0 <= i < 24 ==> first[i] == flips[i];
      BurstDetected(sent[..3], received[..3], start);
    } else {
      assert forall i :: 0 <= i < 24 ==> second[i] == flips[24 + i];
      BurstDetected(sent[3..], received[3..], if start < 24 then 0 else start - 24);
    }
  }

  // ----- Conversions -----------------------------------------------------------------------

  const INT32_MAX := 0x7FFF_FFFF
  const UINT32_MAX := 0xFFFF_FFFF

  /** Hundredths of a degree; the dividend is never negative, so C's division is the floor. */
  function TemperatureX100(raw: nat): int
    requires raw <= 65535
  {
    17500 * raw / 65535 - 4500
  }

  /** Hundredths of a percent of relative humidity. */
  function HumidityX100(raw: nat): int
    requires raw <= 65535
  {
    10000 * raw / 65535
  }

  /** Less than one unit below the exact value, end points exact, and no 32-bit overflow on the way. */
  lemma TemperatureAccuracy(raw: nat)
    requires raw <= 65535
    ensures 17500 * raw <= INT32_MAX
    ensures var exact := 17500.0 * raw as real / 65535.0 - 4500.0;
      TemperatureX100(raw) as real <= exact < TemperatureX100(raw) as real + 1.0
    ensures -4500 <= TemperatureX100(raw) <= 13000
    ensures TemperatureX100(0) == -4500 && TemperatureX100(65535) == 13000
  {
    FloorBounds(17500 * raw);
  }

  lemma HumidityAccuracy(raw: nat)
    requires raw <= 65535
    ensures 10000 * raw <= UINT32_MAX
    ensures var exact := 10000.0 * raw as real / 65535.0;
      HumidityX100(raw) as real <= exact < HumidityX100(raw) as real + 1.0
    ensures 0 <= HumidityX100(raw) <= 10000
    ensures HumidityX100(0) == 0 && HumidityX100(65535) == 10000
  {
    FloorBounds(10000 * raw);
  }

  lemma FloorBounds(n: nat)
    ensures var q := n / 65535; q as real <= n as real / 65535.0 < q as real + 1.0
  {
    var q, r := n / 65535, n % 65535;
    assert n as real == 65535.0 * q as real + r as real;
  }

  lemma ConversionsMonotone(a: nat, b: nat)
    requires a <= b <= 65535
    ensures TemperatureX100(a) <= TemperatureX100(b)
    ensures HumidityX100(a) <= HumidityX100(b)
    ensures b >= a + 7 ==> HumidityX100(a) < HumidityX100(b)
    ensures b >= a + 4 ==> TemperatureX100(a) < TemperatureX100(b)
  {}
}
