/** The reflected CRC-16 (initial value 0xFFFF, polynomial 0xA001) that guards both the
    Modbus frames and the flash image, and which corruptions it detects. */
module Crc16 {
  import opened Bits

  const INITIAL: bv16 := 0xFFFF
  const POLYNOMIAL: bv16 := 0xA001

  // ----- The engine ------------------------------------------------------------------

  /** One round of the inner loop. */
  function Step(c: bv16): bv16 {
    if Lowest(c) then Xor(Half(c), POLYNOMIAL) else Half(c)
  }

  /** `n` rounds of the inner loop. */
  function Rounds(n: nat, c: bv16): bv16 {
    if n == 0 then c else Step(Rounds(n - 1, c))
  }

  /** One round of the outer loop: a byte is folded in, then eight inner rounds. */
  function ByteStep(c: bv16, b: bv8): bv16 {
    Rounds(8, Xor(c, b as bv16))
  }

  function Update(c: bv16, bytes: seq<bv8>): bv16
    decreases bytes
  {
    if bytes == [] then c else Update(ByteStep(c, bytes[0]), bytes[1..])
  }

  function Crc(bytes: seq<bv8>): bv16 {
    Update(INITIAL, bytes)
  }

  /** The nested loop of the firmware, over the first `len` bytes of a buffer. */
  method ComputeCrc(buffer: array<bv8>, len: nat) returns (crc: bv16)
    requires len <= buffer.Length
    ensures crc == Crc(buffer[..len])
  {
    crc := INITIAL;
    for i := 0 to len
      invariant crc == Crc(buffer[..i])
    {
      ghost var before := crc;
      crc := crc ^ (buffer[i] as bv16);
      for j := 0 to 8
        invariant crc == Rounds(j, Xor(before, buffer[i] as bv16))
      {
        if crc & 1 != 0 {
          crc := (crc >> 1) ^ POLYNOMIAL;
        } else {
          crc := crc >> 1;
        }
      }
      assert buffer[..i + 1] == buffer[..i] + [buffer[i]];
      UpdateAppend(INITIAL, buffer[..i], buffer[i]);
    }
  }

  lemma {:induction false} UpdateAppend(c: bv16, bytes: seq<bv8>, b: bv8)
    ensures Update(c, bytes + [b]) == ByteStep(Update(c, bytes), b)
    decreases bytes
  {
    if bytes == [] {
      assert (bytes + [b])[1..] == [];
    } else {
      assert (bytes + [b])[1..] == bytes[1..] + [b];
      UpdateAppend(ByteStep(c, bytes[0]), bytes[1..], b);
    }
  }

  lemma {:induction false} RoundsShift(n: nat, c: bv16)
    ensures Rounds(n, Step(c)) == Rounds(n + 1, c)
  {
    if n != 0 {
      RoundsShift(n - 1, c);
    }
  }

  // ----- Frames that carry their own CRC, low byte first -------------------------------

  function LowByte(w: bv16): bv8 {
    (w & 0xFF) as bv8
  }

  function HighByte(w: bv16): bv8 {
    (w >> 8) as bv8
  }

  function Word(lo: bv8, hi: bv8): bv16 {
    (lo as bv16) | ((hi as bv16) << 8)
  }

  lemma WordParts(w: bv16, lo: bv8, hi: bv8)
    ensures Word(LowByte(w), HighByte(w)) == w
    ensures LowByte(Word(lo, hi)) == lo && HighByte(Word(lo, hi)) == hi
  {}

  /** A message followed by its CRC. */
  function Sealed(message: seq<bv8>): seq<bv8> {
    message + [LowByte(Crc(message)), HighByte(Crc(message))]
  }

  /** The test a receiver makes: recompute the CRC and compare it with the last two bytes. */
  predicate Accepts(frame: seq<bv8>) {
    var n := |frame|;
    n >= 2 && Crc(frame[..n - 2]) == Word(frame[n - 2], frame[n - 1])
  }

  // ----- The bit-serial view -----------------------------------------------------------

  function Feed(c: bv16, bit: bool): bv16 {
    if bit then Step(Xor(c, 1)) else Step(c)
  }

  /** The same register clocked one message bit at a time, least significant bit first. */
  function Run(c: bv16, bits: seq<bool>): bv16
    decreases bits
  {
    if bits == [] then c else Run(Feed(c, bits[0]), bits[1..])
  }

  lemma {:induction false} RunConcat(c: bv16, a: seq<bool>, b: seq<bool>)
    ensures Run(c, a + b) == Run(Run(c, a), b)
    decreases a
  {
    if a == [] {
      assert a + b == b;
    } else {
      assert (a + b)[1..] == a[1..] + b;
      RunConcat(Feed(c, a[0]), a[1..], b);
    }
  }

  /** The bits above the lowest one merely shift along while that one is clocked in. */
  lemma Shed(c: bv16, bit: bool, rest: bv16)
    requires rest & 0x8000 == 0
    ensures Step(Xor(c, Joined(bit, rest))) == Xor(Feed(c, bit), rest)
  {
    HalfJoined(bit, rest);
    assert Lowest(1) && Half(1) == 0;
    hide Xor, Half, Lowest, Joined;
    HalfXor(c, Joined(bit, rest));
    HalfXor(c, 1);
    XorZero(Half(c));
    XorFlips(Half(c), rest, POLYNOMIAL);
  }

  /** Up to sixteen message bits may be folded in at once, before any round is made. */
  lemma {:induction false} RunIsRounds(c: bv16, bits: seq<bool>)
    requires |bits| <= 16
    ensures Run(c, bits) == Rounds(|bits|, Xor(c, WordOf(bits)))
    decreases bits
  {
    hide Xor, Joined, Step, Feed;
    if bits == [] {
      XorZero(c);
    } else {
      WordOfShort(bits[1..]);
      Shed(c, bits[0], WordOf(bits[1..]));
      RunIsRounds(Feed(c, bits[0]), bits[1..]);
      RoundsShift(|bits| - 1, Xor(c, WordOf(bits)));
    }
  }

  /** Byte-wise and bit-serial processing agree on every message. */
  lemma {:induction false} UpdateIsRun(c: bv16, bytes: seq<bv8>)
    ensures Update(c, bytes) == Run(c, BitsOf(bytes))
    decreases bytes
  {
    if bytes != [] {
      var first := BitsOfWord(bytes[0] as bv16, 8);
      WordOfByte(bytes[0]);
      RunIsRounds(c, first);
      RunConcat(c, first, BitsOf(bytes[1..]));
      UpdateIsRun(ByteStep(c, bytes[0]), bytes[1..]);
    }
  }

  // ----- Algebra of the register ---------------------------------------------------------

  lemma StepLinear(a: bv16, b: bv16)
    ensures Step(Xor(a, b)) == Xor(Step(a), Step(b))
  {
    hide Xor, Half, Lowest;
    HalfXor(a, b);
    XorFlips(Half(a), Half(b), POLYNOMIAL);
  }

  lemma FeedLinear(a: bv16, b: bv16, x: bool, y: bool)
    ensures Feed(Xor(a, b), x != y) == Xor(Feed(a, x), Feed(b, y))
  {
    hide Xor, Step;
    XorFlips(a, b, 1);
    StepLinear(if x then Xor(a, 1) else a, if y then Xor(b, 1) else b);
  }

  /** Two runs differ by the run, from the difference of the registers, over the difference of the
      messages. */
  lemma {:induction false} RunLinear(a: bv16, b: bv16, x: seq<bool>, y: seq<bool>)
    requires |x| == |y|
    ensures Run(Xor(a, b), Difference(x, y)) == Xor(Run(a, x), Run(b, y))
    decreases x
  {
    hide Xor, Feed;
    if x != [] {
      FeedLinear(a, b, x[0], y[0]);
      RunLinear(Feed(a, x[0]), Feed(b, y[0]), x[1..], y[1..]);
      assert Difference(x, y)[1..] == Difference(x[1..], y[1..]);
    }
  }

  lemma StepKernel(c: bv16)
    ensures Step(c) == 0 <==> c == 0
  {}

  lemma {:induction false} RoundsKernel(n: nat, c: bv16)
    ensures Rounds(n, c) == 0 <==> c == 0
  {
    if n != 0 {
      RoundsKernel(n - 1, c);
      StepKernel(Rounds(n - 1, c));
    }
  }

  lemma {:induction false} RunZeros(c: bv16, bits: seq<bool>)
    requires AllFalse(bits)
    ensures Run(c, bits) == Rounds(|bits|, c)
    decreases bits
  {
    if bits != [] {
      RunZeros(Step(c), bits[1..]);
      RoundsShift(|bits| - 1, c);
    }
  }

  /** At most 16 bits clear the register only if they are exactly what it held. */
  lemma ZeroRun(c: bv16, bits: seq<bool>)
    requires |bits| <= 16
    ensures Run(c, bits) == 0 <==> c == WordOf(bits)
  {
    hide *;
    RunIsRounds(c, bits);
    RoundsKernel(|bits|, Xor(c, WordOf(bits)));
    XorEqual(c, WordOf(bits));
  }

  // ----- Residue -------------------------------------------------------------------------

  /** The comparison with the stored CRC is the same test as "the CRC of the whole frame is zero". */
  lemma Residue(frame: seq<bv8>)
    requires |frame| >= 2
    ensures Accepts(frame) <==> Crc(frame) == 0
  {
    hide ByteStep, Word;
    var n := |frame|;
    var lo, hi := frame[n - 2], frame[n - 1];
    assert frame == frame[..n - 1] + [hi];
    assert frame[..n - 1] == frame[..n - 2] + [lo];
    UpdateAppend(INITIAL, frame[..n - 1], hi);
    UpdateAppend(INITIAL, frame[..n - 2], lo);
    TwoByteSteps(Crc(frame[..n - 2]), lo, hi);
  }

  lemma TwoByteSteps(c: bv16, lo: bv8, hi: bv8)
    ensures ByteStep(ByteStep(c, lo), hi) == 0 <==> c == Word(lo, hi)
  {
    hide Step, Rounds, Run, Xor, Word, BitsOfWord, WordOf;
    var low, high := BitsOfWord(lo as bv16, 8), BitsOfWord(hi as bv16, 8);
    WordOfByte(lo);
    RunIsRounds(c, low);
    WordOfByte(hi);
    RunIsRounds(ByteStep(c, lo), high);
    RunConcat(c, low, high);
    ZeroRun(c, low + high);
    WordOfTwoBytes(lo, hi);
    WordDefinition(lo, hi);
  }

  lemma WordDefinition(lo: bv8, hi: bv8)
    ensures Word(lo, hi) == (lo as bv16) | ((hi as bv16) << 8)
  {}

  lemma SealedIsAccepted(message: seq<bv8>)
    ensures Accepts(Sealed(message))
    ensures Crc(Sealed(message)) == 0
  {
    var frame := Sealed(message);
    assert frame[..|frame| - 2] == message;
    WordParts(Crc(message), 0, 0);
    Residue(frame);
  }

  /** `Sealed` is the only way to complete a message into an accepted frame. */
  lemma AcceptedIsSealed(frame: seq<bv8>)
    requires Accepts(frame)
    ensures frame == Sealed(frame[..|frame| - 2])
  {
    var n := |frame|;
    WordParts(0, frame[n - 2], frame[n - 1]);
  }

  // ----- What a corrupted frame looks like ---------------------------------------------------

  /** An accepted frame stays accepted after a change exactly when the pattern of flipped bits
      alone drives the register from zero back to zero. */
  lemma AcceptsAfterChange(sent: seq<bv8>, received: seq<bv8>)
    requires Accepts(sent) && |received| == |sent|
    ensures Accepts(received) <==> Run(0, Flipped(sent, received)) == 0
  {
    Residue(sent);
    Residue(received);
    UpdateIsRun(INITIAL, sent);
    UpdateIsRun(INITIAL, received);
    RunLinear(INITIAL, INITIAL, BitsOf(sent), BitsOf(received));
    XorZero(INITIAL);
    XorZero(Crc(received));
  }

  /** Burst detection: every change confined to 16 consecutive bits is rejected. */
  lemma BurstDetected(sent: seq<bv8>, received: seq<bv8>, start: nat)
    requires Accepts(sent) && |received| == |sent| && received != sent
    requires forall i :: 0 <= i < 8 * |sent| && Flipped(sent, received)[i] ==> start <= i < start + 16
    ensures !Accepts(received)
  {
    var flips := Flipped(sent, received);
    FlippedNonzero(sent, received);
    var hit :| 0 <= hit < |flips| && flips[hit];
    var end := if start + 16 <= |flips| then start + 16 else |flips|;
    BurstRun(flips, start, end, hit);
    AcceptsAfterChange(sent, received);
  }

  lemma BurstRun(flips: seq<bool>, start: nat, end: nat, hit: nat)
    requires start <= hit < end <= |flips| && end <= start + 16 && flips[hit]
    requires forall i :: 0 <= i < |flips| && flips[i] ==> start <= i < end
    ensures Run(0, flips) != 0
  {
    var head, burst, tail := flips[..start], flips[start..end], flips[end..];
    assert flips == head + (burst + tail);
    RunConcat(0, head, burst + tail);
    RunZeros(0, head);
    RoundsKernel(|head|, 0);
    RunConcat(0, burst, tail);
    ZeroRun(0, burst);
    WordOfNonzero(burst, hit - start);
    RunZeros(Run(0, burst), tail);
    RoundsKernel(|tail|, Run(0, burst));
  }

  // ----- Parity ---------------------------------------------------------------------------

  lemma StepKeepsParity(c: bv16)
    ensures OddWord(Step(c)) == OddWord(c)
  {
    hide Xor, Half, Lowest, OddBits;
    OddWordShift(c);
    OddWordValues();
    OddBitsXor(Half(c), POLYNOMIAL, 16);
  }

  lemma FeedParity(c: bv16, bit: bool)
    ensures OddWord(Feed(c, bit)) == (OddWord(c) != bit)
  {
    hide Xor, Step, OddBits;
    OddWordValues();
    OddBitsXor(c, 1, 16);
    StepKeepsParity(if bit then Xor(c, 1) else c);
  }

  /** Every bit clocked in adds its own parity to the register's, and nothing else changes it. */
  lemma {:induction false} RunParity(c: bv16, bits: seq<bool>)
    ensures OddWord(Run(c, bits)) == (OddWord(c) != (Ones(bits) % 2 == 1))
    decreases bits
  {
    hide OddWord, Feed;
    if bits != [] {
      FeedParity(c, bits[0]);
      RunParity(Feed(c, bits[0]), bits[1..]);
    }
  }

  /** Every accepted frame has an even number of one bits. */
  lemma AcceptedIsEven(frame: seq<bv8>)
    requires Accepts(frame)
    ensures Ones(BitsOf(frame)) % 2 == 0
  {
    Residue(frame);
    UpdateIsRun(INITIAL, frame);
    RunParity(INITIAL, BitsOf(frame));
    OddWordValues();
  }

  /** An odd number of flipped bits, wherever they are, is rejected. */
  lemma OddFlipsDetected(sent: seq<bv8>, received: seq<bv8>)
    requires Accepts(sent) && |received| == |sent|
    requires Ones(Flipped(sent, received)) % 2 == 1
    ensures !Accepts(received)
  {
    AcceptsAfterChange(sent, received);
    RunParity(0, Flipped(sent, received));
    OddWordValues();
  }

  // ----- In plain numbers --------------------------------------------------------------------------------

  lemma {:induction false} ZeroBits(bytes: seq<bv8>)
    requires forall i :: 0 <= i < |bytes| ==> bytes[i] == 0
    ensures AllFalse(BitsOf(bytes))
  {
    if bytes != [] {
      ZeroByte();
      hide BitsOfWord;
      ZeroBits(bytes[1..]);
    }
  }

  lemma ZeroByte()
    ensures AllFalse(BitsOfWord(0, 8))
  {
    ZeroWord(8);
  }

  lemma {:induction false} ZeroWord(n: nat)
    ensures AllFalse(BitsOfWord(0, n))
  {
    if n != 0 {
      assert !Lowest(0) && Half(0) == 0;
      hide Lowest, Half;
      ZeroWord(n - 1);
    }
  }

  /** A line stuck at zero never looks like a frame. */
  lemma ZerosFail(frame: seq<bv8>)
    requires |frame| >= 2 && forall i :: 0 <= i < |frame| ==> frame[i] == 0
    ensures !Accepts(frame)
  {
    hide Accepts, Rounds, Update, Run, BitsOf;
    Residue(frame);
    UpdateIsRun(0xFFFF, frame);
    ZeroBits(frame);
    RunZeros(0xFFFF, BitsOf(frame));
    RoundsKernel(|BitsOf(frame)|, 0xFFFF);
  }

  lemma StepByRounds(c: bv16, b: bv8, mixed: bv16, next: bv16)
    requires Xor(c, b as bv16) == mixed && Rounds(8, mixed) == next
    ensures ByteStep(c, b) == next
  {}

  lemma FirstDigits()
    ensures ByteStep(0xFFFF, 0x31) == 0x947E
    ensures ByteStep(0x947E, 0x32) == 0xF595
    ensures ByteStep(0xF595, 0x33) == 0x7A75
  {
    StepByRounds(0xFFFF, 0x31, 0xFFCE, 0x947E);
    StepByRounds(0x947E, 0x32, 0x944C, 0xF595);
    StepByRounds(0xF595, 0x33, 0xF5A6, 0x7A75);
  }

  lemma MiddleDigits()
    ensures ByteStep(0x7A75, 0x34) == 0x30BA
    ensures ByteStep(0x30BA, 0x35) == 0xA471
    ensures ByteStep(0xA471, 0x36) == 0x32E4
  {
    StepByRounds(0x7A75, 0x34, 0x7A41, 0x30BA);
    StepByRounds(0x30BA, 0x35, 0x308F, 0xA471);
    StepByRounds(0xA471, 0x36, 0xA447, 0x32E4);
  }

  lemma LastDigits()
    ensures ByteStep(0x32E4, 0x37) == 0x9D73
    ensures ByteStep(0x9D73, 0x38) == 0x37DD
    ensures ByteStep(0x37DD, 0x39) == 0x4B37
  {
    StepByRounds(0x32E4, 0x37, 0x32D3, 0x9D73);
    StepByRounds(0x9D73, 0x38, 0x9D4B, 0x37DD);
    StepByRounds(0x37DD, 0x39, 0x37E4, 0x4B37);
  }

  /** The check value of this CRC: that of the digits 1 to 9. */
  lemma CheckValue()
    ensures Crc([0x31, 0x32, 0x33, 0x34, 0x35, 0x36, 0x37, 0x38, 0x39]) == 0x4B37
  {
    hide ByteStep;
    FirstDigits();
    MiddleDigits();
    LastDigits();
    var first, middle, last := [0x31, 0x32, 0x33], [0x34, 0x35, 0x36], [0x37, 0x38, 0x39];
    ThreeSteps(0xFFFF, 0x31, 0x32, 0x33);
    ThreeSteps(0x7A75, 0x34, 0x35, 0x36);
    ThreeSteps(0x32E4, 0x37, 0x38, 0x39);
    hide Update;
    UpdateConcat(0xFFFF, first, middle);
    UpdateConcat(0xFFFF, first + middle, last);
    assert (first + middle) + last == [0x31, 0x32, 0x33, 0x34, 0x35, 0x36, 0x37, 0x38, 0x39];
  }

  lemma ThreeSteps(c: bv16, x: bv8, y: bv8, z: bv8)
    ensures Update(c, [x, y, z]) == ByteStep(ByteStep(ByteStep(c, x), y), z)
  {
    hide ByteStep;
    assert [x, y, z][1..] == [y, z] && [y, z][1..] == [z] && [z][1..] == [];
    assert Update(ByteStep(ByteStep(c, x), y), [z]) == ByteStep(ByteStep(ByteStep(c, x), y), z);
    assert Update(ByteStep(c, x), [y, z]) == Update(ByteStep(ByteStep(c, x), y), [z]);
  }

  lemma {:induction false} UpdateConcat(c: bv16, a: seq<bv8>, b: seq<bv8>)
    ensures Update(c, a + b) == Update(Update(c, a), b)
    decreases a
  {
    hide ByteStep;
    if a == [] {
      assert a + b == b;
    } else {
      assert (a + b)[1..] == a[1..] + b;
      UpdateConcat(ByteStep(c, a[0]), a[1..], b);
    }
  }

  lemma RequestHead()
    ensures ByteStep(0xFFFF, 0x01) == 0x807E
    ensures ByteStep(0x807E, 0x03) == 0x2140
    ensures ByteStep(0x2140, 0x00) == 0xF020
  {
    StepByRounds(0xFFFF, 0x01, 0xFFFE, 0x807E);
    StepByRounds(0x807E, 0x03, 0x807D, 0x2140);
    StepByRounds(0x2140, 0x00, 0x2140, 0xF020);
  }

  lemma RequestTail()
    ensures ByteStep(0xF020, 0x00) == 0xD8F1
    ensures ByteStep(0xD8F1, 0x00) == 0x8419
    ensures ByteStep(0x8419, 0x0A) == 0xCDC5
  {
    StepByRounds(0xF020, 0x00, 0xF020, 0xD8F1);
    StepByRounds(0xD8F1, 0x00, 0xD8F1, 0x8419);
    StepByRounds(0x8419, 0x0A, 0x8413, 0xCDC5);
  }

  /** A read request as it stands on the line: slave 1, ten holding registers from 0. The CRC's low byte comes
      first. */
  lemma RequestPasses()
    ensures Accepts([0x01, 0x03, 0x00, 0x00, 0x00, 0x0A, 0xC5, 0xCD])
    ensures !Accepts([0x01, 0x03, 0x00, 0x00, 0x00, 0x0A, 0xCD, 0xC5])
  {
    var head, tail, message := [0x01, 0x03, 0x00], [0x00, 0x00, 0x0A], [0x01, 0x03, 0x00, 0x00, 0x00, 0x0A];
    assert Word(0xC5, 0xCD) == 0xCDC5 && Word(0xCD, 0xC5) == 0xC5CD;
    hide ByteStep, Word;
    RequestHead();
    RequestTail();
    ThreeSteps(0xFFFF, 0x01, 0x03, 0x00);
    ThreeSteps(0xF020, 0x00, 0x00, 0x0A);
    hide Update;
    UpdateConcat(0xFFFF, head, tail);
    assert head + tail == message;
    assert [0x01, 0x03, 0x00, 0x00, 0x00, 0x0A, 0xC5, 0xCD][..6] == message;
    assert [0x01, 0x03, 0x00, 0x00, 0x00, 0x0A, 0xCD, 0xC5][..6] == message;
  }
}
