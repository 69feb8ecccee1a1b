/** The CRC-8 of the SHT3x sensor words (initial value 0xFF, polynomial 0x31, most significant bit
    first), and which corruptions it detects. */
module Crc8 {
  import opened Bits

  const INITIAL: bv8 := 0xFF
  const POLYNOMIAL: bv8 := 0x31

  // ----- Byte operations and the laws the proofs use --------------------------------------

  function Xor8(a: bv8, b: bv8): bv8 { a ^ b }

  function Twice(w: bv8): bv8 { w << 1 }

  predicate Highest(w: bv8) { w & 0x80 != 0 }

  function Led(highest: bool, rest: bv8): bv8 { (if highest then 0x80 else 0) | (rest >> 1) }

  lemma Xor8Assoc(a: bv8, b: bv8, c: bv8)
    ensures Xor8(Xor8(a, b), c) == Xor8(a, Xor8(b, c))
  {}

  lemma Xor8Comm(a: bv8, b: bv8)
    ensures Xor8(a, b) == Xor8(b, a)
  {}

  lemma Xor8Zero(a: bv8)
    ensures Xor8(a, 0) == a && Xor8(0, a) == a && Xor8(a, a) == 0
  {}

  lemma Xor8Equal(a: bv8, b: bv8)
    ensures Xor8(a, b) == 0 <==> a == b
  {}

  lemma Xor8Flips(a: bv8, b: bv8, t: bv8)
    ensures Xor8(Xor8(a, t), b) == Xor8(Xor8(a, b), t)
    ensures Xor8(a, Xor8(b, t)) == Xor8(Xor8(a, b), t)
    ensures Xor8(Xor8(a, t), Xor8(b, t)) == Xor8(a, b)
  {
    hide *;
    Xor8Assoc(a, t, b);
    Xor8Comm(t, b);
    Xor8Assoc(a, b, t);
    Xor8Assoc(a, t, Xor8(b, t));
    Xor8Assoc(t, b, t);
    Xor8Assoc(b, t, t);
    Xor8Zero(t);
    Xor8Zero(b);
  }

  lemma TwiceXor8(a: bv8, b: bv8)
    ensures Twice(Xor8(a, b)) == Xor8(Twice(a), Twice(b))
    ensures Highest(Xor8(a, b)) == (Highest(a) != Highest(b))
  {}

  lemma TwiceLed(highest: bool, rest: bv8)
    requires rest & 1 == 0
    ensures Twice(Led(highest, rest)) == rest && Highest(Led(highest, rest)) == highest
  {}

  // ----- The engine ---------------------------------------------------------------------

  function Step(c: bv8): bv8 {
    if Highest(c) then Xor8(Twice(c), POLYNOMIAL) else Twice(c)
  }

  function Rounds(n: nat, c: bv8): bv8 {
    if n == 0 then c else Step(Rounds(n - 1, c))
  }

  function ByteStep(c: bv8, b: bv8): bv8 {
    Rounds(8, Xor8(c, b))
  }

  function Update(c: bv8, bytes: seq<bv8>): bv8
    decreases bytes
  {
    if bytes == [] then c else Update(ByteStep(c, bytes[0]), bytes[1..])
  }

  function Crc(bytes: seq<bv8>): bv8 {
    Update(INITIAL, bytes)
  }

  /** The sensor driver's nested loop over `len` bytes from `start`. */
  method ComputeCrc(data: array<bv8>, start: nat, len: nat) returns (crc: bv8)
    requires start + len <= data.Length
    ensures crc == Crc(data[start..start + len])
  {
    crc := INITIAL;
    for i := 0 to len
      invariant crc == Crc(data[start..start + i])
    {
      ghost var before := crc;
      crc := crc ^ data[start + i];
      for bit := 0 to 8
        invariant crc == Rounds(bit, Xor8(before, data[start + i]))
      {
        if crc & 0x80 != 0 {
          crc := (crc << 1) ^ POLYNOMIAL;
        } else {
          crc := crc << 1;
        }
      }
      assert data[start..start + i + 1] == data[start..start + i] + [data[start + i]];
      UpdateAppend(INITIAL, data[start..start + i], data[start + i]);
    }
  }

  lemma {:induction false} UpdateAppend(c: bv8, bytes: seq<bv8>, b: bv8)
    ensures Update(c, bytes + [b]) == ByteStep(Update(c, bytes), b)
    decreases bytes
  {
    if bytes == [] {
      assert (bytes + [b])[1..] == [];
    } else {
      assert (bytes + [b])[1..] == bytes[1..] + [b];
      UpdateAppend(ByteStep(c, bytes[0]), bytes[1..], b);
    }
  }

  lemma {:induction false} RoundsShift(n: nat, c: bv8)
    ensures Rounds(n, Step(c)) == Rounds(n + 1, c)
  {
    if n != 0 {
      RoundsShift(n - 1, c);
    }
  }

  // ----- Bit sequences, most significant bit first ----------------------------------------

  /** The highest `n` bits of a byte, highest first. */
  function BitsOfByte(w: bv8, n: nat): (bits: seq<bool>)
    ensures |bits| == n
    decreases n
  {
    if n == 0 then [] else [Highest(w)] + BitsOfByte(Twice(w), n - 1)
  }

  function BitsMsbFirst(bytes: seq<bv8>): (bits: seq<bool>)
    ensures |bits| == 8 * |bytes|
  {
    if bytes == [] then [] else BitsOfByte(bytes[0], 8) + BitsMsbFirst(bytes[1..])
  }

  function FlippedMsbFirst(a: seq<bv8>, b: seq<bv8>): (d: seq<bool>)
    requires |a| == |b|
    ensures |d| == 8 * |a|
  {
    Difference(BitsMsbFirst(a), BitsMsbFirst(b))
  }

  lemma {:induction false} BitsMsbFirstConcat(a: seq<bv8>, b: seq<bv8>)
    ensures BitsMsbFirst(a + b) == BitsMsbFirst(a) + BitsMsbFirst(b)
  {
    hide BitsOfByte;
    if a == [] {
      assert a + b == b;
    } else {
      assert (a + b)[1..] == a[1..] + b;
      BitsMsbFirstConcat(a[1..], b);
    }
  }

  /** The flips of two pieces laid end to end. */
  lemma FlippedConcat(a: seq<bv8>, b: seq<bv8>, c: seq<bv8>, d: seq<bv8>)
    requires |a| == |c| && |b| == |d|
    ensures FlippedMsbFirst(a + b, c + d) == FlippedMsbFirst(a, c) + FlippedMsbFirst(b, d)
  {
    hide BitsMsbFirst;
    BitsMsbFirstConcat(a, b);
    BitsMsbFirstConcat(c, d);
  }

  function ByteOf(bits: seq<bool>): bv8 {
    if bits == [] then 0 else Led(bits[0], ByteOf(bits[1..]))
  }

  function TopMask(n: nat): bv8 {
    if n == 0 then 0 else Led(true, TopMask(n - 1))
  }

  lemma TopMaskValues()
    ensures TopMask(7) == 0xFE && TopMask(8) == 0xFF
  {
    assert TopMask(2) == 0xC0;
    assert TopMask(4) == 0xF0;
    assert TopMask(6) == 0xFC;
  }

  lemma {:induction false} TopMaskGrows(m: nat, n: nat)
    requires m <= n
    ensures TopMask(m) & !TopMask(n) == 0
  {
    if m != 0 {
      TopMaskGrows(m - 1, n - 1);
    }
  }

  lemma {:induction false} ByteOfMasked(bits: seq<bool>)
    ensures ByteOf(bits) & !TopMask(|bits|) == 0
  {
    if bits != [] {
      ByteOfMasked(bits[1..]);
    }
  }

  lemma ByteOfShort(bits: seq<bool>)
    requires |bits| <= 7
    ensures ByteOf(bits) & 1 == 0
  {
    ByteOfMasked(bits);
    TopMaskGrows(|bits|, 7);
    TopMaskValues();
  }

  lemma LedMask(w: bv8, m: bv8)
    ensures Led(Highest(w), Twice(w) & m) == w & Led(true, m)
  {}

  lemma {:induction false} ByteOfBits(w: bv8, n: nat)
    ensures ByteOf(BitsOfByte(w, n)) == w & TopMask(n)
    decreases n
  {
    hide Highest, Twice, Led;
    if n != 0 {
      ByteOfBits(Twice(w), n - 1);
      LedMask(w, TopMask(n - 1));
    }
  }

  lemma ByteOfByte(b: bv8)
    ensures ByteOf(BitsOfByte(b, 8)) == b
  {
    ByteOfBits(b, 8);
    TopMaskValues();
  }

  lemma {:induction false} ByteOfNonzero(bits: seq<bool>, k: nat)
    requires |bits| <= 8 && k < |bits| && bits[k]
    ensures ByteOf(bits) != 0
  {
    if k != 0 {
      ByteOfNonzero(bits[1..], k - 1);
      ByteOfShort(bits[1..]);
    }
  }

  lemma DifferentBytes(a: bv8, b: bv8) returns (i: nat)
    requires a != b
    ensures i < 8 && BitsOfByte(a, 8)[i] != BitsOfByte(b, 8)[i]
  {
    hide *;
    var x, y := BitsOfByte(a, 8), BitsOfByte(b, 8);
    if k: nat :| k < 8 && x[k] != y[k] {
      i := k;
    } else {
      assert x == y;
      ByteOfByte(a);
      ByteOfByte(b);
      assert false;
    }
  }

  lemma {:induction false} FlippedNonzero(a: seq<bv8>, b: seq<bv8>) returns (i: nat)
    requires |a| == |b| && a != b
    ensures i < |FlippedMsbFirst(a, b)| && FlippedMsbFirst(a, b)[i]
    decreases a
  {
    hide BitsOfByte;
    if a[0] != b[0] {
      i := DifferentBytes(a[0], b[0]);
    } else {
      i := FlippedNonzero(a[1..], b[1..]);
      i := i + 8;
    }
  }

  // ----- The bit-serial view ----------------------------------------------------------------

  function Feed(c: bv8, bit: bool): bv8 {
    if bit then Step(Xor8(c, 0x80)) else Step(c)
  }

  function Run(c: bv8, bits: seq<bool>): bv8
    decreases bits
  {
    if bits == [] then c else Run(Feed(c, bits[0]), bits[1..])
  }

  lemma {:induction false} RunConcat(c: bv8, a: seq<bool>, b: seq<bool>)
    ensures Run(c, a + b) == Run(Run(c, a), b)
    decreases a
  {
    if a == [] {
      assert a + b == b;
    } else {
      assert (a + b)[1..] == a[1..] + b;
      RunConcat(Feed(c, a[0]), a[1..], b);
    }
  }

  lemma Shed(c: bv8, bit: bool, rest: bv8)
    requires rest & 1 == 0
    ensures Step(Xor8(c, Led(bit, rest))) == Xor8(Feed(c, bit), rest)
  {
    TwiceLed(bit, rest);
    assert Highest(0x80) && Twice(0x80) == 0;
    hide Xor8, Twice, Highest, Led;
    TwiceXor8(c, Led(bit, rest));
    TwiceXor8(c, 0x80);
    Xor8Zero(Twice(c));
    Xor8Flips(Twice(c), rest, POLYNOMIAL);
  }

  lemma {:induction false} RunIsRounds(c: bv8, bits: seq<bool>)
    requires |bits| <= 8
    ensures Run(c, bits) == Rounds(|bits|, Xor8(c, ByteOf(bits)))
    decreases bits
  {
    hide Xor8, Led, Step, Feed;
    if bits == [] {
      Xor8Zero(c);
    } else {
      ByteOfShort(bits[1..]);
      Shed(c, bits[0], ByteOf(bits[1..]));
      RunIsRounds(Feed(c, bits[0]), bits[1..]);
      RoundsShift(|bits| - 1, Xor8(c, ByteOf(bits)));
    }
  }

  lemma {:induction false} UpdateIsRun(c: bv8, bytes: seq<bv8>)
    ensures Update(c, bytes) == Run(c, BitsMsbFirst(bytes))
    decreases bytes
  {
    if bytes != [] {
      var first := BitsOfByte(bytes[0], 8);
      ByteOfByte(bytes[0]);
      RunIsRounds(c, first);
      RunConcat(c, first, BitsMsbFirst(bytes[1..]));
      UpdateIsRun(ByteStep(c, bytes[0]), bytes[1..]);
    }
  }

  // ----- Algebra ------------------------------------------------------------------------------

  lemma StepLinear(a: bv8, b: bv8)
    ensures Step(Xor8(a, b)) == Xor8(Step(a), Step(b))
  {
    hide Xor8, Twice, Highest;
    TwiceXor8(a, b);
    Xor8Flips(Twice(a), Twice(b), POLYNOMIAL);
  }

  lemma FeedLinear(a: bv8, b: bv8, x: bool, y: bool)
    ensures Feed(Xor8(a, b), x != y) == Xor8(Feed(a, x), Feed(b, y))
  {
    hide Xor8, Step;
    Xor8Flips(a, b, 0x80);
    StepLinear(if x then Xor8(a, 0x80) else a, if y then Xor8(b, 0x80) else b);
  }

  lemma {:induction false} RunLinear(a: bv8, b: bv8, x: seq<bool>, y: seq<bool>)
    requires |x| == |y|
    ensures Run(Xor8(a, b), Difference(x, y)) == Xor8(Run(a, x), Run(b, y))
    decreases x
  {
    hide Xor8, Feed;
    if x != [] {
      FeedLinear(a, b, x[0], y[0]);
      RunLinear(Feed(a, x[0]), Feed(b, y[0]), x[1..], y[1..]);
      assert Difference(x, y)[1..] == Difference(x[1..], y[1..]);
    }
  }

  lemma StepKernel(c: bv8)
    ensures Step(c) == 0 <==> c == 0
  {}

  lemma {:induction false} RoundsKernel(n: nat, c: bv8)
    ensures Rounds(n, c) == 0 <==> c == 0
  {
    hide Step;
    if n != 0 {
      RoundsKernel(n - 1, c);
      StepKernel(Rounds(n - 1, c));
    }
  }

  lemma {:induction false} RunZeros(c: bv8, bits: seq<bool>)
    requires AllFalse(bits)
    ensures Run(c, bits) == Rounds(|bits|, c)
    decreases bits
  {
    if bits != [] {
      RunZeros(Step(c), bits[1..]);
      RoundsShift(|bits| - 1, c);
    }
  }

  lemma ZeroRun(c: bv8, bits: seq<bool>)
    requires |bits| <= 8
    ensures Run(c, bits) == 0 <==> c == ByteOf(bits)
  {
    hide *;
    RunIsRounds(c, bits);
    RoundsKernel(|bits|, Xor8(c, ByteOf(bits)));
    Xor8Equal(c, ByteOf(bits));
  }

  // ----- Detection ------------------------------------------------------------------------------

  /** Data followed by its CRC byte. */
  predicate Accepts(word: seq<bv8>) {
    |word| >= 1 && Crc(word[..|word| - 1]) == word[|word| - 1]
  }

  lemma Residue(word: seq<bv8>)
    requires |word| >= 1
    ensures Accepts(word) <==> Crc(word) == 0
  {
    hide Rounds, Xor8;
    var n := |word|;
    assert word == word[..n - 1] + [word[n - 1]];
    UpdateAppend(INITIAL, word[..n - 1], word[n - 1]);
    RoundsKernel(8, Xor8(Crc(word[..n - 1]), word[n - 1]));
    Xor8Equal(Crc(word[..n - 1]), word[n - 1]);
  }

  lemma AcceptsAfterChange(sent: seq<bv8>, received: seq<bv8>)
    requires Accepts(sent) && |received| == |sent|
    ensures Accepts(received) <==> Run(0, FlippedMsbFirst(sent, received)) == 0
  {
    hide Accepts, Xor8;
    assert |sent| >= 1 by { AcceptedNonempty(sent); }
    Residue(sent);
    Residue(received);
    UpdateIsRun(INITIAL, sent);
    UpdateIsRun(INITIAL, received);
    RunLinear(INITIAL, INITIAL, BitsMsbFirst(sent), BitsMsbFirst(received));
    Xor8Zero(INITIAL);
    Xor8Zero(Crc(received));
  }

  lemma AcceptedNonempty(word: seq<bv8>)
    requires Accepts(word)
    ensures |word| >= 1
  {}

  /** Every change confined to 8 consecutive bits is rejected, whatever the length of the data. */
  lemma BurstDetected(sent: seq<bv8>, received: seq<bv8>, start: nat)
    requires Accepts(sent) && |received| == |sent| && received != sent
    requires forall i :: 0 <= i < 8 * |sent| && FlippedMsbFirst(sent, received)[i] ==> start <= i < start + 8
    ensures !Accepts(received)
  {
    hide Accepts, Run;
    var flips := FlippedMsbFirst(sent, received);
    var hit := FlippedNonzero(sent, received);
    var end := if start + 8 <= |flips| then start + 8 else |flips|;
    BurstRun(flips, start, end, hit);
    AcceptsAfterChange(sent, received);
  }

  lemma BurstRun(flips: seq<bool>, start: nat, end: nat, hit: nat)
    requires start <= hit < end <= |flips| && end <= start + 8 && flips[hit]
    requires forall i :: 0 <= i < |flips| && flips[i] ==> start <= i < end
    ensures Run(0, flips) != 0
  {
    hide Run, Rounds;
    var head, burst, tail := flips[..start], flips[start..end], flips[end..];
    assert flips == head + (burst + tail);
    RunConcat(0, head, burst + tail);
    RunZeros(0, head);
    RoundsKernel(|head|, 0);
    RunConcat(0, burst, tail);
    ZeroRun(0, burst);
    ByteOfNonzero(burst, hit - start);
    RunZeros(Run(0, burst), tail);
    RoundsKernel(|tail|, Run(0, burst));
  }

  // ----- Parity -----------------------------------------------------------------------------------

  predicate OddBits(w: bv8, n: nat)
    decreases n
  {
    n != 0 && Highest(w) != OddBits(Twice(w), n - 1)
  }

  predicate OddByte(w: bv8) {
    OddBits(w, 8)
  }

  lemma {:induction false} OddBitsXor8(a: bv8, b: bv8, n: nat)
    ensures OddBits(Xor8(a, b), n) == (OddBits(a, n) != OddBits(b, n))
    decreases n
  {
    hide Xor8, Twice, Highest;
    if n != 0 {
      TwiceXor8(a, b);
      OddBitsXor8(Twice(a), Twice(b), n - 1);
    }
  }

  lemma {:induction false} OddBitsOfShort(w: bv8, n: nat)
    requires w & !TopMask(n) == 0
    ensures OddBits(w, n + 1) == OddBits(w, n)
    decreases n
  {
    if n == 0 {
      assert w == 0;
    } else {
      OddBitsOfShort(Twice(w), n - 1);
    }
  }

  lemma OddByteShift(w: bv8)
    ensures OddByte(Twice(w)) == (OddByte(w) != Highest(w))
  {
    TopMaskValues();
    OddBitsOfShort(Twice(w), 7);
  }

  lemma OddByteValues()
    ensures !OddByte(0) && OddByte(0x80) && OddByte(POLYNOMIAL) && !OddByte(0xFF)
  {
    assert !OddBits(0, 1) && !OddBits(0, 3) && !OddBits(0, 5) && !OddBits(0, 7);
    assert OddBits(0x31, 8) == OddBits(0xC4, 6) == OddBits(0x10, 4) == OddBits(0x40, 2);
    assert OddBits(0xFF, 8) == OddBits(0xFC, 6) == OddBits(0xF0, 4) == OddBits(0xC0, 2);
  }

  lemma FeedParity(c: bv8, bit: bool)
    ensures OddByte(Feed(c, bit)) == (OddByte(c) != bit)
  {
    hide Xor8, Step, OddBits;
    OddByteValues();
    OddBitsXor8(c, 0x80, 8);
    StepKeepsParity(if bit then Xor8(c, 0x80) else c);
  }

  lemma StepKeepsParity(c: bv8)
    ensures OddByte(Step(c)) == OddByte(c)
  {
    hide Xor8, Twice, Highest, OddBits;
    OddByteShift(c);
    OddByteValues();
    OddBitsXor8(Twice(c), POLYNOMIAL, 8);
  }

  lemma {:induction false} RunParity(c: bv8, bits: seq<bool>)
    ensures OddByte(Run(c, bits)) == (OddByte(c) != (Ones(bits) % 2 == 1))
    decreases bits
  {
    hide OddByte, Feed;
    if bits != [] {
      FeedParity(c, bits[0]);
      RunParity(Feed(c, bits[0]), bits[1..]);
    }
  }

  /** An odd number of flipped bits, wherever they are, is rejected. */
  lemma OddFlipsDetected(sent: seq<bv8>, received: seq<bv8>)
    requires Accepts(sent) && |received| == |sent|
    requires Ones(FlippedMsbFirst(sent, received)) % 2 == 1
    ensures !Accepts(received)
  {
    hide Accepts, Run, OddBits;
    AcceptsAfterChange(sent, received);
    RunParity(0, FlippedMsbFirst(sent, received));
    OddByteValues();
  }

  // ----- In plain numbers --------------------------------------------------------------------------------

  lemma ExampleSteps()
    ensures ByteStep(0xFF, 0xBE) == 0x0C && ByteStep(0x0C, 0xEF) == 0x92
  {}

  lemma AppendedPasses(data: seq<bv8>)
    ensures Accepts(data + [Crc(data)])
  {
    hide Crc;
    var word := data + [Crc(data)];
    assert word[..|word| - 1] == data;
  }

  /** The data sheet's example: BE EF is followed by 92. */
  lemma CheckValue()
    ensures Crc([0xBE, 0xEF]) == 0x92 && Accepts([0xBE, 0xEF] + [0x92])
  {
    ExampleSteps();
    AppendedPasses([0xBE, 0xEF]);
    hide ByteStep, Accepts;
    UpdateAppend(0xFF, [], 0xBE);
    UpdateAppend(0xFF, [0xBE], 0xEF);
    assert [] + [0xBE] == [0xBE] && [0xBE] + [0xEF] == [0xBE, 0xEF];
    assert Update(0xFF, []) == 0xFF;
  }
}
