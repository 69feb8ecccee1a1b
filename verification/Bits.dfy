/** Messages as bit sequences, least significant bit of each byte first. */
module Bits {

  // ----- Word operations -------------------------------------------------------------------
  // The proofs below hide the definitions of these operations and use only the laws stated here.

  function Xor(a: bv16, b: bv16): bv16 { a ^ b }

  function Half(w: bv16): bv16 { w >> 1 }

  predicate Lowest(w: bv16) { w & 1 == 1 }

  function Joined(lowest: bool, rest: bv16): bv16 { (if lowest then 1 else 0) | (rest << 1) }

  lemma XorComm(a: bv16, b: bv16)
    ensures Xor(a, b) == Xor(b, a)
  {}

  lemma XorAssoc(a: bv16, b: bv16, c: bv16)
    ensures Xor(Xor(a, b), c) == Xor(a, Xor(b, c))
  {}

  lemma XorZero(a: bv16)
    ensures Xor(a, 0) == a && Xor(0, a) == a && Xor(a, a) == 0
  {}

  lemma XorEqual(a: bv16, b: bv16)
    ensures Xor(a, b) == 0 <==> a == b
  {
    hide *;
    XorAssoc(a, b, b);
    XorZero(a);
    XorZero(b);
  }

  lemma XorSwap(a: bv16, b: bv16, p: bv16, q: bv16)
    ensures Xor(Xor(a, p), Xor(b, q)) == Xor(Xor(a, b), Xor(p, q))
  {
    hide *;
    XorAssoc(a, p, Xor(b, q));
    XorAssoc(p, b, q);
    XorComm(p, b);
    XorAssoc(b, p, q);
    XorAssoc(a, b, Xor(p, q));
  }

  /** Flipping one operand by `t` flips the result by `t`; flipping both leaves it. */
  lemma XorFlips(a: bv16, b: bv16, t: bv16)
    ensures Xor(Xor(a, t), b) == Xor(Xor(a, b), t)
    ensures Xor(a, Xor(b, t)) == Xor(Xor(a, b), t)
    ensures Xor(Xor(a, t), Xor(b, t)) == Xor(a, b)
  {
    hide *;
    XorAssoc(a, t, b);
    XorComm(t, b);
    XorAssoc(a, b, t);
    XorSwap(a, b, t, t);
    XorZero(t);
    XorZero(Xor(a, b));
  }

  lemma HalfXor(a: bv16, b: bv16)
    ensures Half(Xor(a, b)) == Xor(Half(a), Half(b))
    ensures Lowest(Xor(a, b)) == (Lowest(a) != Lowest(b))
  {}

  lemma HalfJoined(lowest: bool, rest: bv16)
    requires rest & 0x8000 == 0
    ensures Half(Joined(lowest, rest)) == rest && Lowest(Joined(lowest, rest)) == lowest
  {}

  // ----- Bit sequences -----------------------------------------------------------------------

  /** The lowest `n` bits of a word, lowest first. */
  function BitsOfWord(w: bv16, n: nat): (bits: seq<bool>)
    ensures |bits| == n
    decreases n
  {
    if n == 0 then [] else [Lowest(w)] + BitsOfWord(Half(w), n - 1)
  }

  function BitsOf(bytes: seq<bv8>): (bits: seq<bool>)
    ensures |bits| == 8 * |bytes|
  {
    if bytes == [] then [] else BitsOfWord(bytes[0] as bv16, 8) + BitsOf(bytes[1..])
  }

  /** Where two bit sequences of the same length differ. */
  function Difference(x: seq<bool>, y: seq<bool>): (d: seq<bool>)
    requires |x| == |y|
    ensures |d| == |x|
  {
    seq(|x|, i requires 0 <= i < |x| => x[i] != y[i])
  }

  /** Where two byte strings of the same length differ, bit by bit. */
  function Flipped(a: seq<bv8>, b: seq<bv8>): (d: seq<bool>)
    requires |a| == |b|
    ensures |d| == 8 * |a|
  {
    Difference(BitsOf(a), BitsOf(b))
  }

  ghost predicate AllFalse(bits: seq<bool>) {
    forall i :: 0 <= i < |bits| ==> !bits[i]
  }

  function Ones(bits: seq<bool>): nat {
    if bits == [] then 0 else (if bits[0] then 1 else 0) + Ones(bits[1..])
  }

  /** The word whose bit `i` is `bits[i]`. */
  function WordOf(bits: seq<bool>): bv16 {
    if bits == [] then 0 else Joined(bits[0], WordOf(bits[1..]))
  }

  /** The lowest `n` bits set. */
  function Mask(n: nat): bv16 {
    if n == 0 then 0 else Joined(true, Mask(n - 1))
  }

  /** A word shifted left `n` places, one at a time. */
  function ShiftedLeft(w: bv16, n: nat): bv16
    decreases n
  {
    if n == 0 then w else Joined(false, ShiftedLeft(w, n - 1))
  }

  lemma MaskValues()
    ensures Mask(8) == 0xFF && Mask(15) == 0x7FFF && Mask(16) == 0xFFFF
  {
    assert Mask(2) == 0x3;
    assert Mask(4) == 0xF;
    assert Mask(6) == 0x3F;
    assert Mask(10) == 0x3FF;
    assert Mask(12) == 0xFFF;
    assert Mask(14) == 0x3FFF;
  }

  lemma {:induction false} MaskGrows(m: nat, n: nat)
    requires m <= n
    ensures Mask(m) & !Mask(n) == 0
  {
    if m != 0 {
      MaskGrows(m - 1, n - 1);
    }
  }

  lemma {:induction false} WordOfMasked(bits: seq<bool>)
    ensures WordOf(bits) & !Mask(|bits|) == 0
  {
    if bits != [] {
      WordOfMasked(bits[1..]);
    }
  }

  lemma WordOfShort(bits: seq<bool>)
    requires |bits| <= 15
    ensures WordOf(bits) & 0x8000 == 0
  {
    WordOfMasked(bits);
    MaskGrows(|bits|, 15);
    MaskValues();
  }

  /** The bits of `w` that `m` selects, over `v`. */
  function Overlay(w: bv16, m: bv16, v: bv16): bv16 { (w & m) | v }

  lemma JoinedOverlay(w: bv16, m: bv16, v: bv16)
    ensures Joined(Lowest(w), Overlay(Half(w), m, v)) == Overlay(w, Joined(true, m), Joined(false, v))
  {}

  lemma NothingOverlaid(w: bv16, v: bv16)
    ensures Overlay(w, 0, v) == v
  {}

  lemma {:induction false} WordOfConcat(w: bv16, n: nat, rest: seq<bool>)
    ensures WordOf(BitsOfWord(w, n) + rest) == Overlay(w, Mask(n), ShiftedLeft(WordOf(rest), n))
    decreases n
  {
    hide Half, Lowest, Joined, Overlay;
    var s := BitsOfWord(w, n) + rest;
    if n == 0 {
      NothingOverlaid(w, WordOf(rest));
      assert s == rest;
    } else {
      assert s[0] == Lowest(w) && s[1..] == BitsOfWord(Half(w), n - 1) + rest;
      WordOfConcat(Half(w), n - 1, rest);
      JoinedOverlay(w, Mask(n - 1), ShiftedLeft(WordOf(rest), n - 1));
      assert WordOf(s) == Joined(Lowest(w), WordOf(s[1..]));
    }
  }

  lemma WordOfByte(b: bv8)
    ensures WordOf(BitsOfWord(b as bv16, 8)) == b as bv16
  {
    MaskValues();
    WordOfConcat(b as bv16, 8, []);
    assert BitsOfWord(b as bv16, 8) + [] == BitsOfWord(b as bv16, 8);
    ShiftedLeftEight(0);
  }

  /** Two bytes in transmission order read back as one little-endian word. */
  lemma WordOfTwoBytes(lo: bv8, hi: bv8)
    ensures WordOf(BitsOfWord(lo as bv16, 8) + BitsOfWord(hi as bv16, 8))
         == (lo as bv16) | ((hi as bv16) << 8)
  {
    MaskValues();
    WordOfConcat(lo as bv16, 8, BitsOfWord(hi as bv16, 8));
    WordOfByte(hi);
    ShiftedLeftEight(hi as bv16);
  }

  lemma ShiftedLeftEight(w: bv16)
    ensures ShiftedLeft(w, 8) == w << 8
  {
    var w2 := Joined(false, Joined(false, w));
    var w4 := Joined(false, Joined(false, w2));
    var w6 := Joined(false, Joined(false, w4));
    assert ShiftedLeft(w, 2) == w2;
    assert ShiftedLeft(w, 4) == w4;
    assert ShiftedLeft(w, 6) == w6;
    JoinedTwice(w, w2, w4, w6);
  }

  lemma JoinedTwice(w: bv16, w2: bv16, w4: bv16, w6: bv16)
    requires w2 == Joined(false, Joined(false, w)) && w4 == Joined(false, Joined(false, w2))
    requires w6 == Joined(false, Joined(false, w4))
    ensures Joined(false, Joined(false, w6)) == w << 8
  {}

  lemma {:induction false} WordOfNonzero(bits: seq<bool>, k: nat)
    requires |bits| <= 16 && k < |bits| && bits[k]
    ensures WordOf(bits) != 0
  {
    if k != 0 {
      WordOfNonzero(bits[1..], k - 1);
      WordOfShort(bits[1..]);
    }
  }

  lemma ByteInjective(a: bv8, b: bv8)
    requires BitsOfWord(a as bv16, 8) == BitsOfWord(b as bv16, 8)
    ensures a == b
  {
    WordOfByte(a);
    WordOfByte(b);
    assert ((a as bv16) as bv8) == a;
  }

  lemma {:induction false} BitsInjective(a: seq<bv8>, b: seq<bv8>)
    requires |a| == |b| && BitsOf(a) == BitsOf(b)
    ensures a == b
  {
    if a != [] {
      assert BitsOfWord(a[0] as bv16, 8) == BitsOf(a)[..8];
      assert BitsOfWord(b[0] as bv16, 8) == BitsOf(b)[..8];
      ByteInjective(a[0], b[0]);
      assert BitsOf(a)[8..] == BitsOf(a[1..]) && BitsOf(b)[8..] == BitsOf(b[1..]);
      BitsInjective(a[1..], b[1..]);
    }
  }

  lemma FlippedNonzero(a: seq<bv8>, b: seq<bv8>)
    requires |a| == |b| && a != b
    ensures exists i :: 0 <= i < |Flipped(a, b)| && Flipped(a, b)[i]
  {
    if forall i :: 0 <= i < |Flipped(a, b)| ==> !Flipped(a, b)[i] {
      forall i | 0 <= i < |BitsOf(a)| ensures BitsOf(a)[i] == BitsOf(b)[i] {
        assert !Flipped(a, b)[i];
      }
      BitsInjective(a, b);
    }
  }

  // ----- Parity of a word ----------------------------------------------------------------

  /** Whether the lowest `n` bits hold an odd number of ones. */
  predicate OddBits(w: bv16, n: nat)
    decreases n
  {
    n != 0 && Lowest(w) != OddBits(Half(w), n - 1)
  }

  predicate OddWord(w: bv16) {
    OddBits(w, 16)
  }

  lemma {:induction false} OddBitsXor(a: bv16, b: bv16, n: nat)
    ensures OddBits(Xor(a, b), n) == (OddBits(a, n) != OddBits(b, n))
    decreases n
  {
    hide Xor, Half, Lowest;
    if n != 0 {
      HalfXor(a, b);
      OddBitsXor(Half(a), Half(b), n - 1);
    }
  }

  lemma {:induction false} OddBitsOfShort(w: bv16, n: nat)
    requires w & !Mask(n) == 0
    ensures OddBits(w, n + 1) == OddBits(w, n)
    decreases n
  {
    if n == 0 {
      assert w == 0;
    } else {
      OddBitsOfShort(Half(w), n - 1);
    }
  }

  /** Shifting a word right drops exactly its lowest bit from the count. */
  lemma OddWordShift(w: bv16)
    ensures OddWord(Half(w)) == (OddWord(w) != Lowest(w))
  {
    MaskValues();
    OddBitsOfShort(Half(w), 15);
  }

  lemma OddWordValues()
    ensures !OddWord(0) && OddWord(1) && OddWord(0xA001) && !OddWord(0xFFFF)
  {
    OddOfZero(16);
    OddOfZero(15);
    assert OddBits(0xA001, 16) == !OddBits(0x5000, 15);
    assert OddBits(0x5000, 15) == OddBits(0x1400, 13) == OddBits(0x0500, 11) == OddBits(0x0140, 9);
    assert OddBits(0x0140, 9) == OddBits(0x0050, 7) == OddBits(0x0014, 5) == OddBits(0x0005, 3);
    assert OddBits(0x0005, 3) == !OddBits(0x0002, 2);
    assert OddBits(0x0002, 2);
    assert OddBits(0xFFFF, 16) == OddBits(0x3FFF, 14) == OddBits(0x0FFF, 12) == OddBits(0x03FF, 10);
    assert OddBits(0x03FF, 10) == OddBits(0x00FF, 8) == OddBits(0x003F, 6) == OddBits(0x000F, 4);
    assert OddBits(0x000F, 4) == OddBits(0x0003, 2);
  }

  lemma {:induction false} OddOfZero(n: nat)
    ensures !OddBits(0, n)
  {
    if n != 0 {
      OddOfZero(n - 1);
    }
  }
}
