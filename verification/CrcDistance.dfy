/** How few flipped bits can go unnoticed: the period of the CRC-16 register is 32767, so within
    4095 bytes every change of one, two or three bits is caught. */
module CrcDistance {
  import opened Bits
  import opened Crc16

  /** The register holding the polynomial 1; `Step` multiplies by x, so `Rounds(n, UNIT)` is x^n. */
  const UNIT: bv16 := 0x8000

  const PERIOD := 32767

  predicate Returns(n: nat) {
    Rounds(n, UNIT) == UNIT
  }

  // ----- Multiplication of register polynomials ------------------------------------------------

  /** One round of Horner's scheme: a coefficient over x times the rest. */
  function Horner(coefficient: bool, b: bv16, rest: bv16): bv16 {
    Xor(if coefficient then b else 0, Step(rest))
  }

  /** Bit `12 + k` of `a`. */
  predicate Has(a: bv16, k: nat)
    requires k < 4
  {
    if k == 0 then a & 0x1000 != 0 else if k == 1 then a & 0x2000 != 0
    else if k == 2 then a & 0x4000 != 0 else a & 0x8000 != 0
  }

  /** Four rounds, for the four highest bits of `a`. */
  function Nibble(a: bv16, b: bv16, rest: bv16): bv16 {
    Horner(Has(a, 3), b, Horner(Has(a, 2), b, Horner(Has(a, 1), b, Horner(Has(a, 0), b, rest))))
  }

  function Product(a: bv16, b: bv16): bv16 {
    Nibble(a, b, Nibble(a << 4, b, Nibble(a << 8, b, Nibble(a << 12, b, 0))))
  }

  // Multiplying by 1 puts every bit back in its place.

  /** Bit `12 + k` of `a`, moved to the top. */
  function Top(a: bv16, k: nat): bv16
    requires k < 4
  {
    if k == 0 then (a & 0x1000) << 3 else if k == 1 then (a & 0x2000) << 2
    else if k == 2 then (a & 0x4000) << 1 else a & 0x8000
  }

  function Grown(top: bv16, rest: bv16): bv16 { (rest >> 1) | top }

  function Spliced(a: bv16, rest: bv16): bv16 { (a & 0xF000) | (rest >> 4) }

  predicate LowNibbleClear(w: bv16) { w & 0x000F == 0 }

  lemma TopIsBit(a: bv16, k: nat)
    requires k < 4
    ensures Top(a, k) == if Has(a, k) then UNIT else 0
  {}

  lemma XorTop(top: bv16, rest: bv16)
    requires top == 0 || top == UNIT
    ensures Xor(top, Half(rest)) == Grown(top, rest)
  {}

  lemma HornerUnit(a: bv16, k: nat, rest: bv16)
    requires k < 4 && !Lowest(rest)
    ensures Horner(Has(a, k), UNIT, rest) == Grown(Top(a, k), rest)
  {
    hide Xor, Lowest, Grown, Has, Top;
    TopIsBit(a, k);
    XorTop(Top(a, k), rest);
  }

  lemma FourGrown(a: bv16, rest: bv16, r1: bv16, r2: bv16, r3: bv16)
    requires LowNibbleClear(rest)
    requires r1 == Grown(Top(a, 0), rest) && r2 == Grown(Top(a, 1), r1) && r3 == Grown(Top(a, 2), r2)
    ensures Grown(Top(a, 3), r3) == Spliced(a, rest)
    ensures !Lowest(rest) && !Lowest(r1) && !Lowest(r2) && !Lowest(r3)
  {}

  lemma NibbleUnit(a: bv16, rest: bv16)
    requires LowNibbleClear(rest)
    ensures Nibble(a, UNIT, rest) == Spliced(a, rest)
  {
    hide Horner, Grown, Has, Top, Lowest, LowNibbleClear, Spliced;
    var r1 := Grown(Top(a, 0), rest);
    var r2 := Grown(Top(a, 1), r1);
    var r3 := Grown(Top(a, 2), r2);
    FourGrown(a, rest, r1, r2, r3);
    HornerUnit(a, 0, rest);
    HornerUnit(a, 1, r1);
    HornerUnit(a, 2, r2);
    HornerUnit(a, 3, r3);
  }

  lemma FourNibbles(a: bv16, r1: bv16, r2: bv16, r3: bv16)
    requires r1 == Spliced(a << 12, 0) && r2 == Spliced(a << 8, r1) && r3 == Spliced(a << 4, r2)
    ensures Spliced(a, r3) == a
    ensures LowNibbleClear(0) && LowNibbleClear(r1) && LowNibbleClear(r2) && LowNibbleClear(r3)
  {}

  lemma ProductUnit(a: bv16)
    ensures Product(a, UNIT) == a
  {
    hide Nibble, Spliced, LowNibbleClear;
    var r1 := Spliced(a << 12, 0);
    var r2 := Spliced(a << 8, r1);
    var r3 := Spliced(a << 4, r2);
    FourNibbles(a, r1, r2, r3);
    NibbleUnit(a << 12, 0);
    NibbleUnit(a << 8, r1);
    NibbleUnit(a << 4, r2);
    NibbleUnit(a, r3);
  }

  lemma {:induction false} RoundsLinear(n: nat, a: bv16, b: bv16)
    ensures Rounds(n, Xor(a, b)) == Xor(Rounds(n, a), Rounds(n, b))
  {
    hide Xor, Step;
    if n != 0 {
      RoundsLinear(n - 1, a, b);
      StepLinear(Rounds(n - 1, a), Rounds(n - 1, b));
    }
  }

  lemma HornerCommutes(n: nat, coefficient: bool, b: bv16, rest: bv16)
    ensures Horner(coefficient, Rounds(n, b), Rounds(n, rest)) == Rounds(n, Horner(coefficient, b, rest))
  {
    hide Xor, Step;
    RoundsLinear(n, if coefficient then b else 0, Step(rest));
    RoundsShift(n, rest);
    RoundsKernel(n, 0);
  }

  lemma NibbleCommutes(n: nat, a: bv16, b: bv16, rest: bv16)
    ensures Nibble(a, Rounds(n, b), Rounds(n, rest)) == Rounds(n, Nibble(a, b, rest))
  {
    hide Horner, Has;
    var r1 := Horner(Has(a, 0), b, rest);
    var r2 := Horner(Has(a, 1), b, r1);
    var r3 := Horner(Has(a, 2), b, r2);
    HornerCommutes(n, Has(a, 0), b, rest);
    HornerCommutes(n, Has(a, 1), b, r1);
    HornerCommutes(n, Has(a, 2), b, r2);
    HornerCommutes(n, Has(a, 3), b, r3);
  }

  /** Clocking a register `n` times multiplies it by x^n. */
  lemma RoundsIsProduct(n: nat, a: bv16)
    ensures Rounds(n, a) == Product(a, Rounds(n, UNIT))
  {
    hide Nibble;
    var r1 := Nibble(a << 12, UNIT, 0);
    var r2 := Nibble(a << 8, UNIT, r1);
    var r3 := Nibble(a << 4, UNIT, r2);
    RoundsKernel(n, 0);
    NibbleCommutes(n, a << 12, UNIT, 0);
    NibbleCommutes(n, a << 8, UNIT, r1);
    NibbleCommutes(n, a << 4, UNIT, r2);
    NibbleCommutes(n, a, UNIT, r3);
    ProductUnit(a);
  }

  lemma {:induction false} RoundsAdd(m: nat, n: nat, c: bv16)
    ensures Rounds(m + n, c) == Rounds(n, Rounds(m, c))
  {
    if n != 0 {
      RoundsAdd(m, n - 1, c);
    }
  }

  lemma PowerSum(m: nat, n: nat)
    ensures Rounds(m + n, UNIT) == Product(Rounds(m, UNIT), Rounds(n, UNIT))
  {
    hide Product;
    RoundsAdd(m, n, UNIT);
    RoundsIsProduct(n, Rounds(m, UNIT));
  }

  // ----- The period ------------------------------------------------------------------------

  lemma ByNibbles(a: bv16, b: bv16, r1: bv16, r2: bv16, r3: bv16, r: bv16)
    requires Nibble(a << 12, b, 0) == r1 && Nibble(a << 8, b, r1) == r2
    requires Nibble(a << 4, b, r2) == r3 && Nibble(a, b, r3) == r
    ensures Product(a, b) == r
  {}

  // Repeated squaring, and the sums of powers of two needed below: each lemma is named after the power of x
  // that its product is.

  lemma Product2()
    ensures Product(0x4000, 0x4000) == 0x2000
  {
    ByNibbles(0x4000, 0x4000, 0x0000, 0x0000, 0x0000, 0x2000);
  }

  lemma Product4()
    ensures Product(0x2000, 0x2000) == 0x0800
  {
    ByNibbles(0x2000, 0x2000, 0x0000, 0x0000, 0x0000, 0x0800);
  }

  lemma Product8()
    ensures Product(0x0800, 0x0800) == 0x0080
  {
    ByNibbles(0x0800, 0x0800, 0x0000, 0x0000, 0x0800, 0x0080);
  }

  lemma Product16()
    ensures Product(0x0080, 0x0080) == 0xA001
  {
    ByNibbles(0x0080, 0x0080, 0x0000, 0x0080, 0x0008, 0xA001);
  }

  lemma Product32()
    ensures Product(0xA001, 0xA001) == 0xE801
  {
    ByNibbles(0xA001, 0xA001, 0xCC01, 0xC0C1, 0xC00D, 0xE801);
  }

  lemma Product64()
    ensures Product(0xE801, 0xE801) == 0xC881
  {
    ByNibbles(0xE801, 0xE801, 0xC501, 0xC051, 0x2805, 0xC881);
  }

  lemma Product128()
    ensures Product(0xC881, 0xC881) == 0x6080
  {
    ByNibbles(0xC881, 0xC881, 0xC111, 0x0891, 0x0409, 0x6080);
  }

  lemma Product256()
    ensures Product(0x6080, 0x6080) == 0x8801
  {
    ByNibbles(0x6080, 0x6080, 0x0000, 0x6080, 0x0608, 0x8801);
  }

  lemma Product512()
    ensures Product(0x8801, 0x8801) == 0xE081
  {
    ByNibbles(0x8801, 0x8801, 0xC901, 0xC091, 0x4809, 0xE081);
  }

  lemma Product1024()
    ensures Product(0xE081, 0xE081) == 0x6800
  {
    ByNibbles(0xE081, 0xE081, 0xC411, 0x20C1, 0xCE0D, 0x6800);
  }

  lemma Product2048()
    ensures Product(0x6800, 0x6800) == 0x2880
  {
    ByNibbles(0x6800, 0x6800, 0x0000, 0x0000, 0x6800, 0x2880);
  }

  lemma Product4096()
    ensures Product(0x2880, 0x2880) == 0xA881
  {
    ByNibbles(0x2880, 0x2880, 0x0000, 0x2880, 0x2A08, 0xA881);
  }

  lemma Product8192()
    ensures Product(0xA881, 0xA881) == 0x4880
  {
    ByNibbles(0xA881, 0xA881, 0xCD11, 0x6851, 0x6205, 0x4880);
  }

  lemma Product16384()
    ensures Product(0x4880, 0x4880) == 0x8081
  {
    ByNibbles(0x4880, 0x4880, 0x0000, 0x4880, 0x4C08, 0x8081);
  }

  lemma Product32768()
    ensures Product(0x8081, 0x8081) == 0x4000
  {
    ByNibbles(0x8081, 0x8081, 0xC811, 0x4001, 0xC801, 0x4000);
  }

  lemma FirstPower()
    ensures Rounds(1, UNIT) == 0x4000
  {
    assert Rounds(0, UNIT) == UNIT;
  }

  lemma LowPowers()
    ensures Rounds(1, UNIT) == 0x4000 && Rounds(8, UNIT) == 0x0080 && Rounds(16, UNIT) == 0xA001
  {
    hide Rounds, Product;
    FirstPower();
    Product2();
    Product4();
    Product8();
    Product16();
    PowerSum(1, 1);
    PowerSum(2, 2);
    PowerSum(4, 4);
    PowerSum(8, 8);
  }

  lemma MiddlePowers()
    ensures Rounds(32, UNIT) == 0xE801 && Rounds(64, UNIT) == 0xC881
    ensures Rounds(128, UNIT) == 0x6080 && Rounds(256, UNIT) == 0x8801
  {
    hide Rounds, Product;
    LowPowers();
    Product32();
    Product64();
    Product128();
    Product256();
    PowerSum(16, 16);
    PowerSum(32, 32);
    PowerSum(64, 64);
    PowerSum(128, 128);
  }

  lemma UpperPowers()
    ensures Rounds(512, UNIT) == 0xE081 && Rounds(1024, UNIT) == 0x6800 && Rounds(4096, UNIT) == 0xA881
  {
    hide Rounds, Product;
    MiddlePowers();
    Product512();
    Product1024();
    Product2048();
    Product4096();
    PowerSum(256, 256);
    PowerSum(512, 512);
    PowerSum(1024, 1024);
    PowerSum(2048, 2048);
  }

  lemma HighPowers()
    ensures Rounds(32768, UNIT) == 0x4000
  {
    hide Rounds, Product;
    UpperPowers();
    Product8192();
    Product16384();
    Product32768();
    PowerSum(4096, 4096);
    PowerSum(8192, 8192);
    PowerSum(16384, 16384);
  }

  lemma Product9()
    ensures Product(0x0080, 0x4000) == 0x0040
  {
    ByNibbles(0x0080, 0x4000, 0x0000, 0x4000, 0x0400, 0x0040);
  }

  lemma Product25()
    ensures Product(0x0040, 0xA001) == 0xC031
  {
    ByNibbles(0x0040, 0xA001, 0x0000, 0xF001, 0xC301, 0xC031);
  }

  lemma Product89()
    ensures Product(0xC031, 0xC881) == 0xD402
  {
    ByNibbles(0xC031, 0xC881, 0xC111, 0xC320, 0x0C32, 0xD402);
  }

  lemma Product217()
    ensures Product(0xD402, 0x6080) == 0x3E55
  {
    ByNibbles(0xD402, 0x6080, 0x1820, 0x0182, 0xE859, 0x3E55);
  }

  lemma Product1056()
    ensures Product(0x6800, 0xE801) == 0xDC81
  {
    ByNibbles(0x6800, 0xE801, 0x0000, 0x0000, 0xE801, 0xDC81);
  }

  lemma Product1057()
    ensures Product(0xDC81, 0x4000) == 0xCE41
  {
    ByNibbles(0xDC81, 0x4000, 0x0800, 0x4080, 0x6408, 0xCE41);
  }

  lemma Product73()
    ensures Product(0x0040, 0xC881) == 0x3004
  {
    ByNibbles(0x0040, 0xC881, 0x0000, 0xC441, 0xC045, 0x3004);
  }

  lemma Product585()
    ensures Product(0x3004, 0xE081) == 0x0F31
  {
    ByNibbles(0x3004, 0xE081, 0xD041, 0xC105, 0x3010, 0x0F31);
  }

  lemma Product4681()
    ensures Product(0x0F31, 0xA881) == 0x8C69
  {
    ByNibbles(0x0F31, 0xA881, 0xCD11, 0xD7E0, 0x468E, 0x8C69);
  }

  /** No maximal proper divisor of the period brings the register back. */
  lemma NotEarly()
    ensures !Returns(217) && !Returns(1057) && !Returns(4681)
  {
    hide Rounds, Product;
    LowPowers();
    MiddlePowers();
    UpperPowers();
    Product9();
    Product25();
    Product89();
    Product217();
    Product1056();
    Product1057();
    Product73();
    Product585();
    Product4681();
    PowerSum(8, 1);
    PowerSum(9, 16);
    PowerSum(25, 64);
    PowerSum(89, 128);
    PowerSum(1024, 32);
    PowerSum(1056, 1);
    PowerSum(9, 64);
    PowerSum(73, 512);
    PowerSum(585, 4096);
  }

  lemma StepInjective(a: bv16, b: bv16)
    ensures Step(a) == Step(b) <==> a == b
  {
    hide *;
    StepLinear(a, b);
    StepKernel(Xor(a, b));
    XorEqual(a, b);
    XorEqual(Step(a), Step(b));
  }

  lemma {:induction false} RoundsInjective(n: nat, a: bv16, b: bv16)
    ensures Rounds(n, a) == Rounds(n, b) <==> a == b
  {
    hide Step;
    if n != 0 {
      RoundsInjective(n - 1, a, b);
      StepInjective(Rounds(n - 1, a), Rounds(n - 1, b));
    }
  }

  lemma PeriodReturns()
    ensures Returns(PERIOD)
  {
    hide Product, Step;
    HighPowers();
    LowPowers();
    assert Rounds(32768, UNIT) == Step(Rounds(32767, UNIT));
    assert Rounds(1, UNIT) == Step(Rounds(0, UNIT));
    StepInjective(Rounds(32767, UNIT), UNIT);
  }

  // The exponents at which the register returns are closed under difference and multiples.

  lemma ReturnsDifference(a: nat, b: nat)
    requires b <= a && Returns(b)
    ensures Returns(a) <==> Returns(a - b)
  {
    hide Rounds;
    RoundsAdd(b, a - b, UNIT);
  }

  lemma {:induction false} ReturnsMultiple(k: nat, n: nat)
    requires Returns(n)
    ensures Returns(k * n)
  {
    if k != 0 {
      ReturnsMultiple(k - 1, n);
      assert k * n - n == (k - 1) * n;
      ReturnsDifference(k * n, n);
    }
  }

  /** Euclid's algorithm: two exponents that return share a divisor that returns. */
  lemma {:induction false} CommonDivisor(a: nat, b: nat) returns (g: nat, p: nat, q: nat)
    requires 0 < a && 0 < b && Returns(a) && Returns(b)
    ensures 0 < g && Returns(g) && a == p * g && b == q * g
    decreases a + b
  {
    if a == b {
      g, p, q := a, 1, 1;
    } else if a > b {
      ReturnsDifference(a, b);
      g, p, q := CommonDivisor(a - b, b);
      p := p + q;
    } else {
      ReturnsDifference(b, a);
      g, p, q := CommonDivisor(a, b - a);
      q := q + p;
    }
  }

  /** 32767 = 7 * 31 * 151. */
  lemma SmallDivisor(d: nat, e: nat)
    requires d * e == PERIOD && 1 < d <= 181
    ensures d == 7 || d == 31 || d == 151
  {}

  /** No proper divisor of the period brings the register back. */
  lemma NoDivisorReturns(d: nat, e: nat)
    requires d * e == PERIOD && d != PERIOD
    ensures !Returns(d)
  {
    NotEarly();
    if Returns(d) {
      if d == 1 {
        ReturnsMultiple(217, 1);
      } else if d <= 181 {
        SmallDivisor(d, e);
        if d == 151 {
          ReturnsMultiple(7, 151);
        } else {
          ReturnsMultiple(217 / d, d);
        }
      } else {
        assert 1 < e <= 181 by { LargeCofactor(d, e); }
        assert e * d == PERIOD;
        SmallDivisor(e, d);
      }
    }
  }

  lemma LargeCofactor(d: nat, e: nat)
    requires d * e == PERIOD && d != PERIOD && d > 181
    ensures 1 < e <= 181
  {
    if e > 181 {
      LargeProduct(d, e);
    }
  }

  lemma LargeProduct(d: nat, e: nat)
    requires d > 181 && e > 181
    ensures d * e > PERIOD
  {
    assert d * e >= 182 * e;
  }

  lemma NoEarlyReturn(r: nat)
    requires 0 < r < PERIOD
    ensures !Returns(r)
  {
    hide Returns;
    PeriodReturns();
    if Returns(r) {
      var g, p, q := CommonDivisor(r, PERIOD);
      AtLeastFactor(p, g);
      NoDivisorReturns(g, q);
    }
  }

  lemma AtLeastFactor(p: nat, g: nat)
    requires p * g > 0
    ensures p * g >= g
  {}

  /** The register comes back to 1 exactly at the multiples of 32767. */
  lemma Period(n: nat)
    ensures Returns(n) <==> n % 32767 == 0
  {
    var k, r := n / PERIOD, n % PERIOD;
    PeriodReturns();
    ReturnsMultiple(k, PERIOD);
    ReturnsDifference(n, k * PERIOD);
    if r == 0 {
      assert Returns(0);
    } else {
      hide Returns;
      NoEarlyReturn(r);
    }
  }

  // ----- Two flipped bits ------------------------------------------------------------------

  /** A single set bit leaves the register in a power of x, times x^15. */
  lemma OneThenZeros(n: nat)
    ensures Rounds(n, Feed(0, true)) == 1 <==> Returns(n + 1)
  {
    hide Rounds;
    assert Rounds(15, UNIT) == 1 by { FifteenRounds(); }
    assert Feed(0, true) == Rounds(1, 1) by { RoundOfOne(); }
    RoundsAdd(1, n, 1);
    RoundsAdd(15, n + 1, UNIT);
    RoundsAdd(n + 1, 15, UNIT);
    RoundsInjective(15, Rounds(n + 1, UNIT), UNIT);
  }

  lemma RoundOfOne()
    ensures Feed(0, true) == Rounds(1, 1)
  {
    assert Rounds(1, 1) == Step(Rounds(0, 1));
  }

  lemma FifteenRounds()
    ensures Rounds(15, UNIT) == 1
  {
    LowPowers();
    assert Rounds(16, UNIT) == Step(Rounds(15, UNIT));
    StepInjective(Rounds(15, UNIT), 1);
  }

  lemma RunFirst(c: bv16, bit: bool, rest: seq<bool>)
    ensures Run(c, [bit] + rest) == Run(Feed(c, bit), rest)
  {
    assert ([bit] + rest)[1..] == rest;
  }

  lemma TwoBitRun(flips: seq<bool>, i: nat, j: nat)
    requires i < j < |flips|
    requires forall k :: 0 <= k < |flips| ==> (flips[k] <==> k == i || k == j)
    ensures Run(0, flips) == 0 <==> Returns(j - i)
  {
    hide Rounds, Feed, Run;
    var head, between, tail := flips[..i], flips[i + 1..j], flips[j + 1..];
    assert flips == head + ([true] + (between + ([true] + tail)));
    RunConcat(0, head, [true] + (between + ([true] + tail)));
    RunZeros(0, head);
    RoundsKernel(|head|, 0);
    var c := Feed(0, true);
    RunFirst(0, true, between + ([true] + tail));
    RunConcat(c, between, [true] + tail);
    RunZeros(c, between);
    var d := Rounds(|between|, c);
    RunFirst(d, true, tail);
    RunZeros(Feed(d, true), tail);
    RoundsKernel(|tail|, Feed(d, true));
    FeedTrueKernel(d);
    OneThenZeros(|between|);
  }

  lemma FeedTrueKernel(d: bv16)
    ensures Feed(d, true) == 0 <==> d == 1
  {
    hide Xor, Step;
    StepKernel(Xor(d, 1));
    XorEqual(d, 1);
  }

  /** Exactly which double errors pass: those whose distance is a multiple of 32767 bits. */
  lemma TwoFlips(sent: seq<bv8>, received: seq<bv8>, i: nat, j: nat)
    requires Accepts(sent) && |received| == |sent| && i < j < 8 * |sent|
    requires forall k :: 0 <= k < 8 * |sent| ==> (Flipped(sent, received)[k] <==> k == i || k == j)
    ensures Accepts(received) <==> (j - i) % 32767 == 0
  {
    hide Accepts, Returns;
    AcceptsAfterChange(sent, received);
    TwoBitRun(Flipped(sent, received), i, j);
    Period(j - i);
  }

  // ----- Up to three flipped bits ------------------------------------------------------------

  lemma {:induction false} NoOnes(bits: seq<bool>)
    requires Ones(bits) == 0
    ensures AllFalse(bits)
  {
    if bits != [] {
      NoOnes(bits[1..]);
      assert forall k :: 1 <= k < |bits| ==> bits[k] == bits[1..][k - 1];
    }
  }

  lemma {:induction false} OneOne(bits: seq<bool>) returns (i: nat)
    requires Ones(bits) == 1
    ensures i < |bits| && forall k :: 0 <= k < |bits| ==> (bits[k] <==> k == i)
  {
    if bits[0] {
      NoOnes(bits[1..]);
      i := 0;
    } else {
      i := OneOne(bits[1..]);
      i := i + 1;
    }
    assert forall k :: 1 <= k < |bits| ==> bits[k] == bits[1..][k - 1];
  }

  lemma {:induction false} TwoOnes(bits: seq<bool>) returns (i: nat, j: nat)
    requires Ones(bits) == 2
    ensures i < j < |bits| && forall k :: 0 <= k < |bits| ==> (bits[k] <==> k == i || k == j)
  {
    if bits[0] {
      i := 0;
      j := OneOne(bits[1..]);
      j := j + 1;
    } else {
      i, j := TwoOnes(bits[1..]);
      i, j := i + 1, j + 1;
    }
    assert forall k :: 1 <= k < |bits| ==> bits[k] == bits[1..][k - 1];
  }

  /** Within 4095 bytes, every change of at most three bits, wherever they are, is rejected. */
  lemma FewFlipsDetected(sent: seq<bv8>, received: seq<bv8>)
    requires Accepts(sent) && |received| == |sent| <= 4095 && received != sent
    requires Ones(Flipped(sent, received)) <= 3
    ensures !Accepts(received)
  {
    hide Accepts;
    var flips := Flipped(sent, received);
    if Ones(flips) == 0 {
      NoOnes(flips);
      FlippedNonzero(sent, received);
    } else if Ones(flips) == 2 {
      var i, j := TwoOnes(flips);
      TwoFlips(sent, received, i, j);
    } else {
      OddFlipsDetected(sent, received);
    }
  }
}
