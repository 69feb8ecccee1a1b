/** How few flipped bits can go unnoticed by the CRC-8: its register has the prime period 127, so within 15
    bytes every change of one, two or three bits is caught. */
module Crc8Distance {
  import opened Bits
  import opened Crc8
  import CrcDistance

  /** The register that the highest bit alone makes. */
  const UNIT: bv8 := 0x80

  const PERIOD := 127

  predicate Returns(n: nat) {
    Rounds(n, UNIT) == UNIT
  }

  // ----- The period ----------------------------------------------------------------------------------

  lemma {:induction false} RoundsAdd(m: nat, n: nat, c: bv8)
    ensures Rounds(m + n, c) == Rounds(n, Rounds(m, c))
  {
    hide Step;
    if n != 0 {
      RoundsAdd(m, n - 1, c);
    }
  }

  // Eight rounds at a time from the unit register, as far as 120; seven more complete the period.

  lemma FirstBytes()
    ensures Rounds(8, 0x80) == 0x7A
    ensures Rounds(8, 0x7A) == 0x23
    ensures Rounds(8, 0x23) == 0xD5
  {}

  lemma SecondBytes()
    ensures Rounds(8, 0xD5) == 0xF1
    ensures Rounds(8, 0xF1) == 0xB3
    ensures Rounds(8, 0xB3) == 0xEC
  {}

  lemma ThirdBytes()
    ensures Rounds(8, 0xEC) == 0xBC
    ensures Rounds(8, 0xBC) == 0xC2
    ensures Rounds(8, 0xC2) == 0x25
  {}

  lemma FourthBytes()
    ensures Rounds(8, 0x25) == 0x73
    ensures Rounds(8, 0x73) == 0xAB
    ensures Rounds(8, 0xAB) == 0x16
  {}

  lemma FifthBytes()
    ensures Rounds(8, 0x16) == 0xE5
    ensures Rounds(8, 0xE5) == 0x34
    ensures Rounds(8, 0x34) == 0x01
  {}

  lemma LastRounds()
    ensures Rounds(7, 0x01) == 0x80
  {}

  lemma PeriodReturns()
    ensures Returns(PERIOD) && !Returns(1)
  {
    assert Rounds(1, UNIT) == 0x31;
    hide Rounds;
    FirstBytes();
    SecondBytes();
    ThirdBytes();
    FourthBytes();
    FifthBytes();
    LastRounds();
    RoundsAdd(8, 8, UNIT);
    RoundsAdd(16, 8, UNIT);
    RoundsAdd(24, 8, UNIT);
    RoundsAdd(32, 8, UNIT);
    RoundsAdd(40, 8, UNIT);
    RoundsAdd(48, 8, UNIT);
    RoundsAdd(56, 8, UNIT);
    RoundsAdd(64, 8, UNIT);
    RoundsAdd(72, 8, UNIT);
    RoundsAdd(80, 8, UNIT);
    RoundsAdd(88, 8, UNIT);
    RoundsAdd(96, 8, UNIT);
    RoundsAdd(104, 8, UNIT);
    RoundsAdd(112, 8, UNIT);
    RoundsAdd(120, 7, UNIT);
  }

  lemma ReturnsDifference(a: nat, b: nat)
    requires b <= a && Returns(b)
    ensures Returns(a) <==> Returns(a - b)
  {
    hide Rounds;
    RoundsAdd(b, a - b, UNIT);
  }

  /** By Euclid's algorithm two exponents that return, one of them prime, make 1 return. */
  lemma {:induction false} Euclid(a: nat, b: nat) returns (g: nat, p: nat, q: nat)
    requires 0 < a && 0 < b && Returns(a) && Returns(b)
    ensures 0 < g && Returns(g) && a == p * g && b == q * g
    decreases a + b
  {
    hide Returns;
    if a == b {
      g, p, q := a, 1, 1;
    } else if a > b {
      ReturnsDifference(a, b);
      g, p, q := Euclid(a - b, b);
      p := p + q;
    } else {
      ReturnsDifference(b, a);
      g, p, q := Euclid(a, b - a);
      q := q + p;
    }
  }

  lemma NoSmallFactor(d: nat, e: nat)
    requires d * e == PERIOD && d <= 11
    ensures d == 1
  {}

  lemma LargeProduct(d: nat, e: nat)
    requires d > 11 && e > 11
    ensures d * e > PERIOD
  {
    assert d * e >= 12 * e;
  }

  lemma PeriodIsPrime(g: nat, q: nat)
    requires g * q == PERIOD
    ensures g == 1 || q == 1
  {
    if g <= 11 {
      NoSmallFactor(g, q);
    } else if q <= 11 {
      assert q * g == PERIOD;
      NoSmallFactor(q, g);
    } else {
      LargeProduct(g, q);
    }
  }

  lemma AtLeastFactor(p: nat, g: nat)
    requires p * g > 0
    ensures p * g >= g
  {}

  lemma NoEarlyReturn(r: nat)
    requires 0 < r < PERIOD
    ensures !Returns(r)
  {
    PeriodReturns();
    hide Returns;
    if Returns(r) {
      var g, p, q := Euclid(r, PERIOD);
      AtLeastFactor(p, g);
      PeriodIsPrime(g, q);
    }
  }

  lemma {:induction false} ReturnsMultiple(k: nat)
    ensures Returns(k * PERIOD)
  {
    if k != 0 {
      ReturnsMultiple(k - 1);
      PeriodReturns();
      ReturnsDifference(k * PERIOD, PERIOD);
    }
  }

  /** The register comes back exactly at the multiples of 127. */
  lemma Period(n: nat)
    ensures Returns(n) <==> n % 127 == 0
  {
    var k, r := n / PERIOD, n % PERIOD;
    ReturnsMultiple(k);
    ReturnsDifference(n, k * PERIOD);
    if r == 0 {
      assert Returns(0);
    } else {
      hide Returns;
      NoEarlyReturn(r);
    }
  }

  // ----- Two flipped bits ------------------------------------------------------------------------------

  lemma RunFirst(c: bv8, bit: bool, rest: seq<bool>)
    ensures Run(c, [bit] + rest) == Run(Feed(c, bit), rest)
  {
    assert ([bit] + rest)[1..] == rest;
  }

  lemma FeedTrueKernel(d: bv8)
    ensures Feed(d, true) == 0 <==> d == UNIT
  {
    hide Xor8, Step;
    StepKernel(Xor8(d, UNIT));
    Xor8Equal(d, UNIT);
  }

  lemma FirstFeed()
    ensures Feed(0, true) == Rounds(1, UNIT)
  {
    assert Rounds(0, UNIT) == UNIT;
  }

  lemma TwoBitRun(flips: seq<bool>, i: nat, j: nat)
    requires i < j < |flips|
    requires forall k :: 0 <= k < |flips| ==> (flips[k] <==> k == i || k == j)
    ensures Run(0, flips) == 0 <==> Returns(j - i)
  {
    hide Rounds, Feed, Run;
    var head, between, tail := flips[..i], flips[i + 1..j], flips[j + 1..];
    assert flips == head + ([true] + (between + ([true] + tail)));
    RunConcat(0, head, [true] + (between + ([true] + tail)));
    RunZeros(0, head);
    RoundsKernel(|head|, 0);
    RunFirst(0, true, between + ([true] + tail));
    FirstFeed();
    RunConcat(Feed(0, true), between, [true] + tail);
    RunZeros(Feed(0, true), between);
    RoundsAdd(1, |between|, UNIT);
    var d := Rounds(j - i, UNIT);
    RunFirst(d, true, tail);
    RunZeros(Feed(d, true), tail);
    RoundsKernel(|tail|, Feed(d, true));
    FeedTrueKernel(d);
  }

  /** Exactly which double errors pass: those whose distance is a multiple of 127 bits. */
  lemma TwoFlips(sent: seq<bv8>, received: seq<bv8>, i: nat, j: nat)
    requires Accepts(sent) && |received| == |sent| && i < j < 8 * |sent|
    requires forall k :: 0 <= k < 8 * |sent| ==> (FlippedMsbFirst(sent, received)[k] <==> k == i || k == j)
    ensures Accepts(received) <==> (j - i) % 127 == 0
  {
    hide Accepts, Returns;
    AcceptsAfterChange(sent, received);
    TwoBitRun(FlippedMsbFirst(sent, received), i, j);
    Period(j - i);
  }

  /** Within 15 bytes, every change of at most three bits is rejected. */
  lemma FewFlipsDetected(sent: seq<bv8>, received: seq<bv8>)
    requires Accepts(sent) && |received| == |sent| <= 15 && received != sent
    requires Ones(FlippedMsbFirst(sent, received)) <= 3
    ensures !Accepts(received)
  {
    hide Accepts;
    var flips := FlippedMsbFirst(sent, received);
    if Ones(flips) == 0 {
      CrcDistance.NoOnes(flips);
      var i := Crc8.FlippedNonzero(sent, received);
    } else if Ones(flips) == 2 {
      var i, j := CrcDistance.TwoOnes(flips);
      TwoFlips(sent, received, i, j);
    } else {
      OddFlipsDetected(sent, received);
    }
  }
}
