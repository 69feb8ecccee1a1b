/** The display's fixed-point printer, up to the text it leaves in its buffer. */
module LcdPrinter {

  const BUFFER_SIZE: nat := 20
  const DIGIT_BUFFER: nat := 12
  const MAX_FRACTION: nat := 9
  const INT32_MIN: int := -0x8000_0000
  const INT32_MAX: int := 0x7FFF_FFFF
  const UINT32: nat := 0x1_0000_0000

  newtype int32 = n: int | INT32_MIN <= n <= INT32_MAX

  // ----- Division by a variable divisor ---------------------------------------------------------

  function Quotient(n: nat, p: nat): nat
    requires p > 0
  {
    DivisionLaw(n, p);
    n / p
  }

  function Remainder(n: nat, p: nat): nat
    requires p > 0
  {
    DivisionLaw(n, p);
    n % p
  }

  lemma MulMonotone(a: int, b: int, p: nat)
    requires a <= b
    ensures a * p <= b * p
  {
    if a < b {
      assert (b - a) * p >= 0;
    }
  }

  lemma DivisionLaw(n: nat, p: nat)
    requires p > 0
    ensures n == (n / p) * p + n % p && 0 <= n % p < p && 0 <= n / p <= n
  {
    var q, r := n / p, n % p;
    assert n == q * p + r;
    if q < 0 {
      MulMonotone(q, -1, p);
    }
    MulMonotone(1, p, if q < 0 then 0 else q);
  }

  lemma Division(n: nat, p: nat)
    requires p > 0
    ensures n == Quotient(n, p) * p + Remainder(n, p)
    ensures Remainder(n, p) < p && Quotient(n, p) <= n
  {
    DivisionLaw(n, p);
  }

  lemma QuotientBelow(n: nat, p: nat, m: nat)
    requires p > 0 && n < m * p
    ensures Quotient(n, p) < m
  {
    DivisionLaw(n, p);
    if n / p >= m {
      MulMonotone(m, n / p, p);
    }
  }

  // ----- The text --------------------------------------------------------------------------------

  function Pow10(e: nat): (p: nat)
    ensures p >= 1
  {
    if e == 0 then 1 else 10 * Pow10(e - 1)
  }

  function Digit(n: nat): char
    requires n < 10
  {
    ('0' as int + n) as char
  }

  /** Decimal notation without leading zeros. */
  function Decimal(n: nat): (text: string)
    ensures text != []
  {
    if n < 10 then [Digit(n)] else Decimal(n / 10) + [Digit(n % 10)]
  }

  /** Exactly `k` digits. */
  function Padded(n: nat, k: nat): (text: string)
    requires n < Pow10(k)
    ensures |text| == k
    decreases k
  {
    if k == 0 then []
    else
      var p := Pow10(k - 1);
      QuotientBelow(n, p, 10);
      Division(n, p);
      [Digit(Quotient(n, p))] + Padded(Remainder(n, p), k - 1)
  }

  function Abs(value: int): nat { if value < 0 then -value else value }

  function Whole(value: int, k: nat): string {
    Decimal(Quotient(Abs(value), Pow10(k)))
  }

  function Part(value: int, k: nat): string {
    Division(Abs(value), Pow10(k));
    Padded(Remainder(Abs(value), Pow10(k)), k)
  }

  /** An optional sign, the whole part, and for `k > 0` a point and `k` places. */
  function Fixed(value: int, k: nat): string {
    SignOf(value) + (Whole(value, k) + if k == 0 then "" else "." + Part(value, k))
  }

  function SignOf(value: int): string { if value < 0 then "-" else "" }

  /** Where each part of the text stands. */
  lemma FixedShape(value: int, k: nat)
    ensures
      var text, s, whole := Fixed(value, k), |SignOf(value)|, Whole(value, k);
      var end := s + |whole|;
      && |text| == (if k == 0 then end else end + 1 + k)
      && text[..s] == SignOf(value) && text[s..][..|whole|] == whole
      && (k == 0 ==> text[s..] == whole)
      && (k != 0 ==> text[end] == '.' && text[end + 1..] == Part(value, k))
  {
    hide Decimal, Padded, Quotient, Remainder;
    var whole, tail := Whole(value, k), if k == 0 then "" else "." + Part(value, k);
    assert Fixed(value, k) == SignOf(value) + (whole + tail);
    assert (whole + tail)[..|whole|] == whole;
  }

  // ----- The code --------------------------------------------------------------------------------

  class Display {
    const finalBuffer: array<char>

    ghost predicate Valid() {
      finalBuffer.Length == BUFFER_SIZE
    }

    constructor ()
      ensures Valid() && fresh(finalBuffer)
    {
      finalBuffer := new char[BUFFER_SIZE](_ => '\0');
    }

    /** A loop of 32-bit multiplications, which wrap beyond ten digits. */
    static method ComputePow10(exp: nat) returns (result: nat)
      ensures result == Pow10(exp) % UINT32
      ensures exp <= MAX_FRACTION ==> result == Pow10(exp)
    {
      result := 1;
      var left := exp;
      while left > 0
        invariant 0 <= left <= exp && result == Pow10(exp - left) % UINT32
      {
        TenfoldWraps(Pow10(exp - left));
        result := result * 10 % UINT32;
        left := left - 1;
      }
      PowersOfTen();
      if exp <= MAX_FRACTION {
        Pow10Monotone(exp, 9);
      }
    }

    /** The digits of `n`, lowest first. */
    static method SplitDigits(n: nat, digits: array<char>) returns (count: nat)
      requires n < UINT32 && digits.Length == DIGIT_BUFFER
      modifies digits
      ensures 1 <= count <= 10 && digits[..count] == Reversed(Decimal(n))
    {
      PowersOfTen();
      NothingLeft(n);
      hide Pow10, Decimal, Reversed, Digit, RestReversed;
      count := 0;
      if n == 0 {
        digits[0] := '0';
        count := 1;
        assert digits[..1] == ['0'];
        return;
      }
      var rest: nat := n;
      while rest > 0 && count < digits.Length
        invariant count <= 10 && rest < Pow10(10 - count)
        invariant rest == 0 ==> count > 0
        invariant RestReversed(n) == digits[..count] + RestReversed(rest)
      {
        SplitStep(rest, count);
        StoreDigit(digits, count, rest % 10);
        rest := rest / 10;
        count := count + 1;
      }
    }

    static method StoreDigit(digits: array<char>, i: nat, d: nat)
      requires i < digits.Length && d < 10
      modifies digits
      ensures digits[..i + 1] == old(digits[..i]) + [Digit(d)]
    {
      digits[i] := Digit(d);
    }

    /** Sign, whole part, point and places, with the firmware's guards against running past the end of the
        buffer. */
    method WriteFixed(value: int32, fracDigits: nat) returns (length: nat)
      requires Valid()
      modifies finalBuffer
      ensures length <= 12 && finalBuffer[..length] == Fixed(value as int, if fracDigits > 9 then 9 else fracDigits)
      ensures finalBuffer[length] == '\0'
      ensures finalBuffer[length + 1..] == old(finalBuffer[..])[length + 1..]
    {
      hide Remainder, Decimal, Padded, Pow10, Reversed, Fixed;
      var frac := if fracDigits > 9 then 9 else fracDigits;
      FixedShape(value as int, frac);
      LengthBound(value as int, frac);
      ghost var total := Fixed(value as int, frac);
      ghost var whole := Whole(value as int, frac);
      hide Whole;
      var index, absValue := PutSign(value);
      assert finalBuffer[..index] == total[..index];
      var divisor := ComputePow10(frac);
      var digits := new char[DIGIT_BUFFER];
      var count := SplitWhole(value, absValue, divisor, frac, digits);
      index := PutWhole(digits, count, index, whole, total);
      index := PutFraction(value, absValue, divisor, index, frac, total);
      finalBuffer[index] := '\0';
      length := index;
    }

    /** The sign, and the absolute value by a detour that does not overflow. */
    method PutSign(value: int32) returns (index: nat, absValue: nat)
      requires Valid()
      modifies finalBuffer
      ensures index <= 1 && finalBuffer[..index] == SignOf(value as int) && absValue == Abs(value as int)
      ensures forall k :: index <= k < BUFFER_SIZE ==> finalBuffer[k] == old(finalBuffer[k])
    {
      index := 0;
      if value < 0 {
        if index < BUFFER_SIZE - 1 {
          finalBuffer[index] := '-';
          index := index + 1;
        }
        absValue := (-(value + 1)) as int + 1;
      } else {
        absValue := value as int;
      }
    }

    /** The digits of the whole part, lowest first. */
    static method SplitWhole(value: int32, absValue: nat, divisor: nat, frac: nat, digits: array<char>)
      returns (count: nat)
      requires absValue == Abs(value as int) && divisor == Pow10(frac) && digits.Length == DIGIT_BUFFER
      modifies digits
      ensures count <= digits.Length && digits[..count] == Reversed(Whole(value as int, frac))
    {
      hide Remainder, Decimal, Pow10, Reversed;
      Division(absValue, divisor);
      AtMostWhole(absValue, divisor);
      count := SplitDigits(Quotient(absValue, divisor), digits);
    }

    /** The digits of the whole part, taken from the back of the digit buffer. */
    method PutWhole(digits: array<char>, digitCount: nat, start: nat, ghost whole: string, ghost total: string)
      returns (index: nat)
      requires Valid() && digits != finalBuffer && digitCount <= digits.Length
      requires digits[..digitCount] == Reversed(whole)
      requires start + |whole| <= |total| <= 12 && total[start..][..|whole|] == whole
      requires finalBuffer[..start] == total[..start]
      modifies finalBuffer
      ensures index == start + |whole| && finalBuffer[..index] == total[..index]
      ensures forall k :: index <= k < BUFFER_SIZE ==> finalBuffer[k] == old(finalBuffer[k])
    {
      index := start;
      var count := digitCount;
      while count > 0 && index < BUFFER_SIZE - 1
        invariant 0 <= count <= digitCount && index - start + count == |whole| && start <= index
        invariant digits[..count] == Reversed(whole[index - start..])
        invariant finalBuffer[..index] == total[..index]
        invariant forall k :: index <= k < BUFFER_SIZE ==> finalBuffer[k] == old(finalBuffer[k])
      {
        ghost var rest := whole[index - start..];
        ReversedLast(rest);
        count := count - 1;
        finalBuffer[index] := digits[count];
        assert rest[1..] == whole[index - start + 1..];
        assert total[index] == total[start..][..|whole|][index - start] == rest[0];
        index := index + 1;
      }
    }

    /** The point and the places after it, if any are asked for. */
    method PutFraction(value: int32, absValue: nat, divisor: nat, start: nat, frac: nat, ghost total: string)
      returns (index: nat)
      requires Valid() && absValue == Abs(value as int) && divisor == Pow10(frac) && |total| <= 12
      requires total == Fixed(value as int, frac)
      requires start == |SignOf(value as int)| + |Whole(value as int, frac)|
      requires start <= |total| && finalBuffer[..start] == total[..start]
      modifies finalBuffer
      ensures index == |total| && finalBuffer[..index] == total
      ensures forall k :: index <= k < BUFFER_SIZE ==> finalBuffer[k] == old(finalBuffer[k])
    {
      FixedShape(value as int, frac);
      Division(absValue, divisor);
      Tenth(frac);
      hide Remainder, Padded, Pow10, Fixed, Whole;
      index := start;
      if frac > 0 && index < BUFFER_SIZE - 1 {
        finalBuffer[index] := '.';
        index := index + 1;
        assert finalBuffer[..index] == total[..index];
        index := PutPart(Remainder(absValue, divisor), divisor / 10, index, frac, total);
      }
      assert total[..index] == total;
    }

    /** The places after the point. */
    method PutPart(fraction: nat, firstDiv: nat, start: nat, ghost places: nat, ghost total: string)
      returns (index: nat)
      requires Valid() && 0 < places && start + places == |total| <= 12
      requires fraction < Pow10(places) && firstDiv == Pow10(places - 1)
      requires total[start..] == Padded(fraction, places)
      requires finalBuffer[..start] == total[..start]
      modifies finalBuffer
      ensures index == |total| && finalBuffer[..index] == total
      ensures forall k :: index <= k < BUFFER_SIZE ==> finalBuffer[k] == old(finalBuffer[k])
    {
      hide Quotient, Remainder, Padded, Pow10, Digit;
      index := start;
      var fractionalPart: nat, tempDiv: nat := fraction, firstDiv;
      ghost var left: nat := places;
      while tempDiv > 0 && index < BUFFER_SIZE - 1
        invariant 0 <= left <= places && index + left == |total|
        invariant tempDiv == if left == 0 then 0 else Pow10(left - 1)
        invariant fractionalPart < Pow10(left) && total[index..] == Padded(fractionalPart, left)
        invariant finalBuffer[..index] == total[..index]
        invariant forall k :: index <= k < BUFFER_SIZE ==> finalBuffer[k] == old(finalBuffer[k])
      {
        PaddedStep(fractionalPart, left);
        ghost var rest := total[index..];
        finalBuffer[index] := Digit(Quotient(fractionalPart, tempDiv));
        assert rest[1..] == total[index + 1..] && rest[0] == total[index];
        fractionalPart := Remainder(fractionalPart, tempDiv);
        tempDiv := tempDiv / 10;
        left := left - 1;
        index := index + 1;
      }
      assert total[..index] == total;
    }
  }

  // ----- Reversal and lengths ------------------------------------------------------------------------

  function Reversed(s: string): (r: string)
    ensures |r| == |s|
  {
    if s == [] then [] else Reversed(s[1..]) + [s[0]]
  }

  lemma {:induction false} ReversedAppend(s: string, c: char)
    ensures Reversed(s + [c]) == [c] + Reversed(s)
  {
    if s == [] {
      assert s + [c] == [c];
    } else {
      assert (s + [c])[1..] == s[1..] + [c];
      ReversedAppend(s[1..], c);
    }
  }

  lemma NothingLeft(n: nat)
    ensures RestReversed(0) == [] && (n > 0 ==> RestReversed(n) == Reversed(Decimal(n)))
    ensures Reversed(Decimal(0)) == ['0']
  {}

  /** One round of splitting digits. */
  lemma SplitStep(rest: nat, count: nat)
    requires rest > 0 && count <= 10 && rest < Pow10(10 - count)
    ensures count <= 9 && rest / 10 < Pow10(9 - count)
    ensures RestReversed(rest) == [Digit(rest % 10)] + RestReversed(rest / 10)
  {
    ReversedDecimal(rest);
    assert Pow10(10 - count) == if count == 10 then 1 else 10 * Pow10(9 - count);
  }

  lemma Tenth(k: nat)
    ensures k > 0 ==> Pow10(k) / 10 == Pow10(k - 1)
  {}

  lemma PaddedStep(n: nat, k: nat)
    requires 0 < k && n < Pow10(k)
    ensures Pow10(k - 1) > 0 && Quotient(n, Pow10(k - 1)) < 10 && Remainder(n, Pow10(k - 1)) < Pow10(k - 1)
    ensures Padded(n, k) == [Digit(Quotient(n, Pow10(k - 1)))] + Padded(Remainder(n, Pow10(k - 1)), k - 1)
    ensures Pow10(k - 1) / 10 == if k == 1 then 0 else Pow10(k - 2)
  {
    hide Quotient, Remainder;
    QuotientBelow(n, Pow10(k - 1), 10);
    Division(n, Pow10(k - 1));
  }

  /** The digits still to be split off. */
  function RestReversed(n: nat): string {
    if n == 0 then [] else Reversed(Decimal(n))
  }

  lemma ReversedDecimal(n: nat)
    ensures Reversed(Decimal(n)) == [Digit(n % 10)] + RestReversed(n / 10)
  {
    if n >= 10 {
      ReversedAppend(Decimal(n / 10), Digit(n % 10));
    }
  }

  lemma ReversedLast(s: string)
    requires s != []
    ensures Reversed(s)[|s| - 1] == s[0] && Reversed(s)[..|s| - 1] == Reversed(s[1..])
  {}

  lemma PowersOfTen()
    ensures Pow10(9) == 1000000000 && Pow10(10) == 10000000000
  {
    assert Pow10(3) == 1000;
    assert Pow10(6) == 1000000;
  }

  lemma TenfoldWraps(p: nat)
    ensures 10 * p % UINT32 == p % UINT32 * 10 % UINT32
  {
    var q, r := p / UINT32, p % UINT32;
    assert p == r + UINT32 * q;
    WrapsAway(r * 10, 10 * q);
  }

  lemma WrapsAway(n: nat, k: nat)
    ensures (n + UINT32 * k) % UINT32 == n % UINT32
  {}

  lemma AtMostWhole(n: nat, p: nat)
    requires p > 0
    ensures Quotient(n, p) <= n
  {
    QuotientBelow(n, p, n + 1);
  }

  lemma {:induction false} Pow10Monotone(a: nat, b: nat)
    requires a <= b
    ensures Pow10(a) <= Pow10(b)
  {
    if a < b {
      Pow10Monotone(a, b - 1);
    }
  }

  /** A number below 10^d has at most d digits. */
  lemma {:induction false} DecimalLength(n: nat, d: nat)
    requires d >= 1 && n < Pow10(d)
    ensures |Decimal(n)| <= d
  {
    if n >= 10 {
      DecimalLength(n / 10, d - 1);
    }
  }

  lemma {:induction false} Pow10Sum(a: nat, b: nat)
    ensures Pow10(a + b) == Pow10(a) * Pow10(b)
  {
    if a != 0 {
      Pow10Sum(a - 1, b);
      Tenfold(Pow10(b), Pow10(a - 1));
      assert Pow10(a + b) == 10 * Pow10(a - 1 + b);
    }
  }

  /** The text is short of the buffer: at most a sign, ten digits and a point. */
  lemma LengthBound(value: int, k: nat)
    requires INT32_MIN <= value <= INT32_MAX && k <= MAX_FRACTION
    ensures |Fixed(value, k)| <= 12
  {
    PowersOfTen();
    Pow10Sum(10 - k, k);
    QuotientBelow(Abs(value), Pow10(k), Pow10(10 - k));
    DecimalLength(Quotient(Abs(value), Pow10(k)), 10 - k);
  }

  // ----- Reading the text back -----------------------------------------------------------------------

  predicate IsDigit(c: char) { '0' <= c <= '9' }

  ghost predicate AllDigits(s: string) {
    forall i :: 0 <= i < |s| ==> IsDigit(s[i])
  }

  /** The number a string of digits denotes. */
  function NumberOf(s: string): int {
    if s == [] then 0 else 10 * NumberOf(s[..|s| - 1]) + (s[|s| - 1] as int - '0' as int)
  }

  /** The index of the first point, or the length. */
  function PointIn(s: string): (p: nat)
    ensures p <= |s|
  {
    if s == [] || s[0] == '.' then 0 else 1 + PointIn(s[1..])
  }

  datatype Reading = Malformed | Reading(mantissa: int, scale: nat)

  /** Reads `[-]digits[.digits]` as a mantissa and the number of places after the point. */
  ghost function Parse(text: string): Reading {
    var negative := text != [] && text[0] == '-';
    var body := if negative then text[1..] else text;
    var p := PointIn(body);
    var whole, part := body[..p], if p < |body| then body[p + 1..] else [];
    if whole == [] || !AllDigits(whole) || !AllDigits(part) || (p < |body| && part == []) then Malformed
    else Reading((if negative then -1 else 1) * NumberOf(whole + part), |part|)
  }

  lemma {:induction false} DecimalDigits(n: nat)
    ensures AllDigits(Decimal(n)) && NumberOf(Decimal(n)) == n
  {
    if n < 10 {
      assert NumberOf(Decimal(n)[..0]) == 0;
    } else {
      DecimalDigits(n / 10);
      assert Decimal(n)[..|Decimal(n)| - 1] == Decimal(n / 10);
    }
  }

  lemma {:induction false} NumberOfConcat(a: string, b: string)
    ensures NumberOf(a + b) == NumberOf(a) * Pow10(|b|) + NumberOf(b)
  {
    if b == [] {
      assert a + b == a;
    } else {
      var n := |b| - 1;
      assert (a + b)[..|a + b| - 1] == a + b[..n];
      NumberOfConcat(a, b[..n]);
      Tenfold(NumberOf(a), Pow10(n));
    }
  }

  lemma Tenfold(x: int, p: int)
    ensures 10 * (x * p) == x * (10 * p)
  {}

  lemma {:induction false} PaddedDigits(n: nat, k: nat)
    requires n < Pow10(k)
    ensures AllDigits(Padded(n, k)) && NumberOf(Padded(n, k)) == n
    decreases k
  {
    SingleDigits();
    if k != 0 {
      PaddedStep(n, k);
      hide Quotient, Remainder, Padded, Pow10, NumberOf, Digit;
      var p := Pow10(k - 1);
      var d, r := Quotient(n, p), Remainder(n, p);
      PaddedDigits(r, k - 1);
      NumberOfConcat([Digit(d)], Padded(r, k - 1));
      Division(n, p);
    }
  }

  lemma SingleDigits()
    ensures forall d: nat :: d < 10 ==> IsDigit(Digit(d)) && NumberOf([Digit(d)]) == d
    ensures NumberOf("") == 0 && AllDigits("") && Pow10(0) == 1
  {
    forall d: nat | d < 10 ensures NumberOf([Digit(d)]) == d {
      assert [Digit(d)][..0] == [];
    }
  }

  lemma {:induction false} PointAfterDigits(a: string, b: string)
    requires AllDigits(a) && (b == [] || b[0] == '.')
    ensures PointIn(a + b) == |a|
  {
    if a == [] {
      assert a + b == b;
    } else {
      assert IsDigit(a[0]);
      assert (a + b)[1..] == a[1..] + b;
      PointAfterDigits(a[1..], b);
    }
  }

  lemma ParsesText(negative: bool, whole: string, part: string)
    requires whole != [] && AllDigits(whole) && AllDigits(part)
    ensures
      var text := (if negative then "-" else "") + (whole + if part == [] then [] else "." + part);
      Parse(text) == Reading((if negative then -1 else 1) * NumberOf(whole + part), |part|)
  {
    hide NumberOf, PointIn, AllDigits;
    var tail := if part == [] then [] else "." + part;
    var body := whole + tail;
    var text := (if negative then "-" else "") + body;
    FirstDigit(whole);
    assert if negative then text[1..] == body else text == body && text[0] == whole[0];
    PointAfterDigits(whole, tail);
    assert body[..|whole|] == whole;
    assert part != [] ==> body[|whole| + 1..] == part;
  }

  /** Print/parse round trip: for every 32-bit value, INT32_MIN included, the text reads back as exactly
      that value at the scale asked for (at most nine places). */
  lemma RoundTrip(value: int, k: nat)
    requires INT32_MIN <= value <= INT32_MAX
    ensures Parse(Fixed(value, k)) == Reading(value, k)
  {
    hide Quotient, Remainder, Decimal, Padded, NumberOf, Parse, Pow10, AllDigits;
    var n, p := Abs(value), Pow10(k);
    var whole := Whole(value, k);
    var part := if k == 0 then "" else Part(value, k);
    Division(n, p);
    DecimalDigits(Quotient(n, p));
    assert AllDigits(part) && NumberOf(part) == Remainder(n, p) && |part| == k by {
      if k == 0 {
        SingleDigits();
      } else {
        PaddedDigits(Remainder(n, p), k);
      }
    }
    ParsesText(value < 0, whole, part);
    NumberOfConcat(whole, part);
  }

  lemma FirstDigit(s: string)
    requires s != [] && AllDigits(s)
    ensures IsDigit(s[0])
  {}

  /** Different values never print alike at the same scale. */
  lemma TextDetermines(a: int, b: int, k: nat)
    requires INT32_MIN <= a <= INT32_MAX && INT32_MIN <= b <= INT32_MAX
    requires Fixed(a, k) == Fixed(b, k)
    ensures a == b
  {
    RoundTrip(a, k);
    RoundTrip(b, k);
  }

  // ----- The one text for a value ------------------------------------------------------------------------------

  /** No superfluous leading zero, and no sign on zero. */
  ghost predicate Canonical(text: string) {
    var negative := text != [] && text[0] == '-';
    var body := if negative then text[1..] else text;
    var whole := body[..PointIn(body)];
    && (|whole| > 1 ==> whole[0] != '0')
    && (negative ==> Parse(text) != Malformed && Parse(text).mantissa != 0)
  }

  lemma {:induction false} NumberBelow(s: string)
    requires AllDigits(s)
    ensures 0 <= NumberOf(s) < Pow10(|s|)
  {
    if s != [] {
      var n := |s| - 1;
      NumberBelow(s[..n]);
      assert IsDigit(s[n]);
    }
  }

  lemma {:induction false} NumberAtLeast(s: string)
    requires AllDigits(s) && s != [] && s[0] != '0'
    ensures NumberOf(s) >= Pow10(|s| - 1)
  {
    var n := |s| - 1;
    assert IsDigit(s[n]) && IsDigit(s[0]);
    if n > 0 {
      NumberAtLeast(s[..n]);
    } else {
      assert s[..0] == [];
    }
  }

  /** Digit strings of one length are told apart by their numbers. */
  lemma {:induction false} NumberInjective(a: string, b: string)
    requires AllDigits(a) && AllDigits(b) && |a| == |b| && NumberOf(a) == NumberOf(b)
    ensures a == b
  {
    if a != [] {
      var n := |a| - 1;
      assert IsDigit(a[n]) && IsDigit(b[n]);
      NumberInjective(a[..n], b[..n]);
      assert a == a[..n] + [a[n]] && b == b[..n] + [b[n]];
    }
  }

  lemma LongerIsLarger(long: string, short: string)
    requires AllDigits(long) && AllDigits(short) && |long| > |short| && long[0] != '0'
    ensures NumberOf(long) > NumberOf(short)
  {
    hide NumberOf, Pow10, AllDigits;
    NumberAtLeast(long);
    NumberBelow(short);
    Pow10Monotone(|short|, |long| - 1);
  }

  lemma SamePieces(whole: string, part: string, other: string, rest: string)
    requires AllDigits(whole) && AllDigits(part) && AllDigits(other) && AllDigits(rest)
    requires |part| == |rest| && |whole| >= 1 && |other| >= 1
    requires |whole| > 1 ==> whole[0] != '0'
    requires |other| > 1 ==> other[0] != '0'
    requires NumberOf(whole + part) == NumberOf(other + rest)
    ensures whole == other && part == rest
  {
    hide NumberOf;
    if |whole| > |other| {
      LongerIsLarger(whole + part, other + rest);
    } else if |whole| < |other| {
      LongerIsLarger(other + rest, whole + part);
    } else {
      NumberInjective(whole + part, other + rest);
      assert whole == (whole + part)[..|whole|] && other == (other + rest)[..|other|];
      assert part == (whole + part)[|whole|..] && rest == (other + rest)[|other|..];
    }
  }

  /** A well-formed text taken apart. */
  lemma TextPieces(text: string) returns (negative: bool, whole: string, part: string)
    requires Parse(text) != Malformed
    ensures whole != [] && AllDigits(whole) && AllDigits(part)
    ensures text == (if negative then "-" else "") + (whole + if part == [] then [] else "." + part)
    ensures Parse(text) == Reading((if negative then -1 else 1) * NumberOf(whole + part), |part|)
    ensures Canonical(text) ==> (|whole| > 1 ==> whole[0] != '0') && (negative ==> NumberOf(whole + part) != 0)
    ensures negative == (text[0] == '-')
  {
    hide NumberOf, AllDigits, PointIn;
    negative := text != [] && text[0] == '-';
    var body := if negative then text[1..] else text;
    var p := PointIn(body);
    whole, part := body[..p], if p < |body| then body[p + 1..] else [];
    PointIsPoint(body);
    BodyPieces(body, p);
  }

  lemma BodyPieces(body: string, p: nat)
    requires p <= |body| && (p < |body| ==> body[p] == '.')
    ensures body == body[..p] + if p < |body| then "." + body[p + 1..] else []
  {}

  lemma {:induction false} PointIsPoint(s: string)
    ensures PointIn(s) <= |s| && (PointIn(s) < |s| ==> s[PointIn(s)] == '.')
  {
    if s != [] && s[0] != '.' {
      PointIsPoint(s[1..]);
    }
  }

  /** The display's text for a value is the only canonical text that reads as it: no sign on zero, and no zero
      in front that is not needed. */
  lemma OnlyText(value: int, k: nat, text: string)
    requires INT32_MIN <= value <= INT32_MAX
    requires Canonical(text) && Parse(text) == Reading(value, k)
    ensures text == Fixed(value, k)
  {
    FixedIsCanonical(value, k);
    hide Parse, Fixed, NumberOf, Canonical, AllDigits;
    RoundTrip(value, k);
    var negative, whole, part := TextPieces(text);
    var minus, other, rest := TextPieces(Fixed(value, k));
    NumberIsNatural(whole + part, whole, part);
    NumberIsNatural(other + rest, other, rest);
    SamePieces(whole, part, other, rest);
  }

  lemma NumberIsNatural(s: string, a: string, b: string)
    requires s == a + b && AllDigits(a) && AllDigits(b)
    ensures NumberOf(s) >= 0
  {
    hide NumberOf;
    NumberBelow(s);
  }

  lemma {:induction false} DecimalIsPlain(n: nat)
    ensures n >= 10 ==> Decimal(n)[0] != '0'
    ensures n < 10 ==> |Decimal(n)| == 1
    ensures n > 0 ==> Decimal(n)[0] != '0'
  {
    if n >= 10 {
      DecimalIsPlain(n / 10);
    }
  }

  /** The minus sign stands for negative values alone. */
  lemma FixedIsCanonical(value: int, k: nat)
    requires INT32_MIN <= value <= INT32_MAX
    ensures Canonical(Fixed(value, k))
    ensures Fixed(value, k)[0] == '-' <==> value < 0
  {
    var n := Abs(value);
    Division(n, Pow10(k));
    DecimalDigits(Quotient(n, Pow10(k)));
    DecimalIsPlain(Quotient(n, Pow10(k)));
    RoundTrip(value, k);
    hide Quotient, Remainder, Decimal, Padded, NumberOf, Parse, Pow10, PointIn;
    var whole := Whole(value, k);
    var tail := if k == 0 then "" else "." + Part(value, k);
    FirstDigit(whole);
    PointAfterDigits(whole, tail);
    var text := Fixed(value, k);
    assert text == SignOf(value) + (whole + tail);
    assert (whole + tail)[..|whole|] == whole;
    assert value < 0 ==> text[1..] == whole + tail;
    assert value >= 0 ==> text == whole + tail && text[0] == whole[0];
  }
}
