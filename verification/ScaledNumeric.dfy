/**
 * Placing the decimal point in a decoded numeral
 * (handle_base64_to_numeric_with_scale in src/backend/converter/format_converter.c).
 * The numeral goes through a 128-byte buffer, so only 127 digits survive, and a
 * negative scale is treated as zero; the contract says exactly when the result
 * still denotes the number.
 */
module ScaledNumeric {

  import opened Positional
  import opened DecimalDecode

  const BUFFER_SIZE: nat := 128

  // ------------------------------------- how a decimal numeral is read back

  datatype Decimal = Decimal(unscaled: int, scale: nat)

  function DotAt(s: string): (n: nat)
    ensures n <= |s|
    ensures '.' !in s[..n]
    ensures n < |s| ==> s[n] == '.'
  {
    if s == "" || s[0] == '.' then 0 else
      var n := DotAt(s[1..]);
      assert s[..n + 1] == [s[0]] + s[1..][..n];
      n + 1
  }

  function IntegerPart(s: string): string {
    Unsigned(s)[..DotAt(Unsigned(s))]
  }

  function FractionPart(s: string): string {
    var body := Unsigned(s);
    if DotAt(body) < |body| then body[DotAt(body) + 1..] else ""
  }

  /** Digits, then at most one point with digits behind it; an optional minus sign. */
  predicate IsDecimal(s: string) {
    && IntegerPart(s) != "" && AllDigits(IntegerPart(s)) && AllDigits(FractionPart(s))
    && (DotAt(Unsigned(s)) < |Unsigned(s)| ==> FractionPart(s) != "")
  }

  function Read(s: string): Decimal
    requires IsDecimal(s)
  {
    var digits := IntegerPart(s) + FractionPart(s);
    var m := Magnitude(digits);
    Decimal(if s[0] == '-' then -(m as int) else m, |FractionPart(s)|)
  }

  /** d is the number v / 10^scale, written without fractions or negative powers. */
  predicate Denotes(d: Decimal, v: int, scale: int) {
    if scale >= 0 then d.unscaled * Pow(10, scale) == v * Pow(10, d.scale)
    else d.unscaled == v * Pow(10, d.scale - scale)
  }

  // ------------------------------------------------------------- the writer

  function Zeros(n: nat): (s: string)
    ensures |s| == n && forall i :: 0 <= i < n ==> s[i] == '0'
  {
    seq(n, i => '0')
  }

  ghost predicate ReadsAs(s: string, isneg: bool, magnitude: nat, fraction: nat) {
    && IsDecimal(s) && Read(s).scale == fraction
    && Read(s).unscaled == if isneg then -(magnitude as int) else magnitude
  }

  function Sign(isneg: bool): string {
    if isneg then "-" else ""
  }

  /** The four layouts: point inside, point at the front, zero fill, and no point. */
  method PlacePoint(isneg: bool, buffer: string, scale: int) returns (s: string)
    requires buffer != "" && AllDigits(buffer)
    ensures ReadsAs(s, isneg, Magnitude(buffer), if scale > 0 then scale else 0)
  {
    if scale > 0 {
      if |buffer| > scale {
        var decimalpos := |buffer| - scale;
        s := Sign(isneg) + buffer[..decimalpos] + "." + buffer[decimalpos..];
        PointInside(isneg, buffer, decimalpos, s);
      } else if |buffer| == scale {
        s := Sign(isneg) + "0" + "." + buffer;
        assert buffer == Zeros(0) + buffer;
        ZeroFilled(isneg, buffer, 0, s);
      } else {
        var zeroCount := scale - |buffer|;
        var zeros := "";
        for i := 0 to zeroCount
          invariant zeros == Zeros(i)
        {
          zeros := zeros + "0";
        }
        s := Sign(isneg) + "0" + "." + (zeros + buffer);
        ZeroFilled(isneg, buffer, zeroCount, s);
      }
    } else {
      s := Sign(isneg) + buffer;
      NoPoint(isneg, buffer, s);
    }
  }

  lemma FindPoint(whole: string, tail: string)
    requires AllDigits(whole)
    ensures DotAt(whole + "." + tail) == |whole|
  {
    var s := whole + "." + tail;
    var n := DotAt(s);
    assert forall k :: 0 <= k < |whole| ==> s[k] == whole[k] != '.';
    assert s[|whole|] == '.';
  }

  lemma Parts(isneg: bool, whole: string, fraction: string, s: string)
    requires whole != "" && AllDigits(whole)
    requires s == Sign(isneg) + whole + "." + fraction
    ensures s[0] == '-' <==> isneg
    ensures IntegerPart(s) == whole && FractionPart(s) == fraction
    ensures DotAt(Unsigned(s)) < |Unsigned(s)|
  {
    FindPoint(whole, fraction);
    assert whole[0] != '-';
    assert Unsigned(s) == whole + "." + fraction;
  }

  lemma ReadBack(isneg: bool, whole: string, fraction: string, s: string)
    requires whole != "" && fraction != "" && AllDigits(whole) && AllDigits(fraction)
    requires s == Sign(isneg) + whole + "." + fraction
    ensures ReadsAs(s, isneg, Magnitude(whole + fraction), |fraction|)
  {
    Parts(isneg, whole, fraction, s);
  }

  lemma PointInside(isneg: bool, buffer: string, at: nat, s: string)
    requires 0 < at < |buffer| && AllDigits(buffer)
    requires s == Sign(isneg) + buffer[..at] + "." + buffer[at..]
    ensures ReadsAs(s, isneg, Magnitude(buffer), |buffer| - at)
  {
    ReadBack(isneg, buffer[..at], buffer[at..], s);
    assert buffer[..at] + buffer[at..] == buffer;
  }

  lemma ZeroFilled(isneg: bool, buffer: string, zeros: nat, s: string)
    requires buffer != "" && AllDigits(buffer)
    requires s == Sign(isneg) + "0" + "." + (Zeros(zeros) + buffer)
    ensures ReadsAs(s, isneg, Magnitude(buffer), zeros + |buffer|)
  {
    ZerosInFront(zeros, buffer);
    ReadBack(isneg, "0", Zeros(zeros) + buffer, s);
  }

  lemma ZerosInFront(zeros: nat, buffer: string)
    requires AllDigits(buffer)
    ensures AllDigits(Zeros(zeros) + buffer) && AllDigits("0" + (Zeros(zeros) + buffer))
    ensures Magnitude("0" + (Zeros(zeros) + buffer)) == Magnitude(buffer)
  {
    PaddedMagnitude(Zeros(zeros), buffer);
    PaddedMagnitude("0", Zeros(zeros) + buffer);
  }

  lemma NoPoint(isneg: bool, buffer: string, s: string)
    requires buffer != "" && AllDigits(buffer) && s == Sign(isneg) + buffer
    ensures ReadsAs(s, isneg, Magnitude(buffer), 0)
  {
    assert Unsigned(s) == buffer;
    assert DotAt(buffer) == |buffer|;
    assert IntegerPart(s) + FractionPart(s) == buffer;
  }

  lemma PaddedMagnitude(zeros: string, digits: string)
    requires AllDigits(digits) && forall i :: 0 <= i < |zeros| ==> zeros[i] == '0'
    ensures AllDigits(zeros + digits) && Magnitude(zeros + digits) == Magnitude(digits)
  {
    assert DigitsOf(zeros + digits) == DigitsOf(zeros) + DigitsOf(digits);
    LeadingZeros(10, DigitsOf(zeros), DigitsOf(digits));
  }

  // ------------------------------------------------------- the whole handler

  /** v has at most n decimal digits. */
  predicate FitsDigits(v: int, n: nat) {
    (if v < 0 then -v else v) < Pow(10, n)
  }

  /**
   * The result always reads back with exactly max(scale, 0) fractional digits;
   * it is the number v / 10^scale if and only if v has at most 127 digits and
   * the scale is not negative (or v is zero).
   */
  method NumericWithScale(bytes: array<byte>, len: nat, scale: int) returns (s: string)
    requires 0 < bytes.Length && len <= bytes.Length
    ensures IsDecimal(s) && Read(s).scale == if scale > 0 then scale else 0
    ensures Denotes(Read(s), TwosComplement(bytes[..len]), scale) <==>
      FitsDigits(TwosComplement(bytes[..len]), BUFFER_SIZE - 1) &&
      (scale >= 0 || TwosComplement(bytes[..len]) == 0)
  {
    var value := DeriveDecimalString(bytes, len);
    var isneg := value[0] == '-';
    var digits := if isneg then value[1..] else value;
    var size := BUFFER_SIZE;
    var buffer := if |digits| < size then digits else digits[..size - 1];
    s := PlacePoint(isneg, buffer, scale);
    ExactWhenItFits(value, digits, buffer, size - 1, s, scale);
  }

  lemma ExactWhenItFits(value: string, digits: string, buffer: string, cap: nat, s: string, scale: int)
    requires Canonical(value) && digits == Unsigned(value)
    requires cap > 0 && buffer == if |digits| <= cap then digits else digits[..cap]
    requires ReadsAs(s, value[0] == '-', Magnitude(buffer), if scale > 0 then scale else 0)
    ensures Denotes(Read(s), NumeralValue(value), scale) <==>
      FitsDigits(NumeralValue(value), cap) && (scale >= 0 || NumeralValue(value) == 0)
  {
    Truncation(digits, cap, buffer);
    WhenExact(Read(s), NumeralValue(value), scale, Magnitude(digits), Magnitude(buffer), cap);
  }

  /** What is left of a canonical digit string after cutting it to `cap` characters. */
  lemma Truncation(digits: string, cap: nat, buffer: string)
    requires digits != "" && AllDigits(digits) && (digits == "0" || digits[0] != '0')
    requires cap > 0 && buffer == if |digits| <= cap then digits else digits[..cap]
    ensures Magnitude(buffer) <= Magnitude(digits)
    ensures Magnitude(buffer) == Magnitude(digits) <==> FitsDigits(Magnitude(digits), cap)
  {
    var ds := DigitsOf(digits);
    if |digits| <= cap {
      ValueBelowPow(10, ds);
      if |digits| < cap {
        PowGrows(10, |digits|, cap);
      }
    } else {
      assert DigitsOf(buffer) == ds[..cap];
      CutValue(ds, cap);
    }
  }

  lemma CutValue(ds: seq<nat>, cap: nat)
    requires DigitsBelow(10, ds) && 0 < cap < |ds| && ds[0] > 0
    ensures Value(10, ds[..cap]) < Value(10, ds) && Value(10, ds) >= Pow(10, cap)
  {
    assert Value(10, ds) >= Pow(10, cap) by {
      LeadingDigit(10, ds);
      if |ds| - 1 > cap {
        PowGrows(10, cap, |ds| - 1);
      }
    }
    var head, tail := ds[..cap], ds[cap..];
    assert Value(10, ds) == Value(10, head) * Pow(10, |tail|) + Value(10, tail) by {
      assert ds == head + tail;
      ValueOfConcat(10, head, tail);
    }
    assert Value(10, head) > 0 by {
      LeadingDigit(10, head);
    }
    assert Pow(10, |tail|) > 1 by {
      PowGrows(10, 0, |tail|);
    }
    ProperMultiple(Value(10, head), Pow(10, |tail|));
  }

  lemma ProperMultiple(h: nat, p: nat)
    requires h > 0 && p > 1
    ensures h * p > h
  {
  }

  lemma WhenExact(d: Decimal, v: int, scale: int, full: int, kept: int, cap: nat)
    requires d.scale == if scale > 0 then scale else 0
    requires (v == full && d.unscaled == kept) || (v == -full && d.unscaled == -kept)
    requires 0 <= kept <= full
    requires kept == full <==> FitsDigits(full, cap)
    ensures Denotes(d, v, scale) <==> FitsDigits(v, cap) && (scale >= 0 || v == 0)
  {
    if scale >= 0 {
      CancelFactor(d.unscaled, v, Pow(10, scale));
    } else {
      PowGrows(10, 0, -scale);
      if full > 0 {
        ProperMultiple(full, Pow(10, -scale));
        assert -full * Pow(10, -scale) == -(full * Pow(10, -scale));
      }
    }
  }

  lemma CancelFactor(a: int, b: int, p: nat)
    requires p > 0
    ensures a * p == b * p <==> a == b
  {
    if a * p == b * p {
      assert (a - b) * p == 0;
    }
  }

  /** The number 5 with scale -1 stands for 50 and comes out as something else. */
  method NegativeScaleIsLost() returns (s: string)
    ensures IsDecimal(s) && !Denotes(Read(s), 5, -1)
  {
    var bytes := new byte[1][5];
    assert bytes[..1] == [5];
    assert TwosComplement([5]) == 5 by {
      assert Value(256, [5][..0]) == 0;
    }
    s := NumericWithScale(bytes, 1, -1);
  }

  // ------------------------------------------------------- a number too long

  lemma {:induction false} FiveBytesEach(k: nat)
    ensures Pow(256, 5 * k) >= Pow(10, 12 * k)
  {
    if k > 0 {
      FiveBytesEach(k - 1);
      PowSum(256, 5, 5 * (k - 1));
      PowSum(10, 12, 12 * (k - 1));
      FiveBytes();
      ProductGrows(Pow(256, 5), Pow(10, 12), Pow(256, 5 * (k - 1)), Pow(10, 12 * (k - 1)));
      assert 5 + 5 * (k - 1) == 5 * k && 12 + 12 * (k - 1) == 12 * k;
    }
  }

  lemma FiveBytes()
    ensures Pow(256, 5) >= Pow(10, 12) && Pow(256, 3) >= Pow(10, 7)
  {
    assert Pow(256, 1) == 256 && Pow(256, 2) == 65536 && Pow(256, 3) == 16777216;
    assert Pow(256, 4) == 4294967296;
    assert Pow(10, 1) == 10 && Pow(10, 2) == 100 && Pow(10, 3) == 1000 && Pow(10, 4) == 10000;
    PowSum(10, 4, 3);
    PowSum(10, 4, 4);
    PowSum(10, 8, 4);
  }

  lemma ProductGrows(a: nat, b: nat, c: nat, d: nat)
    requires a >= b && c >= d
    ensures a * c >= b * d
  {
    MulGrows(b, a, c);
    MulGrows(d, c, b);
  }

  lemma EnoughBytes(k: nat, bytes: nat, digits: nat)
    requires bytes == 5 * k + 3 && digits == 12 * k + 7
    ensures Pow(256, bytes) >= Pow(10, digits)
  {
    FiveBytesEach(k);
    FiveBytes();
    PowSum(256, 5 * k, 3);
    PowSum(10, 12 * k, 7);
    ProductGrows(Pow(256, 5 * k), Pow(10, 12 * k), Pow(256, 3), Pow(10, 7));
  }

  lemma TooLong(bs: seq<byte>, k: nat, digits: nat)
    requires |bs| == 5 * k + 4 && bs[0] == 1 && digits == 12 * k + 7
    ensures !FitsDigits(TwosComplement(bs), digits)
  {
    EnoughBytes(k, 5 * k + 3, digits);
    LeadingDigit(256, bs);
  }

  /** The 54 bytes 1, 0, ..., 0 stand for 2^424, a number of 128 digits: its last digit is lost. */
  method LongNumberIsCut() returns (bytes: array<byte>, s: string)
    ensures bytes.Length == 54 && bytes[0] == 1 && forall i :: 1 <= i < 54 ==> bytes[i] == 0
    ensures IsDecimal(s) && !Denotes(Read(s), TwosComplement(bytes[..54]), 0)
  {
    bytes := new byte[54](i => if i == 0 then 1 else 0);
    TooLong(bytes[..54], 10, BUFFER_SIZE - 1);
    s := NumericWithScale(bytes, 54, 0);
  }
}
