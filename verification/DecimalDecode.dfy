/**
 * Big-endian two's-complement bytes to decimal numerals
 * (src/backend/converter/format_converter.c). The decoder of any length works
 * in place on byte buffers; the fast decoder shifts into a 64-bit word.
 */
module DecimalDecode {

  import opened Positional

  // ---------------------------------------------------------------- meaning

  /** The integer that big-endian two's-complement bytes stand for. */
  function TwosComplement(bs: seq<byte>): int {
    if bs != [] && bs[0] >= 128 then Value(256, bs) - Pow(256, |bs|) else Value(256, bs)
  }

  predicate AllDigits(s: string) {
    forall i :: 0 <= i < |s| ==> '0' <= s[i] <= '9'
  }

  function DigitsOf(s: string): (ds: seq<nat>)
    requires AllDigits(s)
    ensures |ds| == |s| && DigitsBelow(10, ds)
  {
    seq(|s|, i requires 0 <= i < |s| => s[i] as int - '0' as int)
  }

  function Magnitude(s: string): nat
    requires AllDigits(s)
  {
    Value(10, DigitsOf(s))
  }

  function Unsigned(s: string): string {
    if s != "" && s[0] == '-' then s[1..] else s
  }

  /** "0", or an optional minus sign and digits that do not start with 0. */
  predicate Canonical(s: string) {
    s == "0" || (Unsigned(s) != "" && AllDigits(Unsigned(s)) && Unsigned(s)[0] != '0')
  }

  function NumeralValue(s: string): int
    requires AllDigits(Unsigned(s))
  {
    if s != "" && s[0] == '-' then -(Magnitude(s[1..]) as int) else Magnitude(s)
  }

  /** A canonical numeral is determined by its value. */
  lemma CanonicalIsUnique(s: string, t: string)
    requires Canonical(s) && Canonical(t) && NumeralValue(s) == NumeralValue(t)
    ensures s == t
  {
    CanonicalMagnitude(s);
    CanonicalMagnitude(t);
    var a, b := Unsigned(s), Unsigned(t);
    if s == "0" || t == "0" {
    } else {
      MinimalDigitsAreUnique(10, DigitsOf(a), DigitsOf(b));
      SameDigits(a, b);
    }
  }

  lemma SameDigits(s: string, t: string)
    requires AllDigits(s) && AllDigits(t) && DigitsOf(s) == DigitsOf(t)
    ensures s == t
  {
    forall i | 0 <= i < |s| ensures s[i] == t[i] {
      assert DigitsOf(s)[i] == DigitsOf(t)[i];
    }
  }

  lemma CanonicalMagnitude(s: string)
    requires Canonical(s)
    ensures Magnitude(Unsigned(s)) == 0 <==> s == "0"
  {
    if s == "0" {
      assert DigitsOf(s) == [0];
      LeadingZeros(10, [0], []);
    } else {
      LeadingDigit(10, DigitsOf(Unsigned(s)));
    }
  }

  // ------------------------------------------------- in-place byte arithmetic

  function Complemented(s: seq<byte>): (t: seq<byte>) {
    seq(|s|, i requires 0 <= i < |s| => 255 - s[i])
  }

  lemma {:induction false} ComplementedValue(s: seq<byte>)
    ensures Value(256, s) + Value(256, Complemented(s)) + 1 == Pow(256, |s|)
  {
    if s != [] {
      var n := |s| - 1;
      ComplementedValue(s[..n]);
      assert Complemented(s)[..n] == Complemented(s[..n]);
    }
  }

  method Complement(mag: array<byte>)
    modifies mag
    ensures mag[..] == Complemented(old(mag[..]))
  {
    for i := 0 to mag.Length
      invariant forall k :: 0 <= k < i ==> mag[k] == 255 - old(mag[k])
      invariant forall k :: i <= k < mag.Length ==> mag[k] == old(mag[k])
    {
      mag[i] := 255 - mag[i];
    }
  }

  function Incremented(s: seq<byte>): (t: seq<byte>)
    ensures |t| == |s|
  {
    if s == [] then []
    else if s[|s| - 1] == 255 then Incremented(s[..|s| - 1]) + [0]
    else s[|s| - 1 := s[|s| - 1] + 1]
  }

  lemma {:induction false} IncrementedValue(s: seq<byte>)
    requires Value(256, s) + 1 < Pow(256, |s|)
    ensures Value(256, Incremented(s)) == Value(256, s) + 1
  {
    assert s != [];
    var n := |s| - 1;
    if s[n] == 255 {
      IncrementedValue(s[..n]);
      assert Incremented(s)[..n] == Incremented(s[..n]);
    } else {
      assert Incremented(s)[..n] == s[..n];
    }
  }

  /** Adds one with carry from the last byte, stopping at the first byte that does not overflow. */
  method Increment(mag: array<byte>)
    modifies mag
    ensures mag[..] == Incremented(old(mag[..]))
  {
    ghost var was := mag[..];
    var i := mag.Length;
    assert was[..i] == was;
    assert Incremented(was) == Incremented(was[..i]) + mag[i..];
    while i > 0
      invariant 0 <= i <= mag.Length
      invariant mag[..i] == was[..i]
      invariant Incremented(was) == Incremented(was[..i]) + mag[i..]
    {
      i := i - 1;
      assert was[..i + 1][..i] == was[..i] && was[..i + 1][i] == mag[i];
      var v := mag[i] as nat + 1;
      mag[i] := v % 256;
      if v / 256 == 0 {
        assert mag[..] == was[..i + 1][i := v] + mag[i + 1..];
        return;
      }
      assert mag[i..] == [0] + mag[i + 1..];
    }
    assert mag[..] == mag[0..];
  }

  /** Long division of the whole buffer by ten, one byte at a time. */
  method DivideByTen(work: array<byte>) returns (remainder: nat)
    modifies work
    ensures remainder < 10
    ensures Value(256, old(work[..])) == Value(256, work[..]) * 10 + remainder
  {
    remainder := 0;
    for i := 0 to work.Length
      invariant remainder < 10
      invariant Value(256, old(work[..])[..i]) == Value(256, work[..i]) * 10 + remainder
      invariant forall k :: i <= k < work.Length ==> work[k] == old(work[k])
    {
      var acc := remainder * 256 + work[i];
      ghost var before := work[..i];
      work[i] := acc / 10;
      remainder := acc % 10;
      assert old(work[..])[..i + 1][..i] == old(work[..])[..i];
      assert work[..i + 1][..i] == before;
    }
    assert old(work[..])[..work.Length] == old(work[..]);
    assert work[..work.Length] == work[..];
  }

  method AllZero(work: array<byte>) returns (zero: bool)
    ensures zero <==> Value(256, work[..]) == 0
  {
    var i := 0;
    while i < work.Length && work[i] == 0
      invariant i <= work.Length
      invariant forall k :: 0 <= k < i ==> work[k] == 0
    {
      i := i + 1;
    }
    zero := i == work.Length;
    assert work[..] == work[..i] + work[i..];
    LeadingZeros(256, work[..i], work[i..]);
    if !zero {
      LeadingDigit(256, work[i..]);
    } else {
      assert work[i..] == [];
    }
  }

  // ------------------------------------------------------ digit generation

  function Char(d: nat): char
    requires d < 10
  {
    '0' + d as char
  }

  ghost predicate StoredReversed(digits: seq<char>, shown: seq<nat>) {
    |digits| == |shown| && DigitsBelow(10, shown) &&
    forall k :: 0 <= k < |digits| ==> digits[k] == Char(shown[|shown| - 1 - k])
  }

  lemma DigitCountBound(value: nat, bytes: nat, nd: nat)
    requires value < Pow(256, bytes) && value >= Pow(10, nd)
    ensures nd < 3 * bytes
  {
    BytesNeedThreeDigits(bytes);
    if nd >= 3 * bytes && nd != 3 * bytes {
      PowGrows(10, 3 * bytes, nd);
    }
  }

  lemma {:induction false} BytesNeedThreeDigits(n: nat)
    ensures Pow(256, n) <= Pow(10, 3 * n)
  {
    if n > 0 {
      BytesNeedThreeDigits(n - 1);
      PowSum(10, 3, 3 * (n - 1));
      assert Pow(10, 3) == 1000 by {
        assert Pow(10, 0) == 1 && Pow(10, 1) == 10 && Pow(10, 2) == 100;
      }
    }
  }

  /**
   * Repeated division: `digits` receives the decimal digits of the value in
   * `work`, least significant first, and `work` is left at zero.
   */
  method GenerateDigits(work: array<byte>, digits: array<char>) returns (nd: nat, ghost shown: seq<nat>)
    requires digits.Length >= 3 * work.Length
    requires Value(256, work[..]) > 0
    modifies work, digits
    ensures nd <= 3 * work.Length
    ensures StoredReversed(digits[..nd], shown)
    ensures shown != [] && shown[0] > 0
    ensures Value(10, shown) == old(Value(256, work[..]))
  {
    nd, shown := 0, [];
    ghost var total := Value(256, work[..]);
    ghost var rest := total;
    ValueBelowPow(256, work[..]);
    while true
      invariant rest == Value(256, work[..])
      invariant total == rest * Pow(10, nd) + Value(10, shown)
      invariant nd <= 3 * work.Length && StoredReversed(digits[..nd], shown)
      invariant rest == 0 ==> shown != [] && shown[0] > 0
      decreases rest
    {
      var zero := AllZero(work);
      if zero {
        assert 0 * Pow(10, nd) == 0;
        return;
      }
      MulGrows(1, rest, Pow(10, nd));
      DigitCountBound(total, work.Length, nd);
      ghost var stored := digits[..nd];
      var remainder := DivideByTen(work);
      digits[nd] := Char(remainder);
      CarryDigit(rest, Value(256, work[..]), remainder, shown);
      rest := Value(256, work[..]);
      shown := [remainder] + shown;
      nd := nd + 1;
      assert digits[..nd] == stored + [Char(remainder)];
    }
  }

  lemma CarryDigit(rest: nat, quotient: nat, remainder: nat, shown: seq<nat>)
    requires rest == quotient * 10 + remainder
    ensures rest * Pow(10, |shown|) + Value(10, shown)
         == quotient * Pow(10, |shown| + 1) + Value(10, [remainder] + shown)
  {
    var p, v := Pow(10, |shown|), Value(10, shown);
    assert Value(10, [remainder] + shown) == remainder * p + v by {
      ValueOfConcat(10, [remainder], shown);
      OneDigit(remainder);
    }
    CarryOver(rest, quotient, remainder, p, Pow(10, |shown| + 1), v, Value(10, [remainder] + shown));
  }

  lemma OneDigit(d: nat)
    ensures Value(10, [d]) == d
  {
    assert [d][..0] == [];
  }

  lemma CarryOver(rest: nat, q: nat, r: nat, p: nat, p10: nat, v: nat, w: nat)
    requires rest == q * 10 + r && p10 == 10 * p && w == r * p + v
    ensures rest * p + v == q * p10 + w
  {
    MulAssociates(q, 10, p);
  }

  lemma ReversedBack(digits: seq<char>, shown: seq<nat>, s: string)
    requires StoredReversed(digits, shown) && |s| == |digits|
    requires forall k :: 0 <= k < |s| ==> s[k] == digits[|s| - 1 - k]
    ensures AllDigits(s) && DigitsOf(s) == shown
  {
    forall k | 0 <= k < |s| ensures s[k] == Char(shown[k]) {
      assert s[k] == digits[|s| - 1 - k];
    }
    assert AllDigits(s);
    forall k | 0 <= k < |s| ensures DigitsOf(s)[k] == shown[k] {
    }
  }

  /** Copies the number out and, when its sign bit is set, negates the copy in place. */
  method TakeMagnitude(bytes: array<byte>, len: nat) returns (neg: bool, mag: array<byte>)
    requires 0 < bytes.Length && len <= bytes.Length
    ensures fresh(mag) && mag.Length == len
    ensures neg <==> bytes[0] >= 128
    ensures len > 0 ==>
      TwosComplement(bytes[..len]) == if neg then -(Value(256, mag[..]) as int) else Value(256, mag[..])
  {
    neg := bytes[0] >= 128;
    mag := new byte[len];
    forall i | 0 <= i < len {
      mag[i] := bytes[i];
    }
    assert mag[..] == bytes[..len];
    if neg {
      NegatedMagnitude(bytes[..len]);
      Complement(mag);
      Increment(mag);
    }
  }

  lemma NegatedMagnitude(s: seq<byte>)
    requires s != [] ==> s[0] >= 128
    ensures s != [] ==> Value(256, Incremented(Complemented(s))) == -TwosComplement(s)
  {
    if s != [] {
      LeadingDigit(256, s);
      ComplementedValue(s);
      IncrementedValue(Complemented(s));
    }
  }

  /** Drops leading zero bytes. */
  method StripZeros(mag: array<byte>) returns (work: array<byte>)
    ensures fresh(work) && work.Length <= mag.Length
    ensures Value(256, work[..]) == Value(256, mag[..])
    ensures work.Length == 0 <==> Value(256, mag[..]) == 0
  {
    var offset := 0;
    while offset < mag.Length && mag[offset] == 0
      invariant offset <= mag.Length
      invariant forall k :: 0 <= k < offset ==> mag[k] == 0
    {
      offset := offset + 1;
    }
    ghost var whole, stripped := mag[..], mag[offset..];
    assert whole == mag[..offset] + stripped;
    LeadingZeros(256, mag[..offset], stripped);
    if stripped != [] {
      LeadingDigit(256, stripped);
    }
    work := new byte[mag.Length - offset];
    forall i | 0 <= i < work.Length {
      work[i] := mag[offset + i];
    }
    assert work[..] == stripped && mag[..] == whole;
  }

  /** Writes the sign and the stored digits in reading order, with a final NUL. */
  method Emit(neg: bool, digits: array<char>, nd: nat, ghost shown: seq<nat>) returns (s: string)
    requires nd <= digits.Length && StoredReversed(digits[..nd], shown)
    requires shown != [] && shown[0] > 0
    ensures Canonical(s) && |Unsigned(s)| == nd
    ensures NumeralValue(s) == if neg then -(Value(10, shown) as int) else Value(10, shown)
  {
    var sign := if neg then 1 else 0;
    var out := new char[nd + sign + 1];
    if neg {
      out[0] := '-';
    }
    for i := 0 to nd
      invariant neg ==> out[0] == '-'
      invariant forall k :: sign <= k < sign + i ==> out[k] == digits[nd - 1 - (k - sign)]
    {
      out[sign + i] := digits[nd - 1 - i];
    }
    out[nd + sign] := '\0';
    s := out[..nd + sign];
    ReversedBack(digits[..nd], shown, s[sign..]);
    assert s[sign] == Char(shown[0]);
    assert Unsigned(s) == s[sign..];
  }

  /**
   * The arbitrary-length decoder. `bytes` is the caller's buffer, of which
   * `len` bytes hold the number; the first byte is read even when len is 0.
   */
  method DeriveDecimalString(bytes: array<byte>, len: nat) returns (s: string)
    requires 0 < bytes.Length && len <= bytes.Length
    ensures Canonical(s) && NumeralValue(s) == TwosComplement(bytes[..len])
    ensures |Unsigned(s)| <= if len == 0 then 1 else 3 * len
  {
    var neg, mag := TakeMagnitude(bytes, len);
    var work := StripZeros(mag);
    if work.Length == 0 {
      s := "0";
      CanonicalMagnitude(s);
      assert len == 0 ==> bytes[..len] == [];
      return;
    }
    var digits := new char[len * 3 + 1];
    var nd;
    ghost var shown;
    nd, shown := GenerateDigits(work, digits);
    s := Emit(neg, digits, nd, shown);
  }
}
