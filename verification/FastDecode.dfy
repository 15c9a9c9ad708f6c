/**
 * The shift-and-sign-extend decoder for short byte strings
 * (derive_value_from_byte in src/backend/converter/format_converter.c), on 64-bit words.
 */
module FastDecode {

  import opened Positional
  import opened DecimalDecode

  /** A 64-bit pattern and the `long long` it encodes. */
  const WORD: nat := 0x1_0000_0000_0000_0000
  const SIGN: nat := 0x8000_0000_0000_0000

  function AsSigned(word: nat): int {
    if word >= SIGN then word - WORD else word
  }

  /** Bitwise or, bit by bit. */
  function BitOr(a: nat, b: nat): nat
    decreases a + b
  {
    if a == 0 && b == 0 then 0
    else 2 * BitOr(a / 2, b / 2) + if a % 2 == 1 || b % 2 == 1 then 1 else 0
  }

  lemma {:induction false} OrWithZero(a: nat)
    ensures BitOr(a, 0) == a
  {
    if a > 0 {
      OrWithZero(a / 2);
    }
  }

  /** On disjoint bit ranges `or` is addition. */
  lemma {:induction false} OrDisjoint(a: nat, k: nat, b: nat)
    requires b < Pow(2, k)
    ensures BitOr(a * Pow(2, k), b) == a * Pow(2, k) + b
  {
    if k == 0 {
      OrWithZero(a);
    } else {
      var high := a * Pow(2, k - 1);
      assert a * Pow(2, k) == 2 * high;
      OrDisjoint(a, k - 1, b / 2);
      if high == 0 && b == 0 {
      } else {
        assert BitOr(2 * high, b) == 2 * BitOr(high, b / 2) + if b % 2 == 1 then 1 else 0;
      }
    }
  }

  lemma {:induction false} PowOfBytes(n: nat)
    ensures Pow(2, 8 * n) == Pow(256, n)
  {
    if n > 0 {
      PowOfBytes(n - 1);
      PowSum(2, 8, 8 * (n - 1));
      EightBits();
    }
  }

  lemma EightBits()
    ensures Pow(2, 8) == 256
  {
    assert Pow(2, 4) == 16;
    PowSum(2, 4, 4);
  }

  /** `value << 8` on a non-negative `long long`; the precondition is that nothing reaches the sign bit. */
  function ShiftLeft8(word: nat): (r: nat)
    requires word * 256 < SIGN
  {
    word * 256
  }

  lemma SevenBytes(n: nat)
    requires n <= 7
    ensures Pow(256, n) <= 0x0100_0000_0000_0000
    ensures WORD % Pow(256, n) == 0
  {
    assert Pow(256, 0) == 1;
    assert Pow(256, 1) == 0x100;
    assert Pow(256, 2) == 0x1_0000;
    assert Pow(256, 3) == 0x100_0000;
    assert Pow(256, 4) == 0x1_0000_0000;
    assert Pow(256, 5) == 0x100_0000_0000;
    assert Pow(256, 6) == 0x1_0000_0000_0000;
    assert Pow(256, 7) == 0x100_0000_0000_0000;
  }

  /** Or-ing in a byte below a shifted word appends it, and the shift stays below the sign bit. */
  lemma AppendByte(bs: seq<byte>, n: nat)
    requires n < |bs| <= 7
    ensures Value(256, bs[..n]) * 256 < SIGN
    ensures BitOr(Value(256, bs[..n]) * 256, bs[n]) == Value(256, bs[..n + 1])
  {
    EightBits();
    OrDisjoint(Value(256, bs[..n]), 8, bs[n]);
    assert bs[..n + 1][..n] == bs[..n];
    ValueBelowPow(256, bs[..n]);
    SevenBytes(n);
    if n < 6 {
      PowGrows(256, n, 6);
    }
  }

  /**
   * For 1 to 7 bytes the fast decoder yields the two's-complement value, the
   * same integer that DeriveDecimalString writes out, and no shift overflows.
   */
  method DeriveValue(bytes: array<byte>, len: nat) returns (value: int)
    requires 1 <= len <= 7 && len <= bytes.Length
    ensures value == TwosComplement(bytes[..len])
  {
    ghost var bs: seq<byte> := bytes[..len];
    var word := 0;
    for i := 0 to len
      invariant word == Value(256, bs[..i])
    {
      AppendByte(bs, i);
      word := BitOr(ShiftLeft8(word), bytes[i]);
    }
    assert bs[..len] == bs;
    FitsWord(bs);
    if bytes[0] >= 128 {
      SignExtends(bs, word);
      word := BitOr(WORD - Pow(2, len * 8), word);
    }
    value := AsSigned(word);
  }

  lemma FitsWord(bs: seq<byte>)
    requires 1 <= |bs| <= 7
    ensures Value(256, bs) < SIGN && Value(256, bs) < Pow(256, |bs|) <= 0x0100_0000_0000_0000
  {
    ValueBelowPow(256, bs);
    SevenBytes(|bs|);
  }

  /** Or-ing in the ones above the sign bit subtracts 256^n modulo 2^64. */
  lemma SignExtends(bs: seq<byte>, word: nat)
    requires 1 <= |bs| <= 7 && word == Value(256, bs)
    ensures Pow(2, |bs| * 8) <= WORD && BitOr(WORD - Pow(2, |bs| * 8), word) == WORD - Pow(256, |bs|) + word
  {
    var p := Pow(256, |bs|);
    SevenBytes(|bs|);
    PowOfBytes(|bs|);
    ValueBelowPow(256, bs);
    MultipleMinusOne(WORD, p);
    var k := WORD / p - 1;
    assert k * Pow(2, |bs| * 8) == WORD - p;
    OrDisjoint(k, |bs| * 8, word);
  }

  lemma MultipleMinusOne(w: nat, p: nat)
    requires 0 < p <= w && w % p == 0
    ensures w / p >= 1 && w - p == (w / p - 1) * p
  {
    assert w == (w / p) * p;
    assert (w / p - 1) * p == (w / p) * p - p;
  }
}
