/**
 * Little-endian bytes to bit strings (handle_base64_to_bit and its helpers in
 * src/backend/converter/format_converter.c), unquoted form.
 */
module BitStrings {

  import opened Positional

  // ---------------------------------------------------------------- meaning

  function LittleEndian(bs: seq<byte>): nat {
    if bs == [] then 0 else bs[0] + 256 * LittleEndian(bs[1..])
  }

  predicate AllBits(s: string) {
    forall i :: 0 <= i < |s| ==> s[i] == '0' || s[i] == '1'
  }

  function BitsOf(s: string): (ds: seq<nat>)
    ensures |ds| == |s| && DigitsBelow(2, ds)
  {
    seq(|s|, i requires 0 <= i < |s| => if s[i] == '1' then 1 else 0)
  }

  function BinaryValue(s: string): nat {
    Value(2, BitsOf(s))
  }

  /** No superfluous leading zero. */
  predicate Minimal(s: string) {
    s == "0" || (s != "" && s[0] == '1')
  }

  /** A minimal bit string is determined by its value. */
  lemma MinimalIsUnique(s: string, t: string)
    requires AllBits(s) && AllBits(t) && Minimal(s) && Minimal(t) && BinaryValue(s) == BinaryValue(t)
    ensures s == t
  {
    MinimalValue(s);
    MinimalValue(t);
    if s != "0" && t != "0" {
      MinimalDigitsAreUnique(2, BitsOf(s), BitsOf(t));
      forall i | 0 <= i < |s| ensures s[i] == t[i] {
        assert BitsOf(s)[i] == BitsOf(t)[i];
      }
    }
  }

  lemma MinimalValue(s: string)
    requires Minimal(s)
    ensures BinaryValue(s) == 0 <==> s == "0"
  {
    if s == "0" {
      LeadingZeros(2, BitsOf(s), []);
    } else {
      LeadingDigit(2, BitsOf(s));
    }
  }

  // -------------------------------------------------------- byte reversal

  function Reversed(s: seq<byte>): (t: seq<byte>)
    ensures |t| == |s|
    ensures forall k :: 0 <= k < |s| ==> t[k] == s[|s| - 1 - k]
  {
    seq(|s|, k requires 0 <= k < |s| => s[|s| - 1 - k])
  }

  lemma {:induction false} LittleEndianIsReversed(bs: seq<byte>)
    ensures LittleEndian(bs) == Value(256, Reversed(bs))
  {
    if bs != [] {
      LittleEndianIsReversed(bs[1..]);
      assert Reversed(bs)[..|bs| - 1] == Reversed(bs[1..]);
    }
  }

  /** Swaps from both ends; the C code computes length - 1 unsigned, so it needs a byte. */
  method ReverseByteArray(a: array<byte>)
    requires a.Length > 0
    modifies a
    ensures a[..] == Reversed(old(a[..]))
  {
    var start, end := 0, a.Length - 1;
    while start < end
      invariant 0 <= start <= a.Length && start + end == a.Length - 1
      invariant forall k :: 0 <= k < a.Length ==>
        a[k] == if start <= k <= end then old(a[k]) else old(a[a.Length - 1 - k])
    {
      a[start], a[end] := a[end], a[start];
      start := start + 1;
      end := end - 1;
    }
  }

  // ---------------------------------------------------------- bits of bytes

  /** Bit i of a byte, as `byte & (1 << i)` tests it. */
  function Bit(b: byte, i: nat): nat {
    (b / Pow(2, i)) % 2
  }

  function BinaryOf(b: byte): (s: string)
    ensures |s| == 8 && AllBits(s)
  {
    seq(8, k requires 0 <= k < 8 => if Bit(b, 7 - k) == 1 then '1' else '0')
  }

  method ByteToBinary(b: byte) returns (s: string)
    ensures s == BinaryOf(b)
  {
    s := "";
    var i := 7;
    while i >= 0
      invariant -1 <= i <= 7
      invariant |s| == 7 - i && forall k :: 0 <= k < |s| ==> s[k] == BinaryOf(b)[k]
    {
      s := s + if Bit(b, i) == 1 then "1" else "0";
      i := i - 1;
    }
  }

  lemma {:induction false} BinaryPrefix(b: byte, n: nat)
    requires n <= 8
    ensures Value(2, BitsOf(BinaryOf(b))[..n]) == b / Pow(2, 8 - n)
  {
    if n == 0 {
      assert Pow(2, 4) == 16;
      PowSum(2, 4, 4);
    } else {
      BinaryPrefix(b, n - 1);
      var bits := BitsOf(BinaryOf(b));
      assert bits[..n][..n - 1] == bits[..n - 1];
      assert bits[n - 1] == Bit(b, 8 - n);
      HalvedQuotient(b, Pow(2, 8 - n));
    }
  }

  lemma HalvedQuotient(b: nat, m: nat)
    requires m > 0
    ensures b / m == 2 * (b / (2 * m)) + (b / m) % 2
  {
    var t, r := b / m / 2, b % m;
    assert b == (b / m) * m + r;
    if b / m % 2 == 0 {
      assert b / m == 2 * t;
      Regroup(t, 0, m);
      QuotientIsUnique(b, 2 * m, t, r);
    } else {
      assert b / m == 2 * t + 1;
      Regroup(t, 1, m);
      QuotientIsUnique(b, 2 * m, t, m + r);
    }
  }

  lemma Regroup(t: nat, s: nat, m: nat)
    ensures (2 * t + s) * m == t * (2 * m) + s * m
  {
  }

  lemma QuotientIsUnique(b: nat, d: nat, q: nat, r: nat)
    requires d > 0 && b == q * d + r && r < d
    ensures b / d == q
  {
    SplitRemainder(d, b / d, b % d, q, r);
  }

  lemma BinaryOfValue(b: byte)
    ensures BinaryValue(BinaryOf(b)) == b
  {
    BinaryPrefix(b, 8);
    assert BitsOf(BinaryOf(b))[..8] == BitsOf(BinaryOf(b));
    assert Pow(2, 0) == 1;
  }

  lemma AppendBits(head: string, b: byte)
    ensures BinaryValue(head + BinaryOf(b)) == BinaryValue(head) * 256 + b
  {
    assert BitsOf(head + BinaryOf(b)) == BitsOf(head) + BitsOf(BinaryOf(b));
    ValueOfConcat(2, BitsOf(head), BitsOf(BinaryOf(b)));
    BinaryOfValue(b);
    assert Pow(2, 8) == 256 by {
      assert Pow(2, 4) == 16;
      PowSum(2, 4, 4);
    }
  }

  // ------------------------------------------------------------ the handler

  /** The C string held in a character buffer: everything before the first NUL. */
  ghost predicate HoldsCString(buf: array<char>, s: string)
    reads buf
  {
    |s| < buf.Length && buf[..|s|] == s && buf[|s|] == '\0' && AllBits(s)
  }

  lemma DropZeros(s: string, n: nat)
    requires n <= |s| && forall k :: 0 <= k < n ==> s[k] == '0'
    ensures BinaryValue(s) == BinaryValue(s[n..])
    ensures n == |s| ==> BinaryValue(s) == 0
  {
    assert BitsOf(s) == BitsOf(s)[..n] + BitsOf(s[n..]);
    LeadingZeros(2, BitsOf(s)[..n], BitsOf(s[n..]));
  }

  /** Shifts the rest of the string over its leading zeros, in place; all zeros become "0". */
  method TrimLeadingZeros(str: array<char>, s: string) returns (t: string)
    requires s != "" && HoldsCString(str, s)
    modifies str
    ensures HoldsCString(str, t) && Minimal(t) && BinaryValue(t) == BinaryValue(s)
  {
    var i := 0;
    while str[i] == '0'
      invariant i <= |s| && forall k :: 0 <= k < i ==> s[k] == '0'
      decreases |s| - i
    {
      i := i + 1;
    }
    DropZeros(s, i);
    if str[i] == '\0' {
      str[0] := '0';
      str[1] := '\0';
      t := "0";
      DropZeros(t, 1);
    } else {
      t := ShiftDown(str, s, i);
    }
  }

  method ShiftDown(str: array<char>, s: string, from: nat) returns (t: string)
    requires from < |s| && HoldsCString(str, s)
    modifies str
    ensures t == s[from..] && HoldsCString(str, t)
  {
    var i, j := from, 0;
    while str[i] != '\0'
      invariant from <= i <= |s| && j == i - from
      invariant forall k :: 0 <= k < j ==> str[k] == s[from + k]
      invariant forall k :: i <= k < |s| ==> str[k] == s[k]
      invariant str[|s|] == '\0'
      decreases |s| - i
    {
      str[j] := str[i];
      j := j + 1;
      i := i + 1;
    }
    str[j] := '\0';
    t := str[..j];
  }

  /**
   * Unquoted rendering of a little-endian bit value; padding needs room for
   * the bytes. With padding the result has exactly typemod characters, without
   * it no superfluous leading zero; either way its value is that of the bytes.
   */
  method BitString(bytes: array<byte>, typemod: int, padzero: bool) returns (out: array<char>, s: string)
    requires bytes.Length > 0
    requires padzero ==> typemod >= 8 * bytes.Length
    modifies bytes
    ensures HoldsCString(out, s) && BinaryValue(s) == LittleEndian(old(bytes[..]))
    ensures if padzero then |s| == typemod else Minimal(s)
  {
    ghost var given := bytes[..];
    LittleEndianIsReversed(given);
    var extrazeros := if padzero then typemod - 8 * bytes.Length else 0;
    out, s := PadZeros(extrazeros, bytes[..]);
    ReverseByteArray(bytes);
    ghost var reversed := bytes[..];
    for i := 0 to bytes.Length
      invariant Rendered(out, s, extrazeros, reversed, i)
      invariant bytes[..] == reversed
    {
      s := RenderByte(out, s, bytes[i], extrazeros, reversed, i);
    }
    assert reversed[..bytes.Length] == reversed;
    if !padzero {
      s := TrimLeadingZeros(out, s);
    }
  }

  /** The buffer holds the padding and the bits of the first n bytes, NULs behind. */
  ghost predicate Rendered(out: array<char>, s: string, extra: nat, bs: seq<byte>, n: nat)
    reads out
  {
    && n <= |bs| && |s| == extra + 8 * n && out.Length == extra + 8 * |bs| + 1
    && HoldsCString(out, s) && (forall k :: |s| <= k < out.Length ==> out[k] == '\0')
    && BinaryValue(s) == Value(256, bs[..n])
  }

  method PadZeros(extrazeros: nat, bs: seq<byte>) returns (out: array<char>, s: string)
    ensures fresh(out) && forall rs: seq<byte> :: |rs| == |bs| ==> Rendered(out, s, extrazeros, rs, 0)
  {
    out := new char[8 * |bs| + extrazeros + 1](i => '\0');
    for i := 0 to extrazeros
      invariant forall k :: 0 <= k < out.Length ==> out[k] == if k < i then '0' else '\0'
    {
      out[i] := '0';
    }
    s := seq(extrazeros, i => '0');
    LeadingZeros(2, BitsOf(s), []);
  }

  method RenderByte(out: array<char>, s: string, b: byte, ghost extra: nat, ghost bs: seq<byte>, ghost n: nat)
    returns (s': string)
    requires Rendered(out, s, extra, bs, n) && n < |bs| && b == bs[n]
    modifies out
    ensures Rendered(out, s', extra, bs, n + 1)
  {
    var byteStr := ByteToBinary(b);
    AppendBits(s, b);
    assert bs[..n + 1][..n] == bs[..n];
    s' := AppendAt(out, s, byteStr);
  }

  /** strcat onto a NUL-filled buffer. */
  method AppendAt(out: array<char>, s: string, tail: string) returns (t: string)
    requires HoldsCString(out, s) && |s| + |tail| < out.Length && AllBits(tail)
    requires forall k :: |s| <= k < out.Length ==> out[k] == '\0'
    modifies out
    ensures t == s + tail && HoldsCString(out, t)
    ensures forall k :: |t| <= k < out.Length ==> out[k] == '\0'
  {
    ghost var before := out[..];
    forall k | 0 <= k < |tail| {
      out[|s| + k] := tail[k];
    }
    t := s + tail;
    assert forall k :: 0 <= k < |s| ==> out[k] == before[k] == s[k];
    assert out[..|t|] == t;
  }
}
