/**
 * The Openlog Replicator wire format: each message is a 4-byte little-endian
 * signed length followed by that many payload bytes
 * (src/backend/olr/olr_client.c).
 */
module OlrFrames {

  import opened Positional
  import DecimalDecode

  type Payload = p: seq<byte> | |p| < 0x8000_0000

  function Word(a: int, b: int, c: int, d: int): int {
    a + 0x100 * (b + 0x100 * (c + 0x100 * d))
  }

  /** The `int` that memcpy takes from four bytes. */
  function Header(s: seq<byte>): (n: int)
    requires |s| >= 4
    ensures n < 0x8000_0000
  {
    var u := Word(s[0], s[1], s[2], s[3]);
    if u >= 0x8000_0000 then u - 0x1_0000_0000 else u
  }

  /** That is the two's-complement number whose bytes stand in reverse order. */
  lemma HeaderIsTwosComplement(s: seq<byte>)
    requires |s| >= 4
    ensures Header(s) == DecimalDecode.TwosComplement([s[3], s[2], s[1], s[0]])
  {
    FourBytes([s[3], s[2], s[1], s[0]]);
  }

  lemma FourBytes(bs: seq<byte>)
    requires |bs| == 4
    ensures Value(256, bs) == Word(bs[3], bs[2], bs[1], bs[0]) && Pow(256, 4) == 0x1_0000_0000
  {
    var a: nat, b: nat, c: nat := bs[0], bs[1], bs[2];
    assert bs[..3][..2] == bs[..2] && bs[..2][..1] == bs[..1] && bs[..1][..0] == [];
    assert Value(256, bs[..1]) == a;
    assert Value(256, bs[..2]) == a * 256 + b;
    assert Value(256, bs[..3]) == (a * 256 + b) * 256 + c;
    assert Pow(256, 2) == 0x1_0000;
    PowSum(256, 2, 2);
  }

  /** The length n on the wire, low byte first. */
  function LengthBytes(n: nat): (h: seq<byte>)
    requires n < 0x8000_0000
  {
    [n % 0x100, n / 0x100 % 0x100, n / 0x1_0000 % 0x100, n / 0x100_0000]
  }

  lemma LengthIsReadBack(n: nat)
    requires n < 0x8000_0000
    ensures Header(LengthBytes(n)) == n
  {
    var b1 := n / 0x100;
    var b2 := b1 / 0x100;
    assert n / 0x1_0000 == b2 && n / 0x100_0000 == b2 / 0x100;
  }

  /** The only four bytes that carry the length n. */
  ghost function EncodeHeader(n: nat): (h: seq<byte>)
    requires n < 0x8000_0000
    ensures |h| == 4 && Header(h) == n
  {
    LengthIsReadBack(n);
    var h: seq<byte> :| |h| == 4 && Header(h) == n;
    h
  }

  /** They are these. */
  lemma HeaderBytes(n: nat)
    requires n < 0x8000_0000
    ensures EncodeHeader(n) == LengthBytes(n)
    ensures EncodeHeader(n) == [n % 256, n / 256 % 256, n / 65536 % 256, n / 16777216]
  {
    LengthIsReadBack(n);
    HeaderIsInjective(EncodeHeader(n), LengthBytes(n));
    assert LengthBytes(n)[..4] == LengthBytes(n);
  }

  lemma LowByte(a: byte, x: nat, a': byte, x': nat)
    requires a + 0x100 * x == a' + 0x100 * x'
    ensures a == a' && x == x'
  {
  }

  lemma HeaderIsInjective(h: seq<byte>, s: seq<byte>)
    requires |h| == 4 && |s| >= 4 && Header(h) == Header(s)
    ensures h == s[..4]
  {
    var x3: nat, y3: nat := h[3], s[3];
    var x2: nat, y2: nat := h[2] as int + 0x100 * x3, s[2] as int + 0x100 * y3;
    var x1: nat, y1: nat := h[1] as int + 0x100 * x2, s[1] as int + 0x100 * y2;
    LowByte(h[0], x1, s[0], y1);
    LowByte(h[1], x2, s[1], y2);
    LowByte(h[2], x3, s[2], y3);
  }

  ghost function EncodeFrame(p: Payload): seq<byte> {
    EncodeHeader(|p|) + p
  }

  ghost function Encode(fs: seq<Payload>): seq<byte> {
    if fs == [] then [] else EncodeFrame(fs[0]) + Encode(fs[1..])
  }

  lemma {:induction false} EncodeConcat(a: seq<Payload>, b: seq<Payload>)
    ensures Encode(a + b) == Encode(a) + Encode(b)
  {
    if a == [] {
      assert a + b == b;
    } else {
      EncodeConcat(a[1..], b);
      assert (a + b)[0] == a[0] && (a + b)[1..] == a[1..] + b;
      ConcatAssociates(EncodeFrame(a[0]), Encode(a[1..]), Encode(b));
    }
  }

  lemma ConcatAssociates(x: seq<byte>, y: seq<byte>, z: seq<byte>)
    ensures x + (y + z) == (x + y) + z
  {
  }

  lemma EncodeSnoc(a: seq<Payload>, p: Payload)
    ensures Encode(a + [p]) == Encode(a) + EncodeFrame(p)
  {
    EncodeConcat(a, [p]);
    assert Encode([p]) == EncodeFrame(p) + Encode([]);
  }

  /** A complete frame starts the buffer. */
  predicate WholeFrame(s: seq<byte>) {
    |s| >= 4 && Header(s) >= 0 && 4 + Header(s) <= |s|
  }

  /** Every length that parsing `s` frame by frame meets is non-negative. */
  predicate Sound(s: seq<byte>)
    decreases |s|
  {
    |s| < 4 || (Header(s) >= 0 && (WholeFrame(s) ==> Sound(s[4 + Header(s)..])))
  }

  lemma FrameAt(s: seq<byte>, p: Payload, rest: seq<byte>)
    requires s == EncodeFrame(p) + rest
    ensures WholeFrame(s) && Header(s) == |p| && s[4..4 + Header(s)] == p && s[4 + Header(s)..] == rest
  {
    assert s[..4] == EncodeHeader(|p|);
    assert Header(s) == Header(s[..4]);
  }

  lemma TakeFrame(s: seq<byte>)
    requires WholeFrame(s)
    ensures s == EncodeFrame(s[4..4 + Header(s)]) + s[4 + Header(s)..]
  {
    HeaderIsInjective(EncodeHeader(Header(s)), s);
    assert s == s[..4] + s[4..4 + Header(s)] + s[4 + Header(s)..];
  }

  /** What a peer that sends frames can have put on the wire so far. */
  ghost predicate SentSoFar(s: seq<byte>, fs: seq<Payload>) {
    s <= Encode(fs)
  }

  lemma PrefixDrop(a: seq<byte>, s: seq<byte>, b: seq<byte>)
    requires a + s <= a + b
    ensures s <= b
  {
    assert (a + b)[|a|..] == b;
    assert (a + s)[|a|..] == s;
    forall i | 0 <= i < |s| ensures s[i] == b[i] {
      assert (a + s)[|a| + i] == (a + b)[|a| + i];
    }
  }

  /** Whatever the cut, a stream of frames never shows a negative length. */
  lemma {:induction false} FramesAreSound(s: seq<byte>, fs: seq<Payload>)
    requires SentSoFar(s, fs)
    ensures Sound(s)
    decreases |fs|
  {
    if |s| >= 4 {
      assert fs != [];
      FrameAt(Encode(fs), fs[0], Encode(fs[1..]));
      assert s[..4] == Encode(fs)[..4];
      assert Header(s) == |fs[0]|;
      if WholeFrame(s) {
        TakeFrame(s);
        var rest := s[4 + Header(s)..];
        assert rest <= Encode(fs[1..]) by {
          assert s[..4 + Header(s)] == EncodeFrame(fs[0]);
          PrefixDrop(EncodeFrame(fs[0]), rest, Encode(fs[1..]));
        }
        FramesAreSound(rest, fs[1..]);
      }
    }
  }

  lemma SameFirstFrame(fs: seq<Payload>, got: seq<Payload>, tail: seq<byte>)
    requires got != [] && SentSoFar(Encode(got) + tail, fs)
    ensures fs != [] && got[0] == fs[0] && SentSoFar(Encode(got[1..]) + tail, fs[1..])
  {
    var all := Encode(got) + tail;
    assert all == EncodeFrame(got[0]) + (Encode(got[1..]) + tail);
    FrameAt(all, got[0], Encode(got[1..]) + tail);
    assert fs != [];
    FrameAt(Encode(fs), fs[0], Encode(fs[1..]));
    assert all[..4] == Encode(fs)[..4];
    assert Header(all) == Header(Encode(fs));
    assert got[0] == fs[0];
    PrefixDrop(EncodeFrame(got[0]), Encode(got[1..]) + tail, Encode(fs[1..]));
  }

  /** Whatever has been cut out of a stream of frames are its first frames. */
  lemma {:induction false} DeliveredWereSent(fs: seq<Payload>, got: seq<Payload>, tail: seq<byte>)
    requires SentSoFar(Encode(got) + tail, fs)
    ensures got <= fs
  {
    if got != [] {
      SameFirstFrame(fs, got, tail);
      DeliveredWereSent(fs[1..], got[1..], tail);
      assert got == [got[0]] + got[1..];
    }
  }

  /**
   * If what was received is the encoding of `got` plus a tail without a whole
   * frame, then `got` is exactly the frames received in full: the first |got|
   * of the frames sent, and the next one is not complete yet.
   */
  lemma {:induction false} ExactlyTheCompleteFrames(fs: seq<Payload>, got: seq<Payload>, tail: seq<byte>)
    requires SentSoFar(Encode(got) + tail, fs) && !WholeFrame(tail)
    ensures got <= fs
    ensures |got| < |fs| ==> |Encode(got) + tail| < |Encode(fs[..|got| + 1])|
  {
    if got == [] {
      if fs != [] {
        assert fs[..1] == [fs[0]];
        assert Encode(fs[..1]) == EncodeFrame(fs[0]) + Encode([]);
        assert Encode([]) + tail == tail;
        FrameAt(Encode(fs), fs[0], Encode(fs[1..]));
        assert |tail| >= 4 ==> Header(tail) == Header(Encode(fs));
      }
    } else {
      SameFirstFrame(fs, got, tail);
      ExactlyTheCompleteFrames(fs[1..], got[1..], tail);
      assert got == [got[0]] + got[1..];
      if |got| < |fs| {
        var more := fs[..|got| + 1];
        assert more[0] == fs[0] && more[1..] == fs[1..][..|got[1..]| + 1];
      }
    }
  }
}
