/**
 * Decoding a batch of Debezium events (dbz_engine_get_change in
 * src/backend/synchdb/synchdb.c): the letter 'B', the batch id, the number of
 * events, then each event with its length; integers in network byte order.
 */
module BatchDecoder {

  import opened Positional
  import OlrFrames
  import DecimalDecode

  type Event = e: seq<byte> | 0 < |e| < 0x8000_0000 witness [0]

  datatype Delivery = Delivery(event: seq<byte>, isFirst: bool, isLast: bool)

  /** ntohl of four bytes, as a signed int. */
  function NetInt(s: seq<byte>): int
    requires |s| >= 4
  {
    OlrFrames.Header([s[3], s[2], s[1], s[0]])
  }

  /** That is the two's-complement number that the bytes are. */
  lemma NetIntIsTwosComplement(s: seq<byte>)
    requires |s| >= 4
    ensures NetInt(s) == DecimalDecode.TwosComplement(s[..4])
  {
    OlrFrames.HeaderIsTwosComplement([s[3], s[2], s[1], s[0]]);
    assert s[..4] == [s[0], s[1], s[2], s[3]];
  }

  ghost function EncodeInt(n: nat): (s: seq<byte>)
    requires n < 0x8000_0000
    ensures |s| == 4 && NetInt(s) == n
  {
    var h := OlrFrames.EncodeHeader(n);
    assert [h[0], h[1], h[2], h[3]] == h;
    [h[3], h[2], h[1], h[0]]
  }

  /** A number on the wire, high byte first. */
  lemma IntBytes(n: nat)
    requires n < 0x8000_0000
    ensures EncodeInt(n) == [n / 16777216, n / 65536 % 256, n / 256 % 256, n % 256]
  {
    OlrFrames.HeaderBytes(n);
  }

  ghost function EncodeEvent(e: Event): seq<byte> {
    EncodeInt(|e|) + e
  }

  ghost function EncodeEvents(es: seq<Event>): seq<byte> {
    if es == [] then [] else EncodeEvents(es[..|es| - 1]) + EncodeEvent(es[|es| - 1])
  }

  ghost function EncodeBatch(id: nat, es: seq<Event>): seq<byte>
    requires id < 0x8000_0000 && |es| < 0x8000_0000
  {
    [66] + (EncodeInt(id) + (EncodeInt(|es|) + EncodeEvents(es)))
  }

  lemma {:induction false} EncodePrefix(es: seq<Event>, n: nat)
    requires n <= |es|
    ensures EncodeEvents(es[..n]) <= EncodeEvents(es)
    ensures n < |es| ==> EncodeEvents(es[..n]) + EncodeEvent(es[n]) <= EncodeEvents(es)
    decreases |es| - n
  {
    if n == |es| {
      assert es[..n] == es;
    } else {
      EncodePrefix(es, n + 1);
      assert es[..n + 1][..n] == es[..n];
    }
  }

  function Deliveries(es: seq<Event>, size: int): (ds: seq<Delivery>)
    ensures |ds| == |es|
  {
    seq(|es|, i requires 0 <= i < |es| => Delivery(es[i], i == 0, i == size - 1))
  }

  /** k is the number of events that a buffer of n event bytes holds completely. */
  ghost predicate WholeEvents(es: seq<Event>, n: nat, k: nat) {
    && k <= |es| && |EncodeEvents(es[..k])| <= n
    && (k < |es| ==> n < |EncodeEvents(es[..k + 1])|)
  }

  lemma SameInt(s: seq<byte>, t: seq<byte>)
    requires |s| >= 4 && |t| >= 4 && forall k :: 0 <= k < 4 ==> s[k] == t[k]
    ensures NetInt(s) == NetInt(t)
  {
  }

  /** The header part: tag, id and count. */
  lemma HeaderFields(id: nat, es: seq<Event>, data: seq<byte>)
    requires id < 0x8000_0000 && |es| < 0x8000_0000
    requires data <= EncodeBatch(id, es) && |data| >= 9
    ensures data[0] == 66 && NetInt(data[1..]) == id && NetInt(data[5..]) == |es|
    ensures data[9..] <= EncodeEvents(es)
  {
    Peel([66], EncodeInt(id) + (EncodeInt(|es|) + EncodeEvents(es)), data);
    Peel(EncodeInt(id), EncodeInt(|es|) + EncodeEvents(es), data[1..]);
    SameInt(data[1..], EncodeInt(id));
    assert data[1..][4..] == data[5..];
    Peel(EncodeInt(|es|), EncodeEvents(es), data[5..]);
    SameInt(data[5..], EncodeInt(|es|));
    assert data[5..][4..] == data[9..];
  }

  lemma Peel(head: seq<byte>, rest: seq<byte>, data: seq<byte>)
    requires data <= head + rest && |head| <= |data|
    ensures data[..|head|] == head && data[|head|..] <= rest
    ensures forall k :: 0 <= k < |head| ==> data[k] == head[k]
  {
    assert forall k :: 0 <= k < |data| ==> data[k] == (head + rest)[k];
    assert forall k :: 0 <= k < |data| - |head| ==> data[|head|..][k] == rest[k];
  }

  /** What the loop finds at the start of event k. */
  lemma EventFields(es: seq<Event>, k: nat, data: seq<byte>, at: nat)
    requires k < |es| && data <= EncodeEvents(es)
    requires at == |EncodeEvents(es[..k])| && at + 4 <= |data|
    ensures NetInt(data[at..]) == |es[k]|
    ensures at + 4 + |es[k]| <= |data| ==> data[at + 4..at + 4 + |es[k]|] == es[k]
  {
    EncodePrefix(es, k);
    var all, start, h, e := EncodeEvents(es), EncodeEvents(es[..k]), EncodeInt(|es[k]|), es[k];
    var rest := all[|start + (h + e)|..];
    assert all == (start + (h + e)) + rest;
    Regroup(start, h, e, rest);
    Peel(start, h + (e + rest), data);
    Peel(h, e + rest, data[at..]);
    SameInt(data[at..], h);
    if at + 4 + |e| <= |data| {
      assert data[at..][4..] == data[at + 4..];
      Peel(e, rest, data[at + 4..]);
      assert data[at + 4..][..|e|] == data[at + 4..at + 4 + |e|];
    }
  }

  lemma Regroup(a: seq<byte>, b: seq<byte>, c: seq<byte>, d: seq<byte>)
    ensures (a + (b + c)) + d == a + (b + (c + d))
  {
  }

  /** The same seen from the start of the buffer, behind the nine header bytes. */
  lemma EventInBuffer(es: seq<Event>, k: nat, data: seq<byte>, offset: nat)
    requires k < |es| && |data| >= 9 && data[9..] <= EncodeEvents(es)
    requires offset == 9 + |EncodeEvents(es[..k])| && offset + 4 <= |data|
    ensures NetInt(data[offset..]) == |es[k]|
    ensures offset + 4 + |es[k]| <= |data| ==> data[offset + 4..offset + 4 + |es[k]|] == es[k]
  {
    EventFields(es, k, data[9..], offset - 9);
    assert data[9..][offset - 9..] == data[offset..];
    if offset + 4 + |es[k]| <= |data| {
      assert data[9..][offset - 5..offset - 5 + |es[k]|] == data[offset + 4..offset + 4 + |es[k]|];
    }
  }

  lemma OneMore(es: seq<Event>, k: nat)
    requires k < |es|
    ensures |EncodeEvents(es[..k + 1])| == |EncodeEvents(es[..k])| + 4 + |es[k]|
    ensures Deliveries(es[..k + 1], |es|) == Deliveries(es[..k], |es|) + [Delivery(es[k], k == 0, k == |es| - 1)]
  {
    assert es[..k + 1][..k] == es[..k];
  }

  /** The first `curr` events have been delivered and the offset stands behind them. */
  ghost predicate Reached(data: seq<byte>, es: seq<Event>, offset: int, curr: nat, out: seq<Delivery>) {
    && |data| >= 9 && data[9..] <= EncodeEvents(es)
    && curr <= |es| && out == Deliveries(es[..curr], |es|)
    && offset == 9 + |EncodeEvents(es[..curr])| <= |data|
  }

  /** One turn of the loop; `incomplete` when the event does not fit into the buffer. */
  method DecodeOne(data: seq<byte>, offset: int, curr: nat, out: seq<Delivery>, batchSize: int, ghost es: seq<Event>)
    returns (offset': int, out': seq<Delivery>, incomplete: bool)
    requires Reached(data, es, offset, curr, out) && curr < batchSize == |es| && offset + 4 <= |data|
    ensures incomplete ==> |data| - 9 < |EncodeEvents(es[..curr + 1])| && out' == out
    ensures !incomplete ==> Reached(data, es, offset', curr + 1, out')
  {
    EventInBuffer(es, curr, data, offset);
    OneMore(es, curr);
    var jsonLen := NetInt(data[offset..]);
    offset', out', incomplete := offset + 4, out, false;
    if offset' + jsonLen > |data| {
      incomplete := true;
    } else {
      var event := data[offset'..offset' + jsonLen];
      offset' := offset' + if jsonLen == 0 then 4 else jsonLen;
      out' := out + if jsonLen == 0 then [] else [Delivery(event, curr == 0, curr == batchSize - 1)];
    }
  }

  /**
   * The batch loop. For every batch of non-empty events, whole or cut short
   * anywhere after its header, exactly the events that are complete in the
   * buffer are delivered, in order, with isfirst on the first of the batch and
   * islast on the last of the batch only.
   */
  method DecodeBatch(data: seq<byte>, ghost id: nat, ghost es: seq<Event>)
    returns (batchId: int, out: seq<Delivery>)
    requires id < 0x8000_0000 && |es| < 0x8000_0000
    requires data <= EncodeBatch(id, es) && |data| >= 9
    ensures batchId == id && WholeEvents(es, |data| - 9, |out|)
    ensures out == Deliveries(es[..|out|], |es|)
  {
    HeaderFields(id, es, data);
    out := [];
    batchId := NetInt(data[1..]);
    var batchSize := NetInt(data[5..]);
    var offset, curr := 9, 0;
    while offset + 4 <= |data| && curr < batchSize
      invariant curr <= batchSize && Reached(data, es, offset, curr, out)
      decreases batchSize - curr
    {
      var incomplete;
      offset, out, incomplete := DecodeOne(data, offset, curr, out, batchSize, es);
      if incomplete {
        return;
      }
      curr := curr + 1;
    }
    if curr < |es| {
      OneMore(es, curr);
    }
  }
}
