/**
 * The accumulating read buffer of the Openlog Replicator client
 * (g_strinfo and g_offset in src/backend/olr/olr_client.c).
 */
module OlrBuffer {

  import opened Positional
  import opened OlrFrames

  class FrameBuffer {
    var data: seq<byte>
    var offset: int
    ghost var received: seq<byte>       // read on this connection
    ghost var delivered: seq<Payload>   // cut out on this connection

    /** Nothing received is lost, duplicated or reordered. */
    ghost predicate Valid()
      reads this
    {
      0 <= offset <= |data| && received == Encode(delivered) + data[offset..]
    }

    function Leftover(): nat
      requires 0 <= offset <= |data|
      reads this
    {
      |data| - offset
    }

    constructor ()
      ensures Valid() && offset == 0 && data == [] && received == [] && delivered == []
    {
      data, offset, received, delivered := [], 0, [], [];
    }

    /** initStringInfo on a new connection: the offset is not touched. */
    method Reset()
      requires offset == 0
      modifies this
      ensures Valid() && offset == 0 && data == [] && received == [] && delivered == []
    {
      data, received, delivered := [], [], [];
    }

    method Append(chunk: seq<byte>)
      requires Valid() && offset == 0
      modifies this`data, this`received
      ensures Valid() && data == old(data) + chunk && received == old(received) + chunk
    {
      assert data[0..] == data;
      data := data + chunk;
      received := received + chunk;
      assert data[0..] == data;
    }

    /** Cuts out the frame at the offset if it is complete. */
    method Next() returns (more: bool, payload: Payload, isLast: bool)
      requires Valid() && Sound(data[offset..])
      modifies this`offset, this`delivered
      ensures Valid() && Sound(data[offset..])
      ensures more <==> WholeFrame(data[old(offset)..])
      ensures !more ==> offset == old(offset) && delivered == old(delivered)
      ensures more ==> delivered == old(delivered) + [payload] && 4 <= old(Leftover())
      ensures more ==> Leftover() <= old(Leftover()) - 4 && (isLast <==> Leftover() < 4)
    {
      more, payload, isLast := false, [], false;
      if offset + 4 <= |data| {
        var jsonLen := Header(data[offset..]);
        if offset + 4 + jsonLen > |data| {
          return;
        }
        var nextOffset := offset + 4 + jsonLen;
        payload := data[offset + 4..nextOffset];
        isLast := nextOffset == |data| || nextOffset + 4 > |data|;
        CutFrame(data, offset, nextOffset, delivered);
        more, offset, delivered := true, nextOffset, delivered + [payload];
      }
    }

    /** Reset when everything is consumed, else move the unconsumed bytes to the front. */
    method Compact()
      requires Valid()
      modifies this`data, this`offset
      ensures Valid() && offset == 0 && data == old(data[offset..])
    {
      if offset >= |data| {
        data, offset := [], 0;
      } else if offset > 0 {
        data, offset := data[offset..], 0;
      }
      assert data[0..] == data;
    }
  }

  /** Moving the offset over a complete frame moves its payload to the delivered ones. */
  lemma CutFrame(data: seq<byte>, offset: nat, next: nat, delivered: seq<Payload>)
    requires offset <= |data| && WholeFrame(data[offset..]) && next == offset + 4 + Header(data[offset..])
    ensures Encode(delivered + [data[offset + 4..next]]) + data[next..] == Encode(delivered) + data[offset..]
  {
    var tail, payload := data[offset..], data[offset + 4..next];
    TakeFrame(tail);
    assert tail[4..4 + Header(tail)] == payload && tail[4 + Header(tail)..] == data[next..];
    EncodeSnoc(delivered, payload);
    ConcatAssociates(Encode(delivered), EncodeFrame(payload), data[next..]);
  }
}
