/** The relay: `_transfer1` copies one direction of a connection until the first empty read,
    and `transfer` runs one such copy in each direction. */
module SocketUtil {
  import opened Text

  /** The size each read asks for: 2**13 bytes. */
  const TransferBufSize: nat := 8192

  function Flatten(chunks: seq<seq<byte>>): seq<byte> {
    if chunks == [] then [] else chunks[0] + Flatten(chunks[1..])
  }

  /** How much is left to read: the bytes plus one for each piece, so every non-empty read lowers it. */
  function Volume(segments: seq<seq<byte>>): nat {
    |Flatten(segments)| + |segments|
  }

  /** The reads that drain one delivered segment when each read asks for at most max bytes. */
  function Pieces(segment: seq<byte>, max: nat): seq<seq<byte>>
    requires max > 0
    decreases |segment|
  {
    if |segment| <= max then [segment] else [segment[..max]] + Pieces(segment[max..], max)
  }

  /** The successive non-empty reads that drain the segments a peer delivered before closing. */
  function Reads(segments: seq<seq<byte>>, max: nat): seq<seq<byte>>
    requires max > 0
  {
    if segments == [] then [] else Pieces(segments[0], max) + Reads(segments[1..], max)
  }

  lemma {:induction false} FlattenAppend(a: seq<seq<byte>>, b: seq<seq<byte>>)
    ensures Flatten(a + b) == Flatten(a) + Flatten(b)
  {
    if a != [] {
      assert (a + b)[1..] == a[1..] + b;
      FlattenAppend(a[1..], b);
    } else {
      assert a + b == b;
    }
  }

  lemma {:induction false} PiecesFlatten(segment: seq<byte>, max: nat)
    requires max > 0
    ensures Flatten(Pieces(segment, max)) == segment
  {
    if |segment| > max {
      PiecesFlatten(segment[max..], max);
      assert segment == segment[..max] + segment[max..];
    }
  }

  /** The reads reassemble exactly the bytes the peer sent, in order. */
  lemma {:induction false} ReadsFlatten(segments: seq<seq<byte>>, max: nat)
    requires max > 0
    ensures Flatten(Reads(segments, max)) == Flatten(segments)
  {
    if segments != [] {
      FlattenAppend(Pieces(segments[0], max), Reads(segments[1..], max));
      PiecesFlatten(segments[0], max);
      ReadsFlatten(segments[1..], max);
    }
  }

  lemma {:induction false} PiecesBounded(segment: seq<byte>, max: nat)
    requires max > 0 && segment != []
    ensures forall k :: 0 <= k < |Pieces(segment, max)| ==> 0 < |Pieces(segment, max)[k]| <= max
  {
    if |segment| > max {
      PiecesBounded(segment[max..], max);
    }
  }

  /** Every read is non-empty and no longer than the size asked for. */
  lemma {:induction false} ReadsBounded(segments: seq<seq<byte>>, max: nat)
    requires max > 0
    requires forall k :: 0 <= k < |segments| ==> segments[k] != []
    ensures forall k :: 0 <= k < |Reads(segments, max)| ==> 0 < |Reads(segments, max)[k]| <= max
  {
    if segments != [] {
      PiecesBounded(segments[0], max);
      ReadsBounded(segments[1..], max);
    }
  }

  /** One end of a connection as the relay sees it. */
  class Socket {
    /** What the peer has sent and this end has not read yet, in the pieces the network
        delivered; the peer closes its side after the last piece. */
    var incoming: seq<seq<byte>>
    /** Every chunk handed to send(), in order. */
    var sent: seq<seq<byte>>

    ghost predicate Valid()
      reads this
    {
      forall k :: 0 <= k < |incoming| ==> incoming[k] != []
    }

    constructor (incoming: seq<seq<byte>>)
      requires forall k :: 0 <= k < |incoming| ==> incoming[k] != []
      ensures Valid() && this.incoming == incoming && sent == []
    {
      this.incoming := incoming;
      sent := [];
    }

    /** recv(max): at most max bytes of the first pending piece; empty once the peer has closed. */
    method Recv(max: nat) returns (data: seq<byte>)
      requires Valid() && max > 0
      modifies this`incoming
      ensures Valid()
      ensures old(incoming) == [] ==> data == [] && incoming == []
      ensures old(incoming) != [] && |old(incoming)[0]| <= max ==>
                data == old(incoming)[0] && incoming == old(incoming)[1..]
      ensures old(incoming) != [] && |old(incoming)[0]| > max ==>
                data == old(incoming)[0][..max] && incoming == [old(incoming)[0][max..]] + old(incoming)[1..]
    {
      if incoming == [] {
        data := [];
      } else if |incoming[0]| <= max {
        data := incoming[0];
        incoming := incoming[1..];
      } else {
        data := incoming[0][..max];
        incoming := [incoming[0][max..]] + incoming[1..];
      }
    }

    /** send(data), taken to deliver the whole chunk. */
    method Send(data: seq<byte>)
      modifies this`sent
      ensures sent == old(sent) + [data]
    {
      sent := sent + [data];
    }
  }

  /** One read step in terms of the reads still to come, and the progress it makes. */
  lemma RecvStep(before: seq<seq<byte>>, data: seq<byte>, after: seq<seq<byte>>, max: nat)
    requires max > 0 && before != []
    requires |before[0]| <= max ==> data == before[0] && after == before[1..]
    requires |before[0]| > max ==> data == before[0][..max] && after == [before[0][max..]] + before[1..]
    ensures Reads(before, max) == [data] + Reads(after, max)
    ensures Volume(after) < Volume(before)
  {
    assert before == [before[0]] + before[1..];
    FlattenAppend([before[0]], before[1..]);
    if |before[0]| > max {
      FlattenAppend([before[0][max..]], before[1..]);
      assert after[1..] == before[1..];
    }
  }

  /** _transfer1: forward every non-empty read to dest, stop at the first empty read. */
  method Transfer1(source: Socket, dest: Socket)
    requires source != dest && source.Valid()
    modifies source`incoming, dest`sent
    ensures source.Valid() && source.incoming == []
    ensures dest.sent == old(dest.sent) + Reads(old(source.incoming), TransferBufSize)
    ensures Flatten(dest.sent) == Flatten(old(dest.sent)) + Flatten(old(source.incoming))
    ensures forall k :: |old(dest.sent)| <= k < |dest.sent| ==> 0 < |dest.sent[k]| <= TransferBufSize
  {
    ghost var pending := source.incoming;
    while true
      invariant source.Valid()
      invariant old(dest.sent) + Reads(pending, TransferBufSize) == dest.sent + Reads(source.incoming, TransferBufSize)
      decreases Volume(source.incoming)
    {
      ghost var before := source.incoming;
      var data := source.Recv(TransferBufSize);
      if data != [] {
        RecvStep(before, data, source.incoming, TransferBufSize);
        dest.Send(data);
      } else {
        break;
      }
    }
    ReadsFlatten(pending, TransferBufSize);
    FlattenAppend(old(dest.sent), Reads(pending, TransferBufSize));
    ReadsBounded(pending, TransferBufSize);
  }

  /** transfer: a copy from sock1 to sock2 and one from sock2 to sock1, both run to their own end. */
  method Transfer(sock1: Socket, sock2: Socket)
    requires sock1 != sock2 && sock1.Valid() && sock2.Valid()
    modifies sock1`incoming, sock1`sent, sock2`incoming, sock2`sent
    ensures sock1.incoming == [] && sock2.incoming == []
    ensures sock2.sent == old(sock2.sent) + Reads(old(sock1.incoming), TransferBufSize)
    ensures sock1.sent == old(sock1.sent) + Reads(old(sock2.incoming), TransferBufSize)
    ensures Flatten(sock2.sent) == Flatten(old(sock2.sent)) + Flatten(old(sock1.incoming))
    ensures Flatten(sock1.sent) == Flatten(old(sock1.sent)) + Flatten(old(sock2.incoming))
  {
    Transfer1(sock1, sock2);
    Transfer1(sock2, sock1);
  }
}
