/** Length-prefixed packets: an 8-byte header, then the payload. */
module Packets {
  import opened Bytes

  // The packet types the proofs name; the type travels as its number.
  const NO_PACKET: u32 := 0
  const DRAW_DATA: u32 := 4

  /** A length the header can hold. */
  type Payload = s: seq<byte> | |s| < 0x1_0000_0000

  datatype Packet = Packet(kind: u32, payload: Payload)

  function PacketHeader(p: Packet): (s: seq<byte>)
    ensures |s| == 8
  {
    LE32(|p.payload|) + LE32(p.kind)
  }

  function PacketBytes(p: Packet): (s: seq<byte>)
    ensures |s| == 8 + |p.payload|
  {
    PacketHeader(p) + p.payload
  }

  /** What the packets look like on the socket. */
  function Stream(ps: seq<Packet>): seq<byte> {
    FlatMap(PacketBytes, ps)
  }

  lemma StreamCons(ps: seq<Packet>)
    requires ps != []
    ensures Stream(ps) == PacketBytes(ps[0]) + Stream(ps[1..])
  {
    hide PacketBytes;
    FlatMapCons(PacketBytes, ps);
  }

  lemma StreamSnoc(ps: seq<Packet>, p: Packet)
    ensures Stream(ps + [p]) == Stream(ps) + PacketBytes(p)
  {
    hide PacketBytes;
    FlatMapConcat(PacketBytes, ps, [p]);
    FlatMapOne(PacketBytes, p);
  }

  lemma HeaderReadsBack(p: Packet)
    ensures GetLE32(PacketHeader(p)[..4]) == |p.payload|
    ensures GetLE32(PacketHeader(p)[4..8]) == p.kind
  {
    hide LE32;
    hide GetLE32;
    assert PacketHeader(p)[..4] == LE32(|p.payload|);
    assert PacketHeader(p)[4..8] == LE32(p.kind);
    GetLE32RoundTrip(|p.payload|);
    GetLE32RoundTrip(p.kind);
  }

  /** A DrawData packet of three bytes begins with the length and the type, lowest byte first. */
  lemma DrawDataHeader()
    ensures PacketHeader(Packet(DRAW_DATA, [7, 8, 9])) == [3, 0, 0, 0, 4, 0, 0, 0]
  {
    var length, kind: seq<byte> := [3, 0, 0, 0], [4, 0, 0, 0];
    GetLE32Layout(length);
    GetLE32Layout(kind);
    LE32Back(length);
    LE32Back(kind);
  }

  lemma LE32Back(s: seq<byte>)
    requires |s| == 4
    ensures LE32(GetLE32(s)) == s
  {
    LERoundTrip(s);
  }

  /** The sizes of the pieces in which `n` bytes are sent: 0x3000 each, and what is left. */
  function PieceSizes(n: nat): seq<nat> {
    if n == 0 then [] else if n <= 0x3000 then [n] else [0x3000] + PieceSizes(n - 0x3000)
  }

  lemma PacketInParts(kind: u32, buffer: Payload)
    ensures PacketHeader(Packet(kind, buffer)) == LE32(|buffer|) + LE32(kind)
    ensures PacketBytes(Packet(kind, buffer)) == PacketHeader(Packet(kind, buffer)) + buffer
  {
  }

  lemma PieceFollows<T>(before: seq<T>, s: seq<T>, offset: nat, n: nat)
    requires offset + n <= |s|
    ensures before + s[..offset] + s[offset..offset + n] == before + s[..offset + n]
  {
  }

  lemma FirstPiece(n: nat)
    requires n > 0
    ensures var p := if n <= 0x3000 then n else 0x3000; PieceSizes(n) == [p] + PieceSizes(n - p)
  {
  }

  lemma NoPieces()
    ensures PieceSizes(0) == []
  {
  }

  /** The sending end of a reliable byte stream: every write takes all the bytes it is given. */
  class Connection {
    var sent: seq<byte>
    var writes: seq<nat>  // the sizes of the writes, in order

    constructor ()
      ensures sent == [] && writes == []
    {
      sent := [];
      writes := [];
    }

    method Write(bytes: seq<byte>)
      modifies this
      ensures sent == old(sent) + bytes && writes == old(writes) + [|bytes|]
    {
      sent := sent + bytes;
      writes := writes + [|bytes|];
    }

    /** The server's `sendPacketImpl`: the header, then the payload in one piece. */
    method SendWhole(kind: u32, buffer: Payload)
      modifies this
      ensures sent == old(sent) + PacketBytes(Packet(kind, buffer))
      ensures writes == old(writes) + [8, |buffer|]
    {
      hide LE32;
      Write(LE32(|buffer|) + LE32(kind));
      Write(buffer);
    }

    /** The desktop client's `sendPacketImpl`: the header, then pieces of at most 0x3000 bytes. */
    method SendChunked(kind: u32, buffer: Payload)
      modifies this
      ensures sent == old(sent) + PacketBytes(Packet(kind, buffer))
      ensures writes == old(writes) + [8] + PieceSizes(|buffer|)
    {
      hide LE32;
      hide PacketHeader;
      hide PacketBytes;
      hide PieceSizes;
      PacketInParts(kind, buffer);
      NoPieces();
      ghost var before, earlier := sent, writes;
      ghost var header := PacketHeader(Packet(kind, buffer));
      Write(LE32(|buffer|) + LE32(kind));
      var sizeLeft := |buffer|;
      while sizeLeft > 0
        invariant 0 <= sizeLeft <= |buffer|
        invariant sent == before + header + buffer[..|buffer| - sizeLeft]
        invariant writes + PieceSizes(sizeLeft) == earlier + [8] + PieceSizes(|buffer|)
      {
        FirstPiece(sizeLeft);
        var sendSize := 0x3000;
        if sendSize > sizeLeft {
          sendSize := sizeLeft;
        }
        var offset := |buffer| - sizeLeft;
        Write(buffer[offset..offset + sendSize]);
        PieceFollows(before + header, buffer, offset, sendSize);
        sizeLeft := sizeLeft - sendSize;
      }
      assert buffer[..|buffer|] == buffer;
    }
  }
}
