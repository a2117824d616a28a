/**
 * The two receiving loops. Both reassemble packets in a fixed buffer, keeping a parsed header across
 * calls, handle at most one packet a call, and then receive into the free space. The server's buffer
 * holds 4 KB, the desktop client's 1 MB.
 */
module Receiver {
  import opened Bytes
  import opened Packets

  const SERVER_CAPACITY: nat := 0x1000
  const CLIENT_CAPACITY: nat := 0x10_0000

  /** The buffered bytes and the header parsed from them; size and type 0 mean no header yet. */
  datatype Rx = Rx(buf: seq<byte>, nextSize: u32, nextType: u32)

  function ParseHeader(rx: Rx): Rx {
    if rx.nextType == NO_PACKET && rx.nextSize == 0 && |rx.buf| >= 8
    then rx.(nextSize := GetLE32(rx.buf[0..4]), nextType := GetLE32(rx.buf[4..8]))
    else rx
  }

  /** The packet handled by this call, if the buffer holds all of it. */
  datatype Taken = Taken(rx: Rx, handled: seq<Packet>)

  function TakeParsed(rx: Rx): Taken {
    var wholeSize := rx.nextSize as int + 8;
    if |rx.buf| >= wholeSize
    then Taken(Rx(rx.buf[wholeSize..], 0, NO_PACKET), [Packet(rx.nextType, rx.buf[8..wholeSize])])
    else Taken(rx, [])
  }

  function TakeNext(rx: Rx): Taken {
    TakeParsed(ParseHeader(rx))
  }

  // ----- the socket -----

  /** What a nonblocking `recv` may report. */
  datatype RecvResult = Got(bytes: seq<byte>) | WouldBlock | Eof

  function Min(a: nat, b: nat): nat {
    if a < b then a else b
  }

  /**
   * `recv` into `free` bytes. `want` stands for the network: it may deliver any prefix of what is under
   * way that fits, or nothing. A zero-length `recv` returns 0, the same as a closed peer.
   */
  function Recv(free: nat, incoming: seq<byte>, closed: bool, want: nat): (r: RecvResult)
    ensures r.Got? ==> 0 < |r.bytes| <= free && r.bytes <= incoming
  {
    if free == 0 then Eof
    else if incoming == [] then (if closed then Eof else WouldBlock)
    else if want == 0 then WouldBlock
    else Got(incoming[..Min(want, Min(free, |incoming|))])
  }

  /** Any nonempty cut that fits may arrive, or nothing; a full buffer and a finished stream both read as a close. */
  lemma RecvCutsAnywhere(free: nat, incoming: seq<byte>, closed: bool, n: nat)
    ensures 0 < n <= free && n <= |incoming| ==> Recv(free, incoming, closed, n) == Got(incoming[..n])
    ensures free > 0 && incoming != [] ==> Recv(free, incoming, closed, 0) == WouldBlock
    ensures free > 0 && incoming == [] ==> Recv(free, incoming, closed, n) == if closed then Eof else WouldBlock
    ensures free == 0 ==> Recv(free, incoming, closed, n) == Eof
  {
  }

  /** The receiving end: bytes under way, and whether the peer has closed behind them. */
  class Socket {
    var incoming: seq<byte>
    const closed: bool

    constructor (incoming: seq<byte>, closed: bool)
      ensures this.incoming == incoming && this.closed == closed
    {
      this.incoming := incoming;
      this.closed := closed;
    }

    method RecvInto(buffer: array<byte>, at: nat, want: nat) returns (r: RecvResult)
      requires at <= buffer.Length
      modifies this, buffer
      ensures r == Recv(buffer.Length - at, old(incoming), closed, want)
      ensures buffer[..at] == old(buffer[..at])
      ensures r.Got? ==> buffer[..at + |r.bytes|] == old(buffer[..at]) + r.bytes
      ensures r.Got? ==> incoming == old(incoming)[|r.bytes|..]
      ensures !r.Got? ==> incoming == old(incoming)
    {
      r := Recv(buffer.Length - at, incoming, closed, want);
      if r.Got? {
        var n := |r.bytes|;
        forall i | 0 <= i < n {
          buffer[at + i] := r.bytes[i];
        }
        incoming := incoming[n..];
      }
    }
  }

  // ----- one call, on values -----

  /** A receiver on its socket: the bytes under way, the packets handled so far, whether it hung up. */
  datatype Link = Link(rx: Rx, incoming: seq<byte>, handled: seq<Packet>, hungUp: bool)

  function Free(capacity: nat, rx: Rx): nat {
    if |rx.buf| >= capacity then 0 else capacity - |rx.buf|
  }

  /** One call. The server hangs up when `recv` returns 0; the desktop client takes no notice. */
  function Step(link: Link, capacity: nat, closed: bool, server: bool, want: nat): Link {
    if link.hungUp then link
    else
      var t := TakeNext(link.rx);
      var handled := link.handled + t.handled;
      match Recv(Free(capacity, t.rx), link.incoming, closed, want)
      case Got(bytes) => Link(t.rx.(buf := t.rx.buf + bytes), link.incoming[|bytes|..], handled, false)
      case WouldBlock => Link(t.rx, link.incoming, handled, false)
      case Eof => Link(t.rx, link.incoming, handled, server)
  }

  function Run(link: Link, capacity: nat, closed: bool, server: bool, wants: seq<nat>): Link {
    if wants == [] then link
    else Step(Run(link, capacity, closed, server, wants[..|wants| - 1]), capacity, closed, server, wants[|wants| - 1])
  }

  // ----- the buffers themselves -----

  lemma ArraySlice(a: array<byte>, n: nat, lo: nat, hi: nat)
    requires lo <= hi <= n <= a.Length
    ensures a[..n][lo..hi] == a[lo..hi]
  {
    Subslice(a[..], 0, n, lo, hi);
    assert a[..][0..n] == a[..n] && a[..][lo..hi] == a[lo..hi];
  }

  class PacketReceiver {
    const mBuffer: array<byte>
    var mBufferSize: nat
    var mNextPacketSize: u32
    var mNextPacketType: u32
    var handled: seq<Packet>  // the packets given to handlePacket, in order
    var hungUp: bool

    constructor (capacity: nat)
      ensures Valid() && fresh(mBuffer) && mBuffer.Length == capacity
      ensures State() == Rx([], 0, NO_PACKET) && handled == [] && !hungUp
    {
      mBuffer := new byte[capacity](_ => 0);
      mBufferSize := 0;
      mNextPacketSize := 0;
      mNextPacketType := NO_PACKET;
      handled := [];
      hungUp := false;
    }

    predicate Valid()
      reads this
    {
      mBufferSize <= mBuffer.Length
    }

    function State(): Rx
      requires Valid()
      reads this, mBuffer
    {
      Rx(mBuffer[..mBufferSize], mNextPacketSize, mNextPacketType)
    }

    ghost function OnSocket(socket: Socket): Link
      requires Valid()
      reads this, mBuffer, socket
    {
      Link(State(), socket.incoming, handled, hungUp)
    }

    /** Moves what follows the first `wholeSize` bytes to the front, as `memmove` does. */
    method DropFront(wholeSize: nat)
      requires Valid() && wholeSize <= mBufferSize
      modifies this`mBufferSize, mBuffer
      ensures Valid() && mBuffer[..mBufferSize] == old(mBuffer[..mBufferSize])[wholeSize..]
    {
      ghost var buf := mBuffer[..mBufferSize];
      var toMove := mBufferSize - wholeSize;
      assert toMove <= mBuffer.Length;  // so the client's reset for an oversized move never happens
      forall i | 0 <= i < toMove {
        mBuffer[i] := mBuffer[wholeSize + i];
      }
      mBufferSize := toMove;
      assert forall i :: 0 <= i < toMove ==> mBuffer[i] == buf[wholeSize + i];
    }

    /** Parses a header if none is held, and handles the packet at the front if it is complete. */
    method HandleNext()
      requires Valid()
      modifies this, mBuffer
      ensures Valid() && hungUp == old(hungUp)
      ensures State() == old(TakeNext(State()).rx)
      ensures handled == old(handled) + old(TakeNext(State()).handled)
    {
      hide GetLE32;
      if mNextPacketType == NO_PACKET && mNextPacketSize == 0 && mBufferSize >= 8 {
        ArraySlice(mBuffer, mBufferSize, 0, 4);
        ArraySlice(mBuffer, mBufferSize, 4, 8);
        mNextPacketSize := GetLE32(mBuffer[0..4]);
        mNextPacketType := GetLE32(mBuffer[4..8]);
      }
      var wholeSize := mNextPacketSize as int + 8;
      if mBufferSize >= wholeSize {
        ArraySlice(mBuffer, mBufferSize, 8, wholeSize);
        handled := handled + [Packet(mNextPacketType, mBuffer[8..wholeSize])];
        DropFront(wholeSize);
        mNextPacketSize := 0;
        mNextPacketType := NO_PACKET;
      }
    }

    /** `recv` into the rest of the buffer. */
    method ReceiveMore(socket: Socket, want: nat) returns (r: RecvResult)
      requires Valid()
      modifies this`mBufferSize, mBuffer, socket
      ensures Valid()
      ensures r == Recv(Free(mBuffer.Length, old(State())), old(socket.incoming), socket.closed, want)
      ensures r.Got? ==> State() == old(State()).(buf := old(State()).buf + r.bytes)
      ensures r.Got? ==> socket.incoming == old(socket.incoming)[|r.bytes|..]
      ensures !r.Got? ==> State() == old(State()) && socket.incoming == old(socket.incoming)
    {
      r := socket.RecvInto(mBuffer, mBufferSize, want);
      if r.Got? {
        mBufferSize := mBufferSize + |r.bytes|;
      }
    }

    /** The server's `handleEvent`; true means the client is gone. */
    method HandleEvent(socket: Socket, want: nat) returns (disconnected: bool)
      requires Valid() && !hungUp
      modifies this, mBuffer, socket
      ensures Valid()
      ensures OnSocket(socket) == Step(old(OnSocket(socket)), mBuffer.Length, socket.closed, true, want)
      ensures disconnected == hungUp
    {
      hide TakeNext;
      HandleNext();
      var rem := ReceiveMore(socket, want);
      if rem.Eof? {
        hungUp := true;
      }
      disconnected := rem.Eof?;
    }

    /** One turn of the desktop client's `run` loop. */
    method RunOnce(socket: Socket, want: nat)
      requires Valid() && !hungUp
      modifies this, mBuffer, socket
      ensures Valid()
      ensures OnSocket(socket) == Step(old(OnSocket(socket)), mBuffer.Length, socket.closed, false, want)
    {
      hide TakeNext;
      HandleNext();
      var rem := ReceiveMore(socket, want);
    }
  }
}
