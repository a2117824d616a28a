/**
 * Framing over whole runs: whatever way the network cuts the stream, a receiver has handled a prefix of
 * the packets sent and holds exactly the bytes received after it; and it gets through all of them
 * exactly when each fits its buffer.
 */
module Framing {
  import opened Bytes
  import opened Packets
  import opened Receiver

  /** No header is held, or it is the header of `p` and `p`'s header bytes are in the buffer. */
  predicate HeaderHeld(rx: Rx, rest: seq<Packet>) {
    || (rx.nextSize == 0 && rx.nextType == NO_PACKET)
    || (rest != [] && |rx.buf| >= 8 && rx.nextSize == |rest[0].payload| && rx.nextType == rest[0].kind)
  }

  /** The receiver is at the front of `rest`: buffer and socket together hold exactly those packets. */
  predicate AtFront(rx: Rx, incoming: seq<byte>, rest: seq<Packet>) {
    rx.buf + incoming == Stream(rest) && HeaderHeld(rx, rest)
  }

  /** What every step keeps. */
  predicate InOrder(link: Link, capacity: nat, ps: seq<Packet>) {
    && link.handled <= ps
    && |link.rx.buf| <= capacity
    && AtFront(link.rx, link.incoming, ps[|link.handled|..])
  }

  function Start(ps: seq<Packet>): Link {
    Link(Rx([], 0, NO_PACKET), Stream(ps), [], false)
  }

  lemma FrontBytes(buf: seq<byte>, incoming: seq<byte>, rest: seq<Packet>)
    requires buf + incoming == Stream(rest) && rest != []
    ensures |buf| >= 8 ==> buf[..8] == PacketHeader(rest[0])
    ensures var n := 8 + |rest[0].payload|;
      |buf| >= n ==> buf[8..n] == rest[0].payload && buf[n..] + incoming == Stream(rest[1..])
  {
    hide Stream;
    hide PacketHeader;
    StreamCons(rest);
    var all, n := buf + incoming, 8 + |rest[0].payload|;
    if |buf| >= 8 {
      assert buf[..8] == all[..8];
    }
    if |buf| >= n {
      assert buf[8..n] == all[8..n];
      assert buf[n..] + incoming == all[n..];
    }
  }

  /** The header parsed is the one the sender wrote for the packet at the front. */
  lemma ParsesFront(rx: Rx, incoming: seq<byte>, rest: seq<Packet>)
    requires AtFront(rx, incoming, rest)
    ensures var p := ParseHeader(rx);
      && p.buf == rx.buf && AtFront(p, incoming, rest)
      && (|rx.buf| >= 8 ==> rest != [] && p.nextSize == |rest[0].payload| && p.nextType == rest[0].kind)
  {
    hide GetLE32;
    hide PacketHeader;
    hide FlatMap;
    if |rx.buf| >= 8 {
      if rest == [] {
        assert Stream(rest) == [] by {
          assert rest[..0] == rest;
          FlatMapNone(PacketBytes, rest);
        }
      } else {
        FrontBytes(rx.buf, incoming, rest);
        HeaderReadsBack(rest[0]);
        assert rx.buf[..8][..4] == rx.buf[0..4] && rx.buf[..8][4..8] == rx.buf[4..8];
      }
    }
  }

  /** Handling takes exactly the front packet when all of it is buffered, and otherwise nothing. */
  lemma TakesFront(rx: Rx, incoming: seq<byte>, rest: seq<Packet>)
    requires AtFront(rx, incoming, rest)
    ensures var t := TakeNext(rx);
      if rest != [] && |rx.buf| >= 8 + |rest[0].payload| then
        && t.handled == [rest[0]] && |t.rx.buf| == |rx.buf| - 8 - |rest[0].payload|
        && AtFront(t.rx, incoming, rest[1..])
      else
        && t.handled == [] && t.rx.buf == rx.buf && AtFront(t.rx, incoming, rest)
        && (|rx.buf| >= 8 ==> rest != [] && |rx.buf| < 8 + |rest[0].payload|)
  {
    hide GetLE32;
    hide PacketHeader;
    hide Stream;
    hide ParseHeader;
    ParsesFront(rx, incoming, rest);
    if rest != [] {
      FrontBytes(rx.buf, incoming, rest);
    }
  }

  lemma ReceivesFront(rx: Rx, incoming: seq<byte>, rest: seq<Packet>, n: nat)
    requires AtFront(rx, incoming, rest) && n <= |incoming|
    ensures AtFront(rx.(buf := rx.buf + incoming[..n]), incoming[n..], rest)
  {
    hide Stream;
    assert rx.buf + incoming[..n] + incoming[n..] == rx.buf + incoming;
  }

  lemma StepKeepsOrder(link: Link, capacity: nat, closed: bool, server: bool, want: nat, ps: seq<Packet>)
    requires InOrder(link, capacity, ps)
    ensures InOrder(Step(link, capacity, closed, server, want), capacity, ps)
    ensures link.handled <= Step(link, capacity, closed, server, want).handled
  {
    hide TakeNext;
    hide AtFront;
    if !link.hungUp {
      var rest := ps[|link.handled|..];
      var t := TakeNext(link.rx);
      TakesFront(link.rx, link.incoming, rest);
      assert link.handled + t.handled <= ps;
      assert ps[|link.handled + t.handled|..] == rest[|t.handled|..];
      var r := Recv(Free(capacity, t.rx), link.incoming, closed, want);
      if r.Got? {
        ReceivesFront(t.rx, link.incoming, rest[|t.handled|..], |r.bytes|);
        assert r.bytes == link.incoming[..|r.bytes|];
      }
    }
  }

  /**
   * For every list of packets, every cutting of the stream and every capacity, after every call: the
   * packets handled are a prefix of those sent, type and bytes exact, and the buffer followed by what is
   * still under way is exactly the rest of the stream.
   */
  lemma {:induction false} HandledInOrder(ps: seq<Packet>, capacity: nat, closed: bool, server: bool, wants: seq<nat>)
    ensures InOrder(Run(Start(ps), capacity, closed, server, wants), capacity, ps)
  {
    hide Step;
    hide AtFront;
    if wants == [] {
      assert ps[0..] == ps;
      assert AtFront(Start(ps).rx, Start(ps).incoming, ps) by {
        StartsAtFront(ps);
      }
    } else {
      HandledInOrder(ps, capacity, closed, server, wants[..|wants| - 1]);
      StepKeepsOrder(Run(Start(ps), capacity, closed, server, wants[..|wants| - 1]), capacity, closed, server,
                     wants[|wants| - 1], ps);
    }
  }

  lemma StartsAtFront(ps: seq<Packet>)
    ensures AtFront(Start(ps).rx, Start(ps).incoming, ps)
  {
    hide Stream;
  }

  // ----- no stall -----

  /** Every packet, header included, fits the buffer. */
  predicate AllFit(ps: seq<Packet>, capacity: nat) {
    forall p <- ps :: |p.payload| + 8 <= capacity
  }

  /** If every packet fits, `recv` is never called with no free space. */
  lemma RecvHasSpace(link: Link, capacity: nat, ps: seq<Packet>)
    requires InOrder(link, capacity, ps) && AllFit(ps, capacity) && capacity >= 8
    ensures Free(capacity, TakeNext(link.rx).rx) > 0
  {
    hide TakeNext;
    hide AtFront;
    var rest := ps[|link.handled|..];
    TakesFront(link.rx, link.incoming, rest);
    if rest != [] {
      assert rest[0] in ps;
    }
  }

  /** Bytes under way plus packets not yet handled. */
  function Pending(link: Link, ps: seq<Packet>): int {
    |link.incoming| + |ps| - |link.handled|
  }

  /** The peer keeps the connection open, or the receiver is the desktop client, which does not care. */
  predicate StaysOpen(closed: bool, server: bool) {
    closed ==> !server
  }

  /** A call that the network lets receive at least one byte makes progress until everything is handled. */
  lemma StepProgresses(link: Link, capacity: nat, closed: bool, server: bool, want: nat, ps: seq<Packet>)
    requires InOrder(link, capacity, ps) && AllFit(ps, capacity) && capacity >= 8
    requires !link.hungUp && want > 0 && StaysOpen(closed, server)
    ensures var next := Step(link, capacity, closed, server, want);
      !next.hungUp && (link.handled != ps ==> Pending(next, ps) < Pending(link, ps))
  {
    RecvHasSpace(link, capacity, ps);
    hide TakeNext;
    hide FlatMap;
    var rest := ps[|link.handled|..];
    var t := TakeNext(link.rx);
    TakesFront(link.rx, link.incoming, rest);
    if link.incoming == [] && link.handled != ps {
      assert rest != [];
      StreamCons(rest);
      assert link.rx.buf == Stream(rest);
    }
  }

  /** Once all bytes have arrived, each further call handles exactly the next packet. */
  lemma DrainsOneByOne(link: Link, capacity: nat, closed: bool, server: bool, want: nat, ps: seq<Packet>)
    requires InOrder(link, capacity, ps) && !link.hungUp
    requires link.incoming == [] && link.handled < ps
    ensures Step(link, capacity, closed, server, want).handled == link.handled + [ps[|link.handled|]]
    ensures Step(link, capacity, closed, server, want).incoming == []
  {
    hide TakeNext;
    hide FlatMap;
    var rest := ps[|link.handled|..];
    TakesFront(link.rx, link.incoming, rest);
    StreamCons(rest);
    assert link.rx.buf == Stream(rest);
  }

  /** Every call finds the network willing to deliver. */
  predicate Eager(wants: seq<nat>) {
    forall i :: 0 <= i < |wants| ==> wants[i] > 0
  }

  lemma {:induction false} Progresses(ps: seq<Packet>, capacity: nat, closed: bool, server: bool, wants: seq<nat>)
    requires AllFit(ps, capacity) && capacity >= 8
    requires Eager(wants) && StaysOpen(closed, server)
    ensures var link := Run(Start(ps), capacity, closed, server, wants);
      && !link.hungUp && link.handled <= ps
      && (link.handled == ps || Pending(link, ps) + |wants| <= |Stream(ps)| + |ps|)
  {
    hide Step;
    hide Stream;
    hide InOrder;
    if wants != [] {
      var before := wants[..|wants| - 1];
      Progresses(ps, capacity, closed, server, before);
      HandledInOrder(ps, capacity, closed, server, before);
      HandledInOrder(ps, capacity, closed, server, wants);
      var link := Run(Start(ps), capacity, closed, server, before);
      StepProgresses(link, capacity, closed, server, wants[|wants| - 1], ps);
      StepKeepsOrder(link, capacity, closed, server, wants[|wants| - 1], ps);
      HandledIsPrefix(Run(Start(ps), capacity, closed, server, wants), capacity, ps);
    }
  }

  lemma HandledIsPrefix(link: Link, capacity: nat, ps: seq<Packet>)
    requires InOrder(link, capacity, ps)
    ensures link.handled <= ps
  {
  }

  // ----- delivered if and only if it fits -----

  lemma {:induction false} StuckAt(ps: seq<Packet>, k: nat, capacity: nat, closed: bool, server: bool, wants: seq<nat>)
    requires k < |ps| && |ps[k].payload| + 8 > capacity
    ensures |Run(Start(ps), capacity, closed, server, wants).handled| <= k
  {
    hide TakeNext;
    hide AtFront;
    if wants != [] {
      var before := wants[..|wants| - 1];
      StuckAt(ps, k, capacity, closed, server, before);
      HandledInOrder(ps, capacity, closed, server, before);
      var link := Run(Start(ps), capacity, closed, server, before);
      TakesFront(link.rx, link.incoming, ps[|link.handled|..]);
    }
  }

  /**
   * On an open connection, or at the desktop client on any, with enough calls that receive at least a byte
   * each, all packets are handled if and only if each fits the buffer with its header; a packet too long
   * for the buffer blocks every later one for good.
   */
  lemma DeliveredIffFits(ps: seq<Packet>, capacity: nat, closed: bool, server: bool, wants: seq<nat>)
    requires StaysOpen(closed, server) && capacity >= 8 && Eager(wants) && |wants| > |Stream(ps)| + |ps|
    ensures Run(Start(ps), capacity, closed, server, wants).handled == ps <==> AllFit(ps, capacity)
  {
    hide Step;
    hide Run;
    hide Stream;
    if AllFit(ps, capacity) {
      Progresses(ps, capacity, closed, server, wants);
      var link := Run(Start(ps), capacity, closed, server, wants);
      assert Pending(link, ps) >= 0;
    } else {
      var p :| p in ps && |p.payload| + 8 > capacity;
      var k :| 0 <= k < |ps| && ps[k] == p;
      StuckAt(ps, k, capacity, closed, server, wants);
    }
  }

  // ----- never stalled, never hung up on -----

  /** If every packet fits, then at every moment of every run `recv` has room, and nobody hangs up unless the peer closes. */
  lemma {:induction false} NeverStalls(ps: seq<Packet>, capacity: nat, closed: bool, server: bool, wants: seq<nat>)
    requires AllFit(ps, capacity) && capacity >= 8 && StaysOpen(closed, server)
    ensures var link := Run(Start(ps), capacity, closed, server, wants);
      !link.hungUp && Free(capacity, TakeNext(link.rx).rx) > 0
  {
    hide TakeNext;
    hide InOrder;
    hide AllFit;
    HandledInOrder(ps, capacity, closed, server, wants);
    RecvHasSpace(Run(Start(ps), capacity, closed, server, wants), capacity, ps);
    if wants != [] {
      NeverStalls(ps, capacity, closed, server, wants[..|wants| - 1]);
    }
  }

  lemma StepProgressesOrHangsUp(link: Link, capacity: nat, want: nat, ps: seq<Packet>)
    requires InOrder(link, capacity, ps) && !link.hungUp && want > 0 && link.handled != ps
    ensures var next := Step(link, capacity, false, true, want);
      next.hungUp || Pending(next, ps) < Pending(link, ps)
  {
    hide TakeNext;
    hide FlatMap;
    var rest := ps[|link.handled|..];
    TakesFront(link.rx, link.incoming, rest);
    if link.incoming == [] {
      StreamCons(rest);
      assert link.rx.buf == Stream(rest);
    }
  }

  lemma {:induction false} ProgressesOrHangsUp(ps: seq<Packet>, capacity: nat, wants: seq<nat>)
    requires Eager(wants)
    ensures var link := Run(Start(ps), capacity, false, true, wants);
      && link.handled <= ps
      && (link.hungUp || link.handled == ps || Pending(link, ps) + |wants| <= |Stream(ps)| + |ps|)
  {
    hide Step;
    hide Stream;
    hide InOrder;
    HandledInOrder(ps, capacity, false, true, wants);
    var link := Run(Start(ps), capacity, false, true, wants);
    HandledIsPrefix(link, capacity, ps);
    if wants != [] {
      var before, want := wants[..|wants| - 1], wants[|wants| - 1];
      var last := Run(Start(ps), capacity, false, true, before);
      ProgressesOrHangsUp(ps, capacity, before);
      HandledInOrder(ps, capacity, false, true, before);
      if last.hungUp {
        assert link == last by {
          StaysHungUp(last, capacity, false, [want]);
          assert [want][..0] == [];
        }
      } else if last.handled == ps {
        StepKeepsOrder(last, capacity, false, true, want, ps);
      } else {
        StepProgressesOrHangsUp(last, capacity, want, ps);
      }
    }
  }

  /**
   * On an open connection with enough eager calls, the server hangs up if and only if some packet does
   * not fit its buffer: the buffer fills, and the zero-length `recv` that follows reads as a close.
   */
  lemma HangsUpIffTooLong(ps: seq<Packet>, capacity: nat, wants: seq<nat>)
    requires capacity >= 8 && Eager(wants) && |wants| > |Stream(ps)| + |ps|
    ensures Run(Start(ps), capacity, false, true, wants).hungUp <==> !AllFit(ps, capacity)
  {
    hide Step;
    hide Run;
    hide Stream;
    hide TakeNext;
    if AllFit(ps, capacity) {
      NeverStalls(ps, capacity, false, true, wants);
    } else {
      ProgressesOrHangsUp(ps, capacity, wants);
      DeliveredIffFits(ps, capacity, false, true, wants);
      var link := Run(Start(ps), capacity, false, true, wants);
      assert Pending(link, ps) >= 0;
    }
  }

  // ----- what the server loses when the client closes -----

  /**
   * All bytes are in and the peer has closed behind them. The next call handles one more packet, if there
   * is one, and the close it then reads ends the connection: what else is complete in the buffer is lost.
   */
  lemma CloseLosesBuffered(link: Link, capacity: nat, want: nat, ps: seq<Packet>, wants: seq<nat>)
    requires InOrder(link, capacity, ps) && !link.hungUp && link.incoming == []
    ensures var end := Run(Step(link, capacity, true, true, want), capacity, true, true, wants);
      && end.hungUp
      && end.handled == link.handled + (if link.handled == ps then [] else [ps[|link.handled|]])
      && (end.handled == ps <==> |ps| <= |link.handled| + 1)
  {
    hide TakeNext;
    hide FlatMap;
    var rest := ps[|link.handled|..];
    TakesFront(link.rx, link.incoming, rest);
    if rest != [] {
      StreamCons(rest);
      assert link.rx.buf == Stream(rest);
    }
    StaysHungUp(Step(link, capacity, true, true, want), capacity, true, wants);
  }

  /** All bytes are in, the server is still connected, and at most one packet is not yet handled. */
  predicate OneLeft(link: Link, ps: seq<Packet>) {
    !link.hungUp && link.incoming == [] && |ps| <= |link.handled| + 1
  }

  lemma {:induction false} RunConcat(link: Link, capacity: nat, closed: bool, server: bool, a: seq<nat>, b: seq<nat>)
    ensures Run(link, capacity, closed, server, a + b)
         == Run(Run(link, capacity, closed, server, a), capacity, closed, server, b)
    decreases |b|
  {
    hide Step;
    if b == [] {
      assert a + b == a;
    } else {
      var n := |b| - 1;
      RunConcat(link, capacity, closed, server, a, b[..n]);
      assert (a + b)[..|a + b| - 1] == a + b[..n];
    }
  }

  /** The call that handles the last packet finds nothing left to receive. */
  lemma LastCallReceivesNothing(link: Link, capacity: nat, closed: bool, server: bool, want: nat, ps: seq<Packet>)
    requires InOrder(link, capacity, ps) && Step(link, capacity, closed, server, want).handled == ps
    ensures link.hungUp || link.incoming == []
  {
    hide TakeNext;
    hide Stream;
    hide HeaderHeld;
    var next := Step(link, capacity, closed, server, want);
    StepKeepsOrder(link, capacity, closed, server, want, ps);
    assert ps[|ps|..] == [];
    assert next.rx.buf + next.incoming == Stream([]) == [] by {
      NothingToSend();
    }
  }

  lemma NothingToSend()
    ensures Stream([]) == []
  {
  }

  lemma {:induction false} DeliveredOnlyFromOneLeft(ps: seq<Packet>, capacity: nat, wants: seq<nat>) returns (k: nat)
    requires wants != [] && Run(Start(ps), capacity, true, true, wants).handled == ps
    ensures k < |wants| && OneLeft(Run(Start(ps), capacity, true, true, wants[..k]), ps)
  {
    hide Step;
    hide InOrder;
    k := |wants| - 1;
    var link := Run(Start(ps), capacity, true, true, wants[..k]);
    HandledInOrder(ps, capacity, true, true, wants[..k]);
    LastCallReceivesNothing(link, capacity, true, true, wants[k], ps);
    assert [wants[k]][..0] == [];
    if link.hungUp {
      StaysHungUp(link, capacity, true, [wants[k]]);
      k := DeliveredOnlyFromOneLeft(ps, capacity, wants[..k]);
      assert wants[..|wants| - 1][..k] == wants[..k];
    } else {
      CloseLosesBuffered(link, capacity, wants[k], ps, []);
    }
  }

  /**
   * When the client sends everything and closes, the server handles all of it if and only if some call
   * finds it connected, with every byte received and at most one packet left.
   */
  lemma ClosedDeliveredIff(ps: seq<Packet>, capacity: nat, wants: seq<nat>)
    requires wants != []
    ensures Run(Start(ps), capacity, true, true, wants).handled == ps
      <==> exists k :: 0 <= k < |wants| && OneLeft(Run(Start(ps), capacity, true, true, wants[..k]), ps)
  {
    hide Step;
    hide InOrder;
    if Run(Start(ps), capacity, true, true, wants).handled == ps {
      var k := DeliveredOnlyFromOneLeft(ps, capacity, wants);
    }
    if k :| 0 <= k < |wants| && OneLeft(Run(Start(ps), capacity, true, true, wants[..k]), ps) {
      HandledInOrder(ps, capacity, true, true, wants[..k]);
      ClosesAt(ps, capacity, wants, k);
    }
  }

  /** From the call that finds all bytes in, the rest of the run only handles one more packet. */
  lemma ClosesAt(ps: seq<Packet>, capacity: nat, wants: seq<nat>, k: nat)
    requires k < |wants|
    requires var link := Run(Start(ps), capacity, true, true, wants[..k]); !link.hungUp && link.incoming == []
    ensures Run(Start(ps), capacity, true, true, wants).handled == ps
      <==> |ps| <= |Run(Start(ps), capacity, true, true, wants[..k]).handled| + 1
  {
    hide Step;
    hide InOrder;
    var link := Run(Start(ps), capacity, true, true, wants[..k]);
    HandledInOrder(ps, capacity, true, true, wants[..k]);
    CloseLosesBuffered(link, capacity, wants[k], ps, wants[k + 1..]);
    RunConcat(Start(ps), capacity, true, true, wants[..k + 1], wants[k + 1..]);
    assert wants[..k + 1] + wants[k + 1..] == wants;
    assert wants[..k + 1][..k] == wants[..k];
  }

  lemma BurstArrives(ps: seq<Packet>, capacity: nat, want: nat)
    requires ps != [] && |Stream(ps)| <= capacity && want >= |Stream(ps)|
    ensures var link := Step(Start(ps), capacity, true, true, want);
      link.handled == [] && link.incoming == [] && !link.hungUp
  {
    hide FlatMap;
    hide TakeNext;
    StreamCons(ps);
    StartsAtFront(ps);
    TakesFront(Start(ps).rx, Start(ps).incoming, ps);
  }

  /**
   * A client that sends several packets, small enough to arrive in one `recv`, and closes has only the
   * first one handled.
   */
  lemma BurstLoses(ps: seq<Packet>, capacity: nat, want: nat, wants: seq<nat>)
    requires |ps| >= 2 && |Stream(ps)| <= capacity && want >= |Stream(ps)| && wants != []
    ensures Run(Start(ps), capacity, true, true, [want] + wants).handled == ps[..1]
  {
    hide Stream;
    hide Step;
    hide InOrder;
    var link := Step(Start(ps), capacity, true, true, want);
    BurstArrives(ps, capacity, want);
    assert [want][..0] == [];
    assert Run(Start(ps), capacity, true, true, [want]) == link;
    HandledInOrder(ps, capacity, true, true, [want]);
    RunConcat(Start(ps), capacity, true, true, [want] + [wants[0]], wants[1..]);
    assert [want] + [wants[0]] + wants[1..] == [want] + wants;
    assert ([want] + [wants[0]])[..1] == [want];
    CloseLosesBuffered(link, capacity, wants[0], ps, wants[1..]);
    assert ps[..1] == [ps[0]];
  }

  /** Two empty packets, the server's own buffer, and two calls. */
  lemma TwoEmptyPacketsLoseOne()
    ensures var p := Packet(1, []);
      Run(Start([p, p]), SERVER_CAPACITY, true, true, [16, 0]).handled == [p]
  {
    hide PacketHeader;
    var p := Packet(1, []);
    StreamCons([p, p]);
    StreamCons([p, p][1..]);
    NothingToSend();
    BurstLoses([p, p], SERVER_CAPACITY, 16, [0]);
    assert [16] + [0] == [16, 0];
  }

  lemma {:induction false} StaysHungUp(link: Link, capacity: nat, closed: bool, wants: seq<nat>)
    requires link.hungUp
    ensures Run(link, capacity, closed, true, wants) == link
  {
    if wants != [] {
      StaysHungUp(link, capacity, closed, wants[..|wants| - 1]);
    }
  }
}
