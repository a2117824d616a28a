/** Packer, transport and unpacker together. */
module EndToEnd {
  import L = DrawLists
  import opened Bytes
  import opened Wrappers
  import opened Wire
  import opened Codec
  import opened DrawDataPack
  import opened DeltaRun
  import opened ImGuiLoop
  import opened Packets
  import opened Receiver
  import opened Framing

  /** `render` on a set of connected clients: if the frame is packed, each gets it as one DrawData packet. */
  method RenderToClients(renderer: Renderer, clients: seq<Connection>, data: ImDrawData, mouseCursor: i32,
                         displaySize: DisplaySize) returns (sent: bool)
    requires renderer.Valid()
    requires forall i, j :: 0 <= i < j < |data.CmdLists| ==> data.CmdLists[i] != data.CmdLists[j]
    requires forall i, j :: 0 <= i < j < |clients| ==> clients[i] != clients[j]
    requires renderer.sRerender || renderer.lastDrawDataHash != L.CalcDrawDataHash(Values(data.CmdLists))
      ==> FrameSize(Delta(renderer.packer.Table(), FrameOf(data, mouseCursor, displaySize))) <= 0x8_0000
    modifies renderer, renderer.packer, renderer.packer.sPrevDrawListHashes, renderer.sDrawDataBuffer, data.CmdLists
    modifies clients
    ensures renderer.Valid() && !renderer.sRerender
    ensures renderer.lastDrawDataHash == old(L.CalcDrawDataHash(Values(data.CmdLists)))
    ensures sent == (old(renderer.sRerender)
      || old(renderer.lastDrawDataHash) != old(L.CalcDrawDataHash(Values(data.CmdLists))))
    ensures var table, frame := old(renderer.packer.Table()), old(FrameOf(data, mouseCursor, displaySize));
      && renderer.packer.Table() == (if sent then NextTable(table, frame) else table)
      && forall i :: 0 <= i < |clients| ==>
        clients[i].sent
        == old(clients[i].sent) + (if sent then PacketBytes(Packet(DRAW_DATA, PackFrame(table, frame))) else [])
  {
    hide PackFrame;
    hide Delta;
    hide PacketBytes;
    hide NextTable;
    hide L.CalcDrawDataHash;
    ghost var payload := PackFrame(renderer.packer.Table(), FrameOf(data, mouseCursor, displaySize));
    var written;
    sent, written := renderer.Render(data, mouseCursor, displaySize);
    if sent {
      var k := 0;
      while k < |clients|
        invariant 0 <= k <= |clients|
        invariant renderer.sDrawDataBuffer[..written] == payload
        invariant forall i :: 0 <= i < k ==> clients[i].sent == old(clients[i].sent) + PacketBytes(Packet(DRAW_DATA, payload))
        invariant forall i :: k <= i < |clients| ==> clients[i].sent == old(clients[i].sent)
        modifies clients
      {
        clients[k].SendWhole(DRAW_DATA, renderer.sDrawDataBuffer[..written]);
        k := k + 1;
      }
    }
  }

  // ----- what the client makes of the packets it handles -----

  function DrawPayloads(ps: seq<Packet>): seq<Payload> {
    if ps == [] then []
    else
      var last := ps[|ps| - 1];
      DrawPayloads(ps[..|ps| - 1]) + (if last.kind == DRAW_DATA then [last.payload] else [])
  }

  /** The DrawData packets among `ps` are the first frames of the run from `join` on, in order. */
  predicate Carries(ps: seq<Packet>, run: Run, join: nat) {
    join <= |run| && DrawPayloads(ps) <= PayloadsFrom(run, join)
  }

  /** The DrawData packets among `ps` are all the frames of the run from `join` on. */
  predicate CarriesAll(ps: seq<Packet>, run: Run, join: nat) {
    join <= |run| && DrawPayloads(ps) == PayloadsFrom(run, join)
  }

  /** The client's lists after handling the packets; None if a payload could not be unpacked. */
  function ShownAfter(handled: seq<Packet>, run: Run, join: nat): Option<seq<ShownList>>
    requires join + |DrawPayloads(handled)| <= |run|
  {
    if handled == [] then Some([])
    else
      var front, last := handled[..|handled| - 1], handled[|handled| - 1];
      if last.kind != DRAW_DATA then ShownAfter(front, run, join)
      else match ShownAfter(front, run, join)
        case None => None
        case Some(prev) =>
          match Unpack(prev, last.payload, run[join + |DrawPayloads(front)|].size)
          case None => None
          case Some(r) => Some(r.1)
  }

  lemma {:induction false} DrawPayloadsPrefix(ps: seq<Packet>, n: nat)
    requires n <= |ps|
    ensures DrawPayloads(ps[..n]) <= DrawPayloads(ps)
    decreases |ps|
  {
    if n == |ps| {
      assert ps[..n] == ps;
    } else {
      DrawPayloadsPrefix(ps[..|ps| - 1], n);
      assert ps[..|ps| - 1][..n] == ps[..n];
    }
  }

  lemma CarriesPrefix(ps: seq<Packet>, run: Run, join: nat, n: nat)
    requires Carries(ps, run, join) && n <= |ps|
    ensures Carries(ps[..n], run, join)
  {
    hide PayloadsFrom;
    DrawPayloadsPrefix(ps, n);
  }

  /** Handling any packets that carry a run's frames, the client shows what the delta protocol says. */
  lemma {:induction false} ShownIsClient(handled: seq<Packet>, run: Run, join: nat)
    requires Carries(handled, run, join)
    ensures ShownAfter(handled, run, join) == Some(Client(run, join, join + |DrawPayloads(handled)|))
  {
    hide DeltaRun.Payload;
    hide Client;
    hide Unpack;
    if handled == [] {
      assert Client(run, join, join) == [] by {
        ClientStartsBlank(run, join);
      }
    } else {
      var n := |handled| - 1;
      CarriesPrefix(handled, run, join, n);
      ShownIsClient(handled[..n], run, join);
      if handled[n].kind == DRAW_DATA {
        var k := |DrawPayloads(handled[..n])|;
        assert DrawPayloads(handled)[k] == handled[n].payload == PayloadsFrom(run, join)[k];
        ClientUnpacks(run, join, join + k);
      }
    }
  }

  lemma ClientStartsBlank(run: Run, join: nat)
    requires join <= |run|
    ensures Client(run, join, join) == []
  {
  }

  /**
   * At every moment, for every cutting of the stream: the desktop client has unpacked some number `k` of
   * the frames sent, and shows exactly what unpacking those payloads directly would show.
   */
  lemma TransportPreservesFrames(ps: seq<Packet>, run: Run, join: nat, closed: bool, wants: seq<nat>)
    requires Carries(ps, run, join)
    ensures var link := Receiver.Run(Start(ps), CLIENT_CAPACITY, closed, false, wants);
      var k := |DrawPayloads(link.handled)|;
      && DrawPayloads(link.handled) <= DrawPayloads(ps)
      && join + k <= |run|
      && ShownAfter(link.handled, run, join) == Some(Client(run, join, join + k))
  {
    hide Receiver.Run;
    hide DeltaRun.Payload;
    hide Client;
    hide ShownAfter;
    hide AtFront;
    HandledInOrder(ps, CLIENT_CAPACITY, closed, false, wants);
    var link := Receiver.Run(Start(ps), CLIENT_CAPACITY, closed, false, wants);
    assert link.handled == ps[..|link.handled|];
    CarriesPrefix(ps, run, join, |link.handled|);
    DrawPayloadsPrefix(ps, |link.handled|);
    ShownIsClient(link.handled, run, join);
  }

  /** Frames fit the server's 512 KB buffer; other packets fit the desktop client's 1 MB with their header. */
  ghost predicate FitBuffers(ps: seq<Packet>) {
    forall p <- ps :: |p.payload| <= if p.kind == DRAW_DATA then 0x8_0000 else 0x10_0000 - 8
  }

  /** With enough calls, the desktop client handles every packet and has unpacked every frame. */
  lemma AllDelivered(ps: seq<Packet>, run: Run, join: nat, closed: bool, wants: seq<nat>)
    requires CarriesAll(ps, run, join) && FitBuffers(ps)
    requires Eager(wants) && |wants| > |Stream(ps)| + |ps|
    ensures Receiver.Run(Start(ps), CLIENT_CAPACITY, closed, false, wants).handled == ps
    ensures ShownAfter(ps, run, join) == Some(Client(run, join, |run|))
  {
    hide Receiver.Run;
    hide DeltaRun.Payload;
    hide Client;
    hide ShownAfter;
    hide Stream;
    assert AllFit(ps, CLIENT_CAPACITY);
    DeliveredIffFits(ps, CLIENT_CAPACITY, closed, false, wants);
    ShownIsClient(ps, run, join);
  }

  /**
   * A client connected from the first frame, packets of other kinds in between, any cutting of the stream,
   * enough calls: every slot on the client shows the last frame sent, quantised. The conditions on the run
   * are those of the delta protocol.
   */
  lemma ClientShowsQuantisedServerFrame(ps: seq<Packet>, run: Run, closed: bool, wants: seq<nat>,
                                        d: DisplaySize, size: Size)
    requires CarriesAll(ps, run, 0) && FitBuffers(ps) && run != []
    requires Eager(wants) && |wants| > |Stream(ps)| + |ps|
    requires Nonempty(run) && NoSlotCollision(run) && OneDisplay(run, d, size) && NeverShrinks(run) && NoZeroHash(run)
    ensures Receiver.Run(Start(ps), CLIENT_CAPACITY, closed, false, wants).handled == ps
    ensures ShownAfter(ps, run, 0).Some?
    ensures var shown := ShownAfter(ps, run, 0).value;
      && |shown| == |run[|run| - 1].frame.lists|
      && forall i :: 0 <= i < |shown| ==> shown[i] == ShownAt(run, |run| - 1, i)
  {
    hide Receiver.Run;
    hide DeltaRun.Payload;
    hide Client;
    hide ShownAfter;
    hide Stream;
    hide Nonempty;
    hide NoSlotCollision;
    hide OneDisplay;
    hide NeverShrinks;
    hide NoZeroHash;
    hide ShownAt;
    AllDelivered(ps, run, 0, closed, wants);
    AlwaysShowsCurrent(run, |run|, d, size);
    forall i | 0 <= i < |run[|run| - 1].frame.lists|
      ensures Client(run, 0, |run|)[i] == ShownAt(run, |run| - 1, i)
    {
      assert ShowsCurrent(run, 0, |run|, i);
    }
  }

  // ----- from the calls of `render` to what a client shows -----

  predicate FrameFits(calls: seq<Call>, t: nat)
    requires t < |calls|
  {
    hide Delta;
    FrameSize(Delta(TableAt(calls, t), calls[t].frame)) <= 0x8_0000
  }

  /** Every frame that is packed fits the server's buffer. */
  ghost predicate FramesFit(calls: seq<Call>) {
    hide Sends;
    hide FrameFits;
    forall t :: 0 <= t < |calls| && Sends(calls, t) ==> FrameFits(calls, t)
  }

  /** What call `t` sends to each client. */
  function Emitted(calls: seq<Call>, t: nat): seq<Packet>
    requires t < |calls| && (Sends(calls, t) ==> FrameFits(calls, t))
  {
    hide L.CalcDrawDataHash;
    if Sends(calls, t) then [Packet(DRAW_DATA, PackFrame(TableAt(calls, t), calls[t].frame))] else []
  }

  /** The DrawData packets for a client connected before call `from`, after `n` calls. */
  ghost function PacketsSince(calls: seq<Call>, from: nat, n: nat): seq<Packet>
    requires from <= n <= |calls| && FramesFit(calls)
  {
    hide L.CalcDrawDataHash;
    if n == from then [] else PacketsSince(calls, from, n - 1) + Emitted(calls, n - 1)
  }

  lemma DrawPayloadsSnoc(ps: seq<Packet>, p: Packet)
    ensures DrawPayloads(ps + [p]) == DrawPayloads(ps) + (if p.kind == DRAW_DATA then [p.payload] else [])
  {
    assert (ps + [p])[..|ps|] == ps;
  }

  /** One more frame, sent as one more packet. */
  lemma CarriesSnoc(ps: seq<Packet>, p: Packet, run: Run, more: Run, join: nat)
    requires CarriesAll(ps, run, join) && run <= more && |more| == |run| + 1
    requires p.kind == DRAW_DATA && p.payload == DeltaRun.Payload(more, |run|)
    ensures CarriesAll(ps + [p], more, join)
  {
    hide DrawPayloads;
    hide DeltaRun.Payload;
    hide PayloadsFrom;
    DrawPayloadsSnoc(ps, p);
    PayloadsFromSnoc(run, more, join);
  }

  /** The packets emitted carry exactly the frames packed since the client connected, in order. */
  lemma {:induction false} PacketsCarryRun(calls: seq<Call>, from: nat, n: nat)
    requires from <= n <= |calls| && FramesFit(calls)
    ensures CarriesAll(PacketsSince(calls, from, n), SentRun(calls, n), JoinAt(calls, from))
    decreases n
  {
    hide Sends;
    hide PackFrame;
    hide Delta;
    hide FrameSize;
    hide TableBefore;
    hide CarriesAll;
    if n == from {
      assert CarriesAll([], SentRun(calls, n), |SentRun(calls, n)|) by {
        NothingCarriesNothing(SentRun(calls, n));
      }
    } else {
      PacketsCarryRun(calls, from, n - 1);
      if Sends(calls, n - 1) {
        var run, more := SentRun(calls, n - 1), SentRun(calls, n);
        assert more == run + [Sent(calls[n - 1].frame, calls[n - 1].size)];
        TableBeforePrefix(run, more, |run|);
        CarriesSnoc(PacketsSince(calls, from, n - 1), Emitted(calls, n - 1)[0], run, more, JoinAt(calls, from));
      } else {
        assert PacketsSince(calls, from, n) == PacketsSince(calls, from, n - 1);
      }
    }
  }

  lemma NothingCarriesNothing(run: Run)
    ensures CarriesAll([], run, |run|)
  {
  }

  /** The DrawData packets among `ps` are those emitted for a client that connected before call `from`. */
  ghost predicate SentAlong(ps: seq<Packet>, calls: seq<Call>, from: nat) {
    && from <= |calls| && FramesFit(calls)
    && DrawPayloads(ps) == DrawPayloads(PacketsSince(calls, from, |calls|))
  }

  lemma SentAlongCarries(ps: seq<Packet>, calls: seq<Call>, from: nat)
    requires SentAlong(ps, calls, from)
    ensures CarriesAll(ps, SentRun(calls, |calls|), JoinAt(calls, from))
  {
    hide DrawPayloads;
    hide DeltaRun.Payload;
    PacketsCarryRun(calls, from, |calls|);
  }

  lemma {:induction false} PayloadListed(ps: seq<Packet>, p: Packet)
    requires p in ps && p.kind == DRAW_DATA
    ensures p.payload in DrawPayloads(ps)
  {
    var n := |ps| - 1;
    if ps[n] != p {
      PayloadListed(ps[..n], p);
    }
  }

  lemma {:induction false} PayloadsFit(ps: seq<Packet>, size: nat)
    requires forall p <- ps :: |p.payload| <= size
    ensures forall s <- DrawPayloads(ps) :: |s| <= size
  {
    if ps != [] {
      PayloadsFit(ps[..|ps| - 1], size);
    }
  }

  lemma EmittedFit(calls: seq<Call>, t: nat)
    requires t < |calls| && (Sends(calls, t) ==> FrameFits(calls, t))
    ensures forall p <- Emitted(calls, t) :: |p.payload| <= 0x8_0000
  {
    hide Sends;
    hide Delta;
    hide FrameSize;
    hide TableAt;
  }

  lemma {:induction false} PacketsFit(calls: seq<Call>, from: nat, n: nat)
    requires from <= n <= |calls| && FramesFit(calls)
    ensures forall p <- PacketsSince(calls, from, n) :: |p.payload| <= 0x8_0000
    decreases n
  {
    hide Sends;
    hide FrameFits;
    hide Emitted;
    if n > from {
      PacketsFit(calls, from, n - 1);
      EmittedFit(calls, n - 1);
    }
  }

  /** Packets of other kinds fit the desktop client's buffer with their header. */
  ghost predicate OthersFit(ps: seq<Packet>) {
    forall p <- ps :: p.kind != DRAW_DATA ==> |p.payload| <= 0x10_0000 - 8
  }

  lemma FramesFitBuffers(ps: seq<Packet>, calls: seq<Call>, from: nat)
    requires SentAlong(ps, calls, from)
    requires OthersFit(ps)
    ensures FitBuffers(ps)
  {
    hide DrawPayloads;
    hide PacketsSince;
    PacketsFit(calls, from, |calls|);
    PayloadsFit(PacketsSince(calls, from, |calls|), 0x8_0000);
    forall p | p in ps && p.kind == DRAW_DATA ensures |p.payload| <= 0x8_0000 {
      PayloadListed(ps, p);
    }
  }

  /** Slot `i` of what the client made of the packets is slot `i` of the frame drawn last, quantised. */
  ghost predicate ScreenIsLatest(ps: seq<Packet>, calls: seq<Call>, from: nat, i: nat, d: DisplaySize, size: Size) {
    hide DrawPayloads;
    hide SentRun;
    hide Client;
    && |calls| > 0 && i < |calls[|calls| - 1].frame.lists| && SentAlong(ps, calls, from)
    && (SentAlongCarries(ps, calls, from);
        var screen := ShownAfter(ps, SentRun(calls, |calls|), JoinAt(calls, from));
        && screen.Some? && i < |screen.value|
        && screen.value[i] == ShowList(PackList(calls[|calls| - 1].frame.lists[i], d), size))
  }

  /** Every packet is handled, and the screen is what the run of packed frames says. */
  lemma PathShows(ps: seq<Packet>, calls: seq<Call>, from: nat, closed: bool, wants: seq<nat>,
                  i: nat, d: DisplaySize, size: Size)
    requires |calls| > 0 && i < |calls[|calls| - 1].frame.lists| && SteadyCalls(calls, d, size)
    requires from <= |calls| && SentAlong(ps, calls, from) && OthersFit(ps)
    requires Eager(wants) && |wants| > |Stream(ps)| + |ps|
    ensures Receiver.Run(Start(ps), CLIENT_CAPACITY, closed, false, wants).handled == ps
    ensures ScreenIsLatest(ps, calls, from, i, d, size) <==> ShowsLatest(calls, JoinAt(calls, from), |calls|, i)
  {
    hide Receiver.Run;
    hide CarriesAll;
    hide SentAlong;
    hide FitBuffers;
    hide Stream;
    hide ShownAfter;
    hide Client;
    hide SentRun;
    hide PackList;
    hide ShowList;
    SentAlongCarries(ps, calls, from);
    FramesFitBuffers(ps, calls, from);
    AllDelivered(ps, SentRun(calls, |calls|), JoinAt(calls, from), closed, wants);
    LatestIsSteady(calls, |calls|, d, size);
  }

  /**
   * The whole path, from the calls of `render` to the desktop client's screen: whenever the client
   * connected, whatever calls were skipped, with packets of other kinds in between and any cutting of the
   * stream, it handles every packet, and a slot shows the latest frame exactly when it is not stale and the
   * last frame packed looks the same there.
   */
  lemma ClientShowsLatestIff(ps: seq<Packet>, calls: seq<Call>, from: nat, closed: bool, wants: seq<nat>,
                             i: nat, d: DisplaySize, size: Size)
    requires |calls| > 0 && i < |calls[|calls| - 1].frame.lists| && NotEmptied(calls, |calls|, i)
    requires SteadyCalls(calls, d, size) && NoSlotCollision(SentRun(calls, |calls|))
    requires from <= |calls| && SentAlong(ps, calls, from) && OthersFit(ps)
    requires Eager(wants) && |wants| > |Stream(ps)| + |ps|
    ensures Receiver.Run(Start(ps), CLIENT_CAPACITY, closed, false, wants).handled == ps
    ensures var run := SentRun(calls, |calls|);
      ScreenIsLatest(ps, calls, from, i, d, size) <==>
        Fresh(run, JoinAt(calls, from), |run|, i) && LastSentLooksLike(calls, |calls|, i, d, size)
  {
    hide *;
    PathShows(ps, calls, from, closed, wants, i, d, size);
    GatingShowsIff(calls, JoinAt(calls, from), |calls|, i, d, size);
  }

  /** With no collision of frame hashes, exactly the stale slots are wrong; an emptied one is wrong if it is not stale. */
  lemma ClientShowsLatestIffFresh(ps: seq<Packet>, calls: seq<Call>, from: nat, closed: bool, wants: seq<nat>,
                                  i: nat, d: DisplaySize, size: Size)
    requires |calls| > 0 && i < |calls[|calls| - 1].frame.lists| && SteadyCalls(calls, d, size)
    requires NoSlotCollision(SentRun(calls, |calls|)) && NoFrameCollision(calls)
    requires from <= |calls| && SentAlong(ps, calls, from) && OthersFit(ps)
    requires Eager(wants) && |wants| > |Stream(ps)| + |ps|
    ensures Receiver.Run(Start(ps), CLIENT_CAPACITY, closed, false, wants).handled == ps
    ensures var run, join := SentRun(calls, |calls|), JoinAt(calls, from);
      var current := Fresh(run, join, |run|, i);
      ScreenIsLatest(ps, calls, from, i, d, size) <==>
        if Empty(calls[|calls| - 1].frame.lists[i]) then join < |run| && !current else current
  {
    hide *;
    PathShows(ps, calls, from, closed, wants, i, d, size);
    GatingKeepsCurrent(calls, JoinAt(calls, from), |calls|, i, d, size);
  }

  // ----- the server, call by call -----

  /** What a connection has been sent since it was made before call `from`. */
  datatype Log = Log(from: nat, packets: seq<Packet>)

  ghost predicate LogFits(log: Log, c: Connection, calls: seq<Call>)
    reads c
  {
    c.sent == Stream(log.packets) && SentAlong(log.packets, calls, log.from)
  }

  /** Every connection has been sent its log, and each log carries the frames packed since it was made. */
  ghost predicate InStep(clients: seq<Connection>, logs: seq<Log>, calls: seq<Call>)
    reads clients
  {
    && |logs| == |clients| && FramesFit(calls)
    && forall i :: 0 <= i < |clients| ==> LogFits(logs[i], clients[i], calls)
  }

  /** A client that connects has been sent nothing and joins at the next call. */
  lemma ConnectInStep(clients: seq<Connection>, logs: seq<Log>, calls: seq<Call>, c: Connection)
    requires InStep(clients, logs, calls) && c.sent == []
    ensures InStep(clients + [c], logs + [Log(|calls|, [])], calls)
  {
    hide SentAlong;
    assert LogFits(Log(|calls|, []), c, calls) by {
      NothingSent(calls);
    }
  }

  lemma NothingSent(calls: seq<Call>)
    requires FramesFit(calls)
    ensures Stream([]) == [] && SentAlong([], calls, |calls|)
  {
  }

  lemma LogSnoc(log: Log, calls: seq<Call>, p: Packet)
    requires SentAlong(log.packets, calls, log.from) && p.kind != DRAW_DATA
    ensures SentAlong(log.packets + [p], calls, log.from)
  {
    hide DrawPayloads;
    DrawPayloadsSnoc(log.packets, p);
  }

  /** Packets of other kinds keep the log in step. */
  method SendOther(c: Connection, kind: u32, buffer: Payload, ghost log: Log, ghost calls: seq<Call>)
    returns (ghost logged: Log)
    requires LogFits(log, c, calls) && kind != DRAW_DATA
    modifies c
    ensures logged == Log(log.from, log.packets + [Packet(kind, buffer)]) && LogFits(logged, c, calls)
  {
    hide SentAlong;
    hide Stream;
    c.SendWhole(kind, buffer);
    logged := Log(log.from, log.packets + [Packet(kind, buffer)]);
    LogSnoc(log, calls, Packet(kind, buffer));
    StreamSnoc(log.packets, Packet(kind, buffer));
  }

  lemma {:induction false} PacketsSinceSnoc(calls: seq<Call>, c: Call, from: nat, n: nat)
    requires from <= n <= |calls| && FramesFit(calls) && FramesFit(calls + [c])
    ensures PacketsSince(calls + [c], from, n) == PacketsSince(calls, from, n)
    decreases n
  {
    hide Delta;
    hide FrameSize;
    hide TableBefore;
    hide SentRun;
    hide PackFrame;
    hide L.CalcDrawDataHash;
    if n > from {
      PacketsSinceSnoc(calls, c, from, n - 1);
      SentRunSnoc(calls, c, n - 1);
      assert (calls + [c])[..|calls|] == calls;
    }
  }

  lemma FramesFitSnoc(calls: seq<Call>, c: Call)
    requires FramesFit(calls)
    requires Sends(calls + [c], |calls|) ==> FrameFits(calls + [c], |calls|)
    ensures FramesFit(calls + [c])
  {
    hide FrameSize;
    hide Delta;
    hide TableBefore;
    hide SentRun;
    hide L.CalcDrawDataHash;
    forall t | 0 <= t < |calls| && Sends(calls + [c], t) ensures FrameFits(calls + [c], t) {
      SentRunSnoc(calls, c, t);
      assert Sends(calls, t);
      assert FrameFits(calls, t);
    }
  }

  lemma PacketsSinceLast(calls: seq<Call>, from: nat, n: nat)
    requires from <= n < |calls| && FramesFit(calls)
    ensures PacketsSince(calls, from, n + 1) == PacketsSince(calls, from, n) + Emitted(calls, n)
  {
    hide Sends;
    hide Emitted;
    hide FrameFits;
  }

  /** What a call emits keeps every log in step. */
  lemma CallKeepsLog(log: Log, calls: seq<Call>, c: Call)
    requires SentAlong(log.packets, calls, log.from) && FramesFit(calls + [c])
    ensures SentAlong(log.packets + Emitted(calls + [c], |calls|), calls + [c], log.from)
  {
    hide DrawPayloads;
    hide Emitted;
    hide Sends;
    hide FrameFits;
    hide PacketsSince;
    PacketsSinceLast(calls + [c], log.from, |calls|);
    PacketsSinceSnoc(calls, c, log.from, |calls|);
    var more := Emitted(calls + [c], |calls|);
    DrawPayloadsConcat(log.packets, more);
    DrawPayloadsConcat(PacketsSince(calls, log.from, |calls|), more);
  }

  lemma {:induction false} DrawPayloadsConcat(a: seq<Packet>, b: seq<Packet>)
    ensures DrawPayloads(a + b) == DrawPayloads(a) + DrawPayloads(b)
    decreases |b|
  {
    if b == [] {
      assert a + b == a;
    } else {
      DrawPayloadsConcat(a, b[..|b| - 1]);
      assert (a + b)[..|a + b| - 1] == a + b[..|b| - 1];
    }
  }

  /**
   * One call of `render` on the connected clients, in step: if the state is the one the calls so far leave
   * and every log carries their frames, so it is with this call added.
   */
  method RenderInStep(renderer: Renderer, clients: seq<Connection>, data: ImDrawData, mouseCursor: i32,
                      displaySize: DisplaySize, ghost size: Size, ghost calls: seq<Call>, ghost logs: seq<Log>)
    returns (sent: bool, ghost call: Call, ghost logged: seq<Log>)
    requires renderer.Valid() && RanAs(renderer, calls) && InStep(clients, logs, calls)
    requires forall i, j :: 0 <= i < j < |data.CmdLists| ==> data.CmdLists[i] != data.CmdLists[j]
    requires forall i, j :: 0 <= i < j < |clients| ==> clients[i] != clients[j]
    requires renderer.sRerender || renderer.lastDrawDataHash != L.CalcDrawDataHash(Values(data.CmdLists))
      ==> FrameSize(Delta(renderer.packer.Table(), FrameOf(data, mouseCursor, displaySize))) <= 0x8_0000
    modifies renderer, renderer.packer, renderer.packer.sPrevDrawListHashes, renderer.sDrawDataBuffer, data.CmdLists
    modifies clients
    ensures call == Call(old(FrameOf(data, mouseCursor, displaySize)), old(renderer.sRerender), size)
    ensures renderer.Valid() && RanAs(renderer, calls + [call]) && InStep(clients, logged, calls + [call])
    ensures sent == Sends(calls + [call], |calls|)
    ensures forall i :: 0 <= i < |logs| ==>
      logged[i] == Log(logs[i].from, logs[i].packets + Emitted(calls + [call], |calls|))
  {
    hide PackFrame;
    hide Delta;
    hide PacketBytes;
    hide NextTable;
    hide FrameSize;
    hide L.CalcDrawDataHash;
    hide SentAlong;
    hide Stream;
    hide TableAt;
    hide FramesFit;
    call := Call(FrameOf(data, mouseCursor, displaySize), renderer.sRerender, size);
    ghost var more := calls + [call];
    CallSnoc(calls, call);
    FramesFitSnoc(calls, call);
    ghost var emitted := Emitted(more, |calls|);
    logged := seq(|logs|, i requires 0 <= i < |logs| => Log(logs[i].from, logs[i].packets + emitted));
    sent := RenderToClients(renderer, clients, data, mouseCursor, displaySize);
    forall i | 0 <= i < |clients| ensures LogFits(logged[i], clients[i], more) {
      CallKeepsLog(logs[i], calls, call);
      StreamGrows(logs[i].packets, emitted);
    }
  }

  lemma StreamGrows(a: seq<Packet>, b: seq<Packet>)
    requires |b| <= 1
    ensures Stream(a + b) == Stream(a) + (if b == [] then [] else PacketBytes(b[0]))
  {
    hide Stream;
    if b == [] {
      assert a + b == a;
    } else {
      assert a + b == a + [b[0]];
      StreamSnoc(a, b[0]);
    }
  }
}
