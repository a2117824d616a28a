/** The client's `unpackDrawData`: it reads through a cursor and keeps a copy of the frame it last built. */
module DrawDataUnpack {
  import opened Bytes
  import opened Quantise
  import opened Wrappers
  import opened Wire
  import opened Codec

  lemma {:induction false} ReadListsPrefix(data: seq<byte>, at: nat, n: nat, k: nat)
    requires k <= n && ReadLists(data, at, n).Some?
    ensures ReadLists(data, at, k).Some?
    ensures ReadLists(data, at, k).value.0 == ReadLists(data, at, n).value.0[..k]
  {
    hide ListFits;
    hide ListAt;
    hide ListEnd;
    if k < n {
      ReadListsPrefix(data, at, n - 1, k);
    }
  }

  /** One more entry: it fits, and it is the next one of the frame. */
  lemma ReadListsStep(data: seq<byte>, at: nat, n: nat, k: nat, cursor: nat)
    requires k < n && ReadLists(data, at, n).Some?
    requires ReadLists(data, at, k).Some? && ReadLists(data, at, k).value.1 == cursor
    ensures ListFits(data, cursor)
    ensures ReadLists(data, at, n).value.0[k] == ListAt(data, cursor)
    ensures ReadLists(data, at, k + 1) == Some((ReadLists(data, at, n).value.0[..k + 1], ListEnd(data, cursor)))
  {
    hide ListFits;
    hide ListAt;
    hide ListEnd;
    ReadListsPrefix(data, at, n, k + 1);
    ReadListsPrefix(data, at, n, k);
    var ws := ReadLists(data, at, n).value.0;
    assert ws[..k + 1][k] == ws[k];
  }

  /** Where entry `k` of the payload starts: behind the header and the entries before it. */
  ghost function EntryPos(data: seq<byte>, k: nat): nat {
    var r := ReadLists(data, 16, k);
    if r.Some? then r.value.1 else 0
  }

  lemma EntryPositions(data: seq<byte>, k: nat)
    ensures EntryPos(data, 0) == 16
    ensures ReadLists(data, 16, k + 1).Some? ==>
      var p := EntryPos(data, k);
      && ListFits(data, p)
      && EntryPos(data, k + 1)
         == p + 12 + 12 * IntAt(data, p) as int + 10 * IntAt(data, p + 4) as int + 2 * IntAt(data, p + 8) as int
  {
    hide IntAt;
  }

  lemma {:induction false} EntriesFit(data: seq<byte>, n: nat)
    ensures ReadLists(data, 16, n).Some? <==> forall k :: 0 <= k < n ==> ListFits(data, EntryPos(data, k))
  {
    hide ListFits;
    hide ListAt;
    hide ListEnd;
    if n > 0 {
      EntriesFit(data, n - 1);
      assert ReadLists(data, 16, n).Some? <==>
        ReadLists(data, 16, n - 1).Some? && ListFits(data, EntryPos(data, n - 1));
    } else {
      assert ReadLists(data, 16, 0).Some?;
    }
  }

  /**
   * A payload can be unpacked exactly when it has a header with a count that is not negative, and that many
   * entries lie inside it one after the other. What follows them does not matter.
   */
  lemma UnpacksIffEntriesFit(data: seq<byte>, prev: seq<ShownList>, size: Size)
    ensures Unpack(prev, data, size).Some? <==>
      |data| >= 16 && IntAt(data, 4) >= 0 && forall k :: 0 <= k < IntAt(data, 4) ==> ListFits(data, EntryPos(data, k))
  {
    hide ListFits;
    hide IntAt;
    hide EntryPos;
    hide ReadLists;
    hide ReadHeader;
    if |data| >= 16 {
      HeaderLayout(data[..16]);
      HeaderInts(data);
      if IntAt(data, 4) >= 0 {
        EntriesFit(data, IntAt(data, 4));
      }
    }
  }

  lemma HeaderInts(data: seq<byte>)
    requires |data| >= 16
    ensures IntAt(data[..16], 0) == IntAt(data, 0) && IntAt(data[..16], 4) == IntAt(data, 4)
  {
    hide GetLEInt;
    assert data[..16][0..4] == data[0..4] && data[..16][4..8] == data[4..8];
  }

  method ReadInt(data: seq<byte>, cursor: nat) returns (value: i32, next: nat)
    requires cursor + 4 <= |data|
    ensures value == IntAt(data, cursor) && next == cursor + 4
  {
    value := IntAt(data, cursor);
    next := cursor + 4;
  }

  method ReadShownCmds(data: seq<byte>, cursor: nat, n: nat, size: Size) returns (cmds: seq<ShownCmd>, next: nat)
    requires cursor + 12 * n <= |data|
    ensures cmds == ShowCmds(ReadCmds(data, cursor, n), size) && next == cursor + 12 * n
    ensures forall k :: 0 <= k < n ==> CmdRead(cmds[k], CmdAt(data, cursor, k), size)
  {
    hide CmdAt;
    hide Decoded;
    cmds := [];
    next := cursor;
    var cmdIdx := 0;
    while cmdIdx < n
      invariant 0 <= cmdIdx <= n && next == cursor + 12 * cmdIdx && |cmds| == cmdIdx
      invariant forall k :: 0 <= k < cmdIdx ==> cmds[k] == ShowCmd(CmdAt(data, cursor, k), size)
      invariant forall k :: 0 <= k < cmdIdx ==> CmdRead(cmds[k], CmdAt(data, cursor, k), size)
    {
      cmds := cmds + [ShowCmd(CmdAt(data, cursor, cmdIdx), size)];
      next := next + 12;
      cmdIdx := cmdIdx + 1;
    }
  }

  method ReadShownVerts(data: seq<byte>, cursor: nat, n: nat, size: Size) returns (verts: seq<ShownVert>, next: nat)
    requires cursor + 10 * n <= |data|
    ensures verts == ShowVerts(ReadVerts(data, cursor, n), size) && next == cursor + 10 * n
    ensures forall k :: 0 <= k < n ==> VertRead(verts[k], VertAt(data, cursor, k), size)
  {
    hide VertAt;
    hide Decoded;
    hide DecodedUv;
    verts := [];
    next := cursor;
    var i := 0;
    while i < n
      invariant 0 <= i <= n && next == cursor + 10 * i && |verts| == i
      invariant forall k :: 0 <= k < i ==> verts[k] == ShowVert(VertAt(data, cursor, k), size)
      invariant forall k :: 0 <= k < i ==> VertRead(verts[k], VertAt(data, cursor, k), size)
    {
      verts := verts + [ShowVert(VertAt(data, cursor, i), size)];
      next := next + 10;
      i := i + 1;
    }
  }

  /** The counts of an entry, what they say of its parts, and where it ends. */
  lemma EntryCounts(data: seq<byte>, at: nat)
    requires ListFits(data, at)
    ensures at + 12 <= |data|
    ensures var c, v, i := IntAt(data, at), IntAt(data, at + 4), IntAt(data, at + 8);
      && c >= 0 && v >= 0 && i >= 0
      && at + 12 + 12 * c as int + 10 * v as int + 2 * i as int == ListEnd(data, at) <= |data|
      && ListAt(data, at) == WireList(ReadCmds(data, at + 12, c), ReadVerts(data, at + 12 + 12 * c as int, v),
                                      ReadIdx(data, at + 12 + 12 * c as int + 10 * v as int, i))
      && (ListAt(data, at) == UNCHANGED <==> c == 0 && v == 0 && i == 0)
  {
    hide IntAt;
    hide ReadCmds;
    hide ReadVerts;
    hide ReadIdx;
  }

  lemma EntryRepeats(prev: seq<ShownList>, w: WireList, i: nat, size: Size)
    requires w == UNCHANGED && i < |prev|
    ensures ResolveEntry(prev, w, i, size) == prev[i]
  {
  }

  lemma EntryShows(prev: seq<ShownList>, w: WireList, i: nat, size: Size)
    requires w == UNCHANGED ==> i >= |prev|
    ensures ResolveEntry(prev, w, i, size) == ShownList(ShowCmds(w.cmds, size), ShowVerts(w.verts, size), w.idx)
  {
  }

  // ----- an entry, field by field -----

  predicate CmdRead(s: ShownCmd, c: WireCmd, size: Size) {
    && s.x1 == Decoded(c.x1, size.x) && s.y1 == Decoded(c.y1, size.y)
    && s.x2 == Decoded(c.x2, size.x) && s.y2 == Decoded(c.y2, size.y)
    && s.vtxOffset == c.vtxOffset && s.idxOffset == c.idxOffset && s.elemCount == c.elemCount
  }

  predicate VertRead(s: ShownVert, v: WireVert, size: Size) {
    && s.x == Decoded(v.posX, size.x) && s.y == Decoded(v.posY, size.y)
    && s.u == DecodedUv(v.uvX) && s.v == DecodedUv(v.uvY) && s.col == v.col
  }

  /** The list holds what the entry at `at` says: three counts, then that many commands, vertices and indices. */
  predicate EntryRead(list: ShownList, data: seq<byte>, at: nat, size: Size)
    requires ListFits(data, at)
  {
    var c, v, i := IntAt(data, at) as int, IntAt(data, at + 4) as int, IntAt(data, at + 8) as int;
    && |list.cmds| == c && |list.verts| == v && |list.idx| == i
    && (forall k :: 0 <= k < c ==> CmdRead(list.cmds[k], CmdAt(data, at + 12, k), size))
    && (forall k :: 0 <= k < v ==> VertRead(list.verts[k], VertAt(data, at + 12 + 12 * c, k), size))
    && (forall k :: 0 <= k < i ==> list.idx[k] == IdxAt(data, at + 12 + 12 * c + 10 * v, k))
  }

  predicate AllZero(data: seq<byte>, at: nat)
    requires ListFits(data, at)
  {
    IntAt(data, at) == 0 && IntAt(data, at + 4) == 0 && IntAt(data, at + 8) == 0
  }

  /** One slot of a frame: the previous list again for three zero counts, if there was one, else what the entry says. */
  predicate SlotRead(list: ShownList, prev: seq<ShownList>, data: seq<byte>, at: nat, slot: nat, size: Size)
    requires ListFits(data, at)
  {
    if AllZero(data, at) && slot < |prev| then list == prev[slot] else EntryRead(list, data, at, size)
  }

  class DrawDataUnpacker {
    var sDrawData: Option<seq<ShownList>>
    var sDrawDataPrev: Option<seq<ShownList>>

    constructor ()
      ensures sDrawData == None && sDrawDataPrev == None
    {
      sDrawData := None;
      sDrawDataPrev := None;
    }

    /** The lists of the previous frame; none before the first. */
    function Prev(): seq<ShownList>
      reads this
    {
      if sDrawDataPrev.Some? then sDrawDataPrev.value else []
    }

    /** One entry: a copy of the slot's previous list, or a list read in full. */
    method UnpackList(data: seq<byte>, cursor: nat, cmdListIdx: nat, size: Size) returns (list: ShownList, next: nat)
      requires ListFits(data, cursor)
      ensures next == ListEnd(data, cursor)
      ensures list == ResolveEntry(Prev(), ListAt(data, cursor), cmdListIdx, size)
      ensures SlotRead(list, Prev(), data, cursor, cmdListIdx, size)
    {
      hide ListFits;
      hide ListAt;
      hide ListEnd;
      hide IntAt;
      hide ReadCmds;
      hide ReadVerts;
      hide CmdAt;
      hide VertAt;
      hide IdxAt;
      hide CmdRead;
      hide VertRead;
      hide ShowCmds;
      hide ShowVerts;
      hide ResolveEntry;
      EntryCounts(data, cursor);
      ghost var w := ListAt(data, cursor);
      var cmdBufferSize: int, vtxBufferSize: int, idxBufferSize: int;
      cmdBufferSize, next := ReadInt(data, cursor);
      vtxBufferSize, next := ReadInt(data, next);
      idxBufferSize, next := ReadInt(data, next);
      if cmdBufferSize == 0 && vtxBufferSize == 0 && idxBufferSize == 0
         && sDrawDataPrev.Some? && cmdListIdx < |sDrawDataPrev.value| {
        list := sDrawDataPrev.value[cmdListIdx];
        EntryRepeats(Prev(), w, cmdListIdx, size);
      } else {
        var cmds, verts;
        cmds, next := ReadShownCmds(data, next, cmdBufferSize, size);
        verts, next := ReadShownVerts(data, next, vtxBufferSize, size);
        list := ShownList(cmds, verts, ReadIdx(data, next, idxBufferSize));
        next := next + 2 * idxBufferSize;
        EntryShows(Prev(), w, cmdListIdx, size);
      }
    }

    /**
     * Rebuilds a frame from a payload whose entries all lie inside it, and keeps a copy for the next call.
     * `size` is given but never checked: the precondition is what keeps the reads inside the payload.
     */
    method UnpackDrawData(data: seq<byte>, displaySize: Size) returns (outCursor: i32, lists: seq<ShownList>)
      requires ReadFrame(data).Some?
      modifies this
      ensures Unpack(old(Prev()), data, displaySize) == Some((outCursor, lists))
      ensures sDrawData == Some(lists) && sDrawDataPrev == Some(lists) && Prev() == lists
      ensures outCursor == IntAt(data, 0) && |lists| == IntAt(data, 4)
      ensures forall k :: 0 <= k < |lists| ==>
        ListFits(data, EntryPos(data, k)) && SlotRead(lists[k], old(Prev()), data, EntryPos(data, k), k, displaySize)
    {
      hide ReadHeader;
      hide ListFits;
      hide ListAt;
      hide ListEnd;
      hide ResolveEntry;
      hide SlotRead;
      hide IntAt;
      HeaderLayout(data[..16]);
      HeaderInts(data);
      var header := ReadHeader(data[..16]);
      outCursor := header.cursor;
      ghost var prev, ws := Prev(), ReadFrame(data).value.lists;
      var cursor := 16;
      lists := [];
      var cmdListIdx := 0;
      while cmdListIdx < header.listCount
        invariant 0 <= cmdListIdx <= header.listCount && |lists| == cmdListIdx
        invariant ReadLists(data, 16, cmdListIdx) == Some((ws[..cmdListIdx], cursor))
        invariant forall k :: 0 <= k < cmdListIdx ==> lists[k] == ResolveEntry(prev, ws[k], k, displaySize)
        invariant forall k :: 0 <= k < cmdListIdx ==>
          ListFits(data, EntryPos(data, k)) && SlotRead(lists[k], prev, data, EntryPos(data, k), k, displaySize)
        invariant Prev() == prev
      {
        ReadListsStep(data, 16, header.listCount, cmdListIdx, cursor);
        var list;
        list, cursor := UnpackList(data, cursor, cmdListIdx, displaySize);
        lists := lists + [list];
        cmdListIdx := cmdListIdx + 1;
      }
      assert lists == Resolve(prev, ws, displaySize);
      sDrawData := Some(lists);
      sDrawDataPrev := Some(lists);
    }
  }
}
