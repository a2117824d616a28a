/** The packer of DrawDataPack.cpp: it writes through a cursor, clamps lists in place and keeps hashes per slot. */
module DrawDataPack {
  import opened Bytes
  import opened Hash
  import L = DrawLists
  import opened Wire
  import opened Codec

  class ImDrawList {
    var CmdBuffer: L.CmdBuffer
    var VtxBuffer: L.VtxBuffer
    var IdxBuffer: L.IdxBuffer

    function Value(): L.DrawList
      reads this
    {
      L.DrawList(CmdBuffer, VtxBuffer, IdxBuffer)
    }
  }

  type ListRefs = s: seq<ImDrawList> | |s| <= 128

  datatype ImDrawData = ImDrawData(CmdLists: ListRefs, TotalVtxCount: i32, TotalIdxCount: i32)

  function Values(lists: ListRefs): (vs: seq<L.DrawList>)
    reads lists
    ensures |vs| == |lists|
    ensures forall i :: 0 <= i < |lists| ==>
      vs[i] == L.DrawList(lists[i].CmdBuffer, lists[i].VtxBuffer, lists[i].IdxBuffer)
  {
    seq(|lists|, i requires 0 <= i < |lists| reads lists => lists[i].Value())
  }

  function FrameOf(data: ImDrawData, cursor: i32, display: DisplaySize): Frame
    reads data.CmdLists
  {
    Frame(cursor, Values(data.CmdLists), data.TotalVtxCount, data.TotalIdxCount, display)
  }

  method HashList(list: ImDrawList) returns (hash: u32)
    ensures hash == L.HashImDrawList(list.Value())
  {
    hide Murmur;
    var hv := HashMurmur(L.VtxBytes(list.VtxBuffer), 0);
    var hi := HashMurmur(L.IdxBytes(list.IdxBuffer), 0);
    var hc := HashMurmur(L.CmdBytes(list.CmdBuffer), 0);
    hash := L.AddWords(L.AddWords(L.AddWords(0, hv), hi), hc);
    AddWrapped(hv, hi);
    AddWrapped(hv as int + hi, hc);
  }

  method WriteInt(out: array<byte>, cursor: nat, value: i32) returns (next: nat)
    requires cursor + 4 <= out.Length
    modifies out
    ensures next == cursor + 4
    ensures out[..] == Splice(old(out[..]), cursor, LEInt(value))
  {
    next := WriteBytes(out, cursor, LEInt(value));
  }

  method WriteCounts(out: array<byte>, cursor: nat, cmds: nat, verts: nat, idx: nat) returns (next: nat)
    requires cursor + 12 <= out.Length
    requires cmds < 0x8000_0000 && verts < 0x8000_0000 && idx < 0x8000_0000
    modifies out
    ensures next == cursor + 12
    ensures out[..] == Splice(old(out[..]), cursor, LEInt(cmds) + LEInt(verts) + LEInt(idx))
  {
    hide LEInt;
    hide Splice;
    next := WriteInt(out, cursor, cmds);
    next := WriteInt(out, next, verts);
    SpliceOn(old(out[..]), cursor, LEInt(cmds), LEInt(verts));
    next := WriteInt(out, next, idx);
    SpliceOn(old(out[..]), cursor, LEInt(cmds) + LEInt(verts), LEInt(idx));
  }

  method WriteCmds(out: array<byte>, cursor: nat, list: ImDrawList, display: DisplaySize) returns (next: nat)
    requires cursor + 12 * |list.CmdBuffer| <= out.Length
    modifies out
    ensures next == cursor + 12 * |list.CmdBuffer| == cursor + |FlatMap(CmdBytes, PackCmds(list.CmdBuffer, display))|
    ensures out[..] == Splice(old(out[..]), cursor, FlatMap(CmdBytes, PackCmds(list.CmdBuffer, display)))
    ensures forall k :: 0 <= k < |list.CmdBuffer| ==>
      out[cursor + 12 * k..cursor + 12 * k + 12] == CmdBytes(PackCmd(list.CmdBuffer[k], display))
  {
    hide PackCmd;
    hide CmdBytes;
    hide FlatMap;
    hide Splice;
    ghost var before, wire := out[..], PackCmds(list.CmdBuffer, display);
    ghost var done: seq<byte> := [];
    FlatMapNone(CmdBytes, wire);
    SpliceNothing(before, cursor);
    next := cursor;
    var cmdIdx := 0;
    while cmdIdx < |list.CmdBuffer|
      invariant 0 <= cmdIdx <= |wire|
      invariant done == FlatMap(CmdBytes, wire[..cmdIdx]) && |done| == 12 * cmdIdx
      invariant next == cursor + |done| && out[..] == Splice(before, cursor, done)
    {
      FlatMapSnoc(CmdBytes, wire, cmdIdx);
      SpliceOn(before, cursor, done, CmdBytes(wire[cmdIdx]));
      next := WriteBytes(out, next, CmdBytes(PackCmd(list.CmdBuffer[cmdIdx], display)));
      done := done + CmdBytes(wire[cmdIdx]);
      cmdIdx := cmdIdx + 1;
    }
    CmdsInPlace(before, cursor, list.CmdBuffer, display);
  }

  /** Clamps each vertex in the list, then writes the clamped vertex. */
  method WriteVerts(out: array<byte>, cursor: nat, list: ImDrawList, display: DisplaySize) returns (next: nat)
    requires cursor + 10 * |list.VtxBuffer| <= out.Length
    modifies out, list`VtxBuffer
    ensures next == cursor + 10 * |old(list.VtxBuffer)| == cursor + |FlatMap(VertBytes, PackVerts(old(list.VtxBuffer), display))|
    ensures out[..] == Splice(old(out[..]), cursor, FlatMap(VertBytes, PackVerts(old(list.VtxBuffer), display)))
    ensures list.VtxBuffer == ClampVerts(old(list.VtxBuffer), display)
    ensures forall i :: 0 <= i < |old(list.VtxBuffer)| ==>
      out[cursor + 10 * i..cursor + 10 * i + 10] == VertBytes(PackVert(old(list.VtxBuffer)[i], display))
  {
    hide ClampVert;
    hide PackClamped;
    hide VertBytes;
    hide FlatMap;
    hide Splice;
    ghost var verts, before := list.VtxBuffer, out[..];
    ghost var wire := PackVerts(verts, display);
    ghost var done: seq<byte> := [];
    FlatMapNone(VertBytes, wire);
    SpliceNothing(before, cursor);
    next := cursor;
    var i := 0;
    while i < |list.VtxBuffer|
      invariant 0 <= i <= |list.VtxBuffer| == |verts|
      invariant done == FlatMap(VertBytes, wire[..i]) && |done| == 10 * i
      invariant next == cursor + |done| && out[..] == Splice(before, cursor, done)
      invariant forall k :: 0 <= k < i ==> list.VtxBuffer[k] == ClampVert(verts[k], display)
      invariant forall k :: i <= k < |verts| ==> list.VtxBuffer[k] == verts[k]
    {
      FlatMapSnoc(VertBytes, wire, i);
      SpliceOn(before, cursor, done, VertBytes(wire[i]));
      list.VtxBuffer := list.VtxBuffer[i := ClampVert(list.VtxBuffer[i], display)];
      next := WriteBytes(out, next, VertBytes(PackClamped(list.VtxBuffer[i], display)));
      done := done + VertBytes(wire[i]);
      i := i + 1;
    }
    VertsInPlace(before, cursor, verts, display);
  }

  lemma VertsInPlace(before: seq<byte>, cursor: nat, verts: L.VtxBuffer, display: DisplaySize)
    requires cursor + |FlatMap(VertBytes, PackVerts(verts, display))| <= |before|
    ensures var out := Splice(before, cursor, FlatMap(VertBytes, PackVerts(verts, display)));
      forall i :: 0 <= i < |verts| ==>
        && cursor + 10 * i + 10 <= |out|
        && out[cursor + 10 * i..cursor + 10 * i + 10] == VertBytes(PackVert(verts[i], display))
  {
    hide PackVert;
    hide VertBytes;
    hide Splice;
    forall i | 0 <= i < |verts|
      ensures cursor + 10 * i + 10 <= |before|
      ensures Splice(before, cursor, FlatMap(VertBytes, PackVerts(verts, display)))[cursor + 10 * i..cursor + 10 * i + 10]
           == VertBytes(PackVert(verts[i], display))
    {
      SplicedItem(VertBytes, 10, PackVerts(verts, display), before, cursor, i);
    }
  }

  lemma CmdsInPlace(before: seq<byte>, cursor: nat, cmds: L.CmdBuffer, display: DisplaySize)
    requires cursor + |FlatMap(CmdBytes, PackCmds(cmds, display))| <= |before|
    ensures var out := Splice(before, cursor, FlatMap(CmdBytes, PackCmds(cmds, display)));
      forall k :: 0 <= k < |cmds| ==>
        && cursor + 12 * k + 12 <= |out|
        && out[cursor + 12 * k..cursor + 12 * k + 12] == CmdBytes(PackCmd(cmds[k], display))
  {
    hide PackCmd;
    hide CmdBytes;
    hide Splice;
    forall k | 0 <= k < |cmds|
      ensures cursor + 12 * k + 12 <= |before|
      ensures Splice(before, cursor, FlatMap(CmdBytes, PackCmds(cmds, display)))[cursor + 12 * k..cursor + 12 * k + 12]
           == CmdBytes(PackCmd(cmds[k], display))
    {
      SplicedItem(CmdBytes, 12, PackCmds(cmds, display), before, cursor, k);
    }
  }

  /** Vertices, then the index buffer in one `memcpy`. */
  method WriteVertsAndIdx(out: array<byte>, cursor: nat, list: ImDrawList, display: DisplaySize) returns (next: nat)
    requires cursor + 10 * |list.VtxBuffer| + 2 * |list.IdxBuffer| <= out.Length
    modifies out, list`VtxBuffer
    ensures next == cursor + 10 * |old(list.VtxBuffer)| + 2 * |list.IdxBuffer|
    ensures |RestBytes(old(list.Value()), display)| == next - cursor
    ensures out[..] == Splice(old(out[..]), cursor, RestBytes(old(list.Value()), display))
    ensures list.VtxBuffer == ClampVerts(old(list.VtxBuffer), display)
  {
    hide PackVerts;
    hide FlatMap;
    hide VertBytes;
    hide LE16;
    hide Splice;
    ghost var before, d := out[..], FlatMap(VertBytes, PackVerts(list.VtxBuffer, display));
    next := WriteVerts(out, cursor, list, display);
    SpliceOn(before, cursor, d, L.IdxBytes(list.IdxBuffer));
    next := WriteBytes(out, next, L.IdxBytes(list.IdxBuffer));
  }

  /** Counts, then commands. */
  method WriteCountsAndCmds(out: array<byte>, cursor: nat, list: ImDrawList, display: DisplaySize) returns (next: nat)
    requires cursor + 12 + 12 * |list.CmdBuffer| <= out.Length
    modifies out
    ensures next == cursor + 12 + 12 * |list.CmdBuffer|
    ensures |HeadBytes(list.Value(), display)| == next - cursor
    ensures out[..] == Splice(old(out[..]), cursor, HeadBytes(list.Value(), display))
  {
    hide PackCmds;
    hide FlatMap;
    hide CmdBytes;
    hide LEInt;
    hide Splice;
    ghost var before, c := out[..], FlatMap(CmdBytes, PackCmds(list.CmdBuffer, display));
    ghost var b := LEInt(|list.CmdBuffer|) + LEInt(|list.VtxBuffer|) + LEInt(|list.IdxBuffer|);
    next := WriteCounts(out, cursor, |list.CmdBuffer|, |list.VtxBuffer|, |list.IdxBuffer|);
    next := WriteCmds(out, next, list, display);
    SpliceOn(before, cursor, b, c);
  }

  ghost function HeadBytes(l: L.DrawList, display: DisplaySize): seq<byte> {
    LEInt(|l.cmds|) + LEInt(|l.verts|) + LEInt(|l.idx|) + FlatMap(CmdBytes, PackCmds(l.cmds, display))
  }

  ghost function RestBytes(l: L.DrawList, display: DisplaySize): seq<byte> {
    FlatMap(VertBytes, PackVerts(l.verts, display)) + FlatMap(LE16, l.idx)
  }

  lemma EntryInParts(l: L.DrawList, display: DisplaySize)
    ensures ListBytes(PackList(l, display)) == HeadBytes(l, display) + RestBytes(l, display)
  {
    hide FlatMap;
    hide LEInt;
  }

  /** The full form of one list: counts, commands, vertices, indices. */
  method WriteList(out: array<byte>, cursor: nat, list: ImDrawList, display: DisplaySize) returns (next: nat)
    requires cursor + 12 + BodySize(|list.CmdBuffer|, |list.VtxBuffer|, |list.IdxBuffer|) <= out.Length
    modifies out, list`VtxBuffer
    ensures next == cursor + 12 + BodySize(|old(list.CmdBuffer)|, |old(list.VtxBuffer)|, |old(list.IdxBuffer)|)
    ensures out[..] == Splice(old(out[..]), cursor, ListBytes(PackList(old(list.Value()), display)))
    ensures list.VtxBuffer == ClampVerts(old(list.VtxBuffer), display)
  {
    hide PackList;
    hide ClampVerts;
    hide ListBytes;
    hide HeadBytes;
    hide RestBytes;
    hide Splice;
    ghost var l, before := list.Value(), out[..];
    EntryInParts(l, display);
    next := WriteCountsAndCmds(out, cursor, list, display);
    next := WriteVertsAndIdx(out, next, list, display);
    SpliceOn(before, cursor, HeadBytes(l, display), RestBytes(l, display));
  }

  /** What packing leaves in a list that was `l`, in a slot that remembered `prevHash`. */
  ghost predicate Packed(list: ImDrawList, l: L.DrawList, prevHash: u32, display: DisplaySize)
    reads list
  {
    && list.CmdBuffer == l.cmds && list.IdxBuffer == l.idx
    && list.VtxBuffer == (if L.HashImDrawList(l) == prevHash then l.verts else ClampVerts(l.verts, display))
  }

  /** A list sent has its positions clamped, one that is not stays as it was; nothing else of it changes. */
  lemma PackedMeans(list: ImDrawList, l: L.DrawList, prevHash: u32, display: DisplaySize)
    requires Packed(list, l, prevHash, display)
    ensures list.CmdBuffer == l.cmds && list.IdxBuffer == l.idx
    ensures list.VtxBuffer == if L.HashImDrawList(l) == prevHash then l.verts else ClampVerts(l.verts, display)
  {
    hide L.HashImDrawList;
    hide ClampVerts;
  }

  class DrawDataPacker {
    const sPrevDrawListHashes: array<u32>
    var sNumPrevDrawLists: nat

    constructor ()
      ensures Valid() && fresh(sPrevDrawListHashes) && Table() == FreshTable()
    {
      sPrevDrawListHashes := new u32[128](_ => 0);
      sNumPrevDrawLists := 0;
    }

    predicate Valid() {
      sPrevDrawListHashes.Length == 128
    }

    function Table(): HashTable
      requires Valid()
      reads sPrevDrawListHashes
    {
      sPrevDrawListHashes[..]
    }

    /** One slot: three zero counts if the list hashes as before, else the full list and its hash. */
    method PackSlot(out: array<byte>, cursor: nat, list: ImDrawList, slot: nat, display: DisplaySize) returns (next: nat)
      requires Valid() && out as object != sPrevDrawListHashes as object && slot < 128
      requires cursor + |ListBytes(EntryFor(list.Value(), sPrevDrawListHashes[slot], display))| <= out.Length
      modifies out, sPrevDrawListHashes, list`VtxBuffer
      ensures next == cursor + |ListBytes(EntryFor(old(list.Value()), old(sPrevDrawListHashes[slot]), display))|
      ensures out[..] == Splice(old(out[..]), cursor,
        ListBytes(EntryFor(old(list.Value()), old(sPrevDrawListHashes[slot]), display)))
      ensures sPrevDrawListHashes[..] == old(sPrevDrawListHashes[..])[slot := L.HashImDrawList(old(list.Value()))]
      ensures Packed(list, old(list.Value()), old(sPrevDrawListHashes[slot]), display)
    {
      hide L.HashImDrawList;
      hide PackList;
      hide ClampVerts;
      hide ListBytes;
      hide LEInt;
      hide Splice;
      ghost var l, table := list.Value(), sPrevDrawListHashes[..];
      var hash := HashList(list);
      var prevHash := sPrevDrawListHashes[slot];
      if hash == prevHash {
        UnchangedBytes(UNCHANGED);
        next := WriteCounts(out, cursor, 0, 0, 0);
        assert sPrevDrawListHashes[..] == table[slot := hash];
        assert list.Value() == l;
      } else {
        sPrevDrawListHashes[slot] := hash;
        next := WriteList(out, cursor, list, display);
        assert sPrevDrawListHashes[..] == table[slot := hash];
        assert list.CmdBuffer == l.cmds && list.IdxBuffer == l.idx && list.VtxBuffer == ClampVerts(l.verts, display);
      }
    }

    /**
     * Writes one frame. Lists that hash as their slot did before are written as three zero counts and
     * left alone; the others are clamped and written in full, and their hash is remembered.
     */
    method PackImDrawData(out: array<byte>, data: ImDrawData, mouseCursor: i32, displaySize: DisplaySize)
      returns (written: nat)
      requires Valid() && out as object != sPrevDrawListHashes as object
      requires forall i, j :: 0 <= i < j < |data.CmdLists| ==> data.CmdLists[i] != data.CmdLists[j]
      requires |PackFrame(Table(), FrameOf(data, mouseCursor, displaySize))| <= out.Length
      modifies this, sPrevDrawListHashes, out, data.CmdLists
      ensures forall i :: 0 <= i < |data.CmdLists| ==>
        Packed(data.CmdLists[i], old(Values(data.CmdLists))[i], old(Table())[i], displaySize)
      ensures sNumPrevDrawLists == |data.CmdLists|
      ensures written == |PackFrame(old(Table()), old(FrameOf(data, mouseCursor, displaySize)))|
      ensures out[..] == Splice(old(out[..]), 0, PackFrame(old(Table()), old(FrameOf(data, mouseCursor, displaySize))))
      ensures Table() == NextTable(old(Table()), old(FrameOf(data, mouseCursor, displaySize)))
      ensures FirstInts(out[..], mouseCursor, |data.CmdLists|, data.TotalVtxCount, data.TotalIdxCount)
    {
      hide L.HashImDrawList;
      hide EntryFor;
      hide Packed;
      hide HeaderBytes;
      hide ListBytes;
      hide FrameBytes;
      hide FrameSize;
      hide Splice;
      hide FirstInts;
      ghost var table, frame, before := Table(), FrameOf(data, mouseCursor, displaySize), out[..];
      ghost var ws := Delta(table, frame);
      var header := Header(mouseCursor, |data.CmdLists|, data.TotalVtxCount, data.TotalIdxCount);
      FrameStart(header, ws);
      written := WriteBytes(out, 0, HeaderBytes(header));
      var cmdListIdx := 0;
      while cmdListIdx < |data.CmdLists|
        invariant 0 <= cmdListIdx <= |ws|
        invariant written == |FrameBytes(header, ws[..cmdListIdx])| <= out.Length
        invariant out[..] == Splice(before, 0, FrameBytes(header, ws[..cmdListIdx]))
        invariant forall i :: 0 <= i < cmdListIdx ==> sPrevDrawListHashes[i] == L.HashImDrawList(frame.lists[i])
        invariant forall i :: cmdListIdx <= i < 128 ==> sPrevDrawListHashes[i] == table[i]
        invariant forall i :: cmdListIdx <= i < |ws| ==> data.CmdLists[i].Value() == frame.lists[i]
        invariant forall i :: 0 <= i < cmdListIdx ==> Packed(data.CmdLists[i], frame.lists[i], table[i], displaySize)
      {
        FrameStep(header, ws, cmdListIdx);
        SpliceOn(before, 0, FrameBytes(header, ws[..cmdListIdx]), ListBytes(ws[cmdListIdx]));
        written := PackSlot(out, written, data.CmdLists[cmdListIdx], cmdListIdx, displaySize);
        cmdListIdx := cmdListIdx + 1;
      }
      sNumPrevDrawLists := |data.CmdLists|;
      assert ws[..cmdListIdx] == ws;
      HeaderInBuffer(before, table, frame);
    }
  }

  lemma HeaderInBuffer(before: seq<byte>, table: HashTable, f: Frame)
    requires |PackFrame(table, f)| <= |before|
    ensures var out := Splice(before, 0, PackFrame(table, f));
      FirstInts(out, f.cursor, |f.lists|, f.totalVtx, f.totalIdx)
  {
    hide PackFrame;
    hide Delta;
    hide FrameSize;
    hide GetLEInt;
    PayloadHeader(table, f);
    var s, out := PackFrame(table, f), Splice(before, 0, PackFrame(table, f));
    assert out[0..4] == s[0..4] && out[4..8] == s[4..8] && out[8..12] == s[8..12] && out[12..16] == s[12..16];
  }

  lemma FrameStart(h: Header, ws: seq<WireList>)
    ensures FrameBytes(h, ws[..0]) == HeaderBytes(h)
    ensures 16 <= FrameSize(ws)
  {
    hide HeaderBytes;
    FrameSizeGrows(ws, 0);
  }

  lemma FrameStep(h: Header, ws: seq<WireList>, k: nat)
    requires k < |ws|
    ensures FrameBytes(h, ws[..k + 1]) == FrameBytes(h, ws[..k]) + ListBytes(ws[k])
    ensures |FrameBytes(h, ws[..k])| + |ListBytes(ws[k])| <= FrameSize(ws)
  {
    hide FrameBytes;
    hide ListBytes;
    FrameBytesSnoc(h, ws, k);
    FrameSizeGrows(ws, k + 1);
  }
}
