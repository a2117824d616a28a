/** The packed layouts of common.h, and the byte form of a frame: a header, then one entry per draw list. */
module Wire {
  import opened Bytes
  import opened Quantise
  import opened Wrappers

  datatype Header = Header(cursor: i32, listCount: i32, vtxCount: i32, idxCount: i32)

  datatype WireCmd = WireCmd(
    x1: u12, y1: u12, x2: u12, y2: u12,
    vtxOffset: u16, idxOffset: u16, elemCount: u16)

  datatype WireVert = WireVert(posX: u12, posY: u12, uvX: u12, uvY: u12, col: u32)

  // The counts travel as C ints.
  type WireCmds = s: seq<WireCmd> | |s| < 0x8000_0000
  type WireVerts = s: seq<WireVert> | |s| < 0x8000_0000
  type WireIdx = s: seq<u16> | |s| < 0x8000_0000

  datatype WireList = WireList(cmds: WireCmds, verts: WireVerts, idx: WireIdx)

  /** The entry that stands for an unchanged list: three zero counts. */
  const UNCHANGED: WireList := WireList([], [], [])

  // ----- writing -----

  function HeaderBytes(h: Header): (s: seq<byte>)
    ensures |s| == 16
  {
    LEInt(h.cursor) + LEInt(h.listCount) + LEInt(h.vtxCount) + LEInt(h.idxCount)
  }

  function CmdBytes(c: WireCmd): (s: seq<byte>)
    ensures |s| == 12
  {
    Pack48(c.x1, c.y1, c.x2, c.y2) + LE16(c.vtxOffset) + LE16(c.idxOffset) + LE16(c.elemCount)
  }

  function VertBytes(v: WireVert): (s: seq<byte>)
    ensures |s| == 10
  {
    Pack48(v.posX, v.posY, v.uvX, v.uvY) + LE32(v.col)
  }

  function CountBytes(w: WireList): (s: seq<byte>)
    ensures |s| == 12
  {
    LEInt(|w.cmds|) + LEInt(|w.verts|) + LEInt(|w.idx|)
  }

  function BodySize(cmds: nat, verts: nat, idx: nat): nat {
    12 * cmds + 10 * verts + 2 * idx
  }

  function BodyBytes(w: WireList): (s: seq<byte>)
    ensures |s| == BodySize(|w.cmds|, |w.verts|, |w.idx|)
  {
    PartSizes(w);
    FlatMap(CmdBytes, w.cmds) + FlatMap(VertBytes, w.verts) + FlatMap(LE16, w.idx)
  }

  lemma PartSizes(w: WireList)
    ensures |FlatMap(CmdBytes, w.cmds)| == 12 * |w.cmds|
    ensures |FlatMap(VertBytes, w.verts)| == 10 * |w.verts|
    ensures |FlatMap(LE16, w.idx)| == 2 * |w.idx|
  {
    FlatMapFixed(CmdBytes, 12, w.cmds);
    FlatMapFixed(VertBytes, 10, w.verts);
    FlatMapFixed(LE16, 2, w.idx);
  }

  function ListBytes(w: WireList): (s: seq<byte>)
    ensures |s| == 12 + BodySize(|w.cmds|, |w.verts|, |w.idx|)
  {
    CountBytes(w) + BodyBytes(w)
  }

  /** Bytes a frame takes: the header, then 12 per list and the bodies of those sent. */
  function FrameSize(ws: seq<WireList>): nat {
    if ws == [] then 16
    else
      var w := ws[|ws| - 1];
      FrameSize(ws[..|ws| - 1]) + 12 + BodySize(|w.cmds|, |w.verts|, |w.idx|)
  }

  lemma {:induction false} ListsSize(ws: seq<WireList>)
    ensures 16 + |FlatMap(ListBytes, ws)| == FrameSize(ws)
  {
    hide ListBytes;
    if ws != [] {
      ListsSize(ws[..|ws| - 1]);
    }
  }

  function FrameBytes(h: Header, ws: seq<WireList>): (s: seq<byte>)
    ensures |s| == FrameSize(ws)
  {
    ListsSize(ws);
    HeaderBytes(h) + FlatMap(ListBytes, ws)
  }

  // ----- reading -----

  function ReadHeader(s: seq<byte>): Header
    requires |s| == 16
  {
    Header(GetLEInt(s[..4]), GetLEInt(s[4..8]), GetLEInt(s[8..12]), GetLEInt(s[12..]))
  }

  function ReadCmd(s: seq<byte>): WireCmd
    requires |s| == 12
  {
    WireCmd(Field(s[..6], 0), Field(s[..6], 1), Field(s[..6], 2), Field(s[..6], 3),
            GetLE16(s[6..8]), GetLE16(s[8..10]), GetLE16(s[10..]))
  }

  function ReadVert(s: seq<byte>): WireVert
    requires |s| == 10
  {
    WireVert(Field(s[..6], 0), Field(s[..6], 1), Field(s[..6], 2), Field(s[..6], 3), GetLE32(s[6..]))
  }

  lemma HeaderRoundTrip(h: Header)
    ensures ReadHeader(HeaderBytes(h)) == h
  {
    var s := HeaderBytes(h);
    assert s[..4] == LEInt(h.cursor) && s[4..8] == LEInt(h.listCount);
    assert s[8..12] == LEInt(h.vtxCount) && s[12..] == LEInt(h.idxCount);
    GetLEIntRoundTrip(h.cursor);
    GetLEIntRoundTrip(h.listCount);
    GetLEIntRoundTrip(h.vtxCount);
    GetLEIntRoundTrip(h.idxCount);
  }

  lemma CmdRoundTrip(c: WireCmd)
    ensures ReadCmd(CmdBytes(c)) == c
  {
    var s := CmdBytes(c);
    assert s[..6] == Pack48(c.x1, c.y1, c.x2, c.y2);
    assert s[6..8] == LE16(c.vtxOffset) && s[8..10] == LE16(c.idxOffset) && s[10..] == LE16(c.elemCount);
    Pack48RoundTrip(c.x1, c.y1, c.x2, c.y2);
    GetLE16RoundTrip(c.vtxOffset);
    GetLE16RoundTrip(c.idxOffset);
    GetLE16RoundTrip(c.elemCount);
  }

  lemma VertRoundTrip(v: WireVert)
    ensures ReadVert(VertBytes(v)) == v
  {
    var s := VertBytes(v);
    assert s[..6] == Pack48(v.posX, v.posY, v.uvX, v.uvY) && s[6..] == LE32(v.col);
    Pack48RoundTrip(v.posX, v.posY, v.uvX, v.uvY);
    GetLE32RoundTrip(v.col);
  }

  /** The first four ints. */
  predicate FirstInts(s: seq<byte>, a: i32, b: i32, c: i32, d: i32) {
    |s| >= 16 && IntAt(s, 0) == a && IntAt(s, 4) == b && IntAt(s, 8) == c && IntAt(s, 12) == d
  }

  // Where the fields lie in the packed structures, byte by byte.

  lemma CmdLayout(s: seq<byte>)
    requires |s| == 12
    ensures var c := ReadCmd(s);
      && c.x1 == s[0] as int + 0x100 * (s[1] as int % 0x10) && c.y1 == s[1] as int / 0x10 + 0x10 * s[2] as int
      && c.x2 == s[3] as int + 0x100 * (s[4] as int % 0x10) && c.y2 == s[4] as int / 0x10 + 0x10 * s[5] as int
      && c.vtxOffset == s[6] as int + 0x100 * s[7] as int
      && c.idxOffset == s[8] as int + 0x100 * s[9] as int
      && c.elemCount == s[10] as int + 0x100 * s[11] as int
  {
    hide Field;
    hide GetLE16;
    FieldLayout(s[..6]);
    GetLE16Layout(s[6..8]);
    GetLE16Layout(s[8..10]);
    GetLE16Layout(s[10..]);
  }

  lemma VertLayout(s: seq<byte>)
    requires |s| == 10
    ensures var v := ReadVert(s);
      && v.posX == s[0] as int + 0x100 * (s[1] as int % 0x10) && v.posY == s[1] as int / 0x10 + 0x10 * s[2] as int
      && v.uvX == s[3] as int + 0x100 * (s[4] as int % 0x10) && v.uvY == s[4] as int / 0x10 + 0x10 * s[5] as int
      && v.col == s[6] as int + 0x100 * s[7] as int + 0x1_0000 * s[8] as int + 0x100_0000 * s[9] as int
  {
    hide Field;
    hide GetLE32;
    FieldLayout(s[..6]);
    GetLE32Layout(s[6..]);
  }

  lemma HeaderLayout(s: seq<byte>)
    requires |s| == 16
    ensures ReadHeader(s) == Header(IntAt(s, 0), IntAt(s, 4), IntAt(s, 8), IntAt(s, 12))
  {
    hide GetLEInt;
    assert s[12..] == s[12..16] && s[..4] == s[0..4];
  }

  lemma IntLayout(data: seq<byte>, at: nat)
    requires at + 4 <= |data|
    ensures IntAt(data, at) == data[at] as int + 0x100 * data[at + 1] as int + 0x1_0000 * data[at + 2] as int
      + 0x100_0000 * data[at + 3] as int - (if data[at + 3] >= 0x80 then 0x1_0000_0000 else 0)
  {
    hide GetLEInt;
    GetLEIntLayout(data[at..at + 4]);
  }

  // Runs of commands, vertices and indices starting at `at`.

  function CmdAt(data: seq<byte>, at: nat, i: nat): WireCmd
    requires at + 12 * i + 12 <= |data|
  {
    ReadCmd(data[at + 12 * i..at + 12 * i + 12])
  }

  function VertAt(data: seq<byte>, at: nat, i: nat): WireVert
    requires at + 10 * i + 10 <= |data|
  {
    ReadVert(data[at + 10 * i..at + 10 * i + 10])
  }

  function IdxAt(data: seq<byte>, at: nat, i: nat): u16
    requires at + 2 * i + 2 <= |data|
  {
    GetLE16(data[at + 2 * i..at + 2 * i + 2])
  }

  function IntAt(data: seq<byte>, at: nat): i32
    requires at + 4 <= |data|
  {
    GetLEInt(data[at..at + 4])
  }

  function ReadCmds(data: seq<byte>, at: nat, n: nat): (s: seq<WireCmd>)
    requires at + 12 * n <= |data|
    ensures |s| == n
  {
    seq(n, i requires 0 <= i < n => CmdAt(data, at, i))
  }

  function ReadVerts(data: seq<byte>, at: nat, n: nat): (s: seq<WireVert>)
    requires at + 10 * n <= |data|
    ensures |s| == n
  {
    seq(n, i requires 0 <= i < n => VertAt(data, at, i))
  }

  function ReadIdx(data: seq<byte>, at: nat, n: nat): (s: seq<u16>)
    requires at + 2 * n <= |data|
    ensures |s| == n
  {
    seq(n, i requires 0 <= i < n => IdxAt(data, at, i))
  }

  /** Whether the entry at `at` has nonnegative counts and lies inside the data. */
  predicate ListFits(data: seq<byte>, at: nat) {
    && at + 12 <= |data|
    && IntAt(data, at) >= 0 && IntAt(data, at + 4) >= 0 && IntAt(data, at + 8) >= 0
    && at + 12 + BodySize(IntAt(data, at), IntAt(data, at + 4), IntAt(data, at + 8)) <= |data|
  }

  function ListAt(data: seq<byte>, at: nat): WireList
    requires ListFits(data, at)
  {
    var c, v, i := IntAt(data, at), IntAt(data, at + 4), IntAt(data, at + 8);
    WireList(ReadCmds(data, at + 12, c),
             ReadVerts(data, at + 12 + 12 * c, v),
             ReadIdx(data, at + 12 + 12 * c + 10 * v, i))
  }

  function ListEnd(data: seq<byte>, at: nat): nat
    requires ListFits(data, at)
  {
    at + 12 + BodySize(IntAt(data, at), IntAt(data, at + 4), IntAt(data, at + 8))
  }

  /** `n` entries starting at `at`, and where they end; None if one does not fit. */
  function ReadLists(data: seq<byte>, at: nat, n: nat): (r: Option<(seq<WireList>, nat)>)
    ensures r.Some? ==> |r.value.0| == n && (n > 0 || at <= |data| ==> r.value.1 <= |data|)
  {
    if n == 0 then Some(([], at))
    else match ReadLists(data, at, n - 1)
      case None => None
      case Some((ws, next)) =>
        if ListFits(data, next) then Some((ws + [ListAt(data, next)], ListEnd(data, next))) else None
  }

  datatype Parsed = Parsed(header: Header, lists: seq<WireList>, end: nat)

  /** A whole frame; None where the client would read past the data or meet a negative count. */
  function ReadFrame(data: seq<byte>): Option<Parsed> {
    if |data| < 16 then None else
      var h := ReadHeader(data[..16]);
      if h.listCount < 0 then None else
        match ReadLists(data, 16, h.listCount)
        case None => None
        case Some((ws, end)) => Some(Parsed(h, ws, end))
  }

  // ----- reading undoes writing -----

  lemma CmdBack(data: seq<byte>, at: nat, cmds: WireCmds, i: nat)
    requires at + 12 * |cmds| <= |data| && i < |cmds|
    requires data[at..at + 12 * |cmds|] == FlatMap(CmdBytes, cmds)
    ensures CmdAt(data, at, i) == cmds[i]
  {
    hide CmdBytes;
    hide ReadCmd;
    hide FlatMap;
    var n, p := 12 * |cmds|, 12 * i;
    assert data[at + p..at + p + 12] == CmdBytes(cmds[i]) by {
      FlatMapItem(CmdBytes, 12, cmds, i);
      Subslice(data, at, n, p, p + 12);
    }
    CmdRoundTrip(cmds[i]);
  }

  lemma ReadCmdsBack(data: seq<byte>, at: nat, cmds: WireCmds)
    requires at + 12 * |cmds| <= |data|
    requires data[at..at + 12 * |cmds|] == FlatMap(CmdBytes, cmds)
    ensures ReadCmds(data, at, |cmds|) == cmds
  {
    hide FlatMap;
    hide CmdAt;
    forall i | 0 <= i < |cmds| ensures CmdAt(data, at, i) == cmds[i] {
      CmdBack(data, at, cmds, i);
    }
  }

  lemma VertBack(data: seq<byte>, at: nat, verts: WireVerts, i: nat)
    requires at + 10 * |verts| <= |data| && i < |verts|
    requires data[at..at + 10 * |verts|] == FlatMap(VertBytes, verts)
    ensures VertAt(data, at, i) == verts[i]
  {
    hide VertBytes;
    hide ReadVert;
    hide FlatMap;
    var n, p := 10 * |verts|, 10 * i;
    assert data[at + p..at + p + 10] == VertBytes(verts[i]) by {
      FlatMapItem(VertBytes, 10, verts, i);
      Subslice(data, at, n, p, p + 10);
    }
    VertRoundTrip(verts[i]);
  }

  lemma ReadVertsBack(data: seq<byte>, at: nat, verts: WireVerts)
    requires at + 10 * |verts| <= |data|
    requires data[at..at + 10 * |verts|] == FlatMap(VertBytes, verts)
    ensures ReadVerts(data, at, |verts|) == verts
  {
    hide FlatMap;
    hide VertAt;
    forall i | 0 <= i < |verts| ensures VertAt(data, at, i) == verts[i] {
      VertBack(data, at, verts, i);
    }
  }

  lemma IndexItem(idx: WireIdx, i: nat)
    requires i < |idx|
    ensures |FlatMap(LE16, idx)| == 2 * |idx|
    ensures FlatMap(LE16, idx)[2 * i..2 * i + 2] == LE16(idx[i])
  {
    hide FlatMap;
    FlatMapFixed(LE16, 2, idx);
    FlatMapItem(LE16, 2, idx, i);
  }

  lemma IndexBack(data: seq<byte>, at: nat, idx: WireIdx, i: nat)
    requires at + 2 * |idx| <= |data| && i < |idx|
    requires data[at..at + 2 * |idx|] == FlatMap(LE16, idx)
    ensures IdxAt(data, at, i) == idx[i]
  {
    hide LE16;
    hide GetLE16;
    hide FlatMap;
    var n, p, x := 2 * |idx|, 2 * i, idx[i];
    IndexItem(idx, i);
    assert data[at + p..at + p + 2] == LE16(x) by {
      Subslice(data, at, n, p, p + 2);
    }
    GetLE16RoundTrip(x);
  }

  lemma ReadIdxBack(data: seq<byte>, at: nat, idx: WireIdx)
    requires at + 2 * |idx| <= |data|
    requires data[at..at + 2 * |idx|] == FlatMap(LE16, idx)
    ensures ReadIdx(data, at, |idx|) == idx
  {
    hide FlatMap;
    hide IdxAt;
    forall i | 0 <= i < |idx| ensures IdxAt(data, at, i) == idx[i] {
      IndexBack(data, at, idx, i);
    }
  }

  lemma ReadCountsBack(data: seq<byte>, at: nat, w: WireList)
    requires at + 12 <= |data| && data[at..at + 12] == CountBytes(w)
    ensures IntAt(data, at) == |w.cmds| && IntAt(data, at + 4) == |w.verts| && IntAt(data, at + 8) == |w.idx|
  {
    hide LEInt;
    hide GetLEInt;
    var s := CountBytes(w);
    Subslice(data, at, 12, 0, 4);
    Subslice(data, at, 12, 4, 8);
    Subslice(data, at, 12, 8, 12);
    assert s[0..4] == LEInt(|w.cmds|);
    assert s[4..8] == LEInt(|w.verts|);
    assert s[8..12] == LEInt(|w.idx|);
    GetLEIntRoundTrip(|w.cmds|);
    GetLEIntRoundTrip(|w.verts|);
    GetLEIntRoundTrip(|w.idx|);
  }

  lemma EntryBytes(w: WireList)
    ensures |ListBytes(w)| == 12 + BodySize(|w.cmds|, |w.verts|, |w.idx|)
    ensures ListBytes(w)[0..12] == CountBytes(w)
    ensures ListBytes(w)[12..12 + 12 * |w.cmds|] == FlatMap(CmdBytes, w.cmds)
    ensures var p := 12 + 12 * |w.cmds|; ListBytes(w)[p..p + 10 * |w.verts|] == FlatMap(VertBytes, w.verts)
    ensures var p := 12 + 12 * |w.cmds| + 10 * |w.verts|; ListBytes(w)[p..p + 2 * |w.idx|] == FlatMap(LE16, w.idx)
  {
    hide CountBytes;
    hide FlatMap;
    PartSizes(w);
  }

  /** Where the parts of an entry lie inside the data. */
  lemma EntryParts(data: seq<byte>, at: nat, w: WireList)
    requires at + |ListBytes(w)| <= |data| && data[at..at + |ListBytes(w)|] == ListBytes(w)
    ensures |ListBytes(w)| == 12 + BodySize(|w.cmds|, |w.verts|, |w.idx|)
    ensures data[at..at + 12] == CountBytes(w)
    ensures var p := at + 12; data[p..p + 12 * |w.cmds|] == FlatMap(CmdBytes, w.cmds)
    ensures var p := at + 12 + 12 * |w.cmds|; data[p..p + 10 * |w.verts|] == FlatMap(VertBytes, w.verts)
    ensures var p := at + 12 + 12 * |w.cmds| + 10 * |w.verts|; data[p..p + 2 * |w.idx|] == FlatMap(LE16, w.idx)
  {
    EntryBytes(w);
    hide ListBytes;
    hide FlatMap;
    hide CountBytes;
    var n, c, v, i := |ListBytes(w)|, 12 * |w.cmds|, 10 * |w.verts|, 2 * |w.idx|;
    Subslice(data, at, n, 0, 12);
    Subslice(data, at, n, 12, 12 + c);
    Subslice(data, at, n, 12 + c, 12 + c + v);
    Subslice(data, at, n, 12 + c + v, 12 + c + v + i);
  }

  lemma EntryFits(data: seq<byte>, at: nat, w: WireList)
    requires at + |ListBytes(w)| <= |data| && data[at..at + |ListBytes(w)|] == ListBytes(w)
    ensures ListFits(data, at) && ListEnd(data, at) == at + |ListBytes(w)|
    ensures IntAt(data, at) == |w.cmds| && IntAt(data, at + 4) == |w.verts| && IntAt(data, at + 8) == |w.idx|
  {
    hide ListBytes;
    hide IntAt;
    hide CountBytes;
    EntryParts(data, at, w);
    ReadCountsBack(data, at, w);
  }

  lemma ReadListBack(data: seq<byte>, at: nat, w: WireList)
    requires at + |ListBytes(w)| <= |data| && data[at..at + |ListBytes(w)|] == ListBytes(w)
    ensures ListFits(data, at) && ListAt(data, at) == w && ListEnd(data, at) == at + |ListBytes(w)|
  {
    hide ListBytes;
    hide FlatMap;
    hide CountBytes;
    hide IntAt;
    hide ReadCmds;
    hide ReadVerts;
    hide ReadIdx;
    EntryFits(data, at, w);
    EntryParts(data, at, w);
    ReadBodyBack(data, at + 12, w);
  }

  lemma ReadBodyBack(data: seq<byte>, p: nat, w: WireList)
    requires p + BodySize(|w.cmds|, |w.verts|, |w.idx|) <= |data|
    requires data[p..p + 12 * |w.cmds|] == FlatMap(CmdBytes, w.cmds)
    requires var q := p + 12 * |w.cmds|; data[q..q + 10 * |w.verts|] == FlatMap(VertBytes, w.verts)
    requires var q := p + 12 * |w.cmds| + 10 * |w.verts|; data[q..q + 2 * |w.idx|] == FlatMap(LE16, w.idx)
    ensures ReadCmds(data, p, |w.cmds|) == w.cmds
    ensures ReadVerts(data, p + 12 * |w.cmds|, |w.verts|) == w.verts
    ensures ReadIdx(data, p + 12 * |w.cmds| + 10 * |w.verts|, |w.idx|) == w.idx
  {
    hide FlatMap;
    hide ReadCmds;
    hide ReadVerts;
    hide ReadIdx;
    ReadCmdsBack(data, p, w.cmds);
    ReadVertsBack(data, p + 12 * |w.cmds|, w.verts);
    ReadIdxBack(data, p + 12 * |w.cmds| + 10 * |w.verts|, w.idx);
  }

  lemma ReadListsOn(data: seq<byte>, at: nat, front: seq<WireList>, p: nat, w: WireList)
    requires ReadLists(data, at, |front|) == Some((front, p))
    requires ListFits(data, p) && ListAt(data, p) == w
    ensures ReadLists(data, at, |front + [w]|) == Some((front + [w], ListEnd(data, p)))
  {
    hide ListFits;
    hide ListAt;
    hide ListEnd;
  }

  lemma {:induction false} ReadListsBack(data: seq<byte>, at: nat, ws: seq<WireList>)
    requires at + |FlatMap(ListBytes, ws)| <= |data|
    requires data[at..at + |FlatMap(ListBytes, ws)|] == FlatMap(ListBytes, ws)
    ensures ReadLists(data, at, |ws|) == Some((ws, at + |FlatMap(ListBytes, ws)|))
  {
    hide ListBytes;
    hide ListFits;
    hide ListAt;
    hide ListEnd;
    hide FlatMap;
    hide ReadLists;
    if ws == [] {
      ReadNoLists(data, at, ws);
    } else {
      var front, last := ws[..|ws| - 1], ws[|ws| - 1];
      var all, head := FlatMap(ListBytes, ws), FlatMap(ListBytes, front);
      FlatMapLast(ListBytes, ws);
      assert |all| == |head| + |ListBytes(last)|;
      Subslice(data, at, |all|, 0, |head|);
      Subslice(data, at, |all|, |head|, |all|);
      ReadListsBack(data, at, front);
      ReadListBack(data, at + |head|, last);
      assert front + [last] == ws;
      ReadListsOn(data, at, front, at + |head|, last);
    }
  }

  lemma ReadNoLists(data: seq<byte>, at: nat, ws: seq<WireList>)
    requires ws == []
    ensures ReadLists(data, at, |ws|) == Some((ws, at)) && FlatMap(ListBytes, ws) == []
  {
  }

  /** Whatever was written is read back, list by list, and reading ends where writing ended. */
  lemma FrameRoundTrip(h: Header, ws: seq<WireList>)
    requires h.listCount == |ws|
    ensures ReadFrame(FrameBytes(h, ws)) == Some(Parsed(h, ws, |FrameBytes(h, ws)|))
  {
    hide HeaderBytes;
    hide ReadHeader;
    hide FlatMap;
    hide ReadLists;
    var data := FrameBytes(h, ws);
    assert data[..16] == HeaderBytes(h);
    HeaderRoundTrip(h);
    assert data[16..16 + |FlatMap(ListBytes, ws)|] == FlatMap(ListBytes, ws);
    ReadListsBack(data, 16, ws);
  }

  lemma HeaderInFrame(h: Header, ws: seq<WireList>)
    ensures var s := FrameBytes(h, ws);
      && |s| >= 16
      && h == Header(IntAt(s, 0), IntAt(s, 4), IntAt(s, 8), IntAt(s, 12))
  {
    hide HeaderBytes;
    hide ReadHeader;
    hide FlatMap;
    hide GetLEInt;
    var s := FrameBytes(h, ws);
    assert s[..16] == HeaderBytes(h);
    HeaderRoundTrip(h);
    HeaderLayout(s[..16]);
    Subslice(s, 0, 16, 0, 4);
    Subslice(s, 0, 16, 4, 8);
    Subslice(s, 0, 16, 8, 12);
    Subslice(s, 0, 16, 12, 16);
    assert s[0..16] == s[..16];
  }

  lemma FrameBytesSnoc(h: Header, ws: seq<WireList>, k: nat)
    requires k < |ws|
    ensures FrameBytes(h, ws[..k + 1]) == FrameBytes(h, ws[..k]) + ListBytes(ws[k])
  {
    hide ListBytes;
    hide HeaderBytes;
    FlatMapSnoc(ListBytes, ws, k);
  }

  lemma {:induction false} FrameSizeGrows(ws: seq<WireList>, k: nat)
    requires k <= |ws|
    ensures 16 <= FrameSize(ws[..k]) <= FrameSize(ws)
    decreases |ws|
  {
    if k == |ws| {
      assert ws[..k] == ws;
      if ws != [] {
        FrameSizeGrows(ws[..k - 1], 0);
      }
    } else {
      FrameSizeGrows(ws[..|ws| - 1], k);
      assert ws[..|ws| - 1][..k] == ws[..k];
    }
  }

  lemma UnchangedBytes(w: WireList)
    requires w == UNCHANGED
    ensures ListBytes(w) == LEInt(0) + LEInt(0) + LEInt(0)
  {
    hide LEInt;
    hide BodyBytes;
    hide CountBytes;
    assert |w.cmds| == |w.verts| == |w.idx| == 0;
    ZeroCounts(w);
    NothingAfter(CountBytes(w), BodyBytes(w));
  }

  lemma ZeroCounts(w: WireList)
    requires |w.cmds| == |w.verts| == |w.idx| == 0
    ensures CountBytes(w) == LEInt(0) + LEInt(0) + LEInt(0)
  {
    hide LEInt;
  }
}
