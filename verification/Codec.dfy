/**
 * One frame through the draw-data codec, on values: what the packer sends for a list, what the client
 * shows for it, and the delta form in which an unchanged list is three zero counts.
 */
module Codec {
  import opened Bytes
  import opened Wrappers
  import opened Quantise
  import opened DrawLists
  import opened Wire

  /** `ImGuiIO::DisplaySize` on the server, as its two float words. */
  datatype DisplaySize = DisplaySize(x: u32, y: u32)

  /** The client's display size. */
  datatype Size = Size(x: real, y: real)

  function SizeOf(d: DisplaySize): Size {
    Size(FloatValue(d.x), FloatValue(d.y))
  }

  // ----- the server's side -----

  function PackCmd(c: ImDrawCmd, d: DisplaySize): WireCmd {
    WireCmd(
      Code(FloatValue(c.clipX), FloatValue(d.x)), Code(FloatValue(c.clipY), FloatValue(d.y)),
      Code(FloatValue(c.clipZ), FloatValue(d.x)), Code(FloatValue(c.clipW), FloatValue(d.y)),
      c.vtxOffset % 0x1_0000, c.idxOffset % 0x1_0000, c.elemCount % 0x1_0000)
  }

  /** The packer clamps positions in the list itself before it encodes them. */
  function ClampVert(v: ImDrawVert, d: DisplaySize): ImDrawVert {
    v.(posX := ClampWord(v.posX, d.x), posY := ClampWord(v.posY, d.y))
  }

  function PackClamped(v: ImDrawVert, d: DisplaySize): WireVert {
    WireVert(
      Code(FloatValue(v.posX), FloatValue(d.x)), Code(FloatValue(v.posY), FloatValue(d.y)),
      UvCode(FloatValue(v.uvX)), UvCode(FloatValue(v.uvY)), v.col)
  }

  function PackVert(v: ImDrawVert, d: DisplaySize): WireVert {
    PackClamped(ClampVert(v, d), d)
  }

  function PackCmds(cmds: CmdBuffer, d: DisplaySize): (s: WireCmds)
    ensures |s| == |cmds|
  {
    seq(|cmds|, i requires 0 <= i < |cmds| => PackCmd(cmds[i], d))
  }

  function PackVerts(verts: VtxBuffer, d: DisplaySize): (s: WireVerts)
    ensures |s| == |verts|
  {
    seq(|verts|, i requires 0 <= i < |verts| => PackVert(verts[i], d))
  }

  function ClampVerts(verts: VtxBuffer, d: DisplaySize): (s: VtxBuffer)
    ensures |s| == |verts|
  {
    seq(|verts|, i requires 0 <= i < |verts| => ClampVert(verts[i], d))
  }

  /** The quantised form of a list. */
  function PackList(l: DrawList, d: DisplaySize): (w: WireList)
    ensures |w.cmds| == |l.cmds| && |w.verts| == |l.verts| && |w.idx| == |l.idx|
  {
    WireList(PackCmds(l.cmds, d), PackVerts(l.verts, d), l.idx)
  }

  // ----- the client's side -----

  datatype ShownCmd = ShownCmd(
    x1: real, y1: real, x2: real, y2: real,
    vtxOffset: u16, idxOffset: u16, elemCount: u16)

  datatype ShownVert = ShownVert(x: real, y: real, u: real, v: real, col: u32)

  datatype ShownList = ShownList(cmds: seq<ShownCmd>, verts: seq<ShownVert>, idx: seq<u16>)

  const BLANK: ShownList := ShownList([], [], [])

  function ShowCmd(c: WireCmd, size: Size): ShownCmd {
    ShownCmd(Decoded(c.x1, size.x), Decoded(c.y1, size.y), Decoded(c.x2, size.x), Decoded(c.y2, size.y),
             c.vtxOffset, c.idxOffset, c.elemCount)
  }

  function ShowVert(v: WireVert, size: Size): ShownVert {
    ShownVert(Decoded(v.posX, size.x), Decoded(v.posY, size.y), DecodedUv(v.uvX), DecodedUv(v.uvY), v.col)
  }

  function ShowCmds(cmds: seq<WireCmd>, size: Size): (s: seq<ShownCmd>)
    ensures |s| == |cmds|
  {
    seq(|cmds|, i requires 0 <= i < |cmds| => ShowCmd(cmds[i], size))
  }

  function ShowVerts(verts: seq<WireVert>, size: Size): (s: seq<ShownVert>)
    ensures |s| == |verts|
  {
    seq(|verts|, i requires 0 <= i < |verts| => ShowVert(verts[i], size))
  }

  function ShowList(w: WireList, size: Size): (s: ShownList)
    ensures s == BLANK <==> w == UNCHANGED
  {
    ShownList(ShowCmds(w.cmds, size), ShowVerts(w.verts, size), w.idx)
  }

  // ----- how faithful one list is -----

  predicate Positive(d: DisplaySize) {
    FloatValue(d.x) > 0.0 && FloatValue(d.y) > 0.0 && Finite(d.x) && Finite(d.y)
  }

  /** A NaN passes the clamp as it is; of anything else, infinities included, the number is clamped. */
  lemma ClampWordValue(w: u32, high: u32)
    requires !IsNaN(high)
    ensures IsNaN(w) ==> ClampWord(w, high) == w
    ensures !IsNaN(w) ==> FloatValue(ClampWord(w, high)) == Clamp(FloatValue(w), FloatValue(high))
  {
    hide FloatValue;
    ZeroWord(0);
  }

  /** `got` is what a value becomes on a display of the given size: low by less than one step. */
  predicate Close(got: real, value: real, size: real) {
    got <= value < got + size / 4095.0
  }

  predicate Inside(v: u32, size: u32) {
    0.0 <= FloatValue(v) <= FloatValue(size)
  }

  /** A shown vertex is that vertex: colour exact, coordinates low by less than one step, positions clamped first. */
  predicate VertClose(s: ShownVert, v: ImDrawVert, d: DisplaySize) {
    && s.col == v.col
    && (!IsNaN(v.posX) ==> Close(s.x, Clamp(FloatValue(v.posX), FloatValue(d.x)), FloatValue(d.x)))
    && (!IsNaN(v.posY) ==> Close(s.y, Clamp(FloatValue(v.posY), FloatValue(d.y)), FloatValue(d.y)))
    && (0.0 <= FloatValue(v.uvX) <= 1.0 ==> Close(s.u, FloatValue(v.uvX), 1.0))
    && (0.0 <= FloatValue(v.uvY) <= 1.0 ==> Close(s.v, FloatValue(v.uvY), 1.0))
  }

  /** A shown command is that command: clip edges inside the display close, 16-bit fields the low halves of the words. */
  predicate CmdClose(s: ShownCmd, c: ImDrawCmd, d: DisplaySize) {
    && (Inside(c.clipX, d.x) ==> Close(s.x1, FloatValue(c.clipX), FloatValue(d.x)))
    && (Inside(c.clipY, d.y) ==> Close(s.y1, FloatValue(c.clipY), FloatValue(d.y)))
    && (Inside(c.clipZ, d.x) ==> Close(s.x2, FloatValue(c.clipZ), FloatValue(d.x)))
    && (Inside(c.clipW, d.y) ==> Close(s.y2, FloatValue(c.clipW), FloatValue(d.y)))
    && LowHalf(s.vtxOffset, c.vtxOffset) && LowHalf(s.idxOffset, c.idxOffset) && LowHalf(s.elemCount, c.elemCount)
  }

  /** What 16 bits keep of a word: all of it exactly when it is below 65536, and a multiple of 65536 less otherwise. */
  predicate LowHalf(got: u16, value: u32) {
    (got == value <==> value < 0x1_0000) && (value - got) % 0x1_0000 == 0
  }

  /** The shown list is that list: as many commands, vertices and indices, each the one in its place. */
  predicate ListClose(s: ShownList, l: DrawList, d: DisplaySize) {
    && |s.cmds| == |l.cmds| && |s.verts| == |l.verts| && s.idx == l.idx
    && (forall k :: 0 <= k < |l.cmds| ==> CmdClose(s.cmds[k], l.cmds[k], d))
    && (forall i :: 0 <= i < |l.verts| ==> VertClose(s.verts[i], l.verts[i], d))
  }

  lemma VertIsClose(v: ImDrawVert, d: DisplaySize)
    requires Positive(d)
    ensures VertClose(ShowVert(PackVert(v, d), SizeOf(d)), v, d)
  {
    hide FloatValue;
    hide Code;
    hide Decoded;
    hide UvCode;
    hide DecodedUv;
    ClampWordValue(v.posX, d.x);
    ClampWordValue(v.posY, d.y);
    ClampedCodeLoss(FloatValue(v.posX), FloatValue(d.x));
    ClampedCodeLoss(FloatValue(v.posY), FloatValue(d.y));
    if 0.0 <= FloatValue(v.uvX) <= 1.0 {
      UvCodeLoss(FloatValue(v.uvX));
    }
    if 0.0 <= FloatValue(v.uvY) <= 1.0 {
      UvCodeLoss(FloatValue(v.uvY));
    }
  }

  lemma CmdIsClose(c: ImDrawCmd, d: DisplaySize)
    requires Positive(d)
    ensures CmdClose(ShowCmd(PackCmd(c, d), SizeOf(d)), c, d)
  {
    hide FloatValue;
    hide Code;
    hide Decoded;
    hide LowHalf;
    KeepsLowHalf(c.vtxOffset);
    KeepsLowHalf(c.idxOffset);
    KeepsLowHalf(c.elemCount);
    if Inside(c.clipX, d.x) {
      CodeLoss(FloatValue(c.clipX), FloatValue(d.x));
    }
    if Inside(c.clipY, d.y) {
      CodeLoss(FloatValue(c.clipY), FloatValue(d.y));
    }
    if Inside(c.clipZ, d.x) {
      CodeLoss(FloatValue(c.clipZ), FloatValue(d.x));
    }
    if Inside(c.clipW, d.y) {
      CodeLoss(FloatValue(c.clipW), FloatValue(d.y));
    }
  }

  lemma KeepsLowHalf(value: u32)
    ensures LowHalf(value % 0x1_0000, value)
  {
  }

  /** Every list, command by command, vertex by vertex and index by index. */
  lemma ListIsClose(l: DrawList, d: DisplaySize)
    requires Positive(d)
    ensures ListClose(ShowList(PackList(l, d), SizeOf(d)), l, d)
  {
    hide Positive;
    hide PackCmd;
    hide PackVert;
    hide ShowCmd;
    hide ShowVert;
    hide CmdClose;
    hide VertClose;
    var s := ShowList(PackList(l, d), SizeOf(d));
    forall k | 0 <= k < |l.cmds| ensures CmdClose(s.cmds[k], l.cmds[k], d) {
      CmdIsClose(l.cmds[k], d);
    }
    forall i | 0 <= i < |l.verts| ensures VertClose(s.verts[i], l.verts[i], d) {
      VertIsClose(l.verts[i], d);
    }
  }

  // ----- what is sent, exactly -----

  /** Clip edges are counted in steps as they are, unclamped; offsets and the count keep their low halves. */
  ghost predicate CmdCounted(w: WireCmd, c: ImDrawCmd, d: DisplaySize) {
    && Counts(w.x1, FloatValue(c.clipX), FloatValue(d.x)) && Counts(w.y1, FloatValue(c.clipY), FloatValue(d.y))
    && Counts(w.x2, FloatValue(c.clipZ), FloatValue(d.x)) && Counts(w.y2, FloatValue(c.clipW), FloatValue(d.y))
    && LowHalf(w.vtxOffset, c.vtxOffset) && LowHalf(w.idxOffset, c.idxOffset) && LowHalf(w.elemCount, c.elemCount)
  }

  /** Positions are counted in steps after the clamp, texture coordinates in 4095ths as they are. */
  ghost predicate VertCounted(w: WireVert, v: ImDrawVert, d: DisplaySize) {
    && Counts(w.posX, FloatValue(ClampWord(v.posX, d.x)), FloatValue(d.x))
    && Counts(w.posY, FloatValue(ClampWord(v.posY, d.y)), FloatValue(d.y))
    && Counts(w.uvX, FloatValue(v.uvX), 1.0) && Counts(w.uvY, FloatValue(v.uvY), 1.0)
    && w.col == v.col
  }

  /** Every part of what is sent for a list, in its place. */
  lemma ListIsCounted(l: DrawList, d: DisplaySize)
    requires FloatValue(d.x) > 0.0 && FloatValue(d.y) > 0.0
    ensures var w := PackList(l, d);
      && |w.cmds| == |l.cmds| && |w.verts| == |l.verts| && w.idx == l.idx
      && (forall k :: 0 <= k < |l.cmds| ==> CmdCounted(w.cmds[k], l.cmds[k], d))
      && (forall i :: 0 <= i < |l.verts| ==> VertCounted(w.verts[i], l.verts[i], d))
  {
    hide FloatValue;
    hide PackCmd;
    hide PackVert;
    hide CmdCounted;
    hide VertCounted;
    forall k | 0 <= k < |l.cmds| ensures CmdCounted(PackCmd(l.cmds[k], d), l.cmds[k], d) {
      CmdIsCounted(l.cmds[k], d);
    }
    forall i | 0 <= i < |l.verts| ensures VertCounted(PackVert(l.verts[i], d), l.verts[i], d) {
      VertIsCounted(l.verts[i], d);
    }
  }

  lemma CmdIsCounted(c: ImDrawCmd, d: DisplaySize)
    requires FloatValue(d.x) > 0.0 && FloatValue(d.y) > 0.0
    ensures CmdCounted(PackCmd(c, d), c, d)
  {
    hide FloatValue;
    hide Code;
    hide Counts;
    hide LowHalf;
    CodeCounts(FloatValue(c.clipX), FloatValue(d.x));
    CodeCounts(FloatValue(c.clipY), FloatValue(d.y));
    CodeCounts(FloatValue(c.clipZ), FloatValue(d.x));
    CodeCounts(FloatValue(c.clipW), FloatValue(d.y));
    KeepsLowHalf(c.vtxOffset);
    KeepsLowHalf(c.idxOffset);
    KeepsLowHalf(c.elemCount);
  }

  lemma VertIsCounted(v: ImDrawVert, d: DisplaySize)
    requires FloatValue(d.x) > 0.0 && FloatValue(d.y) > 0.0
    ensures VertCounted(PackVert(v, d), v, d)
  {
    hide FloatValue;
    hide ClampWord;
    hide Code;
    hide UvCode;
    hide Counts;
    CodeCounts(FloatValue(ClampWord(v.posX, d.x)), FloatValue(d.x));
    CodeCounts(FloatValue(ClampWord(v.posY, d.y)), FloatValue(d.y));
    UvCodeCounts(FloatValue(v.uvX));
    UvCodeCounts(FloatValue(v.uvY));
  }

  /** The list after packing: the same vertices in the same places, positions clamped as words. */
  lemma ClampedVert(verts: VtxBuffer, d: DisplaySize, i: nat)
    requires i < |verts|
    ensures var v, w := verts[i], ClampVerts(verts, d)[i];
      && w.uvX == v.uvX && w.uvY == v.uvY && w.col == v.col
      && (d.x <= 0x7F80_0000 ==> Clamped(w.posX, v.posX, d.x))
      && (d.y <= 0x7F80_0000 ==> Clamped(w.posY, v.posY, d.y))
  {
    hide ClampWord;
    hide Clamped;
    if d.x <= 0x7F80_0000 {
      ClampedWord(verts[i].posX, d.x);
    }
    if d.y <= 0x7F80_0000 {
      ClampedWord(verts[i].posY, d.y);
    }
  }

  /**
   * A clamped word: NaN and -0.0 stay, other words with the sign bit become 0, those without are cut off at
   * `high`, of which they then are the smaller.
   */
  predicate Clamped(got: u32, w: u32, high: u32) {
    && (IsNaN(w) || w == 0x8000_0000 ==> got == w)
    && (!IsNaN(w) && w > 0x8000_0000 ==> got == 0)
    && (w <= 0x7F80_0000 ==> got == if w > high then high else w)
  }

  lemma ClampedWord(w: u32, high: u32)
    requires high <= 0x7F80_0000
    ensures Clamped(ClampWord(w, high), w, high)
  {
    hide FloatValue;
    if IsNaN(w) {
    } else if w > 0x8000_0000 {
      NegativeClampsToZero(w, high);
    } else if w == 0x8000_0000 {
      SignBitNegates(0);
      ZeroWord(0);
      NoSignNotNegative(high);
    } else {
      NotNaNBelowInfinity(w);
      ClampIsMinimum(w, high);
    }
  }

  // ----- delta frames -----

  /** The packer keeps 128 slots and does not check the list count against them. */
  type FrameLists = s: seq<DrawList> | |s| <= 128

  datatype Frame = Frame(
    cursor: i32, lists: FrameLists, totalVtx: i32, totalIdx: i32, display: DisplaySize)

  /** The hash remembered for each draw-list slot. */
  type HashTable = t: seq<u32> | |t| == 128 witness seq(128, _ => 0)

  function FreshTable(): HashTable {
    seq(128, _ => 0)
  }

  /** What a list becomes in a frame: three zero counts when the remembered hash matches. */
  function EntryFor(l: DrawList, prevHash: u32, d: DisplaySize): WireList {
    if HashImDrawList(l) == prevHash then UNCHANGED else PackList(l, d)
  }

  function Entry(table: HashTable, f: Frame, i: nat): WireList
    requires i < |f.lists|
  {
    EntryFor(f.lists[i], table[i], f.display)
  }

  function Delta(table: HashTable, f: Frame): (ws: seq<WireList>)
    ensures |ws| == |f.lists|
  {
    seq(|f.lists|, i requires 0 <= i < |f.lists| => Entry(table, f, i))
  }

  function NextTable(table: HashTable, f: Frame): HashTable {
    seq(128, i requires 0 <= i < 128 => if i < |f.lists| then HashImDrawList(f.lists[i]) else table[i])
  }

  function FrameHeader(f: Frame): Header {
    Header(f.cursor, |f.lists|, f.totalVtx, f.totalIdx)
  }

  /** The packet payload for a frame. */
  function PackFrame(table: HashTable, f: Frame): (s: seq<byte>)
    ensures |s| == FrameSize(Delta(table, f))
  {
    FrameBytes(FrameHeader(f), Delta(table, f))
  }

  /** An all-zero entry repeats the slot of the previous frame, if there is one. */
  function ResolveEntry(prev: seq<ShownList>, w: WireList, i: nat, size: Size): ShownList {
    if w == UNCHANGED && i < |prev| then prev[i] else ShowList(w, size)
  }

  /** The client's next frame from its previous one. */
  function Resolve(prev: seq<ShownList>, ws: seq<WireList>, size: Size): (r: seq<ShownList>)
    ensures |r| == |ws|
  {
    seq(|ws|, i requires 0 <= i < |ws| => ResolveEntry(prev, ws[i], i, size))
  }

  /** What the client makes of a payload; None where it would read outside the payload. */
  function Unpack(prev: seq<ShownList>, data: seq<byte>, size: Size): Option<(i32, seq<ShownList>)> {
    match ReadFrame(data)
    case None => None
    case Some(p) => Some((p.header.cursor, Resolve(prev, p.lists, size)))
  }

  /**
   * Any frame, delta or full, from any table, to any client state: the client reads exactly the bytes
   * written, in step with the packer, and shows each slot as the delta rule says.
   */
  lemma UnpackUndoesPack(table: HashTable, f: Frame, prev: seq<ShownList>, size: Size)
    ensures Unpack(prev, PackFrame(table, f), size) == Some((f.cursor, Resolve(prev, Delta(table, f), size)))
    ensures ReadFrame(PackFrame(table, f)).value.end == |PackFrame(table, f)|
  {
    hide FrameBytes;
    hide ReadFrame;
    FrameRoundTrip(FrameHeader(f), Delta(table, f));
  }

  /** The table matches no list of the frame, and no list is empty. */
  predicate SentInFull(table: HashTable, f: Frame) {
    forall i :: 0 <= i < |f.lists| ==>
      HashImDrawList(f.lists[i]) != table[i] && PackList(f.lists[i], f.display) != UNCHANGED
  }

  /** A frame as the client should see it: every list quantised. */
  function ShowFrame(f: Frame, size: Size): (s: seq<ShownList>)
    ensures |s| == |f.lists|
  {
    seq(|f.lists|, i requires 0 <= i < |f.lists| => ShowList(PackList(f.lists[i], f.display), size))
  }

  /** With a table that matches no list, every list is sent and comes back quantised, whatever was shown. */
  lemma FullFrameRoundTrip(table: HashTable, f: Frame, prev: seq<ShownList>, size: Size)
    requires SentInFull(table, f)
    ensures Unpack(prev, PackFrame(table, f), size) == Some((f.cursor, ShowFrame(f, size)))
  {
    hide HashImDrawList;
    hide PackList;
    hide ShowList;
    hide PackFrame;
    hide Unpack;
    UnpackUndoesPack(table, f, prev, size);
    var got, want := Resolve(prev, Delta(table, f), size), ShowFrame(f, size);
    forall i | 0 <= i < |want| ensures got[i] == want[i] {
      assert Delta(table, f)[i] == PackList(f.lists[i], f.display);
    }
    assert got == want;
  }

  /** On the server's own display size each list shown is, part by part, the list in its slot. */
  lemma FullFrameIsClose(table: HashTable, f: Frame, prev: seq<ShownList>)
    requires SentInFull(table, f) && Positive(f.display)
    ensures var got := Unpack(prev, PackFrame(table, f), SizeOf(f.display));
      && got.Some? && got.value.0 == f.cursor && |got.value.1| == |f.lists|
      && forall i :: 0 <= i < |f.lists| ==> ListClose(got.value.1[i], f.lists[i], f.display)
  {
    hide SentInFull;
    hide Positive;
    hide PackFrame;
    hide Unpack;
    hide ListClose;
    hide PackList;
    hide ShowList;
    FullFrameRoundTrip(table, f, prev, SizeOf(f.display));
    forall i | 0 <= i < |f.lists| ensures ListClose(ShowFrame(f, SizeOf(f.display))[i], f.lists[i], f.display) {
      ListIsClose(f.lists[i], f.display);
    }
  }

  /** The header of a payload: cursor, list count and the two totals, as four ints in that order. */
  lemma PayloadHeader(table: HashTable, f: Frame)
    ensures FirstInts(PackFrame(table, f), f.cursor, |f.lists|, f.totalVtx, f.totalIdx)
  {
    hide Delta;
    hide HeaderBytes;
    hide ReadHeader;
    hide IntAt;
    var s, h := PackFrame(table, f), FrameHeader(f);
    HeaderInFrame(h, Delta(table, f));
  }
}
