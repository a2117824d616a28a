/** The server's draw lists, their memory images, and the hashes taken of them. */
module DrawLists {
  import opened Bytes
  import opened Bits
  import opened Hash
  import opened HashVectors

  /** A vertex as it lies in memory: five 32-bit words, the first four of them floats. */
  datatype ImDrawVert = ImDrawVert(posX: u32, posY: u32, uvX: u32, uvY: u32, col: u32)

  type Opaque8 = s: seq<byte> | |s| == 8 witness [0, 0, 0, 0, 0, 0, 0, 0]
  type Opaque28 = s: seq<byte> | |s| == 28 witness seq(28, _ => 0)

  /** A draw command; the texture id, and the padding and callback fields, are never sent. */
  datatype ImDrawCmd = ImDrawCmd(
    clipX: u32, clipY: u32, clipZ: u32, clipW: u32,
    texture: Opaque8,
    vtxOffset: u32, idxOffset: u32, elemCount: u32,
    callback: Opaque28)

  // Sizes in bytes fit a C `int`, as ImVector has it.
  type CmdBuffer = s: seq<ImDrawCmd> | |s| < 0x200_0000
  type VtxBuffer = s: seq<ImDrawVert> | |s| < 0x600_0000
  type IdxBuffer = s: seq<u16> | |s| < 0x4000_0000

  datatype DrawList = DrawList(cmds: CmdBuffer, verts: VtxBuffer, idx: IdxBuffer)

  function VertImage(v: ImDrawVert): (s: seq<byte>)
    ensures |s| == 20
  {
    LE32(v.posX) + LE32(v.posY) + LE32(v.uvX) + LE32(v.uvY) + LE32(v.col)
  }

  function ClipImage(c: ImDrawCmd): (s: seq<byte>)
    ensures |s| == 16
  {
    LE32(c.clipX) + LE32(c.clipY) + LE32(c.clipZ) + LE32(c.clipW)
  }

  function CountsImage(c: ImDrawCmd): (s: seq<byte>)
    ensures |s| == 12
  {
    LE32(c.vtxOffset) + LE32(c.idxOffset) + LE32(c.elemCount)
  }

  function CmdImage(c: ImDrawCmd): (s: seq<byte>)
    ensures |s| == 64
  {
    ClipImage(c) + c.texture + CountsImage(c) + c.callback
  }

  function VtxBytes(verts: VtxBuffer): (s: seq<byte>)
    ensures |s| == 20 * |verts|
  {
    FlatMapFixed(VertImage, 20, verts);
    FlatMap(VertImage, verts)
  }

  function IdxBytes(idx: IdxBuffer): (s: seq<byte>)
    ensures |s| == 2 * |idx|
  {
    FlatMapFixed(LE16, 2, idx);
    FlatMap(LE16, idx)
  }

  function CmdBytes(cmds: CmdBuffer): (s: seq<byte>)
    ensures |s| == 64 * |cmds|
  {
    FlatMapFixed(CmdImage, 64, cmds);
    FlatMap(CmdImage, cmds)
  }

  /** Three hashes added up in a 32-bit word. */
  function Sum3(x: nat, y: nat, z: nat): u32 {
    Wrap(x + y + z)
  }

  function HashImDrawList(list: DrawList): u32 {
    Sum3(Murmur(VtxBytes(list.verts), 0), Murmur(IdxBytes(list.idx), 0), Murmur(CmdBytes(list.cmds), 0))
  }

  function AddWords(x: nat, y: nat): u32 {
    Wrap(x + y)
  }

  function CalcDrawDataHash(lists: seq<DrawList>): u32 {
    if lists == [] then 0
    else AddWords(CalcDrawDataHash(lists[..|lists| - 1]), HashImDrawList(lists[|lists| - 1]))
  }

  // ----- a one-word change is always seen -----

  ghost predicate OneBlock(a: seq<byte>, b: seq<byte>) {
    exists j: nat :: DifferOnlyInBlock(a, b, j)
  }

  /** The lists differ in one of the three buffers, inside one aligned block of it or its tail. */
  ghost predicate OneBlockApart(l: DrawList, m: DrawList) {
    || (OneBlock(VtxBytes(l.verts), VtxBytes(m.verts)) && l.idx == m.idx && l.cmds == m.cmds)
    || (OneBlock(IdxBytes(l.idx), IdxBytes(m.idx)) && l.verts == m.verts && l.cmds == m.cmds)
    || (OneBlock(CmdBytes(l.cmds), CmdBytes(m.cmds)) && l.verts == m.verts && l.idx == m.idx)
  }

  lemma OneBlockHash(a: seq<byte>, b: seq<byte>)
    requires OneBlock(a, b) && |a| < WORD
    ensures |b| == |a|
    ensures Murmur(a, 0) == Murmur(b, 0) <==> a == b
  {
    var j: nat :| DifferOnlyInBlock(a, b, j);
    OneBlockChangeIsSeen(a, b, j, 0);
  }

  lemma OneOfThree(x: u32, y: u32, z: u32, x': u32)
    ensures Sum3(x, y, z) == Sum3(x', y, z) <==> x == x'
    ensures Sum3(y, x, z) == Sum3(y, x', z) <==> x == x'
    ensures Sum3(y, z, x) == Sum3(y, z, x') <==> x == x'
  {
    var rest := y as int + z;
    SumsDiffer(rest, x, x');
  }

  lemma SumsDiffer(s: nat, x: u32, y: u32)
    ensures Wrap(s + x) == Wrap(s + y) <==> x == y
  {
    WrapIsModulo(s + x);
    WrapIsModulo(s + y);
    hide Wrap;
  }

  lemma VtxChangeIsSeen(l: DrawList, m: DrawList)
    requires OneBlock(VtxBytes(l.verts), VtxBytes(m.verts)) && l.idx == m.idx && l.cmds == m.cmds
    ensures HashImDrawList(l) == HashImDrawList(m) <==> VtxBytes(l.verts) == VtxBytes(m.verts)
  {
    hide Murmur;
    OneBlockHash(VtxBytes(l.verts), VtxBytes(m.verts));
    OneOfThree(Murmur(VtxBytes(l.verts), 0), Murmur(IdxBytes(l.idx), 0), Murmur(CmdBytes(l.cmds), 0),
               Murmur(VtxBytes(m.verts), 0));
  }

  lemma IdxChangeIsSeen(l: DrawList, m: DrawList)
    requires OneBlock(IdxBytes(l.idx), IdxBytes(m.idx)) && l.verts == m.verts && l.cmds == m.cmds
    ensures HashImDrawList(l) == HashImDrawList(m) <==> IdxBytes(l.idx) == IdxBytes(m.idx)
  {
    hide Murmur;
    OneBlockHash(IdxBytes(l.idx), IdxBytes(m.idx));
    OneOfThree(Murmur(IdxBytes(l.idx), 0), Murmur(VtxBytes(l.verts), 0), Murmur(CmdBytes(l.cmds), 0),
               Murmur(IdxBytes(m.idx), 0));
  }

  lemma CmdChangeIsSeen(l: DrawList, m: DrawList)
    requires OneBlock(CmdBytes(l.cmds), CmdBytes(m.cmds)) && l.verts == m.verts && l.idx == m.idx
    ensures HashImDrawList(l) == HashImDrawList(m) <==> CmdBytes(l.cmds) == CmdBytes(m.cmds)
  {
    hide Murmur;
    OneBlockHash(CmdBytes(l.cmds), CmdBytes(m.cmds));
    OneOfThree(Murmur(CmdBytes(l.cmds), 0), Murmur(VtxBytes(l.verts), 0), Murmur(IdxBytes(l.idx), 0),
               Murmur(CmdBytes(m.cmds), 0));
  }

  // ----- memory images determine the lists -----

  lemma VertImageParts(v: ImDrawVert)
    ensures var s := VertImage(v);
      && s[..4] == LE32(v.posX) && s[4..8] == LE32(v.posY)
      && s[8..12] == LE32(v.uvX) && s[12..16] == LE32(v.uvY) && s[16..] == LE32(v.col)
  {
  }

  lemma VertImageInjective(v: ImDrawVert, w: ImDrawVert)
    requires VertImage(v) == VertImage(w)
    ensures v == w
  {
    VertImageParts(v);
    VertImageParts(w);
    LE32Injective(v.posX, w.posX);
    LE32Injective(v.posY, w.posY);
    LE32Injective(v.uvX, w.uvX);
    LE32Injective(v.uvY, w.uvY);
    LE32Injective(v.col, w.col);
  }

  lemma ClipImageParts(c: ImDrawCmd)
    ensures var s := ClipImage(c);
      && s[..4] == LE32(c.clipX) && s[4..8] == LE32(c.clipY)
      && s[8..12] == LE32(c.clipZ) && s[12..] == LE32(c.clipW)
  {
  }

  lemma CountsImageParts(c: ImDrawCmd)
    ensures var s := CountsImage(c);
      s[..4] == LE32(c.vtxOffset) && s[4..8] == LE32(c.idxOffset) && s[8..] == LE32(c.elemCount)
  {
  }

  lemma CmdImageParts(c: ImDrawCmd)
    ensures var s := CmdImage(c);
      s[..16] == ClipImage(c) && s[16..24] == c.texture && s[24..36] == CountsImage(c) && s[36..] == c.callback
  {
  }

  lemma CmdImageInjective(c: ImDrawCmd, d: ImDrawCmd)
    requires CmdImage(c) == CmdImage(d)
    ensures c == d
  {
    CmdImageParts(c);
    CmdImageParts(d);
    ClipImageParts(c);
    ClipImageParts(d);
    CountsImageParts(c);
    CountsImageParts(d);
    LE32Injective(c.clipX, d.clipX);
    LE32Injective(c.clipY, d.clipY);
    LE32Injective(c.clipZ, d.clipZ);
    LE32Injective(c.clipW, d.clipW);
    LE32Injective(c.vtxOffset, d.vtxOffset);
    LE32Injective(c.idxOffset, d.idxOffset);
    LE32Injective(c.elemCount, d.elemCount);
  }

  lemma VtxBytesInjective(a: VtxBuffer, b: VtxBuffer)
    requires VtxBytes(a) == VtxBytes(b)
    ensures a == b
  {
    forall i | 0 <= i < |a| ensures a[i] == b[i] {
      FlatMapItem(VertImage, 20, a, i);
      FlatMapItem(VertImage, 20, b, i);
      VertImageInjective(a[i], b[i]);
    }
  }

  lemma IdxBytesInjective(a: IdxBuffer, b: IdxBuffer)
    requires IdxBytes(a) == IdxBytes(b)
    ensures a == b
  {
    forall i | 0 <= i < |a| ensures a[i] == b[i] {
      FlatMapItem(LE16, 2, a, i);
      FlatMapItem(LE16, 2, b, i);
      GetLE16RoundTrip(a[i]);
      GetLE16RoundTrip(b[i]);
    }
  }

  lemma CmdBytesInjective(a: CmdBuffer, b: CmdBuffer)
    requires CmdBytes(a) == CmdBytes(b)
    ensures a == b
  {
    forall i | 0 <= i < |a| ensures a[i] == b[i] {
      FlatMapItem(CmdImage, 64, a, i);
      FlatMapItem(CmdImage, 64, b, i);
      CmdImageInjective(a[i], b[i]);
    }
  }

  /**
   * Two lists that differ at most inside one aligned four-byte block, or the tail, of one buffer hash
   * alike exactly when they are the same list.
   */
  lemma ListHashSeesOneBlock(l: DrawList, m: DrawList)
    requires OneBlockApart(l, m)
    ensures HashImDrawList(l) == HashImDrawList(m) <==> l == m
  {
    hide HashImDrawList;
    if OneBlock(VtxBytes(l.verts), VtxBytes(m.verts)) && l.idx == m.idx && l.cmds == m.cmds {
      VtxChangeIsSeen(l, m);
      if VtxBytes(l.verts) == VtxBytes(m.verts) {
        VtxBytesInjective(l.verts, m.verts);
      }
    } else if OneBlock(IdxBytes(l.idx), IdxBytes(m.idx)) && l.verts == m.verts && l.cmds == m.cmds {
      IdxChangeIsSeen(l, m);
      if IdxBytes(l.idx) == IdxBytes(m.idx) {
        IdxBytesInjective(l.idx, m.idx);
      }
    } else {
      CmdChangeIsSeen(l, m);
      if CmdBytes(l.cmds) == CmdBytes(m.cmds) {
        CmdBytesInjective(l.cmds, m.cmds);
      }
    }
  }

  // ----- typical one-word changes -----

  /** Replacing one index always changes the hash. */
  lemma IndexChangeIsSeen(l: DrawList, i: nat, x: u16)
    requires i < |l.idx|
    ensures HashImDrawList(l) == HashImDrawList(l.(idx := l.idx[i := x])) <==> x == l.idx[i]
  {
    hide HashImDrawList;
    hide IdxBytes;
    var m := l.(idx := l.idx[i := x]);
    var a, b := IdxBytes(l.idx), IdxBytes(m.idx);
    forall k | 0 <= k < |a| && k / 4 != i / 2 ensures a[k] == b[k] {
      SameIdxByte(l.idx, m.idx, i, k);
    }
    assert DifferOnlyInBlock(a, b, i / 2);
    ListHashSeesOneBlock(l, m);
  }

  /** Byte `o` of index `e`. */
  lemma IdxByte(u: IdxBuffer, e: nat, o: nat)
    requires e < |u| && o < 2
    ensures IdxBytes(u)[2 * e + o] == LE16(u[e])[o]
  {
    FlatMapItem(LE16, 2, u, e);
    hide LE16;
    hide FlatMap;
    assert IdxBytes(u)[2 * e..2 * e + 2][o] == IdxBytes(u)[2 * e + o];
  }

  lemma SameIdxByte(u: IdxBuffer, w: IdxBuffer, i: nat, k: nat)
    requires i < |u| == |w| && w == u[i := w[i]]
    requires k < 2 * |u| && k / 4 != i / 2
    ensures IdxBytes(u)[k] == IdxBytes(w)[k]
  {
    var e, o := k / 2, k % 2;
    assert e != i;
    hide IdxBytes;
    hide LE16;
    IdxByte(u, e, o);
    IdxByte(w, e, o);
  }

  /** Byte `o` of command `e`. */
  lemma CmdByte(u: CmdBuffer, e: nat, o: nat)
    requires e < |u| && o < 64
    ensures CmdBytes(u)[64 * e + o] == CmdImage(u[e])[o]
  {
    hide CmdImage;
    hide FlatMap;
    FlatMapItem(CmdImage, 64, u, e);
    assert CmdBytes(u)[64 * e..64 * e + 64][o] == CmdBytes(u)[64 * e + o];
  }

  lemma ColourOnly(v: ImDrawVert, col: u32)
    ensures VertImage(v)[..16] == VertImage(v.(col := col))[..16]
  {
    VertImageParts(v);
    VertImageParts(v.(col := col));
    var a, b := VertImage(v), VertImage(v.(col := col));
    assert a[..16] == a[..4] + a[4..8] + a[8..12] + a[12..16];
    assert b[..16] == b[..4] + b[4..8] + b[8..12] + b[12..16];
  }

  /** Replacing the colour of one vertex always changes the hash. */
  lemma ColourChangeIsSeen(l: DrawList, i: nat, col: u32)
    requires i < |l.verts|
    ensures HashImDrawList(l) == HashImDrawList(l.(verts := l.verts[i := l.verts[i].(col := col)])) <==> col == l.verts[i].col
  {
    hide HashImDrawList;
    var m := l.(verts := l.verts[i := l.verts[i].(col := col)]);
    var a, b := VtxBytes(l.verts), VtxBytes(m.verts);
    ColourOnly(l.verts[i], col);
    forall k | 0 <= k < |a| && k / 4 != 5 * i + 4 ensures a[k] == b[k] {
      SameByte(l.verts, m.verts, i, k);
    }
    assert DifferOnlyInBlock(a, b, 5 * i + 4);
    ListHashSeesOneBlock(l, m);
    assert m.verts[i].col == col;
  }

  /** Byte `o` of vertex `e`. */
  lemma VertByte(u: VtxBuffer, e: nat, o: nat)
    requires e < |u| && o < 20
    ensures VtxBytes(u)[20 * e + o] == VertImage(u[e])[o]
  {
    hide VertImage;
    hide FlatMap;
    FlatMapItem(VertImage, 20, u, e);
    assert VtxBytes(u)[20 * e..20 * e + 20][o] == VtxBytes(u)[20 * e + o];
  }

  lemma SameByte(u: VtxBuffer, w: VtxBuffer, i: nat, k: nat)
    requires i < |u| == |w| && w == u[i := w[i]]
    requires VertImage(u[i])[..16] == VertImage(w[i])[..16]
    requires k < 20 * |u| && k / 4 != 5 * i + 4
    ensures VtxBytes(u)[k] == VtxBytes(w)[k]
  {
    hide VertImage;
    hide VtxBytes;
    var e, o := k / 20, k % 20;
    VertByte(u, e, o);
    VertByte(w, e, o);
    if e == i {
      assert o < 16;
      assert VertImage(u[i])[o] == VertImage(u[i])[..16][o] == VertImage(w[i])[..16][o];
    }
  }

  // ----- the hash of a frame -----

  /** The sum of the list hashes before it wraps. */
  ghost function HashSum(lists: seq<DrawList>): nat {
    if lists == [] then 0 else HashSum(lists[..|lists| - 1]) + HashImDrawList(lists[|lists| - 1])
  }

  lemma {:induction false} FrameHashIsSum(lists: seq<DrawList>)
    ensures CalcDrawDataHash(lists) == Wrap(HashSum(lists))
  {
    hide HashImDrawList;
    if lists != [] {
      FrameHashIsSum(lists[..|lists| - 1]);
      AddWrapped(HashSum(lists[..|lists| - 1]), HashImDrawList(lists[|lists| - 1]));
    }
  }

  lemma {:induction false} HashSumAdds(a: seq<DrawList>, b: seq<DrawList>)
    ensures HashSum(a + b) == HashSum(a) + HashSum(b)
    decreases |b|
  {
    hide HashImDrawList;
    if b == [] {
      assert a + b == a;
    } else {
      HashSumAdds(a, b[..|b| - 1]);
      assert (a + b)[..|a + b| - 1] == a + b[..|b| - 1];
    }
  }

  lemma WrapAdds(m: nat, n: nat)
    ensures Wrap(m + n) == (Wrap(m) as int + Wrap(n) as int) % 0x1_0000_0000
  {
    WrapIsModulo(m);
    WrapIsModulo(n);
    WrapIsModulo(m + n);
    hide Wrap;
    var a, b, q := m % WORD, n % WORD, m / WORD + n / WORD;
    if a + b < WORD {
      MultipleDropped(m + n, q, a + b);
    } else {
      MultipleDropped(m + n, q + 1, a + b - WORD);
      MultipleDropped(a + b, 1, a + b - WORD);
    }
  }

  /** The hash of a frame adds up the hashes of its parts, modulo 2^32; that of one list is the list's own. */
  lemma FrameHashAdds(a: seq<DrawList>, b: seq<DrawList>)
    ensures CalcDrawDataHash(a + b) == (CalcDrawDataHash(a) as int + CalcDrawDataHash(b) as int) % 0x1_0000_0000
    ensures |a| == 1 ==> CalcDrawDataHash(a) == HashImDrawList(a[0])
  {
    hide HashImDrawList;
    FrameHashIsSum(a);
    FrameHashIsSum(b);
    FrameHashIsSum(a + b);
    HashSumAdds(a, b);
    WrapAdds(HashSum(a), HashSum(b));
    if |a| == 1 {
      assert a[..0] == [] && CalcDrawDataHash(a[..0]) == 0;
    }
  }

  /** The hash of a list adds up those of its three memory images, each under the seed 0. */
  lemma ListHashAdds(l: DrawList)
    ensures HashImDrawList(l) as int ==
      (Murmur(VtxBytes(l.verts), 0) as int + Murmur(IdxBytes(l.idx), 0) as int + Murmur(CmdBytes(l.cmds), 0) as int)
      % 0x1_0000_0000
  {
    hide Murmur;
    WrapIsModulo(Murmur(VtxBytes(l.verts), 0) as int + Murmur(IdxBytes(l.idx), 0) as int + Murmur(CmdBytes(l.cmds), 0) as int);
    hide Wrap;
  }

  /** An empty list hashes to 0, as a slot that remembers nothing does. */
  lemma EmptyListHash()
    ensures HashImDrawList(DrawList([], [], [])) == 0
  {
    hide Murmur;
    ListHashAdds(DrawList([], [], []));
    hide HashImDrawList;
    assert VtxBytes([]) == [] && IdxBytes([]) == [] && CmdBytes([]) == [];
    EmptyHash();
  }

  lemma {:induction false} HashSumWithout(lists: seq<DrawList>, i: nat)
    requires i < |lists|
    ensures HashSum(lists) == HashSum(lists[..i] + lists[i + 1..]) + HashImDrawList(lists[i])
  {
    hide HashImDrawList;
    var n := |lists| - 1;
    var rest := lists[..i] + lists[i + 1..];
    if i == n {
      assert rest == lists[..n];
    } else {
      HashSumWithout(lists[..n], i);
      assert rest[n - 1] == lists[n];
      assert rest[..n - 1] == lists[..n][..i] + lists[..n][i + 1..] by {
        DropLast(lists, i);
      }
    }
  }

  lemma DropLast<T>(s: seq<T>, i: nat)
    requires i + 1 < |s|
    ensures (s[..i] + s[i + 1..])[..|s| - 2] == s[..|s| - 1][..i] + s[..|s| - 1][i + 1..]
  {
    assert (s[..i] + s[i + 1..])[..|s| - 2] == s[..|s| - 1][..i] + s[..|s| - 1][i + 1..];
  }

  /** The frame hash differs as soon as one list of the frame changes inside one block. */
  lemma FrameHashSeesOneBlock(lists: seq<DrawList>, i: nat, l: DrawList)
    requires i < |lists| && OneBlockApart(lists[i], l)
    ensures CalcDrawDataHash(lists) == CalcDrawDataHash(lists[i := l]) <==> lists[i] == l
  {
    hide HashImDrawList;
    ListHashSeesOneBlock(lists[i], l);
    FrameHashIsSum(lists);
    FrameHashIsSum(lists[i := l]);
    HashSumWithout(lists, i);
    HashSumWithout(lists[i := l], i);
    var rest := lists[..i] + lists[i + 1..];
    assert lists[i := l][..i] + lists[i := l][i + 1..] == rest;
    SumsDiffer(HashSum(rest), HashImDrawList(lists[i]), HashImDrawList(l));
  }

  /** The frame hash is blind to the order of the lists: a frame redrawn in another order looks unchanged. */
  lemma FrameHashIgnoresOrder(a: seq<DrawList>, b: seq<DrawList>)
    requires multiset(a) == multiset(b)
    ensures CalcDrawDataHash(a) == CalcDrawDataHash(b)
  {
    FrameHashIsSum(a);
    FrameHashIsSum(b);
    HashSumIgnoresOrder(a, b);
  }

  lemma {:induction false} HashSumIgnoresOrder(a: seq<DrawList>, b: seq<DrawList>)
    requires multiset(a) == multiset(b)
    ensures HashSum(a) == HashSum(b)
  {
    hide HashImDrawList;
    if a == [] {
      assert |multiset(b)| == |b|;
    } else {
      var n := |a| - 1;
      assert a[n] in multiset(b);
      var i :| 0 <= i < |b| && b[i] == a[n];
      SameRest(a, b, i);
      HashSumIgnoresOrder(a[..n], b[..i] + b[i + 1..]);
      HashSumWithout(b, i);
    }
  }

  lemma SameRest(a: seq<DrawList>, b: seq<DrawList>, i: nat)
    requires a != [] && i < |b| && b[i] == a[|a| - 1] && multiset(a) == multiset(b)
    ensures multiset(a[..|a| - 1]) == multiset(b[..i] + b[i + 1..])
  {
    var n := |a| - 1;
    var x := a[n];
    assert a == a[..n] + [x];
    assert b == b[..i] + [x] + b[i + 1..];
    var m, k := multiset(a[..n]), multiset(b[..i] + b[i + 1..]);
    assert multiset(a) == m + multiset{x};
    assert multiset(b) == k + multiset{x};
    assert m == multiset(a) - multiset{x} && k == multiset(b) - multiset{x};
  }
}
