/** The destructor of `MemoryMapMgr`: what it releases, and exactly when it undoes the mapping. */
module MemoryUnmap {
  import opened Regions
  import opened MapJoin
  import opened MemoryMap

  /** The first own address of the block that mapping left a hole at. */
  ghost function Hole(rs: seq<Region>, b: MapBlock): nat {
    FirstHole(BlockWindow(rs, b), b.startMapped, b.size)
  }

  /** What stays mapped after the block is unmapped: everything beyond its first hole. */
  ghost function Leftover(rs: seq<Region>, b: MapBlock): Table {
    BlockWindow(rs, b) - Addresses(b.startMapped, Hole(rs, b))
  }

  ghost function Leftovers(rs: seq<Region>, blocks: seq<MapBlock>): (ms: seq<Table>)
    ensures |ms| == |blocks|
  {
    seq(|blocks|, i requires 0 <= i < |blocks| => Leftover(rs, blocks[i]))
  }

  /** Part of a block's window is still mapped. */
  ghost predicate PartOf(rs: seq<Region>, m: Table, b: MapBlock) {
    forall a :: a in m ==> b.startMapped <= a < MappedEnd(b) && m[a] == a - b.startMapped + b.startOrig
  }

  ghost predicate Layers(rs: seq<Region>, blocks: seq<MapBlock>, ms: seq<Table>) {
    |ms| == |blocks| && forall i :: 0 <= i < |ms| ==> PartOf(rs, ms[i], blocks[i])
  }

  /** The addresses of one block, its end included, are nobody else's. */
  lemma OwnAddresses(rs: seq<Region>, before: Table, blocks: seq<MapBlock>, ms: seq<Table>, k: nat, a: nat)
    requires LaidOut(before, blocks) && Layers(rs, blocks, ms) && k < |blocks|
    requires blocks[k].startMapped <= a <= MappedEnd(blocks[k])
    ensures a !in before && forall j :: 0 <= j < |ms| && j != k ==> a !in ms[j]
  {
    assert Clear(before, blocks[k]);
    forall j | 0 <= j < |ms| && j != k ensures a !in ms[j] {
      assert PartOf(rs, ms[j], blocks[j]);
      assert if j < k then Apart(blocks[j], blocks[k]) else Apart(blocks[k], blocks[j]);
    }
  }

  lemma LookupInBlock(rs: seq<Region>, before: Table, blocks: seq<MapBlock>, ms: seq<Table>, k: nat, a: nat)
    requires LaidOut(before, blocks) && Layers(rs, blocks, ms) && k < |blocks|
    requires blocks[k].startMapped <= a <= MappedEnd(blocks[k])
    ensures a in Join(before, ms) <==> a in ms[k]
    ensures a in ms[k] ==> Join(before, ms)[a] == ms[k][a] == a - blocks[k].startMapped + blocks[k].startOrig
  {
    hide LaidOut;
    OwnAddresses(rs, before, blocks, ms, k, a);
    JoinKeys(before, ms, a);
    if a in ms[k] {
      JoinLookup(before, ms, k, a);
      assert PartOf(rs, ms[k], blocks[k]);
    }
  }

  lemma {:induction false} FirstHoleAgrees(t: Table, u: Table, a: nat, n: nat)
    requires forall k: nat :: a <= k < a + n ==> (k in t <==> k in u)
    ensures FirstHole(t, a, n) == FirstHole(u, a, n)
    decreases n
  {
    if n > 0 {
      FirstHoleAgrees(t, u, a + 1, n - 1);
    }
  }

  /** Before its turn, a block looks the same in the whole table as on its own. */
  lemma BlockInTable(rs: seq<Region>, before: Table, blocks: seq<MapBlock>, ms: seq<Table>, k: nat)
    requires LaidOut(before, blocks) && Layers(rs, blocks, ms) && k < |blocks|
    requires ms[k] == BlockWindow(rs, blocks[k])
    ensures Linear(Join(before, ms), blocks[k])
    ensures FirstHole(Join(before, ms), blocks[k].startMapped, blocks[k].size) == Hole(rs, blocks[k])
  {
    hide LaidOut;
    hide Join;
    hide FirstHole;
    hide BlockWindow;
    var b := blocks[k];
    assert MappedEnd(b) < TOP by {
      EndsBelowTop(before, blocks, k);
    }
    assert PartOf(rs, ms[k], b);
    forall a: nat | b.startMapped <= a <= MappedEnd(b)
      ensures a in Join(before, ms) <==> a in ms[k]
      ensures a in ms[k] ==> Join(before, ms)[a] == a - b.startMapped + b.startOrig
    {
      LookupInBlock(rs, before, blocks, ms, k, a);
    }
    FirstHoleAgrees(Join(before, ms), ms[k], b.startMapped, b.size);
  }

  lemma EndsBelowTop(before: Table, blocks: seq<MapBlock>, k: nat)
    requires LaidOut(before, blocks) && k < |blocks|
    ensures MappedEnd(blocks[k]) < TOP
  {
    assert Clear(before, blocks[k]);
  }

  lemma RemoveOwn(rs: seq<Region>, before: Table, blocks: seq<MapBlock>, ms: seq<Table>, k: nat)
    requires LaidOut(before, blocks) && Layers(rs, blocks, ms) && k < |blocks|
    requires ms[k] == BlockWindow(rs, blocks[k])
    ensures Join(before, ms) - Addresses(blocks[k].startMapped, Hole(rs, blocks[k])) == Join(before, ms[k := Leftover(rs, blocks[k])])
    ensures Layers(rs, blocks, ms[k := Leftover(rs, blocks[k])])
  {
    hide LaidOut;
    hide Join;
    hide FirstHole;
    hide BlockWindow;
    var b, gone := blocks[k], Addresses(blocks[k].startMapped, Hole(rs, blocks[k]));
    assert PartOf(rs, ms[k], b);
    forall a | a in gone ensures a !in before && forall j :: 0 <= j < |ms| && j != k ==> a !in ms[j] {
      OwnAddresses(rs, before, blocks, ms, k, a);
    }
    JoinRemove(before, ms, k, gone);
  }

  lemma WindowsAreLayers(rs: seq<Region>, blocks: seq<MapBlock>)
    ensures Layers(rs, blocks, Windows(rs, blocks))
  {
    hide Mappable;
  }

  /** The destructor: each block in turn is unmapped up to its first hole, and no call is refused. */
  method Destroy(mgr: MemoryMapMgr, kernel: Kernel, ghost before: Table) returns (allOk: bool)
    requires LaidOut(before, mgr.mBlocks) && kernel.table == Join(before, Windows(mgr.regions, mgr.mBlocks))
    modifies kernel`table
    ensures allOk
    ensures kernel.table == Join(before, Leftovers(mgr.regions, mgr.mBlocks))
  {
    hide LaidOut;
    hide Join;
    hide Linear;
    hide Layers;
    hide FirstHole;
    hide Leftover;
    hide BlockWindow;
    hide Hole;
    ghost var rs, blocks := mgr.regions, mgr.mBlocks;
    ghost var ms := Windows(rs, blocks);
    WindowsAreLayers(rs, blocks);
    allOk := true;
    var k := 0;
    while k < |mgr.mBlocks|
      invariant 0 <= k <= |blocks| == |ms| && allOk
      invariant Layers(rs, blocks, ms) && kernel.table == Join(before, ms)
      invariant forall i :: 0 <= i < k ==> ms[i] == Leftover(rs, blocks[i])
      invariant forall i :: k <= i < |blocks| ==> ms[i] == BlockWindow(rs, blocks[i])
    {
      BlockInTable(rs, before, blocks, ms, k);
      RemoveOwn(rs, before, blocks, ms, k);
      var ok := Unmap(kernel, mgr.mBlocks[k]);
      allOk := allOk && ok;
      ms := ms[k := Leftover(rs, blocks[k])];
      k := k + 1;
    }
    assert ms == Leftovers(rs, blocks);
  }

  // ----- when the table is restored -----

  /** No mapped region of the run comes after a skipped one. */
  ghost predicate SkipsOnlyAtEnd(rs: seq<Region>, s: Span)
    requires s.hi <= |rs|
  {
    forall i, j :: s.lo <= i < j < s.hi && Skipped(rs[i].kind) ==> Skipped(rs[j].kind)
  }

  lemma {:induction false} RegionOfByte(rs: seq<Region>, lo: nat, hi: nat, p: nat) returns (i: nat)
    requires Partition(rs) && lo < hi <= |rs| && rs[lo].addr <= p < End(rs[hi - 1])
    ensures lo <= i < hi && rs[i].addr <= p < End(rs[i])
    decreases hi
  {
    i := hi - 1;
    if p < rs[i].addr {
      i := RegionOfByte(rs, lo, hi - 1, p);
    }
  }

  lemma InWindow(rs: seq<Region>, b: MapBlock, a: nat)
    ensures a in BlockWindow(rs, b) <==>
      b.startMapped <= a < MappedEnd(b) && Mappable(rs, a - b.startMapped + b.startOrig)
  {
    hide Mappable;
  }

  lemma {:induction false} HoleIsFirst(t: Table, a: nat, n: nat, k: nat)
    requires a <= k < a + n && k !in t
    ensures FirstHole(t, a, n) <= k
    decreases n
  {
    if a in t {
      HoleIsFirst(t, a + 1, n - 1, k);
    }
  }

  /** With skipped regions only at the end of the run, unmapping leaves nothing. */
  lemma NothingLeft(rs: seq<Region>, s: Span, b: MapBlock, a: nat)
    requires Partition(rs) && s.lo < s.hi <= |rs| && BlockIs(rs, s, b) && SkipsOnlyAtEnd(rs, s)
    ensures a !in Leftover(rs, b)
  {
    hide BlockWindow;
    hide Mappable;
    hide FirstHole;
    var h := Hole(rs, b);
    InWindow(rs, b, a);
    if a in BlockWindow(rs, b) && h <= a {
      var p, q := a - b.startMapped + b.startOrig, h - b.startMapped + b.startOrig;
      var j := RegionOfByte(rs, s.lo, s.hi, p);
      var i := RegionOfByte(rs, s.lo, s.hi, q);
      MappableInRegion(rs, j, p);
      MappableInRegion(rs, i, q);
      InWindow(rs, b, h);
      if j < i {
        PartitionOrder(rs, j, i);
      }
      assert false;
    }
  }

  /** A mapped region after a skipped one is never unmapped. */
  lemma SomethingLeft(rs: seq<Region>, s: Span, b: MapBlock, i: nat, j: nat)
    requires Partition(rs) && s.hi <= |rs| && s.lo <= i < j < s.hi && BlockIs(rs, s, b)
    requires Skipped(rs[i].kind) && !Skipped(rs[j].kind)
    ensures b.startMapped + (rs[j].addr - b.startOrig) in Leftover(rs, b)
  {
    hide BlockWindow;
    hide Mappable;
    hide FirstHole;
    if s.lo < i {
      PartitionOrder(rs, s.lo, i);
    }
    PartitionOrder(rs, s.lo, j);
    PartitionOrder(rs, i, j);
    if j < s.hi - 1 {
      PartitionOrder(rs, j, s.hi - 1);
    }
    var h, a := b.startMapped + (rs[i].addr - b.startOrig), b.startMapped + (rs[j].addr - b.startOrig);
    MappableInRegion(rs, i, rs[i].addr);
    MappableInRegion(rs, j, rs[j].addr);
    InWindow(rs, b, h);
    InWindow(rs, b, a);
    HoleIsFirst(BlockWindow(rs, b), b.startMapped, b.size, h);
  }

  /** What stays is exactly what was mapped behind a byte of the block that was not. */
  lemma LeftBehindHole(rs: seq<Region>, b: MapBlock, a: nat)
    ensures a in Leftover(rs, b) <==>
      a in BlockWindow(rs, b) && exists h: nat :: b.startMapped <= h < a && h !in BlockWindow(rs, b)
  {
    InWindow(rs, b, a);
    hide BlockWindow;
    hide FirstHole;
    var w, h := BlockWindow(rs, b), Hole(rs, b);
    if a in w {
      if h < a {
        assert h !in w;
      } else if k: nat :| b.startMapped <= k < a && k !in w {
        HoleIsFirst(w, b.startMapped, b.size, k);
      }
    }
  }

  lemma LeftoversAreLayers(rs: seq<Region>, blocks: seq<MapBlock>)
    ensures Layers(rs, blocks, Leftovers(rs, blocks))
  {
    hide Mappable;
    hide FirstHole;
  }

  /**
   * Mapping the blocks and destroying the manager restores the kernel map table if and only if, in every
   * recorded run, no mapped region comes after one of a skipped type.
   */
  lemma RestoredIff(rs: seq<Region>, spans: seq<Span>, before: Table, blocks: seq<MapBlock>)
    requires Partition(rs) && Blocks(rs, spans, blocks) && LaidOut(before, blocks)
    ensures Join(before, Leftovers(rs, blocks)) == before <==>
      forall k :: 0 <= k < |spans| ==> SkipsOnlyAtEnd(rs, spans[k])
  {
    hide LaidOut;
    hide Leftover;
    hide BlockIs;
    hide Partition;
    var ms := Leftovers(rs, blocks);
    LeftoversAreLayers(rs, blocks);
    hide Layers;
    if forall k :: 0 <= k < |spans| ==> SkipsOnlyAtEnd(rs, spans[k]) {
      forall a: nat ensures a in Join(before, ms) <==> a in before
                    ensures a in before ==> Join(before, ms)[a] == before[a] {
        forall k | 0 <= k < |ms| ensures a !in ms[k] {
          NothingLeft(rs, spans[k], blocks[k], a);
        }
        JoinBase(before, ms, a);
      }
      assert Join(before, ms).Keys == before.Keys;
    } else {
      var k :| 0 <= k < |spans| && !SkipsOnlyAtEnd(rs, spans[k]);
      Unrestored(rs, spans[k], before, blocks, ms, k);
    }
  }

  lemma Unrestored(rs: seq<Region>, s: Span, before: Table, blocks: seq<MapBlock>, ms: seq<Table>, k: nat)
    requires Partition(rs) && s.lo < s.hi <= |rs| && k < |blocks| && BlockIs(rs, s, blocks[k])
    requires LaidOut(before, blocks) && Layers(rs, blocks, ms) && ms[k] == Leftover(rs, blocks[k])
    requires !SkipsOnlyAtEnd(rs, s)
    ensures Join(before, ms) != before
  {
    hide LaidOut;
    hide Leftover;
    hide BlockIs;
    hide Partition;
    var i, j :| s.lo <= i < j < s.hi && Skipped(rs[i].kind) && !Skipped(rs[j].kind);
    SomethingLeft(rs, s, blocks[k], i, j);
    var a := blocks[k].startMapped + (rs[j].addr - blocks[k].startOrig);
    assert PartOf(rs, ms[k], blocks[k]);
    LookupInBlock(rs, before, blocks, ms, k, a);
    OwnAddresses(rs, before, blocks, ms, k, a);
  }
}
