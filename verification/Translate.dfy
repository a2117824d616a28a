/** Address translation through the blocks, and its agreement with the kernel map and the module walk. */
module Translate {
  import opened Wrappers
  import opened Regions
  import opened MapJoin
  import opened MemoryMap
  import opened MemoryUnmap

  /**
   * The blocks are exactly the maximal runs of regions in use that a free region closes before the walk
   * stops, each as long as its regions together.
   */
  lemma CoalescingExact(rs: seq<Region>, n: nat, blocks: seq<MapBlock>, s: Span)
    requires Partition(rs) && n <= |rs| && Blocks(rs, Spans(rs, n), blocks)
    ensures ClosedRun(rs, s, n) <==>
      exists k :: (
        && 0 <= k < |blocks| && Spans(rs, n)[k] == s
        && blocks[k].startOrig == rs[s.lo].addr && blocks[k].size == TotalSize(rs[s.lo..s.hi]))
  {
    SpansExact(rs, n, s);
    hide Spans;
    hide TotalSize;
    hide Partition;
    if ClosedRun(rs, s, n) {
      var k :| 0 <= k < |blocks| && Spans(rs, n)[k] == s;
      assert BlockIs(rs, s, blocks[k]);
      ExtentIsSum(rs, s.lo, s.hi);
    }
  }

  /** The block whose closed interval holds the address, the first if there are several. */
  function FindBlock(blocks: seq<MapBlock>, ptr: nat): Option<MapBlock> {
    if blocks == [] then None
    else if blocks[0].startOrig <= ptr <= blocks[0].startOrig + blocks[0].size then Some(blocks[0])
    else FindBlock(blocks[1..], ptr)
  }

  /** The own address for a process address; 0 if no block holds it. */
  function Get(blocks: seq<MapBlock>, ptr: nat): nat {
    if blocks == [] then 0
    else if blocks[0].startOrig <= ptr <= blocks[0].startOrig + blocks[0].size
    then ptr - blocks[0].startOrig + blocks[0].startMapped
    else Get(blocks[1..], ptr)
  }

  /** The address is one of the block's, or the one just past its end. */
  predicate Holds(b: MapBlock, ptr: nat) {
    b.startOrig <= ptr <= b.startOrig + b.size
  }

  /** Blocks are disjoint even as closed intervals: a nonempty free gap lies between two of them. */
  lemma BlocksSeparated(rs: seq<Region>, k: nat, blocks: seq<MapBlock>, i: nat, j: nat)
    requires Partition(rs) && k <= |rs| && Blocks(rs, Spans(rs, k), blocks) && i < j < |blocks|
    ensures blocks[i].startOrig + blocks[i].size < blocks[j].startOrig
  {
    var spans := Spans(rs, k);
    SpansOrdered(rs, k, i, j);
    assert BlockIs(rs, spans[i], blocks[i]) && BlockIs(rs, spans[j], blocks[j]);
    PartitionOrder(rs, spans[i].hi, spans[j].lo);
    assert rs[spans[i].hi].addr == End(rs[spans[i].hi - 1]);
  }

  lemma {:induction false} FirstHolder(blocks: seq<MapBlock>, k: nat, ptr: nat)
    requires k < |blocks| && Holds(blocks[k], ptr)
    requires forall i :: 0 <= i < k ==> !Holds(blocks[i], ptr)
    ensures FindBlock(blocks, ptr) == Some(blocks[k])
    ensures Get(blocks, ptr) == ptr - blocks[k].startOrig + blocks[k].startMapped
  {
    if k > 0 {
      assert !Holds(blocks[0], ptr);
      assert forall i :: 0 <= i < k - 1 ==> blocks[1..][i] == blocks[i + 1];
      FirstHolder(blocks[1..], k - 1, ptr);
    }
  }

  lemma {:induction false} NoHolder(blocks: seq<MapBlock>, ptr: nat)
    requires forall i :: 0 <= i < |blocks| ==> !Holds(blocks[i], ptr)
    ensures FindBlock(blocks, ptr) == None && Get(blocks, ptr) == 0
  {
    if blocks != [] {
      assert !Holds(blocks[0], ptr);
      assert forall i :: 0 <= i < |blocks| - 1 ==> blocks[1..][i] == blocks[i + 1];
      NoHolder(blocks[1..], ptr);
    }
  }

  /**
   * The inclusive upper bound never steals an address: for any block and any address it holds, its end
   * included, that block is the one found, and the offset into it is kept.
   */
  lemma GetKeepsOffset(rs: seq<Region>, n: nat, blocks: seq<MapBlock>, k: nat, ptr: nat)
    requires Partition(rs) && n <= |rs| && Blocks(rs, Spans(rs, n), blocks)
    requires k < |blocks| && blocks[k].startOrig <= ptr <= blocks[k].startOrig + blocks[k].size
    ensures FindBlock(blocks, ptr) == Some(blocks[k])
    ensures Get(blocks, ptr) - blocks[k].startMapped == ptr - blocks[k].startOrig
  {
    forall i | 0 <= i < k ensures !Holds(blocks[i], ptr) {
      BlocksSeparated(rs, n, blocks, i, k);
    }
    FirstHolder(blocks, k, ptr);
  }

  /** `get` and `findBlock` agree: both miss exactly the addresses that no block holds. */
  lemma GetMissesIffNoBlock(rs: seq<Region>, n: nat, before: Table, blocks: seq<MapBlock>, ptr: nat)
    requires Partition(rs) && n <= |rs| && Blocks(rs, Spans(rs, n), blocks) && LaidOut(before, blocks)
    ensures Get(blocks, ptr) == 0 <==> FindBlock(blocks, ptr) == None
    ensures FindBlock(blocks, ptr) == None <==> forall k :: 0 <= k < |blocks| ==>
      ptr < blocks[k].startOrig || blocks[k].startOrig + blocks[k].size < ptr
  {
    if k :| 0 <= k < |blocks| && Holds(blocks[k], ptr) {
      GetKeepsOffset(rs, n, blocks, k, ptr);
      assert Clear(before, blocks[k]);
    } else {
      NoHolder(blocks, ptr);
    }
  }

  /**
   * Soundness: at the translated address the kernel shows exactly the process byte asked for, if that
   * byte was mapped at all, and nothing otherwise. The end address, which the bound admits, shows nothing.
   */
  lemma GetIsSound(rs: seq<Region>, n: nat, before: Table, blocks: seq<MapBlock>, k: nat, ptr: nat)
    requires Partition(rs) && n <= |rs| && Blocks(rs, Spans(rs, n), blocks) && LaidOut(before, blocks)
    requires k < |blocks| && Holds(blocks[k], ptr)
    ensures var table := Join(before, Windows(rs, blocks)); var a := Get(blocks, ptr);
      && (a in table <==> ptr < blocks[k].startOrig + blocks[k].size && Mappable(rs, ptr))
      && (a in table ==> table[a] == ptr)
  {
    hide LaidOut;
    hide Mappable;
    hide Blocks;
    hide Partition;
    GetKeepsOffset(rs, n, blocks, k, ptr);
    var a, b := Get(blocks, ptr), blocks[k];
    WindowsAreLayers(rs, blocks);
    LookupInBlock(rs, before, blocks, Windows(rs, blocks), k, a);
    InWindow(rs, b, a);
  }

  /** Different addresses inside blocks translate to different addresses. */
  lemma GetInjective(rs: seq<Region>, n: nat, before: Table, blocks: seq<MapBlock>, k: nat, p: nat, l: nat, q: nat)
    requires Partition(rs) && n <= |rs| && Blocks(rs, Spans(rs, n), blocks) && LaidOut(before, blocks)
    requires k < |blocks| && Holds(blocks[k], p) && l < |blocks| && Holds(blocks[l], q)
    ensures Get(blocks, p) == Get(blocks, q) <==> p == q
  {
    GetKeepsOffset(rs, n, blocks, k, p);
    GetKeepsOffset(rs, n, blocks, l, q);
    if k < l {
      assert Apart(blocks[k], blocks[l]);
      BlocksSeparated(rs, n, blocks, k, l);
    } else if l < k {
      assert Apart(blocks[l], blocks[k]);
      BlocksSeparated(rs, n, blocks, l, k);
    }
  }

  // ----- modules and blocks -----

  lemma {:induction false} RunAround(rs: seq<Region>, n: nat, i: nat, stop: nat) returns (s: Span)
    requires n <= |rs| && i < stop < n && Free(rs[stop]) && forall m :: i <= m < stop ==> !Free(rs[m])
    ensures ClosedRun(rs, s, n) && s.lo <= i < s.hi == stop
  {
    OpenRunIsMaximal(rs, stop);
    s := Span(OpenRun(rs, stop), stop);
    RunReachesBack(rs, i, stop);
  }

  lemma {:induction false} RunReachesBack(rs: seq<Region>, i: nat, stop: nat)
    requires i <= stop <= |rs| && forall m :: i <= m < stop ==> !Free(rs[m])
    ensures OpenRun(rs, stop) <= i
    decreases stop
  {
    if i < stop {
      RunReachesBack(rs, i, stop - 1);
    }
  }

  /** The block that holds a region of a closed run holds all of it. */
  lemma RegionInBlock(rs: seq<Region>, n: nat, blocks: seq<MapBlock>, i: nat, stop: nat) returns (k: nat)
    requires Partition(rs) && n <= |rs| && Blocks(rs, Spans(rs, n), blocks)
    requires i < stop < n && Free(rs[stop]) && (forall m :: i <= m < stop ==> !Free(rs[m]))
    ensures k < |blocks| && blocks[k].startOrig <= rs[i].addr && End(rs[i]) <= blocks[k].startOrig + blocks[k].size
  {
    var s := RunAround(rs, n, i, stop);
    SpansExact(rs, n, s);
    k :| 0 <= k < |Spans(rs, n)| && Spans(rs, n)[k] == s;
    assert BlockIs(rs, s, blocks[k]);
    hide Spans;
    hide Blocks;
    if s.lo < i {
      PartitionOrder(rs, s.lo, i);
    }
    if i < s.hi - 1 {
      PartitionOrder(rs, i, s.hi - 1);
    }
  }

  /**
   * A module recorded by the module walk, in a run that a free region closes before the walk over blocks
   * stops, lies wholly in one block: its addresses translate contiguously, and each shows its own byte.
   */
  lemma ModulesAreMapped(rs: seq<Region>, n: nat, before: Table, blocks: seq<MapBlock>, i: nat, stop: nat, offset: nat)
    requires Partition(rs) && n <= |rs| && Blocks(rs, Spans(rs, n), blocks) && LaidOut(before, blocks)
    requires i < stop < n && IsModule(rs[i]) && Free(rs[stop]) && (forall m :: i <= m < stop ==> !Free(rs[m]))
    requires offset < rs[i].size
    ensures var base, p := rs[i].addr, rs[i].addr + offset; var table := Join(before, Windows(rs, blocks));
      && Get(blocks, p) == Get(blocks, base) + offset
      && Get(blocks, p) in table && table[Get(blocks, p)] == p
  {
    hide LaidOut;
    hide Join;
    hide Windows;
    hide Mappable;
    hide Blocks;
    hide Spans;
    hide Partition;
    var base, p := rs[i].addr, rs[i].addr + offset;
    var k := RegionInBlock(rs, n, blocks, i, stop);
    MappableInRegion(rs, i, p);
    GetKeepsOffset(rs, n, blocks, k, base);
    GetKeepsOffset(rs, n, blocks, k, p);
    GetIsSound(rs, n, before, blocks, k, p);
  }
}
