/** `MemoryMapMgr`: runs of the debugged process's regions mapped into our own address space, and back out. */
module MemoryMap {
  import opened Wrappers
  import opened Regions
  import opened MapJoin

  /** Our own kernel map table, by byte: own address to the process address it shows. */
  type Table = map<nat, nat>

  /** Region types that a block spans but does not map. */
  predicate Skipped(kind: MemType) {
    kind == SharedMem || kind == MappedMemory || kind == ThreadLocal
  }

  lemma SkippedKinds(code: nat)
    ensures Skipped(SharedMem) && Skipped(MappedMemory) && Skipped(ThreadLocal)
    ensures !Skipped(CodeStatic) && !Skipped(ModuleCodeStatic) && !Skipped(OtherType(code))
    ensures !Skipped(Reserved) && !Skipped(Unmapped)
  {
  }

  datatype MapBlock = MapBlock(startOrig: nat, startMapped: nat, size: nat)

  function MappedEnd(b: MapBlock): nat {
    b.startMapped + b.size
  }

  /** The process byte lies in a region that gets mapped. */
  ghost predicate Mappable(rs: seq<Region>, p: nat) {
    exists i :: 0 <= i < |rs| && rs[i].addr <= p < End(rs[i]) && !Skipped(rs[i].kind)
  }

  predicate Within(a: nat, lo: nat, hi: nat) {
    lo <= a < hi
  }

  function Addresses(lo: nat, hi: nat): set<nat> {
    set k: nat | lo <= k < hi && Within(k, lo, hi)
  }

  /** What mapping the process bytes from `orig` on at own addresses `lo` to `hi` adds to the table. */
  ghost function Window(rs: seq<Region>, orig: nat, lo: nat, hi: nat): Table {
    map a: nat | lo <= a < hi && Within(a, lo, hi) && Mappable(rs, a - lo + orig) :: a - lo + orig
  }

  ghost function BlockWindow(rs: seq<Region>, b: MapBlock): Table {
    Window(rs, b.startOrig, b.startMapped, MappedEnd(b))
  }

  function Segment(lo: nat, hi: nat, src: nat): Table {
    map a: nat | lo <= a < hi && Within(a, lo, hi) :: a - lo + src
  }

  lemma MappableInRegion(rs: seq<Region>, i: nat, p: nat)
    requires Partition(rs) && i < |rs| && rs[i].addr <= p < End(rs[i])
    ensures Mappable(rs, p) <==> !Skipped(rs[i].kind)
  {
    if Mappable(rs, p) {
      var j :| 0 <= j < |rs| && rs[j].addr <= p < End(rs[j]) && !Skipped(rs[j].kind);
      if i < j {
        PartitionOrder(rs, i, j);
      } else if j < i {
        PartitionOrder(rs, j, i);
      }
    }
  }

  /** Mapping one more region of a run extends the window by that region, or not at all if it is skipped. */
  lemma WindowGrows(rs: seq<Region>, i: nat, orig: nat, lo: nat)
    requires Partition(rs) && i < |rs| && orig <= rs[i].addr
    ensures var mid := lo + (rs[i].addr - orig); var hi := mid + rs[i].size;
      Window(rs, orig, lo, hi) == Window(rs, orig, lo, mid)
        + (if Skipped(rs[i].kind) then map[] else Segment(mid, hi, rs[i].addr))
  {
    hide Partition;
    hide Window;
    hide Segment;
    var mid := lo + (rs[i].addr - orig);
    RegionBytes(rs, i, orig, lo);
    WindowSplits(rs, orig, lo, mid, mid + rs[i].size, rs[i].addr, Skipped(rs[i].kind));
  }

  lemma RegionBytes(rs: seq<Region>, i: nat, orig: nat, lo: nat)
    requires Partition(rs) && i < |rs| && orig <= rs[i].addr
    ensures var mid := lo + (rs[i].addr - orig); var hi := mid + rs[i].size;
      forall a: nat :: Within(a, mid, hi) ==> (Mappable(rs, a - lo + orig) <==> !Skipped(rs[i].kind))
  {
    hide Partition;
    hide Mappable;
    var mid := lo + (rs[i].addr - orig);
    var hi := mid + rs[i].size;
    forall a: nat | Within(a, mid, hi)
      ensures Mappable(rs, a - lo + orig) <==> !Skipped(rs[i].kind)
    {
      MappableInRegion(rs, i, a - lo + orig);
    }
  }

  lemma WindowSplits(rs: seq<Region>, orig: nat, lo: nat, mid: nat, hi: nat, src: nat, skipped: bool)
    requires lo <= mid <= hi && src == mid - lo + orig
    requires forall a: nat :: Within(a, mid, hi) ==> (Mappable(rs, a - lo + orig) <==> !skipped)
    ensures Window(rs, orig, lo, hi) == Window(rs, orig, lo, mid) + (if skipped then map[] else Segment(mid, hi, src))
  {
    hide Mappable;
    var big, small := Window(rs, orig, lo, hi), Window(rs, orig, lo, mid);
    var seg := if skipped then map[] else Segment(mid, hi, src);
    forall a: nat
      ensures a in big <==> a in small + seg
      ensures a in big ==> big[a] == (small + seg)[a]
    {
      assert Within(a, lo, hi) <==> Within(a, lo, mid) || Within(a, mid, hi);
    }
    assert big.Keys == (small + seg).Keys;
  }

  // ----- our own kernel -----

  datatype Range = Range(start: nat, size: nat)

  /** Room for `size` bytes at `a`, with a guard of 0x10000 on both sides, clear of mappings and reservations. */
  predicate SpaceAt(table: Table, reserved: seq<Range>, a: nat, size: nat) {
    && 0x1_0000 <= a && a + size + 0x1_0000 <= 0x80_0000_0000
    && (forall k :: a - 0x1_0000 <= k < a + size + 0x1_0000 ==> k !in table)
    && (forall i :: 0 <= i < |reserved| ==>
      a + size + 0x1_0000 <= reserved[i].start || reserved[i].start + reserved[i].size + 0x1_0000 <= a)
  }

  class Kernel {
    var table: Table
    var reserved: seq<Range>

    constructor (table: Table, reserved: seq<Range>)
      ensures this.table == table && this.reserved == reserved
    {
      this.table := table;
      this.reserved := reserved;
    }

    /** `virtmemFindAslr` and `virtmemAddReservation`; `choice` is the address the randomisation tries. */
    method Reserve(size: nat, choice: nat) returns (found: Option<nat>)
      modifies this`reserved
      ensures found == if SpaceAt(table, old(reserved), choice, size) then Some(choice) else None
      ensures reserved == if found.Some? then old(reserved) + [Range(choice, size)] else old(reserved)
    {
      found := None;
      if SpaceAt(table, reserved, choice, size) {
        reserved := reserved + [Range(choice, size)];
        found := Some(choice);
      }
    }

    method MapProcessMemory(dst: nat, src: nat, size: nat)
      requires forall a :: dst <= a < dst + size ==> a !in table
      modifies this`table
      ensures table == old(table) + Segment(dst, dst + size, src)
    {
      table := table + Segment(dst, dst + size, src);
    }

    /**
     * `svcQueryMemory` on an address inside a reservation: free if nothing is mapped there, else some
     * stretch of mapped memory from there on. The kernel may merge neighbours or not.
     */
    method QueryMemory(addr: nat) returns (size: nat, kind: MemType)
      ensures size > 0
      ensures addr !in table ==> kind == Unmapped
      ensures addr in table ==> kind != Unmapped && forall k: nat :: addr <= k < addr + size ==> k in table
    {
      if addr in table {
        assert forall k: nat :: addr <= k < addr + 1 ==> k in table;
        var n: nat :| 1 <= n && forall k: nat :: addr <= k < addr + n ==> k in table;
        size, kind := n, OtherType(15);
      } else {
        size, kind := 1, Unmapped;
      }
    }

    /** Refuses unless every byte of the stretch shows the process address named. */
    method UnmapProcessMemory(dst: nat, src: nat, size: nat) returns (ok: bool)
      modifies this`table
      ensures ok <==> forall k: nat :: dst <= k < dst + size ==> k in old(table) && old(table)[k] == k - dst + src
      ensures table == if ok then old(table) - Addresses(dst, dst + size) else old(table)
    {
      ok := forall k: nat :: dst <= k < dst + size ==> k in table && table[k] == k - dst + src;
      if ok {
        table := table - Addresses(dst, dst + size);
      }
    }
  }

  // When there is room, said from nothing up: in an empty kernel, and with one byte or one range more.

  lemma RoomInEmptyKernel(a: nat, size: nat)
    ensures SpaceAt(map[], [], a, size) <==> 0x1_0000 <= a && a + size <= 0x7F_FFFF_0000
  {
  }

  lemma RoomBesideByte(table: Table, reserved: seq<Range>, a: nat, size: nat, k: nat, v: nat)
    ensures SpaceAt(table[k := v], reserved, a, size) <==>
      SpaceAt(table, reserved, a, size) && (k < a - 0x1_0000 || a + size + 0x1_0000 <= k)
  {
    if SpaceAt(table[k := v], reserved, a, size) {
      assert k in table[k := v];
      assert forall j :: j in table ==> j in table[k := v];
    }
  }

  lemma RoomBesideRange(table: Table, reserved: seq<Range>, a: nat, size: nat, r: Range)
    ensures SpaceAt(table, reserved + [r], a, size) <==>
      SpaceAt(table, reserved, a, size) && Guarded(a, size, r.start, r.size)
  {
    var more := reserved + [r];
    if SpaceAt(table, more, a, size) {
      assert more[|reserved|] == r;
      assert forall i :: 0 <= i < |reserved| ==> more[i] == reserved[i];
    }
  }

  /** Two stretches with at least 0x10000 bytes between them. */
  predicate Guarded(a: nat, m: nat, b: nat, n: nat) {
    a + m + 0x1_0000 <= b || b + n + 0x1_0000 <= a
  }

  // ----- undoing one block -----

  /** The first address from `a` that is not mapped, within `n` bytes. */
  function FirstHole(table: Table, a: nat, n: nat): (h: nat)
    ensures a <= h <= a + n
    ensures forall k: nat :: a <= k < h ==> k in table
    ensures h < a + n ==> h !in table
    decreases n
  {
    if n == 0 || a !in table then a else FirstHole(table, a + 1, n - 1)
  }

  /** Within the block the table shows the block's own addresses, and the block ends before a gap. */
  ghost predicate Linear(table: Table, b: MapBlock) {
    && MappedEnd(b) < TOP
    && MappedEnd(b) !in table
    && forall a: nat :: b.startMapped <= a < MappedEnd(b) && a in table ==> table[a] == a - b.startMapped + b.startOrig
  }

  /**
   * Releases exactly what is mapped up to the first hole; every call names the address the byte was
   * mapped from, so none is refused.
   */
  method Unmap(kernel: Kernel, b: MapBlock) returns (allOk: bool)
    requires Linear(kernel.table, b)
    modifies kernel`table
    ensures allOk
    ensures kernel.table == old(kernel.table)
      - Addresses(b.startMapped, FirstHole(old(kernel.table), b.startMapped, b.size))
  {
    ghost var before := kernel.table;
    ghost var hole := FirstHole(before, b.startMapped, b.size);
    var addr := b.startMapped;
    allOk := true;
    while true
      invariant b.startMapped <= addr <= hole && allOk
      invariant kernel.table == before - Addresses(b.startMapped, addr)
      decreases hole - addr
    {
      var size, kind := kernel.QueryMemory(addr);
      if addr + size == 0x80_0000_0000 || kind == Unmapped || addr >= b.startMapped + b.size {
        assert addr == hole by {
          StopsAtHole(before, b, addr, size, kind);
        }
        break;
      }
      forall k: nat | addr <= k < addr + size ensures k in before {
        assert k in kernel.table;
      }
      StretchInBlock(before, b, addr, size);
      var ok := kernel.UnmapProcessMemory(addr, addr - b.startMapped + b.startOrig, size);
      allOk := allOk && ok;
      assert Addresses(b.startMapped, addr) + Addresses(addr, addr + size) == Addresses(b.startMapped, addr + size);
      addr := addr + size;
    }
  }

  lemma StretchInBlock(table: Table, b: MapBlock, addr: nat, size: nat)
    requires Linear(table, b) && b.startMapped <= addr <= FirstHole(table, b.startMapped, b.size)
    requires addr < MappedEnd(b)
    requires forall k: nat :: addr <= k < addr + size ==> k in table
    ensures addr + size <= FirstHole(table, b.startMapped, b.size)
  {
    assert FirstHole(table, b.startMapped, b.size) !in table;
  }

  lemma StopsAtHole(before: Table, b: MapBlock, addr: nat, size: nat, kind: MemType)
    requires Linear(before, b) && b.startMapped <= addr <= FirstHole(before, b.startMapped, b.size)
    requires var table := before - Addresses(b.startMapped, addr);
      && (addr !in table ==> kind == Unmapped)
      && (addr in table ==> kind != Unmapped && forall k: nat :: addr <= k < addr + size ==> k in table)
    requires addr + size == TOP || kind == Unmapped || addr >= MappedEnd(b)
    requires size > 0
    ensures addr == FirstHole(before, b.startMapped, b.size)
  {
    var table := before - Addresses(b.startMapped, addr);
    assert MappedEnd(b) !in table;
    assert addr < FirstHole(before, b.startMapped, b.size) ==> addr in table;
  }

  // ----- mapping the blocks -----

  /** The block a span becomes: from its first region's start, through its last region's end. */
  predicate BlockIs(rs: seq<Region>, s: Span, b: MapBlock)
    requires s.lo < s.hi <= |rs|
  {
    b.startOrig == rs[s.lo].addr && b.startOrig + b.size == End(rs[s.hi - 1])
  }

  ghost predicate Apart(b: MapBlock, c: MapBlock) {
    MappedEnd(b) + 0x1_0000 <= c.startMapped || MappedEnd(c) + 0x1_0000 <= b.startMapped
  }

  /** The block's own addresses, guards included, are outside the table. */
  ghost predicate Clear(table: Table, b: MapBlock) {
    && 0x1_0000 <= b.startMapped && MappedEnd(b) + 0x1_0000 <= TOP
    && forall k :: b.startMapped - 0x1_0000 <= k < MappedEnd(b) + 0x1_0000 ==> k !in table
  }

  ghost function Windows(rs: seq<Region>, blocks: seq<MapBlock>): (ms: seq<Table>)
    ensures |ms| == |blocks|
  {
    seq(|blocks|, i requires 0 <= i < |blocks| => BlockWindow(rs, blocks[i]))
  }

  /** Blocks laid out apart from one another and from what was mapped before. */
  ghost predicate LaidOut(before: Table, blocks: seq<MapBlock>) {
    && (forall i :: 0 <= i < |blocks| ==> Clear(before, blocks[i]))
    && (forall i, j :: 0 <= i < j < |blocks| ==> Apart(blocks[i], blocks[j]))
  }

  /** The blocks stand for the spans, in order. */
  ghost predicate Blocks(rs: seq<Region>, spans: seq<Span>, blocks: seq<MapBlock>) {
    && |blocks| == |spans|
    && forall i :: 0 <= i < |spans| ==> spans[i].lo < spans[i].hi <= |rs| && BlockIs(rs, spans[i], blocks[i])
  }

  /**
   * Maps one run: reserves room for its whole extent, maps each region at its offset, passes over the
   * skipped types. False stands for the abort when no room is found.
   */
  method MapRun(kernel: Kernel, maps: seq<Region>, choice: nat, ghost rs: seq<Region>, ghost s: Span)
    returns (ok: bool, block: MapBlock)
    requires Partition(rs) && s.lo < s.hi <= |rs| && maps == rs[s.lo..s.hi]
    modifies kernel
    ensures ok <==> SpaceAt(old(kernel.table), old(kernel.reserved), choice, Extent(rs, s))
    ensures ok ==> BlockIs(rs, s, block) && block == MapBlock(rs[s.lo].addr, choice, Extent(rs, s))
    ensures ok ==> kernel.table == old(kernel.table) + BlockWindow(rs, block)
    ensures ok ==> kernel.reserved == old(kernel.reserved) + [Range(choice, block.size)]
  {
    hide Window;
    hide Partition;
    hide SpaceAt;
    var first, last := maps[0], maps[|maps| - 1];
    var blockSize: int := last.addr - first.addr + last.size;
    RunExtent(rs, s);
    block := MapBlock(first.addr, choice, blockSize);
    var found := kernel.Reserve(blockSize, choice);
    ok := found.Some?;
    if ok {
      ghost var before := kernel.table;
      WindowOfNothing(rs, first.addr, choice);
      var i := 0;
      while i < |maps|
        invariant 0 <= i <= |maps|
        invariant kernel.table == before + Window(rs, first.addr, choice, choice + Reached(maps, i))
        invariant kernel.reserved == old(kernel.reserved) + [Range(choice, blockSize)]
      {
        RunOffset(rs, s, i);
        RoomInside(before, old(kernel.reserved), choice, blockSize, maps[i].addr - first.addr, maps[i].size);
        MapRegion(kernel, maps[i], first.addr, choice, rs, s.lo + i, before);
        i := i + 1;
      }
    }
  }

  /** One region of a run: skipped, or mapped at its offset into the block. */
  method MapRegion(kernel: Kernel, info: Region, first: nat, mapped: nat, ghost rs: seq<Region>, ghost i: nat, ghost before: Table)
    requires Partition(rs) && i < |rs| && info == rs[i] && first <= info.addr
    requires var at := mapped + (info.addr - first);
      && kernel.table == before + Window(rs, first, mapped, at)
      && forall k :: at <= k < at + info.size ==> k !in before
    modifies kernel`table
    ensures kernel.table == before + Window(rs, first, mapped, mapped + (info.addr - first) + info.size)
  {
    hide Partition;
    hide Window;
    hide Segment;
    var offsetIntoBlock := info.addr - first;
    WindowGrows(rs, i, first, mapped);
    if !Skipped(info.kind) {
      WindowEndsBefore(rs, first, mapped, mapped + offsetIntoBlock);
      kernel.MapProcessMemory(mapped + offsetIntoBlock, info.addr, info.size);
    }
  }

  /** How much of the run lies before its region `i`. */
  function Reached(maps: seq<Region>, i: nat): nat
    requires i <= |maps|
  {
    if i == 0 then 0
    else if End(maps[i - 1]) >= maps[0].addr then End(maps[i - 1]) - maps[0].addr else 0
  }

  /** Any part of reserved space is free of mappings. */
  lemma RoomInside(table: Table, reserved: seq<Range>, a: nat, size: nat, offset: nat, part: nat)
    requires SpaceAt(table, reserved, a, size) && offset + part <= size
    ensures forall k :: a + offset <= k < a + offset + part ==> k !in table
  {
  }

  /** How many bytes a run takes, from the start of its first region to the end of its last. */
  ghost function Extent(rs: seq<Region>, s: Span): nat
    requires Partition(rs) && s.lo < s.hi <= |rs|
  {
    RunExtent(rs, s);
    End(rs[s.hi - 1]) - rs[s.lo].addr
  }

  lemma RunExtent(rs: seq<Region>, s: Span)
    requires Partition(rs) && s.lo < s.hi <= |rs|
    ensures rs[s.lo].addr <= rs[s.hi - 1].addr
  {
    if s.lo < s.hi - 1 {
      PartitionOrder(rs, s.lo, s.hi - 1);
    }
  }

  lemma RunOffset(rs: seq<Region>, s: Span, i: nat)
    requires Partition(rs) && s.lo < s.hi <= |rs| && i < s.hi - s.lo
    ensures var maps := rs[s.lo..s.hi];
      && maps[0].addr <= maps[i].addr
      && Reached(maps, i) == maps[i].addr - maps[0].addr
      && Reached(maps, i + 1) == maps[i].addr - maps[0].addr + maps[i].size
      && maps[i].addr - maps[0].addr + maps[i].size <= End(maps[|maps| - 1]) - maps[0].addr
  {
    if i > 0 {
      PartitionOrder(rs, s.lo, s.lo + i);
      assert rs[s.lo..s.hi][i - 1] == rs[s.lo + i - 1];
    }
    if s.lo + i < s.hi - 1 {
      PartitionOrder(rs, s.lo + i, s.hi - 1);
    }
  }

  lemma WindowOfNothing(rs: seq<Region>, orig: nat, lo: nat)
    ensures Window(rs, orig, lo, lo) == map[]
  {
  }

  lemma WindowEndsBefore(rs: seq<Region>, orig: nat, lo: nat, hi: nat)
    ensures forall a: nat :: a >= hi ==> a !in Window(rs, orig, lo, hi)
  {
  }

  /** A new block, placed clear of the current table and of the earlier reservations, is laid out apart. */
  lemma NewBlockLaidOut(before: Table, rs: seq<Region>, blocks: seq<MapBlock>, old_: seq<Range>, reserved: seq<Range>,
                        b: MapBlock)
    requires LaidOut(before, blocks)
    requires reserved == old_ + Ranges(blocks)
    requires SpaceAt(Join(before, Windows(rs, blocks)), reserved, b.startMapped, b.size)
    ensures LaidOut(before, blocks + [b])
  {
    hide BlockWindow;
    hide Windows;
    hide Join;
    assert Clear(before, b) by {
      forall k | b.startMapped - 0x1_0000 <= k < MappedEnd(b) + 0x1_0000 ensures k !in before {
        if k in before {
          JoinKeys(before, Windows(rs, blocks), k);
        }
      }
    }
    hide Clear;
    forall i | 0 <= i < |blocks| ensures Apart(blocks[i], b) {
      assert reserved[|old_| + i] == Range(blocks[i].startMapped, blocks[i].size);
    }
  }

  /**
   * Every span has an address to try, at which there is room in the kernel as it was and which lies apart
   * from those of the other spans.
   */
  ghost predicate RoomForAll(rs: seq<Region>, spans: seq<Span>, choices: seq<nat>, table: Table, reserved: seq<Range>)
    requires Partition(rs)
  {
    && (forall i :: 0 <= i < |spans| ==> spans[i].lo < spans[i].hi <= |rs|)
    && |spans| <= |choices|
    && (forall i :: 0 <= i < |spans| ==> SpaceAt(table, reserved, choices[i], Extent(rs, spans[i])))
    && (forall i, j :: 0 <= i < j < |spans| ==>
      Guarded(choices[i], Extent(rs, spans[i]), choices[j], Extent(rs, spans[j])))
  }

  /** The blocks stand where the choices said. */
  predicate AtChoices(blocks: seq<MapBlock>, choices: seq<nat>) {
    |blocks| <= |choices| && forall i :: 0 <= i < |blocks| ==> blocks[i].startMapped == choices[i]
  }

  lemma OutsideWindow(rs: seq<Region>, b: MapBlock, k: nat)
    requires k < b.startMapped || MappedEnd(b) <= k
    ensures k !in BlockWindow(rs, b)
  {
    hide Mappable;
  }

  /** Room beside the blocks placed so far is room in the kernel as it was, apart from each block. */
  lemma RoomBesideBlocks(rs: seq<Region>, blocks: seq<MapBlock>, table: Table, reserved: seq<Range>, a: nat, size: nat)
    ensures SpaceAt(Join(table, Windows(rs, blocks)), reserved + Ranges(blocks), a, size) <==>
      && SpaceAt(table, reserved, a, size)
      && forall i :: 0 <= i < |blocks| ==> Guarded(blocks[i].startMapped, blocks[i].size, a, size)
  {
    var all, ms := reserved + Ranges(blocks), Windows(rs, blocks);
    if SpaceAt(Join(table, ms), all, a, size) {
      forall i | 0 <= i < |blocks| ensures Guarded(blocks[i].startMapped, blocks[i].size, a, size) {
        assert all[|reserved| + i] == Range(blocks[i].startMapped, blocks[i].size);
      }
      forall k | a - 0x1_0000 <= k < a + size + 0x1_0000 ensures k !in table {
        if k in table {
          JoinKeys(table, ms, k);
        }
      }
      assert forall i :: 0 <= i < |reserved| ==> all[i] == reserved[i];
    }
    if SpaceAt(table, reserved, a, size)
      && (forall i :: 0 <= i < |blocks| ==> Guarded(blocks[i].startMapped, blocks[i].size, a, size)) {
      forall k | a - 0x1_0000 <= k < a + size + 0x1_0000 ensures k !in Join(table, ms) {
        forall i | 0 <= i < |ms| ensures k !in ms[i] {
          assert Guarded(blocks[i].startMapped, blocks[i].size, a, size);
          OutsideWindow(rs, blocks[i], k);
        }
        JoinKeys(table, ms, k);
      }
      forall i | 0 <= i < |all|
        ensures a + size + 0x1_0000 <= all[i].start || all[i].start + all[i].size + 0x1_0000 <= a {
        if i >= |reserved| {
          assert Guarded(blocks[i - |reserved|].startMapped, blocks[i - |reserved|].size, a, size);
        }
      }
    }
  }

  /** Room for one more span is room beside the blocks of those before. */
  lemma RoomForOneMore(rs: seq<Region>, spans: seq<Span>, s: Span, blocks: seq<MapBlock>, choices: seq<nat>,
                       table: Table, reserved: seq<Range>)
    requires Partition(rs) && s.lo < s.hi <= |rs|
    requires Blocks(rs, spans, blocks) && AtChoices(blocks, choices) && RoomForAll(rs, spans, choices, table, reserved)
    ensures RoomForAll(rs, spans + [s], choices, table, reserved) <==>
      |blocks| < |choices|
      && SpaceAt(Join(table, Windows(rs, blocks)), reserved + Ranges(blocks), choices[|blocks|], Extent(rs, s))
  {
    hide Windows;
    hide Join;
    hide SpaceAt;
    hide Ranges;
    hide Partition;
    var more, n := spans + [s], |spans|;
    forall i | 0 <= i < n ensures blocks[i].size == Extent(rs, spans[i]) {
      assert BlockIs(rs, spans[i], blocks[i]);
    }
    if n < |choices| {
      RoomBesideBlocks(rs, blocks, table, reserved, choices[n], Extent(rs, s));
      if RoomForAll(rs, more, choices, table, reserved) {
        assert more[n] == s;
        forall i | 0 <= i < n ensures Guarded(blocks[i].startMapped, blocks[i].size, choices[n], Extent(rs, s)) {
          assert more[i] == spans[i];
        }
      }
    }
  }

  lemma RoomForFewer(rs: seq<Region>, spans: seq<Span>, more: seq<Span>, choices: seq<nat>, table: Table,
                     reserved: seq<Range>)
    requires Partition(rs) && spans <= more && RoomForAll(rs, more, choices, table, reserved)
    ensures RoomForAll(rs, spans, choices, table, reserved)
  {
    hide SpaceAt;
    hide Guarded;
    hide Partition;
    assert forall i :: 0 <= i < |spans| ==> spans[i] == more[i];
  }

  lemma NewBlockRecorded(before: Table, rs: seq<Region>, blocks: seq<MapBlock>, b: MapBlock)
    ensures Join(before, Windows(rs, blocks + [b])) == Join(before, Windows(rs, blocks)) + BlockWindow(rs, b)
    ensures Ranges(blocks + [b]) == Ranges(blocks) + [Range(b.startMapped, b.size)]
  {
    hide BlockWindow;
    var ms, more := Windows(rs, blocks), Windows(rs, blocks + [b]);
    assert more[..|blocks|] == ms;
  }

  ghost function Ranges(blocks: seq<MapBlock>): (r: seq<Range>)
    ensures |r| == |blocks|
  {
    seq(|blocks|, i requires 0 <= i < |blocks| => Range(blocks[i].startMapped, blocks[i].size))
  }

  method PutRegion(mapBuffer: array<Region>, numMaps: nat, info: Region) returns (next: nat)
    requires numMaps < mapBuffer.Length
    modifies mapBuffer
    ensures next == numMaps + 1 && mapBuffer[..next] == old(mapBuffer[..numMaps]) + [info]
  {
    mapBuffer[numMaps] := info;
    next := numMaps + 1;
  }

  class MemoryMapMgr {
    const regions: seq<Region>
    var mBlocks: seq<MapBlock>

    constructor (regions: seq<Region>)
      ensures this.regions == regions && mBlocks == []
    {
      this.regions := regions;
      mBlocks := [];
    }

    /** Maps the collected run and records its block; true stands for the abort. */
    method AddBlock(kernel: Kernel, maps: seq<Region>, choices: seq<nat>, ghost s: Span, ghost before: Table,
                    ghost reserved: seq<Range>) returns (aborted: bool)
      requires Partition(regions) && s.lo < s.hi <= |regions| && maps == regions[s.lo..s.hi]
      requires LaidOut(before, mBlocks) && kernel.table == Join(before, Windows(regions, mBlocks))
      requires kernel.reserved == reserved + Ranges(mBlocks)
      modifies this, kernel
      ensures !aborted <==>
        && |old(mBlocks)| < |choices|
        && SpaceAt(old(kernel.table), old(kernel.reserved), choices[|old(mBlocks)|], Extent(regions, s))
      ensures !aborted ==> |mBlocks| == |old(mBlocks)| + 1 && mBlocks[..|old(mBlocks)|] == old(mBlocks)
      ensures !aborted ==> mBlocks[|old(mBlocks)|].startMapped == choices[|old(mBlocks)|]
      ensures !aborted ==> BlockIs(regions, s, mBlocks[|old(mBlocks)|])
      ensures !aborted ==> LaidOut(before, mBlocks) && kernel.table == Join(before, Windows(regions, mBlocks))
      ensures !aborted ==> kernel.reserved == reserved + Ranges(mBlocks)
    {
      hide LaidOut;
      hide Windows;
      hide Join;
      hide SpaceAt;
      hide Ranges;
      hide BlockIs;
      hide Partition;
      if |mBlocks| >= |choices| {
        return true;
      }
      var ok, block := MapRun(kernel, maps, choices[|mBlocks|], regions, s);
      if !ok {
        return true;
      }
      NewBlockLaidOut(before, regions, mBlocks, reserved, reserved + Ranges(mBlocks), block);
      NewBlockRecorded(before, regions, mBlocks, block);
      mBlocks := mBlocks + [block];
      aborted := false;
    }

    /** After `k` regions: the spans so far are blocks at the addresses chosen, all placed with room. */
    ghost predicate Walked(kernel: Kernel, choices: seq<nat>, k: nat, before: Table, reserved: seq<Range>)
      requires Partition(regions) && k <= |regions|
      reads this, kernel
    {
      && Blocks(regions, Spans(regions, k), mBlocks) && AtChoices(mBlocks, choices) && LaidOut(before, mBlocks)
      && kernel.table == Join(before, Windows(regions, mBlocks))
      && kernel.reserved == reserved + Ranges(mBlocks)
      && RoomForAll(regions, Spans(regions, k), choices, before, reserved)
    }

    /** At a free region: maps the run collected before it, if there is one. */
    method CloseRun(kernel: Kernel, maps: seq<Region>, choices: seq<nat>, ghost k: nat, ghost before: Table,
                    ghost reserved: seq<Range>) returns (aborted: bool)
      requires Partition(regions) && k < |regions| && Free(regions[k]) && maps == regions[OpenRun(regions, k)..k]
      requires Walked(kernel, choices, k, before, reserved)
      modifies this, kernel
      ensures aborted <==> !RoomForAll(regions, Spans(regions, k + 1), choices, before, reserved)
      ensures !aborted ==> Walked(kernel, choices, k + 1, before, reserved)
    {
      hide LaidOut;
      hide Windows;
      hide Join;
      hide Ranges;
      hide Blocks;
      hide BlockIs;
      hide Partition;
      hide Spans;
      hide OpenRun;
      hide SpaceAt;
      hide RoomForAll;
      hide Extent;
      WalkStep(regions, k);
      aborted := false;
      if |maps| > 0 {
        ghost var s, blocks := Span(OpenRun(regions, k), k), mBlocks;
        RoomForOneMore(regions, Spans(regions, k), s, mBlocks, choices, before, reserved);
        aborted := AddBlock(kernel, maps, choices, s, before, reserved);
        if !aborted {
          BlocksGrow(regions, Spans(regions, k), blocks, s, mBlocks);
          assert forall i :: 0 <= i < |blocks| ==> mBlocks[i] == mBlocks[..|blocks|][i];
        }
      }
    }

    lemma NothingWalked(kernel: Kernel, choices: seq<nat>)
      requires Partition(regions) && regions != [] && mBlocks == []
      ensures Walked(kernel, choices, 0, kernel.table, kernel.reserved)
    {
      StartLaidOut(kernel.table, regions);
      WalkStart(regions);
      assert kernel.reserved + [] == kernel.reserved;
    }

    lemma WalkedPast(kernel: Kernel, choices: seq<nat>, k: nat, before: Table, reserved: seq<Range>)
      requires Partition(regions) && k < |regions| && Walked(kernel, choices, k, before, reserved)
      requires !Free(regions[k])
      ensures Walked(kernel, choices, k + 1, before, reserved)
    {
      WalkStep(regions, k);
    }

    lemma WalkEnds(kernel: Kernel, choices: seq<nat>, k: nat, before: Table, reserved: seq<Range>)
      requires Partition(regions) && k <= |regions| && Walked(kernel, choices, k, before, reserved)
      ensures Blocks(regions, Spans(regions, k), mBlocks) && AtChoices(mBlocks, choices) && LaidOut(before, mBlocks)
      ensures kernel.table == Join(before, Windows(regions, mBlocks)) && kernel.reserved == reserved + Ranges(mBlocks)
      ensures RoomForAll(regions, Spans(regions, k), choices, before, reserved)
    {
    }

    /**
     * Walks the process from address 0 to the region that ends the address space, collecting runs of
     * regions in use in a 256-place buffer and mapping each run that a free region closes. It aborts
     * exactly when some run finds no room.
     */
    method MapBlocks(kernel: Kernel, choices: seq<nat>, ghost top: nat) returns (aborted: bool)
      requires Partition(regions) && top < |regions| && End(regions[top]) == 0x80_0000_0000 && mBlocks == []
      requires forall k :: 0 <= k <= top ==> k - OpenRun(regions, k) <= 256
      modifies this, kernel
      ensures aborted <==>
        !RoomForAll(regions, Spans(regions, top), choices, old(kernel.table), old(kernel.reserved))
      ensures !aborted ==> Blocks(regions, Spans(regions, top), mBlocks) && AtChoices(mBlocks, choices)
      ensures !aborted ==> LaidOut(old(kernel.table), mBlocks)
      ensures !aborted ==> kernel.table == Join(old(kernel.table), Windows(regions, mBlocks))
      ensures !aborted ==> kernel.reserved == old(kernel.reserved) + Ranges(mBlocks)
    {
      hide Walked;
      hide Partition;
      hide Query;
      hide Spans;
      hide OpenRun;
      hide RoomForAll;
      hide Blocks;
      hide LaidOut;
      ghost var before, reserved := kernel.table, kernel.reserved;
      NothingWalked(kernel, choices);
      WalkStart(regions);
      aborted := false;
      var addr := 0;
      var mapBuffer := new Region[256](_ => Region(0, 0, Unmapped, 0));
      var numMaps := 0;
      ghost var k := 0;
      while true
        invariant 0 <= k <= top && addr == regions[k].addr
        invariant numMaps == k - OpenRun(regions, k) <= 256
        invariant mapBuffer[..numMaps] == regions[k - numMaps..k]
        invariant Walked(kernel, choices, k, before, reserved)
        decreases top - k
      {
        QueryAtStart(regions, k);
        var found := Query(regions, addr);
        var info := found.value;
        if addr + info.size == 0x80_0000_0000 {
          EndsAtTop(regions, k, top);
          WalkEnds(kernel, choices, top, before, reserved);
          break;
        }
        assert End(regions[k]) != TOP && k < top;
        WalkStep(regions, k);
        if Free(info) {
          aborted := CloseRun(kernel, mapBuffer[..numMaps], choices, k, before, reserved);
          if aborted {
            NoRoomLater(regions, k + 1, top, choices, before, reserved);
            return;
          }
          numMaps := 0;
        } else {
          WalkedPast(kernel, choices, k, before, reserved);
          numMaps := PutRegion(mapBuffer, numMaps, info);
          RunExtends(regions, k - numMaps + 1, k);
        }
        addr := addr + info.size;
        k := k + 1;
      }
    }
  }

  lemma RunExtends(rs: seq<Region>, lo: nat, k: nat)
    requires lo <= k < |rs|
    ensures rs[lo..k] + [rs[k]] == rs[lo..k + 1]
  {
  }

  lemma WalkStart(rs: seq<Region>)
    requires Partition(rs) && rs != []
    ensures rs[0].addr == 0 && OpenRun(rs, 0) == 0 && Spans(rs, 0) == [] && Blocks(rs, [], [])
    ensures forall choices, table, reserved :: RoomForAll(rs, [], choices, table, reserved)
  {
  }

  lemma {:induction false} SpansGrow(rs: seq<Region>, j: nat, k: nat)
    requires j <= k <= |rs|
    ensures Spans(rs, j) <= Spans(rs, k)
    decreases k
  {
    if j < k {
      SpansGrow(rs, j, k - 1);
    }
  }

  /** A process of one run, an empty kernel and one address to try: the run has room. */
  lemma OneRunHasRoom()
    ensures var rs := [Region(0, 0x1000, Unmapped, 0), Region(0x1000, 0x1000, CodeStatic, 5),
                       Region(0x2000, 0x1000, Unmapped, 0), Region(0x3000, 0x7F_FFFF_D000, Reserved, 0)];
      Partition(rs) && Spans(rs, 3) == [Span(1, 2)] && RoomForAll(rs, Spans(rs, 3), [0x20_0000], map[], [])
  {
    var rs := [Region(0, 0x1000, Unmapped, 0), Region(0x1000, 0x1000, CodeStatic, 5),
               Region(0x2000, 0x1000, Unmapped, 0), Region(0x3000, 0x7F_FFFF_D000, Reserved, 0)];
    assert Partition(rs) && Free(rs[0]) && !Free(rs[1]) && Free(rs[2]) && Extent(rs, Span(1, 2)) == 0x1000;
    hide SpaceAt;
    hide Partition;
    hide Extent;
    WalkStart(rs);
    WalkStep(rs, 0);
    WalkStep(rs, 1);
    WalkStep(rs, 2);
    hide Spans;
    hide OpenRun;
    RoomInEmptyKernel(0x20_0000, 0x1000);
  }

  lemma NoRoomLater(rs: seq<Region>, j: nat, k: nat, choices: seq<nat>, table: Table, reserved: seq<Range>)
    requires Partition(rs) && j <= k <= |rs| && !RoomForAll(rs, Spans(rs, j), choices, table, reserved)
    ensures !RoomForAll(rs, Spans(rs, k), choices, table, reserved)
  {
    hide RoomForAll;
    hide Partition;
    SpansGrow(rs, j, k);
    if RoomForAll(rs, Spans(rs, k), choices, table, reserved) {
      RoomForFewer(rs, Spans(rs, j), Spans(rs, k), choices, table, reserved);
    }
  }

  lemma WalkStep(rs: seq<Region>, k: nat)
    requires Partition(rs) && k < |rs|
    ensures k + 1 < |rs| ==> rs[k + 1].addr == rs[k].addr + rs[k].size
    ensures OpenRun(rs, k + 1) == if Free(rs[k]) then k + 1 else OpenRun(rs, k)
    ensures Spans(rs, k + 1) ==
      if Free(rs[k]) && OpenRun(rs, k) < k then Spans(rs, k) + [Span(OpenRun(rs, k), k)] else Spans(rs, k)
  {
  }

  lemma BlocksGrow(rs: seq<Region>, spans: seq<Span>, blocks: seq<MapBlock>, s: Span, more: seq<MapBlock>)
    requires Blocks(rs, spans, blocks) && s.lo < s.hi <= |rs|
    requires |more| == |blocks| + 1 && more[..|blocks|] == blocks && BlockIs(rs, s, more[|blocks|])
    ensures Blocks(rs, spans + [s], more)
  {
    forall i | 0 <= i < |spans| ensures BlockIs(rs, spans[i], more[i]) {
      assert more[i] == more[..|blocks|][i];
    }
  }

  lemma StartLaidOut(before: Table, rs: seq<Region>)
    ensures LaidOut(before, []) && Join(before, Windows(rs, [])) == before && Ranges([]) == []
  {
  }

  lemma EndsAtTop(rs: seq<Region>, k: nat, top: nat)
    requires Partition(rs) && k <= top < |rs| && End(rs[k]) == End(rs[top])
    ensures k == top
  {
    if k < top {
      PartitionOrder(rs, k, top);
    }
  }
}
