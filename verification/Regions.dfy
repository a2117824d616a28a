/** The debugged process's address space as the kernel reports it, and the two walks over it. */
module Regions {
  import opened Wrappers

  /** The memory types the walks look at, of the kernel's list (libnx is not part of this model). */
  datatype MemType =
    | Unmapped | CodeStatic | ModuleCodeStatic | SharedMem | MappedMemory | ThreadLocal | Reserved | OtherType(code: nat)

  datatype Region = Region(addr: nat, size: nat, kind: MemType, perm: nat)

  const PERM_RX: nat := 5
  const TOP: nat := 0x80_0000_0000

  function End(r: Region): nat {
    r.addr + r.size
  }

  predicate Free(r: Region) {
    r.kind == Unmapped
  }

  /** Nonempty regions, one after the other from address 0. */
  ghost predicate Partition(rs: seq<Region>) {
    && (rs != [] ==> rs[0].addr == 0)
    && (forall i :: 0 <= i < |rs| ==> rs[i].size > 0)
    && (forall i :: 0 < i < |rs| ==> rs[i].addr == End(rs[i - 1]))
  }

  lemma {:induction false} PartitionOrder(rs: seq<Region>, i: nat, j: nat)
    requires Partition(rs) && i < j < |rs|
    ensures End(rs[i]) <= rs[j].addr < End(rs[j])
    decreases j
  {
    if i < j - 1 {
      PartitionOrder(rs, i, j - 1);
    }
  }

  /** `queryMemory`: the region that contains the address. */
  function Query(rs: seq<Region>, addr: nat): Option<Region> {
    if rs == [] then None
    else if rs[0].addr <= addr < End(rs[0]) then Some(rs[0])
    else Query(rs[1..], addr)
  }

  lemma {:induction false} QueryFinds(rs: seq<Region>, i: nat, addr: nat)
    requires i < |rs| && rs[i].addr <= addr < End(rs[i])
    requires forall k :: 0 <= k < i ==> End(rs[k]) <= addr
    ensures Query(rs, addr) == Some(rs[i])
  {
    if i > 0 {
      assert rs[1..][i - 1] == rs[i];
      assert forall k :: 0 <= k < i - 1 ==> rs[1..][k] == rs[k + 1];
      QueryFinds(rs[1..], i - 1, addr);
    }
  }

  lemma QueryAtStart(rs: seq<Region>, i: nat)
    requires Partition(rs) && i < |rs|
    ensures Query(rs, rs[i].addr) == Some(rs[i])
  {
    forall k | 0 <= k < i ensures End(rs[k]) <= rs[i].addr {
      PartitionOrder(rs, k, i);
    }
    QueryFinds(rs, i, rs[i].addr);
  }

  // ----- runs of regions in use -----

  /** Regions `lo` up to but not including `hi`. */
  datatype Span = Span(lo: nat, hi: nat)

  /** Where the run of non-free regions that reaches `k` starts; `k` itself if there is none. */
  function OpenRun(rs: seq<Region>, k: nat): (lo: nat)
    requires k <= |rs|
    ensures lo <= k
  {
    if k == 0 then 0 else if Free(rs[k - 1]) then k else OpenRun(rs, k - 1)
  }

  /** The runs closed by a free region among the first `k` regions, in address order. */
  function Spans(rs: seq<Region>, k: nat): seq<Span>
    requires k <= |rs|
  {
    if k == 0 then []
    else
      var lo := OpenRun(rs, k - 1);
      Spans(rs, k - 1) + (if Free(rs[k - 1]) && lo < k - 1 then [Span(lo, k - 1)] else [])
  }

  /** A maximal run of non-free regions that a free region closes. */
  ghost predicate ClosedRun(rs: seq<Region>, s: Span, k: nat)
    requires k <= |rs|
  {
    && s.lo < s.hi < k
    && (forall i :: s.lo <= i < s.hi ==> !Free(rs[i]))
    && (s.lo == 0 || Free(rs[s.lo - 1]))
    && Free(rs[s.hi])
  }

  lemma {:induction false} OpenRunIsMaximal(rs: seq<Region>, k: nat)
    requires k <= |rs|
    ensures var lo := OpenRun(rs, k);
      && (forall i :: lo <= i < k ==> !Free(rs[i]))
      && (lo == 0 || Free(rs[lo - 1]))
  {
    if k > 0 && !Free(rs[k - 1]) {
      OpenRunIsMaximal(rs, k - 1);
    }
  }

  lemma RunIsOpenRun(rs: seq<Region>, s: Span, k: nat)
    requires k <= |rs| && ClosedRun(rs, s, k) && s.hi == k - 1
    ensures s.lo == OpenRun(rs, k - 1)
  {
    var lo := OpenRun(rs, k - 1);
    OpenRunIsMaximal(rs, k - 1);
  }

  lemma SpansLast(rs: seq<Region>, k: nat)
    requires 0 < k <= |rs|
    ensures var last := Span(OpenRun(rs, k - 1), k - 1);
      Spans(rs, k) == Spans(rs, k - 1) + (if Free(rs[k - 1]) && last.lo < k - 1 then [last] else [])
  {
  }

  lemma LastSpanCloses(rs: seq<Region>, k: nat)
    requires 0 < k <= |rs|
    ensures var last := Span(OpenRun(rs, k - 1), k - 1);
      ClosedRun(rs, last, k) <==> Free(rs[k - 1]) && last.lo < k - 1
  {
    OpenRunIsMaximal(rs, k - 1);
  }

  /** The spans are exactly the closed maximal runs. */
  lemma {:induction false} SpansExact(rs: seq<Region>, k: nat, s: Span)
    requires k <= |rs|
    ensures s in Spans(rs, k) <==> ClosedRun(rs, s, k)
  {
    if k > 0 {
      hide Spans;
      hide OpenRun;
      var last := Span(OpenRun(rs, k - 1), k - 1);
      SpansLast(rs, k);
      LastSpanCloses(rs, k);
      SpansExact(rs, k - 1, s);
      if s.hi < k - 1 {
        assert ClosedRun(rs, s, k) <==> ClosedRun(rs, s, k - 1);
      } else if ClosedRun(rs, s, k) {
        RunIsOpenRun(rs, s, k);
        assert s == last;
      }
    }
  }

  /** They come in address order, with at least the closing free region between one and the next. */
  lemma {:induction false} SpansOrdered(rs: seq<Region>, k: nat, i: nat, j: nat)
    requires k <= |rs| && i < j < |Spans(rs, k)|
    ensures Spans(rs, k)[i].hi < Spans(rs, k)[j].lo
  {
    var n := |Spans(rs, k - 1)|;
    if j < n {
      SpansOrdered(rs, k - 1, i, j);
    } else {
      var s := Spans(rs, k - 1)[i];
      SpansExact(rs, k - 1, s);
      OpenRunIsMaximal(rs, k - 1);
      assert Free(rs[s.hi]);
    }
  }

  function TotalSize(run: seq<Region>): nat {
    if run == [] then 0 else TotalSize(run[..|run| - 1]) + run[|run| - 1].size
  }

  /** A run's extent, first start to last end, is the sum of its regions. */
  lemma {:induction false} ExtentIsSum(rs: seq<Region>, lo: nat, hi: nat)
    requires Partition(rs) && lo < hi <= |rs|
    ensures End(rs[hi - 1]) - rs[lo].addr == TotalSize(rs[lo..hi])
    decreases hi
  {
    assert rs[lo..hi][..hi - lo - 1] == rs[lo..hi - 1];
    if lo < hi - 1 {
      ExtentIsSum(rs, lo, hi - 1);
    }
  }

  /** A region is free exactly when nothing is mapped there. */
  lemma FreeKinds(a: nat, n: nat, perm: nat, code: nat)
    ensures Free(Region(a, n, Unmapped, perm))
    ensures forall kind <- [CodeStatic, ModuleCodeStatic, SharedMem, MappedMemory, ThreadLocal, Reserved, OtherType(code)]
      :: !Free(Region(a, n, kind, perm))
  {
  }

  // ----- the module walk -----

  predicate IsModule(r: Region) {
    r.perm == PERM_RX && (r.kind == CodeStatic || r.kind == ModuleCodeStatic)
  }

  /** Static code, of the program or of a module, that may be read and run: permission bits 1 and 4, and no other. */
  lemma ModuleKinds(a: nat, n: nat, perm: nat, code: nat)
    ensures IsModule(Region(a, n, CodeStatic, 5)) && IsModule(Region(a, n, ModuleCodeStatic, 5))
    ensures perm != 5 ==> !IsModule(Region(a, n, CodeStatic, perm)) && !IsModule(Region(a, n, ModuleCodeStatic, perm))
    ensures forall kind <- [Unmapped, SharedMem, MappedMemory, ThreadLocal, Reserved, OtherType(code)]
      :: !IsModule(Region(a, n, kind, perm))
  {
  }

  function Modules(rs: seq<Region>): seq<Region> {
    if rs == [] then []
    else Modules(rs[..|rs| - 1]) + (if IsModule(rs[|rs| - 1]) then [rs[|rs| - 1]] else [])
  }

  lemma {:induction false} ModulesExact(rs: seq<Region>, r: Region)
    ensures r in Modules(rs) <==> r in rs && IsModule(r)
  {
    if rs != [] {
      ModulesExact(rs[..|rs| - 1], r);
      assert rs == rs[..|rs| - 1] + [rs[|rs| - 1]];
    }
  }

  lemma {:induction false} ModulesOrdered(rs: seq<Region>, i: nat, j: nat)
    requires Partition(rs) && i < j < |Modules(rs)|
    ensures End(Modules(rs)[i]) <= Modules(rs)[j].addr
  {
    var n := |rs| - 1;
    if j < |Modules(rs[..n])| {
      ModulesOrdered(rs[..n], i, j);
    } else {
      var r := Modules(rs[..n])[i];
      ModulesExact(rs[..n], r);
      var k :| 0 <= k < n && rs[k] == r;
      PartitionOrder(rs, k, n);
    }
  }

  lemma ModulesStart(rs: seq<Region>)
    requires Partition(rs) && rs != []
    ensures rs[0].addr == 0 && Modules([]) == []
  {
  }

  lemma NextRegion(rs: seq<Region>, k: nat)
    requires Partition(rs) && k + 1 < |rs|
    ensures rs[k + 1].addr == End(rs[k]) > rs[k].addr
  {
  }

  /** The walk's next step, and that the table has room for it. */
  lemma ModulesNext(rs: seq<Region>, k: nat, last: nat)
    requires k < last <= |rs|
    ensures Modules(rs[..k + 1]) == Modules(rs[..k]) + (if IsModule(rs[k]) then [rs[k]] else [])
    ensures |Modules(rs[..k + 1])| <= |Modules(rs[..last])|
  {
    assert rs[..k + 1][..k] == rs[..k];
    assert rs[..last][..k + 1] == rs[..k + 1];
    ModulesGrow(rs[..last], k + 1);
  }

  lemma {:induction false} ModulesGrow(rs: seq<Region>, k: nat)
    requires k <= |rs|
    ensures |Modules(rs[..k])| <= |Modules(rs)|
    decreases |rs|
  {
    if k < |rs| {
      ModulesGrow(rs[..|rs| - 1], k);
      assert rs[..|rs| - 1][..k] == rs[..k];
    } else {
      assert rs[..k] == rs;
    }
  }

  class ModuleTable {
    const mModules: array<Region>
    var mNumModules: nat

    constructor ()
      ensures mModules.Length == 13 && mNumModules == 0 && fresh(mModules)
    {
      mModules := new Region[13](_ => Region(0, 0, Unmapped, 0));
      mNumModules := 0;
    }

    /**
     * Walks regions from address 0 until the first reserved one, recording read-execute static code.
     * The table has 13 places and the walk does not check them, so their number is a precondition.
     */
    method FindModules(rs: seq<Region>, ghost last: nat)
      requires mModules.Length == 13
      requires Partition(rs) && last < |rs| && rs[last].kind == Reserved
      requires forall i :: 0 <= i < last ==> rs[i].kind != Reserved
      requires |Modules(rs[..last])| <= 13
      modifies this, mModules
      ensures mNumModules <= 13 && mModules[..mNumModules] == Modules(rs[..last])
    {
      hide Query;
      hide Partition;
      hide Modules;
      assert rs[..0] == [] && rs[0].addr == 0 && Modules([]) == [] by {
        ModulesStart(rs);
      }
      mNumModules := 0;
      var curAddr := 0;
      ghost var k := 0;
      while true
        invariant 0 <= k <= last && curAddr == rs[k].addr
        invariant mNumModules == |Modules(rs[..k])| <= 13 && mModules[..mNumModules] == Modules(rs[..k])
        decreases last - k
      {
        QueryAtStart(rs, k);
        var found := Query(rs, curAddr);
        var memoryInfo := found.value;
        if k < last {
          ModulesNext(rs, k, last);
          NextRegion(rs, k);
        }
        if IsModule(memoryInfo) {
          mModules[mNumModules] := memoryInfo;
          mNumModules := mNumModules + 1;
        }
        var next := End(memoryInfo);
        if memoryInfo.kind == Reserved {
          break;
        }
        if next < curAddr {
          break;
        }
        curAddr := next;
        k := k + 1;
      }
    }
  }
}
