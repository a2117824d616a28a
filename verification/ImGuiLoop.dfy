/** The send-or-skip decision of `render`, and what it means for a client over whole runs of calls. */
module ImGuiLoop {
  import opened Bytes
  import opened Wire
  import opened Codec
  import opened DrawDataPack
  import opened DeltaRun
  import L = DrawLists

  method HashDrawData(data: ImDrawData) returns (hash: u32)
    ensures hash == L.CalcDrawDataHash(Values(data.CmdLists))
  {
    hide L.HashImDrawList;
    ghost var lists := Values(data.CmdLists);
    hash := 0;
    var i := 0;
    assert lists[..0] == [];
    while i < |data.CmdLists|
      invariant 0 <= i <= |data.CmdLists|
      invariant hash == L.CalcDrawDataHash(lists[..i])
    {
      var h := HashList(data.CmdLists[i]);
      hash := L.AddWords(hash, h);
      i := i + 1;
      assert lists[..i][..i - 1] == lists[..i - 1];
    }
    assert lists[..i] == lists;
  }

  class Renderer {
    var sRerender: bool
    var lastDrawDataHash: u32
    const sDrawDataBuffer: array<byte>
    const packer: DrawDataPacker

    constructor ()
      ensures Valid() && fresh(sDrawDataBuffer) && fresh(packer) && fresh(packer.sPrevDrawListHashes)
      ensures sRerender && lastDrawDataHash == 0 && packer.Table() == FreshTable()
    {
      sRerender := true;
      lastDrawDataHash := 0;
      sDrawDataBuffer := new byte[0x8_0000](_ => 0);
      packer := new DrawDataPacker();
    }

    predicate Valid() {
      && packer.Valid()
      && sDrawDataBuffer.Length == 0x8_0000
      && sDrawDataBuffer as object != packer.sPrevDrawListHashes as object
    }

    method QueueRerender()
      modifies this
      ensures sRerender && lastDrawDataHash == old(lastDrawDataHash)
    {
      sRerender := true;
    }

    /**
     * Packs the frame into the shared buffer if a redraw was queued or the frame hash moved. The buffer
     * size is only asserted after packing, so room for the frame is a precondition.
     */
    method Render(data: ImDrawData, mouseCursor: i32, displaySize: DisplaySize) returns (sent: bool, written: nat)
      requires Valid()
      requires forall i, j :: 0 <= i < j < |data.CmdLists| ==> data.CmdLists[i] != data.CmdLists[j]
      requires sRerender || lastDrawDataHash != L.CalcDrawDataHash(Values(data.CmdLists))
        ==> FrameSize(Delta(packer.Table(), FrameOf(data, mouseCursor, displaySize))) <= 0x8_0000
      modifies this, packer, packer.sPrevDrawListHashes, sDrawDataBuffer, data.CmdLists
      ensures Valid()
      ensures sent == (old(sRerender) || old(lastDrawDataHash) != old(L.CalcDrawDataHash(Values(data.CmdLists))))
      ensures lastDrawDataHash == old(L.CalcDrawDataHash(Values(data.CmdLists)))
      ensures !sRerender
      ensures sent ==>
        && written <= 0x8_0000
        && sDrawDataBuffer[..written] == PackFrame(old(packer.Table()), old(FrameOf(data, mouseCursor, displaySize)))
        && packer.Table() == NextTable(old(packer.Table()), old(FrameOf(data, mouseCursor, displaySize)))
      ensures !sent ==> packer.Table() == old(packer.Table()) && Values(data.CmdLists) == old(Values(data.CmdLists))
    {
      hide L.CalcDrawDataHash;
      hide Delta;
      hide PackFrame;
      hide NextTable;
      hide FrameSize;
      hide Splice;
      hide Packed;
      ghost var buffer, table := sDrawDataBuffer[..], packer.Table();
      ghost var frame := FrameOf(data, mouseCursor, displaySize);
      var drawDataHash := HashDrawData(data);
      sent, written := false, 0;
      if sRerender || lastDrawDataHash != drawDataHash {
        sRerender := false;
        sent := true;
        written := packer.PackImDrawData(sDrawDataBuffer, data, mouseCursor, displaySize);
        SpliceFront(buffer, PackFrame(table, frame));
      }
      lastDrawDataHash := drawDataHash;
    }
  }

  // ----- runs of calls -----

  /** One call of `render`: the frame, whether a redraw was queued since the last call, the client's display. */
  datatype Call = Call(frame: Frame, queued: bool, size: Size)

  /** The remembered frame hash before call `t`; every call leaves its own there. */
  function LastHash(calls: seq<Call>, t: nat): u32
    requires t <= |calls|
  {
    if t == 0 then 0 else L.CalcDrawDataHash(calls[t - 1].frame.lists)
  }

  /** A redraw is pending at the first call, and whenever one was queued. */
  predicate Sends(calls: seq<Call>, t: nat)
    requires t < |calls|
  {
    t == 0 || calls[t].queued || LastHash(calls, t) != L.CalcDrawDataHash(calls[t].frame.lists)
  }

  /** The frames packed by the first `n` calls. */
  function SentRun(calls: seq<Call>, n: nat): (run: Run)
    requires n <= |calls|
    ensures n > 0 ==> run != []
  {
    if n == 0 then []
    else if Sends(calls, n - 1) then SentRun(calls, n - 1) + [Sent(calls[n - 1].frame, calls[n - 1].size)]
    else SentRun(calls, n - 1)
  }

  lemma {:induction false} SentRunGrows(calls: seq<Call>, m: nat, n: nat)
    requires m <= n <= |calls|
    ensures SentRun(calls, m) <= SentRun(calls, n)
    decreases n
  {
    hide Sends;
    if m < n {
      SentRunGrows(calls, m, n - 1);
    }
  }

  /** The first frame for a client that connects before call `from`, counting packed frames. */
  function JoinAt(calls: seq<Call>, from: nat): (join: nat)
    requires from <= |calls|
    ensures join <= |SentRun(calls, |calls|)|
  {
    SentRunGrows(calls, from, |calls|);
    |SentRun(calls, from)|
  }

  /** The packer's table before call `t`. */
  function TableAt(calls: seq<Call>, t: nat): HashTable
    requires t <= |calls|
  {
    TableBefore(SentRun(calls, t), |SentRun(calls, t)|)
  }

  /** The state `render` keeps is the one these calls leave. */
  ghost predicate RanAs(renderer: Renderer, calls: seq<Call>)
    requires renderer.Valid()
    reads renderer, renderer.packer.sPrevDrawListHashes
  {
    && renderer.packer.Table() == TableAt(calls, |calls|)
    && renderer.lastDrawDataHash == LastHash(calls, |calls|)
    && (calls == [] ==> renderer.sRerender)
  }

  lemma {:induction false} SentRunSnoc(calls: seq<Call>, c: Call, n: nat)
    requires n <= |calls|
    ensures SentRun(calls + [c], n) == SentRun(calls, n)
  {
    hide L.CalcDrawDataHash;
    if n > 0 {
      SentRunSnoc(calls, c, n - 1);
    }
  }

  /** One more call, as `render` decides and as its table moves. */
  lemma CallSnoc(calls: seq<Call>, c: Call)
    ensures var more := calls + [c];
      && Sends(more, |calls|) == (calls == [] || c.queued || LastHash(calls, |calls|) != L.CalcDrawDataHash(c.frame.lists))
      && LastHash(more, |more|) == L.CalcDrawDataHash(c.frame.lists)
      && TableAt(more, |calls|) == TableAt(calls, |calls|)
      && SentRun(more, |more|) ==
         (if Sends(more, |calls|) then SentRun(calls, |calls|) + [Sent(c.frame, c.size)] else SentRun(calls, |calls|))
      && TableAt(more, |more|) ==
         (if Sends(more, |calls|) then NextTable(TableAt(calls, |calls|), c.frame) else TableAt(calls, |calls|))
  {
    hide L.CalcDrawDataHash;
    hide NextTable;
    SentRunSnoc(calls, c, |calls|);
    var run := SentRun(calls, |calls|);
    TableBeforePrefix(run, run + [Sent(c.frame, c.size)], |run|);
  }

  function LastSent(calls: seq<Call>, n: nat): Frame
    requires 0 < n <= |calls|
  {
    var run := SentRun(calls, n);
    run[|run| - 1].frame
  }

  /** The frame last packed always hashes like the frame last drawn. */
  lemma {:induction false} LastSentHashesAlike(calls: seq<Call>, n: nat)
    requires 0 < n <= |calls|
    ensures L.CalcDrawDataHash(LastSent(calls, n).lists) == L.CalcDrawDataHash(calls[n - 1].frame.lists)
  {
    hide L.CalcDrawDataHash;
    if !Sends(calls, n - 1) {
      LastSentHashesAlike(calls, n - 1);
    }
  }

  /** A frame that hashes like the one drawn just before it draws the same lists. */
  ghost predicate NoFrameCollision(calls: seq<Call>) {
    forall t :: 0 < t < |calls|
      && L.CalcDrawDataHash(calls[t - 1].frame.lists) == L.CalcDrawDataHash(calls[t].frame.lists)
      ==> calls[t - 1].frame.lists == calls[t].frame.lists
  }

  lemma {:induction false} LastSentIsCurrent(calls: seq<Call>, n: nat)
    requires 0 < n <= |calls| && NoFrameCollision(calls)
    ensures LastSent(calls, n).lists == calls[n - 1].frame.lists
  {
    hide L.CalcDrawDataHash;
    if !Sends(calls, n - 1) {
      LastSentIsCurrent(calls, n - 1);
      assert L.CalcDrawDataHash(calls[n - 2].frame.lists) == L.CalcDrawDataHash(calls[n - 1].frame.lists);
    }
  }

  ghost predicate SteadyCalls(calls: seq<Call>, d: DisplaySize, size: Size) {
    forall t :: 0 <= t < |calls| ==> calls[t].frame.display == d && calls[t].size == size
  }

  lemma {:induction false} SentRunKeeps(calls: seq<Call>, n: nat, d: DisplaySize, size: Size)
    requires n <= |calls| && SteadyCalls(calls, d, size)
    ensures OneDisplay(SentRun(calls, n), d, size)
  {
    hide L.CalcDrawDataHash;
    if n > 0 {
      SentRunKeeps(calls, n - 1, d, size);
    }
  }

  lemma LatestIsSteady(calls: seq<Call>, n: nat, d: DisplaySize, size: Size)
    requires 0 < n <= |calls| && SteadyCalls(calls, d, size)
    ensures calls[n - 1].frame.display == d && calls[n - 1].size == size
  {
  }

  lemma NothingJustJoined(run: Run, i: nat)
    ensures Client(run, |run|, |run|) == [] && !Fresh(run, |run|, |run|, i)
  {
  }

  /** What a client shows in slot `i` for the frame drawn last, sent or not. */
  predicate ShowsLatest(calls: seq<Call>, join: nat, n: nat, i: nat)
    requires 0 < n <= |calls| && join <= |SentRun(calls, n)| && i < |calls[n - 1].frame.lists|
  {
    var shown := Client(SentRun(calls, n), join, |SentRun(calls, n)|);
    && i < |shown|
    && shown[i] == ShowList(PackList(calls[n - 1].frame.lists[i], calls[n - 1].frame.display), calls[n - 1].size)
  }

  /** In slot `i`, the lists of the frame packed last and of the frame drawn last are not empty. */
  predicate NotEmptied(calls: seq<Call>, n: nat, i: nat)
    requires 0 < n <= |calls| && i < |calls[n - 1].frame.lists|
  {
    && !Empty(calls[n - 1].frame.lists[i])
    && (i < |LastSent(calls, n).lists| ==> !Empty(LastSent(calls, n).lists[i]))
  }

  /** The last frame packed has slot `i`, and its list there looks like the one drawn last. */
  predicate LastSentLooksLike(calls: seq<Call>, n: nat, i: nat, d: DisplaySize, size: Size)
    requires 0 < n <= |calls| && i < |calls[n - 1].frame.lists|
  {
    && i < |LastSent(calls, n).lists|
    && ShowList(PackList(LastSent(calls, n).lists[i], d), size)
       == ShowList(PackList(calls[n - 1].frame.lists[i], d), size)
  }

  /**
   * What every client shows after every call of `render`, packed or skipped, with no assumption on hashes or
   * empty lists: a slot shows the latest frame exactly when the last frame packed has the slot and the list
   * that last refreshed it looks like the latest one, or, if it is stale, when the latest list is empty.
   * `join` counts packed frames; a client that joined after the last of them has nothing yet.
   */
  lemma GatingShows(calls: seq<Call>, join: nat, n: nat, i: nat, d: DisplaySize, size: Size)
    requires 0 < n <= |calls| && join <= |SentRun(calls, n)| && i < |calls[n - 1].frame.lists|
    requires SteadyCalls(calls, d, size)
    ensures var run := SentRun(calls, n);
      ShowsLatest(calls, join, n, i) <==> join < |run| && i < |LastSent(calls, n).lists| && KeptLooksLike(run, join, i,
        calls[n - 1].frame.lists[i], d, size)
  {
    hide L.HashImDrawList;
    hide L.CalcDrawDataHash;
    hide PackList;
    hide ShowList;
    hide Empty;
    hide SentRun;
    hide Refreshes;
    var run := SentRun(calls, n);
    SentRunKeeps(calls, n, d, size);
    LatestIsSteady(calls, n, d, size);
    if join < |run| && i < |LastSent(calls, n).lists| {
      hide Client;
      ClientShows(run, join, |run|, i);
      RefreshInRange(run, join, |run|, i);
      BlankIffEmpty(calls[n - 1].frame.lists[i], d, size);
    } else if join == |run| {
      NothingJustJoined(run, i);
    }
  }

  /** What the client keeps in slot `i` looks like `l`. */
  predicate KeptLooksLike(run: Run, join: nat, i: nat, l: L.DrawList, d: DisplaySize, size: Size)
    requires join <= |run|
  {
    RefreshInRange(run, join, |run|, i);
    match LastRefresh(run, join, |run|, i)
    case None => Empty(l)
    case Some(t) => ShowList(PackList(ListOf(run, t, i), d), size) == ShowList(PackList(l, d), size)
  }

  /**
   * With no collision within a slot, and nothing empty in it: a slot shows the latest frame exactly when it
   * is not stale and the last frame packed looks the same there. So a frame skipped because it only reorders
   * its lists leaves wrong exactly the slots whose list now looks different, until a frame is packed again.
   */
  lemma GatingShowsIff(calls: seq<Call>, join: nat, n: nat, i: nat, d: DisplaySize, size: Size)
    requires 0 < n <= |calls| && join <= |SentRun(calls, n)| && i < |calls[n - 1].frame.lists|
    requires SteadyCalls(calls, d, size) && NotEmptied(calls, n, i) && NoSlotCollision(SentRun(calls, n))
    ensures ShowsLatest(calls, join, n, i) <==>
      Fresh(SentRun(calls, n), join, |SentRun(calls, n)|, i) && LastSentLooksLike(calls, n, i, d, size)
  {
    hide L.HashImDrawList;
    hide L.CalcDrawDataHash;
    hide PackList;
    hide ShowList;
    hide Empty;
    hide NoSlotCollision;
    hide ShowsLatest;
    hide SentRun;
    hide Refreshes;
    hide LastRefresh;
    var run := SentRun(calls, n);
    GatingShows(calls, join, n, i, d, size);
    match LastRefresh(run, join, |run|, i) {
      case None =>
      case Some(t) =>
        LastRefreshIsLast(run, join, |run|, i, t);
        assert Reaches(run, |run| - 1, i);
        KeptSinceRefresh(run, t, |run| - 1, i);
    }
  }

  /**
   * With no collision of frame hashes, after every call: a slot shows the latest frame exactly when it is
   * not stale; a slot emptied in it exactly when it is stale.
   */
  lemma GatingKeepsCurrent(calls: seq<Call>, join: nat, n: nat, i: nat, d: DisplaySize, size: Size)
    requires 0 < n <= |calls| && join <= |SentRun(calls, n)| && i < |calls[n - 1].frame.lists|
    requires SteadyCalls(calls, d, size) && NoSlotCollision(SentRun(calls, n)) && NoFrameCollision(calls)
    ensures var current := Fresh(SentRun(calls, n), join, |SentRun(calls, n)|, i);
      ShowsLatest(calls, join, n, i) <==>
        if Empty(calls[n - 1].frame.lists[i]) then join < |SentRun(calls, n)| && !current else current
  {
    hide L.CalcDrawDataHash;
    hide L.HashImDrawList;
    hide PackList;
    hide ShowList;
    hide Empty;
    hide NoFrameCollision;
    hide NoSlotCollision;
    hide SentRun;
    hide Client;
    hide Fresh;
    var run := SentRun(calls, n);
    LastSentIsCurrent(calls, n);
    SentRunKeeps(calls, n, d, size);
    LatestIsSteady(calls, n, d, size);
    if join < |run| {
      ShowsCurrentIff(run, join, |run|, i, d, size);
      assert run[|run| - 1].frame.display == d && run[|run| - 1].size == size;
    } else {
      NothingJustJoined(run, i);
    }
  }

  /**
   * The frame hash is a sum over the lists, so a frame that only reorders them (windows changing depth)
   * is skipped, whatever the lists are, unless a redraw is queued.
   */
  lemma ReorderedFrameIsSkipped(calls: seq<Call>, n: nat)
    requires 1 < n <= |calls| && !calls[n - 1].queued
    requires multiset(calls[n - 1].frame.lists) == multiset(calls[n - 2].frame.lists)
    ensures SentRun(calls, n) == SentRun(calls, n - 1)
  {
    hide L.CalcDrawDataHash;
    L.FrameHashIgnoresOrder(calls[n - 1].frame.lists, calls[n - 2].frame.lists);
  }

  /** So after a packed frame that is then reordered, no client shows a slot whose list now looks different. */
  lemma ReorderedSlotIsWrong(calls: seq<Call>, join: nat, n: nat, i: nat, d: DisplaySize, size: Size)
    requires 1 < n <= |calls| && join <= |SentRun(calls, n)| && i < |calls[n - 1].frame.lists|
    requires Sends(calls, n - 2) && !calls[n - 1].queued
    requires multiset(calls[n - 1].frame.lists) == multiset(calls[n - 2].frame.lists)
    requires SteadyCalls(calls, d, size) && NotEmptied(calls, n, i) && NoSlotCollision(SentRun(calls, n))
    requires i < |calls[n - 2].frame.lists|
      && ShowList(PackList(calls[n - 2].frame.lists[i], d), size) != ShowList(PackList(calls[n - 1].frame.lists[i], d), size)
    ensures !ShowsLatest(calls, join, n, i)
  {
    hide L.CalcDrawDataHash;
    hide PackList;
    hide ShowList;
    hide NotEmptied;
    hide NoSlotCollision;
    hide ShowsLatest;
    hide Fresh;
    ReorderedFrameIsSkipped(calls, n);
    GatingShowsIff(calls, join, n, i, d, size);
  }

  /** A frame in which one list changed inside one block is always sent. */
  lemma OneBlockChangeIsSent(calls: seq<Call>, n: nat, i: nat, l: L.DrawList)
    requires 1 < n <= |calls| && i < |calls[n - 2].frame.lists|
    requires calls[n - 1].frame.lists == calls[n - 2].frame.lists[i := l]
    requires L.OneBlockApart(calls[n - 2].frame.lists[i], l) && calls[n - 2].frame.lists[i] != l
    ensures Sends(calls, n - 1)
  {
    hide L.CalcDrawDataHash;
    L.FrameHashSeesOneBlock(calls[n - 2].frame.lists, i, l);
  }
}
