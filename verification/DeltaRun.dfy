/**
 * The delta protocol over whole runs. The packer's hash table outlives clients; a client starts with
 * nothing and sees the frames from the one it joined at.
 */
module DeltaRun {
  import opened Bytes
  import opened Wrappers
  import opened DrawLists
  import opened Wire
  import opened Codec

  /** A packed frame, and the client's display size when it is unpacked. */
  datatype Sent = Sent(frame: Frame, size: Size)

  type Run = seq<Sent>

  /** The packer's table before frame `t`. */
  function TableBefore(run: Run, t: nat): HashTable
    requires t <= |run|
  {
    if t == 0 then FreshTable() else NextTable(TableBefore(run, t - 1), run[t - 1].frame)
  }

  /** The payload of frame `t`. */
  function Payload(run: Run, t: nat): seq<byte>
    requires t < |run|
  {
    PackFrame(TableBefore(run, t), run[t].frame)
  }

  /** A later frame changes no earlier table. */
  lemma {:induction false} TableBeforePrefix(run: Run, more: Run, t: nat)
    requires t <= |run| && run <= more
    ensures TableBefore(more, t) == TableBefore(run, t)
  {
    hide NextTable;
    if t > 0 {
      TableBeforePrefix(run, more, t - 1);
    }
  }

  lemma PayloadPrefix(run: Run, more: Run, t: nat)
    requires t < |run| && run <= more
    ensures Payload(more, t) == Payload(run, t)
  {
    hide PackFrame;
    TableBeforePrefix(run, more, t);
  }

  /** The payloads of the run from frame `join` on. */
  function PayloadsFrom(run: Run, join: nat): (s: seq<seq<byte>>)
    requires join <= |run|
    ensures |s| == |run| - join
  {
    seq(|run| - join, k requires 0 <= k < |run| - join => Payload(run, join + k))
  }

  lemma PayloadsFromAt(run: Run, join: nat, k: nat)
    requires join + k < |run|
    ensures PayloadsFrom(run, join)[k] == Payload(run, join + k)
  {
    hide Payload;
  }

  lemma PayloadsFromSnoc(run: Run, more: Run, join: nat)
    requires join <= |run| && run <= more && |more| == |run| + 1
    ensures PayloadsFrom(more, join) == PayloadsFrom(run, join) + [Payload(more, |run|)]
  {
    hide PayloadsFrom;
    hide Payload;
    var before, after := PayloadsFrom(run, join), PayloadsFrom(more, join);
    forall k | 0 <= k < |before| ensures after[k] == before[k] {
      PayloadPrefix(run, more, join + k);
      PayloadsFromAt(run, join, k);
      PayloadsFromAt(more, join, k);
    }
    PayloadsFromAt(more, join, |before|);
    SnocByItems(before, after);
  }

  lemma SnocByItems<T>(before: seq<T>, after: seq<T>)
    requires |after| == |before| + 1 && forall k :: 0 <= k < |before| ==> after[k] == before[k]
    ensures after == before + [after[|before|]]
  {
  }

  /** What a client that joined before frame `join` shows after the frames before `n`. */
  function Client(run: Run, join: nat, n: nat): (shown: seq<ShownList>)
    requires join <= n <= |run|
    ensures n > join ==> |shown| == |run[n - 1].frame.lists|
  {
    if n == join then []
    else Resolve(Client(run, join, n - 1), Delta(TableBefore(run, n - 1), run[n - 1].frame), run[n - 1].size)
  }

  /** The client as the bytes drive it: unpacking one payload after the other. */
  lemma ClientUnpacks(run: Run, join: nat, n: nat)
    requires join <= n < |run|
    ensures Unpack(Client(run, join, n), Payload(run, n), run[n].size)
         == Some((run[n].frame.cursor, Client(run, join, n + 1)))
  {
    hide PackFrame;
    hide Delta;
    hide Resolve;
    hide Unpack;
    UnpackUndoesPack(TableBefore(run, n), run[n].frame, Client(run, join, n), run[n].size);
  }

  // ----- the history of one slot, told without tables or client state -----

  predicate Reaches(run: Run, t: nat, i: nat)
    requires t < |run|
  {
    i < |run[t].frame.lists|
  }

  function ListOf(run: Run, t: nat, i: nat): DrawList
    requires t < |run| && Reaches(run, t, i)
  {
    run[t].frame.lists[i]
  }

  predicate Empty(l: DrawList) {
    l.cmds == [] && l.verts == [] && l.idx == []
  }

  /** The hash of the last list in slot `i` before frame `t`, or 0. */
  function PrevHash(run: Run, t: nat, i: nat): u32
    requires t <= |run|
  {
    if t == 0 then 0
    else if Reaches(run, t - 1, i) then HashImDrawList(ListOf(run, t - 1, i))
    else PrevHash(run, t - 1, i)
  }

  /** Frame `t` carries a nonempty list in slot `i` whose hash is not the previous one. */
  predicate Refreshes(run: Run, t: nat, i: nat)
    requires t < |run|
  {
    hide HashImDrawList;
    Reaches(run, t, i) && !Empty(ListOf(run, t, i)) && HashImDrawList(ListOf(run, t, i)) != PrevHash(run, t, i)
  }

  /** The last frame since `join` that refreshed the slot, if every later frame reached it. */
  function LastRefresh(run: Run, join: nat, n: nat, i: nat): Option<nat>
    requires join <= n <= |run|
  {
    if n == join || !Reaches(run, n - 1, i) then None
    else if Refreshes(run, n - 1, i) then Some(n - 1)
    else LastRefresh(run, join, n - 1, i)
  }

  lemma {:induction false} RefreshInRange(run: Run, join: nat, n: nat, i: nat)
    requires join <= n <= |run|
    ensures var r := LastRefresh(run, join, n, i);
      r.Some? ==> join <= r.value < n && Reaches(run, r.value, i)
    decreases n
  {
    hide Refreshes;
    if n > join {
      RefreshInRange(run, join, n - 1, i);
    }
  }

  /** The slot is not stale: the client has been given something for it and has kept it. */
  predicate Fresh(run: Run, join: nat, n: nat, i: nat)
    requires join <= n <= |run|
  {
    LastRefresh(run, join, n, i).Some?
  }

  /** Freshness spelled out over the run. */
  lemma {:induction false} FreshMeans(run: Run, join: nat, n: nat, i: nat)
    requires join <= n <= |run|
    ensures Fresh(run, join, n, i) <==>
      exists t :: join <= t < n && Refreshes(run, t, i) && forall s :: t <= s < n ==> Reaches(run, s, i)
    decreases n
  {
    hide HashImDrawList;
    hide PrevHash;
    if n > join && Reaches(run, n - 1, i) && !Refreshes(run, n - 1, i) {
      FreshMeans(run, join, n - 1, i);
    }
  }

  lemma {:induction false} LastRefreshIsLast(run: Run, join: nat, n: nat, i: nat, t: nat)
    requires join <= n <= |run| && LastRefresh(run, join, n, i) == Some(t)
    ensures join <= t < n && Refreshes(run, t, i)
    ensures forall s :: t <= s < n ==> Reaches(run, s, i)
    ensures forall s :: t < s < n ==> !Refreshes(run, s, i)
    decreases n
  {
    hide HashImDrawList;
    hide PrevHash;
    if !Refreshes(run, n - 1, i) {
      LastRefreshIsLast(run, join, n - 1, i, t);
    }
  }

  lemma {:induction false} TableHoldsPrevHash(run: Run, t: nat, i: nat)
    requires t <= |run| && i < 128
    ensures TableBefore(run, t)[i] == PrevHash(run, t, i)
  {
    hide HashImDrawList;
    if t > 0 {
      TableHoldsPrevHash(run, t - 1, i);
    }
  }

  /** The quantised form, on the client's display, of the list that refreshed the slot at `t`. */
  function ShownAt(run: Run, t: nat, i: nat): ShownList
    requires t < |run| && Reaches(run, t, i)
  {
    ShowList(PackList(ListOf(run, t, i), run[t].frame.display), run[t].size)
  }

  function Expected(run: Run, join: nat, n: nat, i: nat): ShownList
    requires join <= n <= |run|
  {
    RefreshInRange(run, join, n, i);
    match LastRefresh(run, join, n, i)
    case None => BLANK
    case Some(t) => ShownAt(run, t, i)
  }

  lemma EntryUnchangedIff(run: Run, t: nat, i: nat)
    requires t < |run| && Reaches(run, t, i)
    ensures var e := Entry(TableBefore(run, t), run[t].frame, i);
      if Refreshes(run, t, i) then e == PackList(ListOf(run, t, i), run[t].frame.display) && e != UNCHANGED
      else e == UNCHANGED
  {
    hide HashImDrawList;
    hide PrevHash;
    hide TableBefore;
    TableHoldsPrevHash(run, t, i);
  }

  /**
   * What every client shows, after every frame of every run, slot by slot: the list that last refreshed
   * the slot, quantised, and nothing if the slot is stale. No assumption is made on hashes, list counts,
   * empty lists, display sizes, or when the client joined.
   */
  lemma {:induction false} ClientShows(run: Run, join: nat, n: nat, i: nat)
    requires join < n <= |run| && Reaches(run, n - 1, i)
    ensures Client(run, join, n)[i] == Expected(run, join, n, i)
    decreases n
  {
    hide HashImDrawList;
    hide PrevHash;
    hide TableBefore;
    hide PackList;
    hide Empty;
    hide Entry;
    var prev := Client(run, join, n - 1);
    var e := Entry(TableBefore(run, n - 1), run[n - 1].frame, i);
    EntryUnchangedIff(run, n - 1, i);
    assert Client(run, join, n)[i] == if e == UNCHANGED && i < |prev| then prev[i] else ShowList(e, run[n - 1].size);
    if n - 1 > join && Reaches(run, n - 2, i) {
      ClientShows(run, join, n - 1, i);
    } else {
      assert |prev| <= i && LastRefresh(run, join, n - 1, i) == None;
    }
  }

  // ----- when the client shows the current frame -----

  ghost predicate Nonempty(run: Run) {
    forall t, i :: 0 <= t < |run| && 0 <= i < |run[t].frame.lists| ==> !Empty(run[t].frame.lists[i])
  }

  /** A list that hashes like the one just before it in its slot is that list. */
  ghost predicate NoSlotCollision(run: Run) {
    forall t: nat, i: nat :: 0 < t < |run| && Reaches(run, t - 1, i) && Reaches(run, t, i)
      && HashImDrawList(ListOf(run, t - 1, i)) == HashImDrawList(ListOf(run, t, i))
      ==> ListOf(run, t - 1, i) == ListOf(run, t, i)
  }

  ghost predicate OneDisplay(run: Run, d: DisplaySize, size: Size) {
    forall s <- run :: s.frame.display == d && s.size == size
  }

  /** The slot shows the list of the latest frame, quantised. */
  predicate ShowsCurrent(run: Run, join: nat, n: nat, i: nat)
    requires join < n <= |run| && Reaches(run, n - 1, i)
  {
    var shown := Client(run, join, n);
    i < |shown| && shown[i] == ShownAt(run, n - 1, i)
  }

  /** Between refreshes the slot's list does not change, as long as it has not become empty. */
  lemma {:induction false} KeptSinceRefresh(run: Run, t: nat, s: nat, i: nat)
    requires NoSlotCollision(run) && t <= s < |run|
    requires forall u :: t <= u <= s ==> Reaches(run, u, i)
    requires forall u :: t < u <= s ==> !Refreshes(run, u, i)
    requires !Empty(ListOf(run, s, i))
    ensures ListOf(run, s, i) == ListOf(run, t, i)
    decreases s
  {
    hide HashImDrawList;
    hide Empty;
    if s > t {
      assert Reaches(run, s, i) && Reaches(run, s - 1, i) && !Refreshes(run, s, i);
      assert PrevHash(run, s, i) == HashImDrawList(ListOf(run, s - 1, i));
      assert ListOf(run, s, i) == ListOf(run, s - 1, i);
      KeptSinceRefresh(run, t, s - 1, i);
    }
  }

  lemma BlankIffEmpty(l: DrawList, d: DisplaySize, size: Size)
    ensures ShowList(PackList(l, d), size) == BLANK <==> Empty(l)
  {
    hide PackCmds;
    hide PackVerts;
    hide ShowCmds;
    hide ShowVerts;
  }

  lemma ShownBlankIffEmpty(run: Run, t: nat, i: nat)
    requires t < |run| && Reaches(run, t, i)
    ensures ShownAt(run, t, i) == BLANK <==> Empty(ListOf(run, t, i))
  {
    hide PackList;
    hide ShowList;
    hide Empty;
    BlankIffEmpty(ListOf(run, t, i), run[t].frame.display, run[t].size);
  }

  /**
   * With one shared display size and no same-slot hash collision, and whether or not lists are empty: a
   * slot is right exactly when it has been refreshed and its list is not empty now, or it has not and the
   * list is empty. A stale slot is blank.
   */
  lemma ShowsCurrentIff(run: Run, join: nat, n: nat, i: nat, d: DisplaySize, size: Size)
    requires NoSlotCollision(run) && OneDisplay(run, d, size)
    requires join < n <= |run| && Reaches(run, n - 1, i)
    ensures ShowsCurrent(run, join, n, i) <==> (Fresh(run, join, n, i) <==> !Empty(ListOf(run, n - 1, i)))
    ensures !Fresh(run, join, n, i) ==> Client(run, join, n)[i] == BLANK
  {
    hide HashImDrawList;
    hide PrevHash;
    hide Client;
    hide LastRefresh;
    hide PackList;
    hide ShowList;
    hide Empty;
    ClientShows(run, join, n, i);
    ShownBlankIffEmpty(run, n - 1, i);
    match LastRefresh(run, join, n, i) {
      case None =>
      case Some(t) =>
        LastRefreshIsLast(run, join, n, i, t);
        ShownBlankIffEmpty(run, t, i);
        if !Empty(ListOf(run, n - 1, i)) {
          KeptSinceRefresh(run, t, n - 1, i);
        }
    }
  }

  /** If no list is ever empty, a slot shows the current list exactly when it is not stale. */
  lemma ShowsCurrentIffFresh(run: Run, join: nat, n: nat, i: nat, d: DisplaySize, size: Size)
    requires Nonempty(run) && NoSlotCollision(run) && OneDisplay(run, d, size)
    requires join < n <= |run| && Reaches(run, n - 1, i)
    ensures ShowsCurrent(run, join, n, i) <==> Fresh(run, join, n, i)
  {
    hide NoSlotCollision;
    hide OneDisplay;
    hide Empty;
    hide Fresh;
    hide ShowsCurrent;
    ShowsCurrentIff(run, join, n, i, d, size);
    assert !Empty(run[n - 1].frame.lists[i]);
  }

  /** Where the client's display is the server's, a fresh slot shows, part by part, the current list itself. */
  lemma FreshShowsClose(run: Run, join: nat, n: nat, i: nat, d: DisplaySize)
    requires NoSlotCollision(run) && OneDisplay(run, d, SizeOf(d)) && Positive(d)
    requires join < n <= |run| && Reaches(run, n - 1, i)
    requires Fresh(run, join, n, i) && !Empty(ListOf(run, n - 1, i))
    ensures ListClose(Client(run, join, n)[i], ListOf(run, n - 1, i), d)
  {
    hide NoSlotCollision;
    hide Positive;
    hide Client;
    hide Fresh;
    hide Empty;
    hide ListClose;
    hide PackList;
    hide ShowList;
    ShowsCurrentIff(run, join, n, i, d, SizeOf(d));
    assert run[n - 1].frame.display == d && run[n - 1].size == SizeOf(d);
    ListIsClose(ListOf(run, n - 1, i), d);
  }

  ghost predicate NeverShrinks(run: Run) {
    forall t :: 0 < t < |run| ==> |run[t - 1].frame.lists| <= |run[t].frame.lists|
  }

  ghost predicate NoZeroHash(run: Run) {
    forall t, i :: 0 <= t < |run| && 0 <= i < |run[t].frame.lists| ==> HashImDrawList(run[t].frame.lists[i]) != 0
  }

  lemma {:induction false} FreshFromTheStart(run: Run, n: nat, i: nat)
    requires Nonempty(run) && NeverShrinks(run) && NoZeroHash(run)
    requires 0 < n <= |run| && Reaches(run, n - 1, i)
    ensures Fresh(run, 0, n, i)
  {
    hide HashImDrawList;
    hide Empty;
    assert !Empty(run[n - 1].frame.lists[i]);
    if n > 1 && Reaches(run, n - 2, i) {
      FreshFromTheStart(run, n - 1, i);
    } else {
      NeverReachedBefore(run, n - 1, i);
      assert Refreshes(run, n - 1, i);
    }
  }

  lemma {:induction false} NeverReachedBefore(run: Run, t: nat, i: nat)
    requires NeverShrinks(run) && t < |run|
    requires t > 0 ==> !Reaches(run, t - 1, i)
    ensures PrevHash(run, t, i) == 0
  {
    hide HashImDrawList;
    if t > 0 {
      NeverReachedBefore(run, t - 1, i);
    }
  }

  /**
   * From the first frame on, if the list count never shrinks and no list hashes to 0, the client always
   * shows the quantised server frame.
   */
  lemma AlwaysShowsCurrent(run: Run, n: nat, d: DisplaySize, size: Size)
    requires Nonempty(run) && NoSlotCollision(run) && OneDisplay(run, d, size)
    requires NeverShrinks(run) && NoZeroHash(run)
    requires 0 < n <= |run|
    ensures |Client(run, 0, n)| == |run[n - 1].frame.lists|
    ensures forall i :: 0 <= i < |run[n - 1].frame.lists| ==> ShowsCurrent(run, 0, n, i)
  {
    hide HashImDrawList;
    hide Client;
    hide ShowsCurrent;
    forall i | 0 <= i < |run[n - 1].frame.lists| ensures ShowsCurrent(run, 0, n, i) {
      FreshFromTheStart(run, n, i);
      ShowsCurrentIffFresh(run, 0, n, i, d, size);
    }
  }

  // ----- where the code falls short of that -----

  /**
   * A client that joins before a frame repeating the previous lists is shown nothing at all, however
   * long the server has been drawing: joining does not reset the packer's hashes.
   */
  lemma LateJoinerSeesBlank(run: Run, n: nat, i: nat)
    requires 1 < n <= |run| && run[n - 1].frame.lists == run[n - 2].frame.lists
    requires Reaches(run, n - 1, i)
    ensures Client(run, n - 1, n)[i] == BLANK
    ensures ShowsCurrent(run, n - 1, n, i) <==> Empty(ListOf(run, n - 1, i))
  {
    hide HashImDrawList;
    hide Client;
    hide Empty;
    hide ShownAt;
    ClientShows(run, n - 1, n, i);
    ShownBlankIffEmpty(run, n - 1, i);
    assert PrevHash(run, n - 1, i) == HashImDrawList(ListOf(run, n - 2, i));
    assert LastRefresh(run, n - 1, n, i) == None;
  }

  /**
   * A list that goes away for one frame and comes back unchanged is blank for every client, even one
   * that joined at the start: the hash survives the gap, the client's copy does not.
   */
  lemma RegrownSlotIsBlank(run: Run, join: nat, n: nat, i: nat)
    requires join + 2 < n <= |run|
    requires Reaches(run, n - 3, i) && !Reaches(run, n - 2, i) && Reaches(run, n - 1, i)
    requires ListOf(run, n - 1, i) == ListOf(run, n - 3, i)
    ensures Client(run, join, n)[i] == BLANK
    ensures ShowsCurrent(run, join, n, i) <==> Empty(ListOf(run, n - 1, i))
  {
    hide HashImDrawList;
    hide Client;
    hide Empty;
    hide ShownAt;
    ClientShows(run, join, n, i);
    ShownBlankIffEmpty(run, n - 1, i);
    assert PrevHash(run, n - 1, i) == PrevHash(run, n - 2, i) == HashImDrawList(ListOf(run, n - 3, i));
    assert LastRefresh(run, join, n - 1, i) == None;
  }

  /**
   * A list that becomes empty stays on the client's screen: a full send of it is the same twelve bytes
   * as "unchanged". So the empty list is shown right exactly when the slot was stale before it.
   */
  lemma EmptiedListLingers(run: Run, join: nat, n: nat, i: nat)
    requires join + 1 < n <= |run|
    requires Reaches(run, n - 2, i) && Reaches(run, n - 1, i) && Empty(ListOf(run, n - 1, i))
    ensures Client(run, join, n)[i] == Client(run, join, n - 1)[i]
    ensures ShowsCurrent(run, join, n, i) <==> !Fresh(run, join, n - 1, i)
  {
    hide HashImDrawList;
    hide Client;
    hide PrevHash;
    hide Empty;
    hide ShownAt;
    ClientShows(run, join, n, i);
    ClientShows(run, join, n - 1, i);
    ShownBlankIffEmpty(run, n - 1, i);
    match LastRefresh(run, join, n - 1, i) {
      case None =>
      case Some(t) =>
        LastRefreshIsLast(run, join, n - 1, i, t);
        ShownBlankIffEmpty(run, t, i);
    }
  }

  /** A list that changed inside one block since the previous frame is never marked unchanged. */
  lemma OneBlockChangeRefreshes(run: Run, t: nat, i: nat)
    requires 0 < t < |run| && Reaches(run, t - 1, i) && Reaches(run, t, i) && !Empty(ListOf(run, t, i))
    requires OneBlockApart(ListOf(run, t - 1, i), ListOf(run, t, i)) && ListOf(run, t - 1, i) != ListOf(run, t, i)
    ensures Refreshes(run, t, i)
    ensures Entry(TableBefore(run, t), run[t].frame, i) == PackList(ListOf(run, t, i), run[t].frame.display)
  {
    hide HashImDrawList;
    hide OneBlockApart;
    hide Entry;
    ListHashSeesOneBlock(ListOf(run, t - 1, i), ListOf(run, t, i));
    assert PrevHash(run, t, i) == HashImDrawList(ListOf(run, t - 1, i));
    EntryUnchangedIff(run, t, i);
  }
}
