/** Reaping of dead components: the loop erases at its index and then still moves on. */
module Components {
  import opened Bits

  class Component {
    var mDelete: bool

    constructor ()
      ensures !mDelete
    {
      mDelete := false;
    }

    method QueueForDeletion()
      modifies this
      ensures mDelete
    {
      mDelete := true;
    }
  }

  /** A component and whether it is marked for deletion. */
  datatype Slot<T> = Slot(item: T, dead: bool)

  // ----- one pass, on values -----

  /** What one pass leaves: after each removal the next component is passed over unexamined. */
  function Survivors<T>(s: seq<Slot<T>>): seq<Slot<T>> {
    if s == [] then []
    else if !s[0].dead then [s[0]] + Survivors(s[1..])
    else if |s| == 1 then []
    else [s[1]] + Survivors(s[2..])
  }

  /** What one pass deletes, in order. */
  function Victims<T>(s: seq<Slot<T>>): seq<Slot<T>> {
    if s == [] then []
    else if !s[0].dead then Victims(s[1..])
    else if |s| == 1 then [s[0]]
    else [s[0]] + Victims(s[2..])
  }

  function Live<T>(s: seq<Slot<T>>): seq<Slot<T>> {
    if s == [] then [] else if s[0].dead then Live(s[1..]) else [s[0]] + Live(s[1..])
  }

  /** The numbers of dead components before, between and after the live ones. */
  function Runs<T>(s: seq<Slot<T>>): (r: seq<nat>)
    ensures |r| > 0
  {
    if s == [] then [0]
    else
      var r := Runs(s[1..]);
      if s[0].dead then [r[0] + 1] + r[1..] else [0] + r
  }

  function Halved(r: seq<nat>): (h: seq<nat>)
    ensures |h| == |r|
  {
    seq(|r|, i requires 0 <= i < |r| => r[i] / 2)
  }

  lemma HalvedCons(x: nat, r: seq<nat>)
    ensures Halved([x] + r) == [x / 2] + Halved(r)
  {
  }

  lemma HalvedHead(r: seq<nat>, x: nat)
    requires r != []
    ensures Halved([x] + r[1..]) == [x / 2] + Halved(r)[1..]
    ensures Halved(r)[0] == r[0] / 2
  {
  }

  /** Unfolding by two: a dead component and the one after it. */
  lemma RunsOfPair<T>(s: seq<Slot<T>>)
    requires |s| >= 2 && s[0].dead
    ensures var r := Runs(s[2..]);
      Runs(s) == if s[1].dead then [r[0] + 2] + r[1..] else [1] + r
  {
    hide Runs;
    RunsOfHead(s);
    RunsOfHead(s[1..]);
    DropTwice(s);
    GrowTwice(Runs(s[2..]), Runs(s[1..]), Runs(s), s[1].dead);
  }

  lemma DropTwice<T>(s: seq<T>)
    requires |s| >= 2
    ensures s[1..][0] == s[1] && s[1..][1..] == s[2..]
  {
  }

  lemma GrowTwice(r: seq<nat>, q: seq<nat>, p: seq<nat>, dead: bool)
    requires |r| > 0 && q == (if dead then [r[0] + 1] + r[1..] else [0] + r) && p == [q[0] + 1] + q[1..]
    ensures p == if dead then [r[0] + 2] + r[1..] else [1] + r
  {
    if dead {
      assert q[1..] == r[1..];
    } else {
      assert q[1..] == r;
    }
  }

  lemma LiveOfPair<T>(s: seq<Slot<T>>)
    requires |s| >= 2 && s[0].dead
    ensures Live(s) == if s[1].dead then Live(s[2..]) else [s[1]] + Live(s[2..])
  {
    hide Live;
    LiveOfHead(s);
    LiveOfHead(s[1..]);
    DropTwice(s);
  }

  lemma RunsOfHead<T>(s: seq<Slot<T>>)
    requires |s| > 0
    ensures var r := Runs(s[1..]); Runs(s) == if s[0].dead then [r[0] + 1] + r[1..] else [0] + r
  {
  }

  lemma LiveOfHead<T>(s: seq<Slot<T>>)
    requires |s| > 0
    ensures Live(s) == if s[0].dead then Live(s[1..]) else [s[0]] + Live(s[1..])
  {
  }

  lemma RunsOfCons<T>(x: Slot<T>, s: seq<Slot<T>>)
    ensures var r := Runs(s); Runs([x] + s) == if x.dead then [r[0] + 1] + r[1..] else [0] + r
    ensures Live([x] + s) == if x.dead then Live(s) else [x] + Live(s)
  {
    hide Runs;
    hide Live;
    RunsOfHead([x] + s);
    LiveOfHead([x] + s);
    assert ([x] + s)[1..] == s;
  }

  /** The pass, unfolded at a dead component with another one after it. */
  lemma PairUnfolds<T>(s: seq<Slot<T>>)
    requires |s| >= 2 && s[0].dead
    ensures Survivors(s) == [s[1]] + Survivors(s[2..])
    ensures Victims(s) == [s[0]] + Victims(s[2..])
  {
  }

  lemma PairHalves<T>(s: seq<Slot<T>>)
    requires |s| >= 2 && s[0].dead
    requires Live(Survivors(s[2..])) == Live(s[2..]) && Runs(Survivors(s[2..])) == Halved(Runs(s[2..]))
    ensures Live(Survivors(s)) == Live(s) && Runs(Survivors(s)) == Halved(Runs(s))
  {
    hide Survivors;
    hide Runs;
    hide Live;
    hide Halved;
    var r := Runs(s[2..]);
    PairUnfolds(s);
    RunsOfPair(s);
    LiveOfPair(s);
    RunsOfCons(s[1], Survivors(s[2..]));
    HalvedHead(r, r[0] + 2);
    HalvedCons(1, r);
  }

  lemma LiveHeadHalves<T>(s: seq<Slot<T>>)
    requires s != [] && !s[0].dead
    requires Live(Survivors(s[1..])) == Live(s[1..]) && Runs(Survivors(s[1..])) == Halved(Runs(s[1..]))
    ensures Live(Survivors(s)) == Live(s) && Runs(Survivors(s)) == Halved(Runs(s))
  {
    RunsOfCons(s[0], Survivors(s[1..]));
    HalvedCons(0, Runs(s[1..]));
    hide Halved;
  }

  /**
   * One pass keeps every live component, in order, and turns each maximal run of k dead ones into
   * floor(k / 2).
   */
  lemma {:induction false} OnePassHalvesRuns<T>(s: seq<Slot<T>>)
    ensures Live(Survivors(s)) == Live(s)
    ensures Runs(Survivors(s)) == Halved(Runs(s))
  {
    if s == [] {
    } else if !s[0].dead {
      OnePassHalvesRuns(s[1..]);
      LiveHeadHalves(s);
    } else if |s| == 1 {
      assert s[1..] == [];
    } else {
      OnePassHalvesRuns(s[2..]);
      PairHalves(s);
    }
  }

  lemma CountCons<T>(x: T, s: seq<T>)
    ensures multiset([x] + s) == multiset{x} + multiset(s)
  {
  }

  lemma PairCounts<T>(x: T, y: T, kept: seq<T>, gone: seq<T>, rest: seq<T>)
    requires multiset(kept) + multiset(gone) == multiset(rest)
    ensures multiset([y] + kept) + multiset([x] + gone) == multiset([x] + ([y] + rest))
  {
    CountCons(x, [y] + rest);
    CountCons(y, rest);
    CountCons(y, kept);
    CountCons(x, gone);
  }

  lemma PairDeletedOnce<T>(s: seq<Slot<T>>)
    requires |s| >= 2 && s[0].dead
    requires multiset(Survivors(s[2..])) + multiset(Victims(s[2..])) == multiset(s[2..])
    ensures multiset(Survivors(s)) + multiset(Victims(s)) == multiset(s)
  {
    hide Survivors;
    hide Victims;
    PairUnfolds(s);
    assert s == [s[0]] + ([s[1]] + s[2..]);
    PairCounts(s[0], s[1], Survivors(s[2..]), Victims(s[2..]), s[2..]);
  }

  /** Every component either survives or is deleted, once. */
  lemma {:induction false} DeletedOnce<T>(s: seq<Slot<T>>)
    ensures multiset(Survivors(s)) + multiset(Victims(s)) == multiset(s)
  {
    if s == [] {
    } else if !s[0].dead {
      DeletedOnce(s[1..]);
      assert s == [s[0]] + s[1..];
      CountCons(s[0], s[1..]);
      CountCons(s[0], Survivors(s[1..]));
    } else if |s| == 1 {
      assert s == [s[0]];
    } else {
      DeletedOnce(s[2..]);
      PairDeletedOnce(s);
    }
  }

  /** Only dead components are deleted. */
  lemma {:induction false} OnlyDeadDeleted<T>(s: seq<Slot<T>>)
    ensures forall i :: 0 <= i < |Victims(s)| ==> Victims(s)[i].dead
  {
    if s == [] {
    } else if !s[0].dead {
      OnlyDeadDeleted(s[1..]);
    } else if |s| > 1 {
      OnlyDeadDeleted(s[2..]);
    }
  }

  // ----- which ones are deleted -----

  /** The second, fourth, ... of a sequence. */
  function EverySecond<T>(d: seq<T>): (r: seq<T>)
    ensures |r| == |d| / 2
  {
    seq(|d| / 2, i requires 0 <= i < |d| / 2 => d[2 * i + 1])
  }

  /** The first, third, ... */
  function TheOthers<T>(d: seq<T>): (r: seq<T>)
    ensures |r| == (|d| + 1) / 2
  {
    seq((|d| + 1) / 2, i requires 0 <= i < (|d| + 1) / 2 => d[2 * i])
  }

  lemma AlternatesFromTwo<T>(d: seq<T>)
    requires |d| >= 2
    ensures EverySecond(d) == [d[1]] + EverySecond(d[2..]) && TheOthers(d) == [d[0]] + TheOthers(d[2..])
  {
  }

  lemma OnlyOne<T>(x: T)
    ensures EverySecond([x]) == [] && TheOthers([x]) == [x]
  {
  }

  /** A live component stays, and the pass goes on behind it. */
  lemma LivePasses<T>(x: Slot<T>, rest: seq<Slot<T>>)
    requires !x.dead
    ensures Survivors([x] + rest) == [x] + Survivors(rest) && Victims([x] + rest) == Victims(rest)
  {
    assert ([x] + rest)[1..] == rest;
  }

  /** Of a whole run of dead components the first, third, ... are deleted; the second, fourth, ... stay. */
  lemma {:induction false} RunAlternates<T>(d: seq<Slot<T>>, rest: seq<Slot<T>>)
    requires (forall x <- d :: x.dead) && (rest == [] || !rest[0].dead)
    ensures Survivors(d + rest) == EverySecond(d) + Survivors(rest)
    ensures Victims(d + rest) == TheOthers(d) + Victims(rest)
  {
    hide Survivors;
    hide Victims;
    hide EverySecond;
    hide TheOthers;
    if |d| == 0 {
      assert d + rest == rest;
    } else if |d| == 1 {
      SingleDead(d[0], rest);
      OnlyOne(d[0]);
      assert d == [d[0]];
    } else {
      RunAlternates(d[2..], rest);
      AlternatesFromTwo(d);
      PairUnfolds(d + rest);
      assert (d + rest)[2..] == d[2..] + rest;
    }
  }

  lemma SingleDead<T>(x: Slot<T>, rest: seq<Slot<T>>)
    requires x.dead && (rest == [] || !rest[0].dead)
    ensures Survivors([x] + rest) == Survivors(rest) && Victims([x] + rest) == [x] + Victims(rest)
  {
    if rest == [] {
      assert [x] + rest == [x];
    } else {
      PairUnfolds([x] + rest);
      assert ([x] + rest)[2..] == rest[1..];
    }
  }

  // ----- repeated passes -----

  function Passes<T>(s: seq<Slot<T>>, p: nat): seq<Slot<T>> {
    if p == 0 then s else Survivors(Passes(s, p - 1))
  }

  lemma HalvePower(x: nat, p: nat)
    ensures x / 2 < Pow2(p) <==> x < Pow2(p + 1)
  {
  }

  lemma {:induction false} PassesShift<T>(s: seq<Slot<T>>, p: nat)
    ensures Passes(s, p + 1) == Passes(Survivors(s), p)
  {
    if p > 0 {
      PassesShift(s, p - 1);
    }
  }

  lemma {:induction false} CleanIffNoRuns<T>(s: seq<Slot<T>>)
    ensures s == Live(s) <==> forall i :: 0 <= i < |Runs(s)| ==> Runs(s)[i] == 0
  {
    if s != [] {
      CleanIffNoRuns(s[1..]);
      if s[0].dead {
        assert Runs(s)[0] > 0;
        LiveIsShorter(s[1..]);
      } else {
        assert s == [s[0]] + s[1..];
        assert forall i :: 0 < i < |Runs(s)| ==> Runs(s)[i] == Runs(s[1..])[i - 1];
        assert forall i :: 0 <= i < |Runs(s[1..])| ==> Runs(s[1..])[i] == Runs(s)[i + 1];
      }
    }
  }

  lemma {:induction false} LiveIsShorter<T>(s: seq<Slot<T>>)
    ensures |Live(s)| <= |s|
  {
    if s != [] {
      LiveIsShorter(s[1..]);
    }
  }

  /**
   * With no new deletions, `p` passes leave exactly the live components if and only if every run of dead
   * ones is shorter than 2^p: floor(log2 k) + 1 passes for a longest run of k, and no fewer.
   */
  lemma {:induction false} PassesNeeded<T>(s: seq<Slot<T>>, p: nat)
    ensures Passes(s, p) == Live(s) <==> forall i :: 0 <= i < |Runs(s)| ==> Runs(s)[i] < Pow2(p)
    decreases p
  {
    if p == 0 {
      CleanIffNoRuns(s);
    } else {
      PassesShift(s, p - 1);
      PassesNeeded(Survivors(s), p - 1);
      OnePassHalvesRuns(s);
      forall i | 0 <= i < |Runs(s)|
        ensures Runs(Survivors(s))[i] < Pow2(p - 1) <==> Runs(s)[i] < Pow2(p)
      {
        HalvePower(Runs(s)[i], p - 1);
      }
    }
  }

  // ----- the loop itself -----

  function Slots(components: seq<Component>): (s: seq<Slot<Component>>)
    reads components
    ensures |s| == |components|
    ensures forall i :: 0 <= i < |components| ==> s[i] == Slot(components[i], components[i].mDelete)
  {
    seq(|components|, i requires 0 <= i < |components| reads components => Slot(components[i], components[i].mDelete))
  }

  class SharedData {
    var components: seq<Component>
    var deleted: seq<Component>  // what was passed to delete, in order

    constructor ()
      ensures components == [] && deleted == []
    {
      components := [];
      deleted := [];
    }

    method RegisterComponent(component: Component)
      modifies this
      ensures components == old(components) + [component] && deleted == old(deleted)
    {
      components := components + [component];
    }

    method HandleDeadComponents()
      modifies this
      ensures Slots(components) == Survivors(old(Slots(components)))
      ensures deleted == old(deleted) + Items(Victims(old(Slots(components))))
    {
      hide Survivors;
      hide Victims;
      hide Items;
      hide Rest;
      hide Done;
      ghost var before, gone := Slots(components), deleted;
      LoopStart(before);
      var i := 0;
      while i < |components|
        invariant 0 <= i <= |components| + 1
        invariant Survivors(before) == Done(Slots(components), i) + Survivors(Rest(Slots(components), i))
        invariant gone + Items(Victims(before)) == deleted + Items(Victims(Rest(Slots(components), i)))
        decreases |components| - i
      {
        ghost var s := Slots(components);
        var component := components[i];
        if component.mDelete {
          deleted := deleted + [component];
          components := components[..i] + components[i + 1..];
          assert Slots(components) == s[..i] + s[i + 1..];
          Removes(s, i);
        } else {
          PassesOver(s, i);
        }
        i := i + 1;
      }
      LoopEnd(Slots(components), i);
    }
  }

  lemma LoopStart<T>(s: seq<Slot<T>>)
    ensures Done(s, 0) == [] && Rest(s, 0) == s
  {
  }

  lemma LoopEnd<T>(s: seq<Slot<T>>, i: nat)
    requires i >= |s|
    ensures Done(s, i) == s && Survivors(Rest(s, i)) == [] && Items(Victims(Rest(s, i))) == []
  {
  }

  function Items<T>(s: seq<Slot<T>>): (r: seq<T>)
    ensures |r| == |s|
    ensures forall i :: 0 <= i < |s| ==> r[i] == s[i].item
  {
    seq(|s|, i requires 0 <= i < |s| => s[i].item)
  }

  /** The part of the list before the loop index, which may be one past the end. */
  function Done<T>(s: seq<Slot<T>>, i: nat): seq<Slot<T>> {
    if i <= |s| then s[..i] else s
  }

  function Rest<T>(s: seq<Slot<T>>, i: nat): seq<Slot<T>> {
    if i <= |s| then s[i..] else []
  }

  lemma PassesOver<T>(s: seq<Slot<T>>, i: nat)
    requires i < |s| && !s[i].dead
    ensures Done(s, i) + Survivors(Rest(s, i)) == Done(s, i + 1) + Survivors(Rest(s, i + 1))
    ensures Victims(Rest(s, i)) == Victims(Rest(s, i + 1))
  {
    assert s[i..][1..] == s[i + 1..];
    assert s[..i + 1] == s[..i] + [s[i]];
  }

  lemma Removes<T>(s: seq<Slot<T>>, i: nat)
    requires i < |s| && s[i].dead
    ensures var t := s[..i] + s[i + 1..];
      && Done(s, i) + Survivors(Rest(s, i)) == Done(t, i + 1) + Survivors(Rest(t, i + 1))
      && Items(Victims(Rest(s, i))) == [s[i].item] + Items(Victims(Rest(t, i + 1)))
  {
    var t, r := s[..i] + s[i + 1..], s[i..];
    if |r| == 1 {
      assert t == s[..i];
    } else {
      assert r[2..] == s[i + 2..] == t[i + 1..];
      assert t[..i + 1] == s[..i] + [s[i + 1]];
      assert Items([r[0]] + Victims(r[2..])) == [r[0].item] + Items(Victims(r[2..]));
    }
  }
}
