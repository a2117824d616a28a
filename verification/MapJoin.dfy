/** Maps laid over one another, later ones on top. */
module MapJoin {

  ghost function Join(base: map<nat, nat>, ms: seq<map<nat, nat>>): map<nat, nat> {
    if ms == [] then base else Join(base, ms[..|ms| - 1]) + ms[|ms| - 1]
  }

  lemma {:induction false} JoinKeys(base: map<nat, nat>, ms: seq<map<nat, nat>>, a: nat)
    ensures a in Join(base, ms) <==> a in base || exists i :: 0 <= i < |ms| && a in ms[i]
  {
    if ms != [] {
      var n := |ms| - 1;
      JoinKeys(base, ms[..n], a);
      if a in ms[n] {
      } else if exists i :: 0 <= i < |ms| && a in ms[i] {
        var i :| 0 <= i < |ms| && a in ms[i];
        assert a in ms[..n][i];
      }
    }
  }

  lemma {:induction false} JoinLookup(base: map<nat, nat>, ms: seq<map<nat, nat>>, i: nat, a: nat)
    requires i < |ms| && a in ms[i]
    requires forall j :: i < j < |ms| ==> a !in ms[j]
    ensures a in Join(base, ms) && Join(base, ms)[a] == ms[i][a]
  {
    var n := |ms| - 1;
    if i < n {
      JoinLookup(base, ms[..n], i, a);
    }
  }

  lemma {:induction false} JoinBase(base: map<nat, nat>, ms: seq<map<nat, nat>>, a: nat)
    requires forall j :: 0 <= j < |ms| ==> a !in ms[j]
    ensures a in Join(base, ms) <==> a in base
    ensures a in base ==> Join(base, ms)[a] == base[a]
  {
    if ms != [] {
      JoinBase(base, ms[..|ms| - 1], a);
    }
  }

  /** Removing keys that only one layer has is removing them from that layer. */
  lemma {:induction false} JoinRemove(base: map<nat, nat>, ms: seq<map<nat, nat>>, k: nat, gone: set<nat>)
    requires k < |ms|
    requires base.Keys !! gone
    requires forall j :: 0 <= j < |ms| && j != k ==> ms[j].Keys !! gone
    ensures Join(base, ms) - gone == Join(base, ms[k := ms[k] - gone])
  {
    var n := |ms| - 1;
    var rest := Join(base, ms[..n]);
    if k == n {
      JoinAvoids(base, ms[..n], gone);
      assert ms[k := ms[k] - gone][..n] == ms[..n];
      RemoveFromTop(rest, ms[n], gone);
    } else {
      JoinRemove(base, ms[..n], k, gone);
      assert ms[k := ms[k] - gone][..n] == ms[..n][k := ms[..n][k] - gone];
      RemoveBelow(rest, ms[n], gone);
    }
  }

  lemma RemoveFromTop(low: map<nat, nat>, top: map<nat, nat>, gone: set<nat>)
    requires low.Keys !! gone
    ensures (low + top) - gone == low + (top - gone)
  {
  }

  lemma RemoveBelow(low: map<nat, nat>, top: map<nat, nat>, gone: set<nat>)
    requires top.Keys !! gone
    ensures (low + top) - gone == (low - gone) + top
  {
  }

  lemma {:induction false} JoinAvoids(base: map<nat, nat>, ms: seq<map<nat, nat>>, gone: set<nat>)
    requires base.Keys !! gone
    requires forall j :: 0 <= j < |ms| ==> ms[j].Keys !! gone
    ensures Join(base, ms).Keys !! gone
  {
    if ms != [] {
      JoinAvoids(base, ms[..|ms| - 1], gone);
    }
  }
}
