/** Bytes in memory and on the wire: little-endian integers, and concatenation of encoded items. */
module Bytes {

  type byte = b: int | 0 <= b < 0x100
  type u12 = x: int | 0 <= x < 0x1000
  type u16 = x: int | 0 <= x < 0x1_0000
  type u32 = x: int | 0 <= x < 0x1_0000_0000
  type i32 = x: int | -0x8000_0000 <= x < 0x8000_0000

  /** The low `k` bytes of `n`, least significant first. */
  function LE(n: nat, k: nat): (s: seq<byte>)
    ensures |s| == k
  {
    if k == 0 then [] else [n % 0x100] + LE(n / 0x100, k - 1)
  }

  function FromLE(s: seq<byte>): nat {
    if s == [] then 0 else s[0] + 0x100 * FromLE(s[1..])
  }

  function Pow256(k: nat): nat {
    if k == 0 then 1 else 0x100 * Pow256(k - 1)
  }

  lemma {:induction false} FromLERoundTrip(n: nat, k: nat)
    requires n < Pow256(k)
    ensures FromLE(LE(n, k)) == n
  {
    if k > 0 {
      FromLERoundTrip(n / 0x100, k - 1);
      assert LE(n, k)[1..] == LE(n / 0x100, k - 1);
    }
  }

  lemma {:induction false} LERoundTrip(s: seq<byte>)
    ensures LE(FromLE(s), |s|) == s
    ensures FromLE(s) < Pow256(|s|)
  {
    if s != [] {
      LERoundTrip(s[1..]);
      LowAndRest(s[0], FromLE(s[1..]));
      assert s == [s[0]] + s[1..];
    }
  }

  lemma LowAndRest(low: byte, rest: nat)
    ensures (low + 0x100 * rest) % 0x100 == low && (low + 0x100 * rest) / 0x100 == rest
  {
  }

  lemma Pow256Values()
    ensures Pow256(2) == 0x1_0000 && Pow256(4) == 0x1_0000_0000 && Pow256(6) == 0x1_0000_0000_0000
  {
    assert Pow256(3) == 0x100_0000;
    assert Pow256(5) == 0x100_0000_0000;
  }

  function LE16(x: u16): (s: seq<byte>)
    ensures |s| == 2
  {
    LE(x, 2)
  }

  function LE32(x: u32): (s: seq<byte>)
    ensures |s| == 4
  {
    LE(x, 4)
  }

  /** The two's-complement image of a C `int`. */
  function LEInt(x: i32): (s: seq<byte>)
    ensures |s| == 4
  {
    LE32(if x < 0 then x + 0x1_0000_0000 else x)
  }

  function GetLE16(s: seq<byte>): (x: u16)
    requires |s| == 2
  {
    LERoundTrip(s);
    Pow256Values();
    FromLE(s)
  }

  function GetLE32(s: seq<byte>): (x: u32)
    requires |s| == 4
  {
    LERoundTrip(s);
    Pow256Values();
    FromLE(s)
  }

  function GetLEInt(s: seq<byte>): (x: i32)
    requires |s| == 4
  {
    var w := GetLE32(s);
    if w < 0x8000_0000 then w else w - 0x1_0000_0000
  }

  // What the bytes mean, the first of them lowest.

  lemma TwoBytes(s: seq<byte>)
    requires |s| == 2
    ensures FromLE(s) == s[0] as int + 0x100 * s[1] as int
  {
    assert FromLE(s[1..]) == s[1] as int + 0x100 * FromLE(s[1..][1..]);
  }

  lemma FourBytes(s: seq<byte>)
    requires |s| == 4
    ensures FromLE(s) == s[0] as int + 0x100 * s[1] as int + 0x1_0000 * s[2] as int + 0x100_0000 * s[3] as int
  {
    FromLETwice(s);
    TwoBytes(s[2..]);
  }

  lemma SixBytes(s: seq<byte>)
    requires |s| == 6
    ensures FromLE(s) == s[0] as int + 0x100 * s[1] as int + 0x1_0000 * s[2] as int + 0x100_0000 * s[3] as int
      + 0x1_0000_0000 * s[4] as int + 0x100_0000_0000 * s[5] as int
  {
    FromLETwice(s);
    FourBytes(s[2..]);
  }

  lemma FromLETwice(s: seq<byte>)
    requires |s| >= 2
    ensures FromLE(s) == s[0] as int + 0x100 * s[1] as int + 0x1_0000 * FromLE(s[2..])
  {
    assert s[1..][1..] == s[2..];
    assert FromLE(s[1..]) == s[1] as int + 0x100 * FromLE(s[1..][1..]);
  }

  lemma GetLE16Layout(s: seq<byte>)
    requires |s| == 2
    ensures GetLE16(s) == s[0] as int + 0x100 * s[1] as int
  {
    TwoBytes(s);
  }

  lemma GetLE32Layout(s: seq<byte>)
    requires |s| == 4
    ensures GetLE32(s) == s[0] as int + 0x100 * s[1] as int + 0x1_0000 * s[2] as int + 0x100_0000 * s[3] as int
  {
    FourBytes(s);
  }

  /** A C `int`: the top bit counts as minus 2^31. */
  lemma GetLEIntLayout(s: seq<byte>)
    requires |s| == 4
    ensures GetLEInt(s) == s[0] as int + 0x100 * s[1] as int + 0x1_0000 * s[2] as int + 0x100_0000 * s[3] as int
      - (if s[3] >= 0x80 then 0x1_0000_0000 else 0)
  {
    GetLE32Layout(s);
  }

  lemma GetLE16RoundTrip(x: u16)
    ensures GetLE16(LE16(x)) == x
  {
    Pow256Values();
    FromLERoundTrip(x, 2);
  }

  lemma GetLE32RoundTrip(x: u32)
    ensures GetLE32(LE32(x)) == x
  {
    Pow256Values();
    FromLERoundTrip(x, 4);
  }

  lemma GetLEIntRoundTrip(x: i32)
    ensures GetLEInt(LEInt(x)) == x
  {
    GetLE32RoundTrip(if x < 0 then x + 0x1_0000_0000 else x);
  }

  lemma LE32Injective(x: u32, y: u32)
    requires LE32(x) == LE32(y)
    ensures x == y
  {
    GetLE32RoundTrip(x);
    GetLE32RoundTrip(y);
  }

  lemma NothingAfter<T>(s: seq<T>, t: seq<T>)
    requires |t| == 0
    ensures s + t == s
  {
  }

  lemma Subslice<T>(data: seq<T>, at: nat, n: nat, lo: nat, hi: nat)
    requires lo <= hi <= n && at + n <= |data|
    ensures data[at..at + n][lo..hi] == data[at + lo..at + hi]
  {
    var a, b := data[at..at + n][lo..hi], data[at + lo..at + hi];
    assert |a| == |b|;
    forall k | 0 <= k < |a| ensures a[k] == b[k] {
      assert a[k] == data[at..at + n][lo + k] == data[at + lo + k];
    }
  }

  /** The images of the items of `xs`, one after the other. */
  function FlatMap<T>(f: T -> seq<byte>, xs: seq<T>): seq<byte> {
    if xs == [] then [] else FlatMap(f, xs[..|xs| - 1]) + f(xs[|xs| - 1])
  }

  lemma FlatMapLast<T>(f: T -> seq<byte>, xs: seq<T>)
    requires xs != []
    ensures FlatMap(f, xs) == FlatMap(f, xs[..|xs| - 1]) + f(xs[|xs| - 1])
  {
  }

  lemma FlatMapSnoc<T>(f: T -> seq<byte>, xs: seq<T>, i: nat)
    requires i < |xs|
    ensures FlatMap(f, xs[..i + 1]) == FlatMap(f, xs[..i]) + f(xs[i])
  {
    assert xs[..i + 1][..i] == xs[..i];
  }

  lemma {:induction false} FlatMapConcat<T>(f: T -> seq<byte>, xs: seq<T>, ys: seq<T>)
    ensures FlatMap(f, xs + ys) == FlatMap(f, xs) + FlatMap(f, ys)
    decreases |ys|
  {
    if ys == [] {
      assert xs + ys == xs;
    } else {
      var n := |ys| - 1;
      FlatMapConcat(f, xs, ys[..n]);
      assert (xs + ys)[..|xs + ys| - 1] == xs + ys[..n];
    }
  }

  lemma FlatMapNone<T>(f: T -> seq<byte>, xs: seq<T>)
    ensures FlatMap(f, xs[..0]) == [] && xs[..|xs|] == xs
  {
  }

  lemma FlatMapOne<T>(f: T -> seq<byte>, x: T)
    ensures FlatMap(f, [x]) == f(x)
  {
    assert [x][..0] == [];
  }

  lemma FlatMapCons<T>(f: T -> seq<byte>, xs: seq<T>)
    requires xs != []
    ensures FlatMap(f, xs) == f(xs[0]) + FlatMap(f, xs[1..])
  {
    assert xs == [xs[0]] + xs[1..];
    FlatMapConcat(f, [xs[0]], xs[1..]);
    FlatMapOne(f, xs[0]);
  }

  /** Items of one size `w` land at multiples of `w`. */
  lemma {:induction false} FlatMapFixed<T>(f: T -> seq<byte>, w: nat, xs: seq<T>)
    requires forall x <- xs :: |f(x)| == w
    ensures |FlatMap(f, xs)| == w * |xs|
  {
    if xs != [] {
      FlatMapFixed(f, w, xs[..|xs| - 1]);
      assert w * |xs| == w * (|xs| - 1) + w;
    }
  }

  lemma MiddlePart<T>(a: seq<T>, b: seq<T>, c: seq<T>)
    ensures (a + (b + c))[|a|..|a| + |b|] == b
  {
  }

  lemma {:induction false} FlatMapItem<T>(f: T -> seq<byte>, w: nat, xs: seq<T>, i: nat)
    requires i < |xs|
    requires forall x <- xs :: |f(x)| == w
    ensures 0 <= w * i <= w * i + w <= |FlatMap(f, xs)|
    ensures FlatMap(f, xs)[w * i..w * i + w] == f(xs[i])
  {
    hide FlatMap;
    var front, back := xs[..i], xs[i + 1..];
    assert xs == front + ([xs[i]] + back);
    FlatMapConcat(f, front, [xs[i]] + back);
    FlatMapConcat(f, [xs[i]], back);
    FlatMapOne(f, xs[i]);
    FlatMapFixed(f, w, front);
    MiddlePart(FlatMap(f, front), f(xs[i]), FlatMap(f, back));
  }

  /** `s` with `bytes` in place of what was at `at`. */
  function Splice(s: seq<byte>, at: nat, bytes: seq<byte>): (r: seq<byte>)
    requires at + |bytes| <= |s|
    ensures |r| == |s|
  {
    s[..at] + bytes + s[at + |bytes|..]
  }

  /** The bytes are in place and the rest is as it was. */
  lemma SpliceAt(s: seq<byte>, at: nat, bytes: seq<byte>, k: nat)
    requires at + |bytes| <= |s| && k < |s|
    ensures Splice(s, at, bytes)[k] == if at <= k < at + |bytes| then bytes[k - at] else s[k]
  {
  }

  lemma SpliceNothing(s: seq<byte>, at: nat)
    requires at <= |s|
    ensures Splice(s, at, []) == s
  {
  }

  lemma SpliceFront(s: seq<byte>, bytes: seq<byte>)
    requires |bytes| <= |s|
    ensures Splice(s, 0, bytes)[..|bytes|] == bytes
  {
  }

  /** Writing on from where the last write ended is writing the two together. */
  lemma SpliceOn(s: seq<byte>, at: nat, a: seq<byte>, b: seq<byte>)
    requires at + |a| + |b| <= |s|
    ensures Splice(Splice(s, at, a), at + |a|, b) == Splice(s, at, a + b)
  {
    var r := Splice(s, at, a);
    assert r[..at + |a|] == s[..at] + a;
    assert r[at + |a| + |b|..] == s[at + |a| + |b|..];
  }

  /** Items of one size written at `at` lie there one after the other. */
  lemma SplicedItem<T>(f: T -> seq<byte>, w: nat, xs: seq<T>, s: seq<byte>, at: nat, i: nat)
    requires i < |xs| && (forall x <- xs :: |f(x)| == w)
    requires at + |FlatMap(f, xs)| <= |s|
    ensures 0 <= w * i <= w * i + w <= |FlatMap(f, xs)|
    ensures Splice(s, at, FlatMap(f, xs))[at + w * i..at + w * i + w] == f(xs[i])
  {
    hide FlatMap;
    FlatMapItem(f, w, xs, i);
    InnerPart(s[..at], FlatMap(f, xs), s[at + |FlatMap(f, xs)|..], w * i, w * i + w);
  }

  lemma InnerPart<T>(a: seq<T>, b: seq<T>, c: seq<T>, lo: nat, hi: nat)
    requires lo <= hi <= |b|
    ensures (a + b + c)[|a| + lo..|a| + hi] == b[lo..hi]
  {
  }

  /** Copies `bytes` into `out` at `cursor`, as a `memcpy` through the write cursor does. */
  method WriteBytes(out: array<byte>, cursor: nat, bytes: seq<byte>) returns (next: nat)
    requires cursor + |bytes| <= out.Length
    modifies out
    ensures next == cursor + |bytes|
    ensures out[..] == Splice(old(out[..]), cursor, bytes)
  {
    forall i | 0 <= i < |bytes| {
      out[cursor + i] := bytes[i];
    }
    next := cursor + |bytes|;
  }
}
