/** The 32-bit hash of hash.h, on the `u8` instance that the draw-list code uses. */
module Hash {
  import opened Bytes
  import opened Bits

  function Word(a: byte, b: byte, c: byte, d: byte): (w: u32) {
    a as int + 0x100 * b as int + 0x1_0000 * c as int + 0x100_0000 * d as int
  }

  lemma WordInjective(a: byte, b: byte, c: byte, d: byte, a': byte, b': byte, c': byte, d': byte)
    requires Word(a, b, c, d) == Word(a', b', c', d')
    ensures a == a' && b == b' && c == c' && d == d'
  {
    var r, r' := c as int + 0x100 * d as int, c' as int + 0x100 * d' as int;
    LowByte(a, b as int + 0x100 * r, a', b' as int + 0x100 * r');
    LowByte(b, r, b', r');
    LowByte(c, d, c', d');
  }

  lemma LowByte(a: byte, r: nat, a': byte, r': nat)
    requires a as int + 0x100 * r == a' as int + 0x100 * r'
    ensures a == a' && r == r'
  {
  }

  /** Four bytes as one word; the shifted bytes share no bit, so the or is a sum. */
  function GetBlock(data: seq<byte>, i: nat): (w: u32)
    requires 4 * i + 4 <= |data|
  {
    Word(data[4 * i], data[4 * i + 1], data[4 * i + 2], data[4 * i + 3])
  }

  // The five odd multipliers, modulo 2^32.

  function TimesC1(x: u32): u32 { Wrap(x * 0xcc9e2d51) }
  function TimesC2(x: u32): u32 { Wrap(x * 0x1b873593) }
  function Times5PlusC3(x: u32): u32 { Wrap(x * 5 + 0xe6546b64) }
  function TimesF1(x: u32): u32 { Wrap(x * 0x85ebca6b) }
  function TimesF2(x: u32): u32 { Wrap(x * 0xc2b2ae35) }

  function FinalMix(h: u32): u32 {
    XorShift16(TimesF2(XorShift13(TimesF1(XorShift16(h)))))
  }

  /** What one block contributes: odd multiply, rotate by 15, odd multiply. */
  function Scramble(k: u32): u32 {
    TimesC2(RotateLeft15(TimesC1(k)))
  }

  function MixBlock(h: u32, k: u32): u32 {
    Times5PlusC3(RotateLeft13(XorWords(h, Scramble(k))))
  }

  // ----- explicit inverses -----

  function OverC1(x: u32): u32 { Wrap(x * 0xdee13bb1) }
  function OverC2(x: u32): u32 { Wrap(x * 0x56ed309b) }
  function MinusC3Over5(x: u32): u32 { Wrap(Wrap(x + 0x19ab949c) * 0xcccccccd) }
  function OverF1(x: u32): u32 { Wrap(x * 0xa5cb9243) }
  function OverF2(x: u32): u32 { Wrap(x * 0x7ed1b41d) }

  function Unscramble(s: u32): u32 {
    OverC1(RotateLeft17(OverC2(s)))
  }

  function UnmixBlock(m: u32, k: u32): u32 {
    XorWords(RotateLeft19(MinusC3Over5(m)), Scramble(k))
  }

  function UnfinalMix(h: u32): u32 {
    XorShift16(OverF1(UnXorShift13(OverF2(XorShift16(h)))))
  }

  lemma TimesC1Inverts(x: u32)
    ensures OverC1(TimesC1(x)) == x && TimesC1(OverC1(x)) == x
  {
    ProductInverts(x, 0xcc9e2d51, 0xdee13bb1);
    ProductInverts(x, 0xdee13bb1, 0xcc9e2d51);
  }

  lemma TimesC2Inverts(x: u32)
    ensures OverC2(TimesC2(x)) == x && TimesC2(OverC2(x)) == x
  {
    ProductInverts(x, 0x1b873593, 0x56ed309b);
    ProductInverts(x, 0x56ed309b, 0x1b873593);
  }

  lemma TimesF1Inverts(x: u32)
    ensures OverF1(TimesF1(x)) == x && TimesF1(OverF1(x)) == x
  {
    ProductInverts(x, 0x85ebca6b, 0xa5cb9243);
    ProductInverts(x, 0xa5cb9243, 0x85ebca6b);
  }

  lemma TimesF2Inverts(x: u32)
    ensures OverF2(TimesF2(x)) == x && TimesF2(OverF2(x)) == x
  {
    ProductInverts(x, 0xc2b2ae35, 0x7ed1b41d);
    ProductInverts(x, 0x7ed1b41d, 0xc2b2ae35);
  }

  lemma AddInverts(x: u32, c: int, d: int)
    requires 0 <= c && 0 <= d && c + d == WORD
    ensures Wrap(Wrap(x + c) + d) == x
  {
    assert Wrap(x + c) == if x + c < WORD then x + c else x + c - WORD;
  }

  lemma AddWrapped(n: nat, c: u32)
    ensures Wrap(Wrap(n) as int + c) == Wrap(n + c)
  {
    WrapIsModulo(n);
    WrapIsModulo(Wrap(n) as int + c);
    WrapIsModulo(n + c);
  }

  lemma Times5PlusC3Inverts(x: u32)
    ensures MinusC3Over5(Times5PlusC3(x)) == x
  {
    AddWrapped(x * 5, 0xe6546b64);
    AddInverts(Wrap(x * 5), 0xe6546b64, 0x19ab949c);
    ProductInverts(x, 5, 0xcccccccd);
  }

  lemma Times5PlusC3InvertsBack(x: u32)
    ensures Times5PlusC3(MinusC3Over5(x)) == x
  {
    var m: nat := Wrap(x as int + 0x19ab949c);
    var y: nat := Wrap(m * 0xcccccccd);
    ProductInverts(m, 0xcccccccd, 5);
    AddWrapped(y * 5, 0xe6546b64);
    AddInverts(x, 0x19ab949c, 0xe6546b64);
  }

  lemma ScrambleBijective(x: u32)
    ensures Unscramble(Scramble(x)) == x
    ensures Scramble(Unscramble(x)) == x
  {
    TimesC2Inverts(RotateLeft15(TimesC1(x)));
    Rotate15Inverts(TimesC1(x));
    TimesC1Inverts(x);
    TimesC1Inverts(RotateLeft17(OverC2(x)));
    Rotate17Inverts(OverC2(x));
    TimesC2Inverts(x);
  }

  /** For a fixed block the state step is a bijection on hash states. */
  lemma MixBlockBijective(h: u32, k: u32)
    ensures UnmixBlock(MixBlock(h, k), k) == h
    ensures MixBlock(UnmixBlock(h, k), k) == h
  {
    var s := Scramble(k);
    Times5PlusC3Inverts(RotateLeft13(XorWords(h, s)));
    Rotate13Inverts(XorWords(h, s));
    XorCancels(h, s);
    XorCancels(RotateLeft19(MinusC3Over5(h)), s);
    Rotate19Inverts(MinusC3Over5(h));
    Times5PlusC3InvertsBack(h);
  }

  /** For a fixed state the step is injective in the block. */
  lemma MixBlockInjectiveInBlock(h: u32, k1: u32, k2: u32)
    requires MixBlock(h, k1) == MixBlock(h, k2)
    ensures k1 == k2
  {
    var x1, x2 := XorWords(h, Scramble(k1)), XorWords(h, Scramble(k2));
    Times5PlusC3Inverts(RotateLeft13(x1));
    Times5PlusC3Inverts(RotateLeft13(x2));
    Rotate13Inverts(x1);
    Rotate13Inverts(x2);
    XorCancels(h, Scramble(k1));
    XorCancels(h, Scramble(k2));
    ScrambleBijective(k1);
    ScrambleBijective(k2);
  }

  lemma FinalMixBijective(h: u32)
    ensures UnfinalMix(FinalMix(h)) == h
    ensures FinalMix(UnfinalMix(h)) == h
  {
    var h1 := XorShift16(h);
    XorShift16Inverts(h);
    TimesF1Inverts(h1);
    XorShift13Inverts(TimesF1(h1));
    TimesF2Inverts(XorShift13(TimesF1(h1)));
    XorShift16Inverts(TimesF2(XorShift13(TimesF1(h1))));
    TimesF2Inverts(h1);
    XorShift13InvertsBack(OverF2(h1));
    TimesF1Inverts(UnXorShift13(OverF2(h1)));
    XorShift16Inverts(OverF1(UnXorShift13(OverF2(h1))));
  }

  // ----- the hash of a buffer -----

  /** The state after `step` has taken in the first `n` blocks. */
  function Fold(step: (u32, u32) -> u32, h: u32, data: seq<byte>, n: nat): u32
    requires 4 * n <= |data|
  {
    if n == 0 then h else step(Fold(step, h, data, n - 1), GetBlock(data, n - 1))
  }

  function MixBlocks(h: u32, data: seq<byte>, n: nat): u32
    requires 4 * n <= |data|
  {
    Fold(MixBlock, h, data, n)
  }

  /** The 0 to 3 bytes after the last whole block. */
  function Tail(data: seq<byte>): (t: seq<byte>)
    ensures |t| == |data| % 4
  {
    data[|data| - |data| % 4..]
  }

  function MixTail(h: u32, tail: seq<byte>): u32
    requires |tail| < 4
  {
    if tail == [] then h else
      FitsWord(tail);
      XorWords(h, Scramble(FromLE(tail)))
  }

  lemma FitsWord(s: seq<byte>)
    requires |s| < 4
    ensures FromLE(s) < 0x100_0000
  {
    LERoundTrip(s);
    assert Pow256(0) == 1 && Pow256(1) == 0x100 && Pow256(2) == 0x1_0000 && Pow256(3) == 0x100_0000;
  }

  function Finish(h: u32, data: seq<byte>): u32
    requires |data| < WORD
  {
    FinalMix(XorWords(MixTail(h, Tail(data)), |data|))
  }

  function Murmur(data: seq<byte>, seed: u32): u32
    requires |data| < WORD
  {
    Finish(MixBlocks(seed, data, |data| / 4), data)
  }

  // ----- one changed block always changes the hash -----

  /** `a` and `b` agree outside the aligned block `j`; `j == |a| / 4` names the tail. */
  ghost predicate DifferOnlyInBlock(a: seq<byte>, b: seq<byte>, j: nat) {
    && |a| == |b|
    && forall k :: 0 <= k < |a| && k / 4 != j ==> a[k] == b[k]
  }

  lemma SameBlock(a: seq<byte>, b: seq<byte>, j: nat, i: nat)
    requires DifferOnlyInBlock(a, b, j) && i != j && 4 * i + 4 <= |a|
    ensures GetBlock(a, i) == GetBlock(b, i)
  {
    assert (4 * i) / 4 == i && (4 * i + 1) / 4 == i && (4 * i + 2) / 4 == i && (4 * i + 3) / 4 == i;
  }

  lemma GetBlockInjective(a: seq<byte>, b: seq<byte>, i: nat)
    requires |a| == |b| && 4 * i + 4 <= |a|
    requires GetBlock(a, i) == GetBlock(b, i)
    ensures forall k :: 4 * i <= k < 4 * i + 4 ==> a[k] == b[k]
  {
    var j := 4 * i;
    WordInjective(a[j], a[j + 1], a[j + 2], a[j + 3], b[j], b[j + 1], b[j + 2], b[j + 3]);
  }

  /** A step that loses neither the state nor the block. */
  ghost predicate Separating(step: (u32, u32) -> u32) {
    && (forall h1, h2, k :: step(h1, k) == step(h2, k) ==> h1 == h2)
    && (forall h, k1, k2 :: step(h, k1) == step(h, k2) ==> k1 == k2)
  }

  lemma MixBlockSeparates()
    ensures Separating(MixBlock)
  {
    forall h1, h2, k | MixBlock(h1, k) == MixBlock(h2, k) ensures h1 == h2 {
      MixBlockBijective(h1, k);
      MixBlockBijective(h2, k);
    }
    forall h, k1, k2 | MixBlock(h, k1) == MixBlock(h, k2) ensures k1 == k2 {
      MixBlockInjectiveInBlock(h, k1, k2);
    }
  }

  lemma {:induction false} FoldAgrees(step: (u32, u32) -> u32, h: u32, a: seq<byte>, b: seq<byte>, j: nat, n: nat)
    requires DifferOnlyInBlock(a, b, j) && 4 * n <= |a| && n <= j
    ensures Fold(step, h, a, n) == Fold(step, h, b, n)
  {
    if n > 0 {
      FoldAgrees(step, h, a, b, j, n - 1);
      SameBlock(a, b, j, n - 1);
    }
  }

  lemma {:induction false} FoldSeparates(step: (u32, u32) -> u32, h: u32, a: seq<byte>, b: seq<byte>, j: nat, n: nat)
    requires Separating(step) && DifferOnlyInBlock(a, b, j) && j < n && 4 * n <= |a|
    requires Fold(step, h, a, n) == Fold(step, h, b, n)
    ensures a == b
  {
    hide GetBlock;
    if n - 1 == j {
      FoldAgrees(step, h, a, b, j, j);
      GetBlockInjective(a, b, j);
    } else {
      SameBlock(a, b, j, n - 1);
      FoldSeparates(step, h, a, b, j, n - 1);
    }
  }

  /** The last steps lose nothing: for equal length they separate states, and tails after one state. */
  lemma FinishInjective(ha: u32, a: seq<byte>, hb: u32, b: seq<byte>)
    requires |a| == |b| < WORD
    requires Finish(ha, a) == Finish(hb, b)
    ensures MixTail(ha, Tail(a)) == MixTail(hb, Tail(b))
  {
    hide FinalMix;
    hide UnfinalMix;
    var ta, tb := MixTail(ha, Tail(a)), MixTail(hb, Tail(b));
    FinalMixBijective(XorWords(ta, |a|));
    FinalMixBijective(XorWords(tb, |b|));
    XorCancels(ta, |a|);
    XorCancels(tb, |b|);
  }

  /** The length is part of the hash: from one state and one tail, different lengths finish differently. */
  lemma LengthIsSeen(h: u32, a: seq<byte>, b: seq<byte>)
    requires |a| < WORD && |b| < WORD && Tail(a) == Tail(b)
    ensures Finish(h, a) == Finish(h, b) <==> |a| == |b|
  {
    hide FinalMix;
    hide UnfinalMix;
    hide MixTail;
    hide Tail;
    var t := MixTail(h, Tail(a));
    if Finish(h, a) == Finish(h, b) {
      FinalMixBijective(XorWords(t, |a|));
      FinalMixBijective(XorWords(t, |b|));
      XorCancels(t, |a|);
      XorCancels(t, |b|);
    }
  }

  lemma MixTailInjectiveInState(ha: u32, hb: u32, tail: seq<byte>)
    requires |tail| < 4 && MixTail(ha, tail) == MixTail(hb, tail)
    ensures ha == hb
  {
    if tail != [] {
      FitsWord(tail);
      XorCancels(ha, Scramble(FromLE(tail)));
      XorCancels(hb, Scramble(FromLE(tail)));
    }
  }

  lemma MixTailInjectiveInTail(h: u32, s: seq<byte>, t: seq<byte>)
    requires |s| == |t| < 4 && MixTail(h, s) == MixTail(h, t)
    ensures s == t
  {
    if s != [] {
      FitsWord(s);
      FitsWord(t);
      XorCancels(h, Scramble(FromLE(s)));
      XorCancels(h, Scramble(FromLE(t)));
      ScrambleBijective(FromLE(s));
      ScrambleBijective(FromLE(t));
      LERoundTrip(s);
      LERoundTrip(t);
    }
  }

  lemma EqualHashesEqualStates(a: seq<byte>, b: seq<byte>, seed: u32)
    requires |a| == |b| < WORD && Murmur(a, seed) == Murmur(b, seed)
    ensures MixTail(MixBlocks(seed, a, |a| / 4), Tail(a)) == MixTail(MixBlocks(seed, b, |b| / 4), Tail(b))
  {
    hide MixBlocks;
    hide MixTail;
    FinishInjective(MixBlocks(seed, a, |a| / 4), a, MixBlocks(seed, b, |b| / 4), b);
  }

  lemma BlockChangeIsSeen(a: seq<byte>, b: seq<byte>, j: nat, seed: u32)
    requires |a| < WORD && DifferOnlyInBlock(a, b, j) && j < |a| / 4
    requires Murmur(a, seed) == Murmur(b, seed)
    ensures a == b
  {
    hide MixTail;
    MixBlockSeparates();
    hide MixBlock;
    EqualHashesEqualStates(a, b, seed);
    assert Tail(a) == Tail(b);
    MixTailInjectiveInState(MixBlocks(seed, a, |a| / 4), MixBlocks(seed, b, |a| / 4), Tail(a));
    FoldSeparates(MixBlock, seed, a, b, j, |a| / 4);
  }

  lemma TailChangeIsSeen(a: seq<byte>, b: seq<byte>, j: nat, seed: u32)
    requires |a| < WORD && DifferOnlyInBlock(a, b, j) && j >= |a| / 4
    requires Murmur(a, seed) == Murmur(b, seed)
    ensures a == b
  {
    hide MixBlock;
    hide MixTail;
    var n := |a| / 4;
    EqualHashesEqualStates(a, b, seed);
    FoldAgrees(MixBlock, seed, a, b, j, n);
    MixTailInjectiveInTail(MixBlocks(seed, a, n), Tail(a), Tail(b));
    assert a == a[..4 * n] + Tail(a);
    assert b == b[..4 * n] + Tail(b);
    assert a[..4 * n] == b[..4 * n];
  }

  /** No change confined to one aligned block, or to the tail, keeps the hash. */
  lemma OneBlockChangeIsSeen(a: seq<byte>, b: seq<byte>, j: nat, seed: u32)
    requires |a| < WORD && DifferOnlyInBlock(a, b, j)
    ensures Murmur(a, seed) == Murmur(b, seed) <==> a == b
  {
    if Murmur(a, seed) == Murmur(b, seed) {
      if j < |a| / 4 {
        BlockChangeIsSeen(a, b, j, seed);
      } else {
        TailChangeIsSeen(a, b, j, seed);
      }
    }
  }

  lemma {:induction false} FoldInjectiveInState(step: (u32, u32) -> u32, h1: u32, h2: u32, data: seq<byte>, n: nat)
    requires Separating(step) && 4 * n <= |data| && Fold(step, h1, data, n) == Fold(step, h2, data, n)
    ensures h1 == h2
  {
    if n > 0 {
      FoldInjectiveInState(step, h1, h2, data, n - 1);
    }
  }

  /** Different seeds give different hashes of one buffer. */
  lemma SeedsAreSeparated(data: seq<byte>, seed1: u32, seed2: u32)
    requires |data| < WORD
    ensures Murmur(data, seed1) == Murmur(data, seed2) <==> seed1 == seed2
  {
    hide MixBlock;
    hide MixTail;
    if Murmur(data, seed1) == Murmur(data, seed2) {
      var n := |data| / 4;
      FinishInjective(MixBlocks(seed1, data, n), data, MixBlocks(seed2, data, n), data);
      MixTailInjectiveInState(MixBlocks(seed1, data, n), MixBlocks(seed2, data, n), Tail(data));
      MixBlockSeparates();
      FoldInjectiveInState(MixBlock, seed1, seed2, data, n);
    }
  }

  // ----- feeding a buffer in pieces -----

  lemma {:induction false} FoldPrefix(step: (u32, u32) -> u32, h: u32, a: seq<byte>, b: seq<byte>, n: nat)
    requires 4 * n <= |a|
    ensures Fold(step, h, a + b, n) == Fold(step, h, a, n)
  {
    if n > 0 {
      FoldPrefix(step, h, a, b, n - 1);
    }
  }

  lemma {:induction false} FoldSplits(step: (u32, u32) -> u32, h: u32, a: seq<byte>, b: seq<byte>, n: nat)
    requires |a| % 4 == 0 && 4 * n <= |b|
    ensures Fold(step, h, a + b, |a| / 4 + n) == Fold(step, Fold(step, h, a, |a| / 4), b, n)
  {
    if n == 0 {
      FoldPrefix(step, h, a, b, |a| / 4);
    } else {
      FoldSplits(step, h, a, b, n - 1);
      assert GetBlock(a + b, |a| / 4 + n - 1) == GetBlock(b, n - 1);
    }
  }

  /** The state after feeding the pieces in order. */
  function FeedAll(h: u32, pieces: seq<seq<byte>>): u32 {
    if pieces == [] then h
    else
      var last := pieces[|pieces| - 1];
      MixBlocks(FeedAll(h, pieces[..|pieces| - 1]), last, |last| / 4)
  }

  function Join(pieces: seq<seq<byte>>): seq<byte> {
    if pieces == [] then [] else Join(pieces[..|pieces| - 1]) + pieces[|pieces| - 1]
  }

  lemma {:induction false} JoinWholeBlocks(pieces: seq<seq<byte>>)
    requires forall p <- pieces :: |p| % 4 == 0
    ensures |Join(pieces)| % 4 == 0
  {
    if pieces != [] {
      JoinWholeBlocks(pieces[..|pieces| - 1]);
      WholeBlocksAdd(|Join(pieces[..|pieces| - 1])|, |pieces[|pieces| - 1]|);
    }
  }

  lemma WholeBlocksAdd(m: nat, n: nat)
    requires m % 4 == 0 && n % 4 == 0
    ensures (m + n) % 4 == 0
  {
  }

  lemma {:induction false} FeedingWholeBlocks(h: u32, pieces: seq<seq<byte>>)
    requires forall p <- pieces :: |p| % 4 == 0
    ensures FeedAll(h, pieces) == MixBlocks(h, Join(pieces), |Join(pieces)| / 4)
  {
    hide MixBlock;
    hide Fold;
    if pieces == [] {
      FoldNothing(MixBlock, h);
    } else {
      var front, last := pieces[..|pieces| - 1], pieces[|pieces| - 1];
      FeedingWholeBlocks(h, front);
      JoinWholeBlocks(front);
      JoinedLength(Join(front), last);
      FoldSplits(MixBlock, h, Join(front), last, |last| / 4);
    }
  }

  lemma FoldNothing(step: (u32, u32) -> u32, h: u32)
    ensures Fold(step, h, [], 0) == h
  {
  }

  lemma JoinedLength(a: seq<byte>, b: seq<byte>)
    requires |a| % 4 == 0
    ensures |a + b| / 4 == |a| / 4 + |b| / 4
  {
  }

  lemma FeedingEndsWhereOneShotDoes(data: seq<byte>, front: seq<seq<byte>>, last: seq<byte>, seed: u32)
    requires data == Join(front) + last
    requires forall p <- front :: |p| % 4 == 0
    ensures FeedAll(seed, front + [last]) == MixBlocks(seed, data, |data| / 4)
  {
    hide MixBlock;
    hide Fold;
    FeedingWholeBlocks(seed, front);
    JoinWholeBlocks(front);
    JoinedLength(Join(front), last);
    assert (front + [last])[..|front|] == front;
    FoldSplits(MixBlock, seed, Join(front), last, |last| / 4);
  }

  /**
   * Cutting a buffer at multiples of four, feeding the pieces in order and finishing over the whole
   * buffer gives the one-shot hash. The last piece may have any length.
   */
  lemma StreamingEqualsOneShot(data: seq<byte>, front: seq<seq<byte>>, last: seq<byte>, seed: u32)
    requires |data| < WORD && data == Join(front) + last
    requires forall p <- front :: |p| % 4 == 0
    ensures Finish(FeedAll(seed, front + [last]), data) == Murmur(data, seed)
  {
    hide MixBlocks;
    hide FeedAll;
    hide Finish;
    FeedingEndsWhereOneShotDoes(data, front, last, seed);
  }

  /** The hashing object: the whole buffer, and the state of the hash so far. */
  class HashMurmurImpl {
    const mData: seq<byte>
    const mSeed: u32
    var mHashValue: u32

    constructor (data: seq<byte>, seed: u32)
      ensures mData == data && mSeed == seed && mHashValue == seed
    {
      mData := data;
      mSeed := seed;
      mHashValue := seed;
    }

    method MixIn(block: u32)
      modifies this
      ensures mHashValue == MixBlock(old(mHashValue), block)
    {
      var k1 := block;
      k1 := TimesC1(k1);
      k1 := RotateLeft15(k1);
      k1 := TimesC2(k1);
      mHashValue := XorWords(mHashValue, k1);
      mHashValue := RotateLeft13(mHashValue);
      mHashValue := Times5PlusC3(mHashValue);
    }

    method Feed(fedData: seq<byte>)
      modifies this
      ensures mHashValue == MixBlocks(old(mHashValue), fedData, |fedData| / 4)
    {
      var i := 0;
      while i < |fedData| / 4
        invariant 0 <= i <= |fedData| / 4
        invariant mHashValue == MixBlocks(old(mHashValue), fedData, i)
      {
        MixIn(GetBlock(fedData, i));
        i := i + 1;
      }
    }

    method CalculateWithCallback()
      modifies this
      ensures mHashValue == MixBlocks(old(mHashValue), mData, |mData| / 4)
    {
      Feed(mData);
    }

    /** The tail bytes are gathered from the last one down, as the fall-through cases do. */
    method Finalize() returns (h: u32)
      requires |mData| < WORD
      ensures h == Finish(mHashValue, mData)
    {
      var h1 := mHashValue;
      var k1: u32 := 0;
      var tail := |mData| - |mData| % 4;
      var rest := |mData| % 4;
      if rest >= 3 {
        k1 := XorWords(k1, mData[tail + 2] as int * 0x1_0000);
      }
      if rest >= 2 {
        k1 := XorWords(k1, mData[tail + 1] as int * 0x100);
      }
      if rest >= 1 {
        k1 := XorWords(k1, mData[tail]);
        assert k1 == FromLE(Tail(mData)) by {
          GatherTail(Tail(mData));
        }
        k1 := TimesC1(k1);
        k1 := RotateLeft15(k1);
        k1 := TimesC2(k1);
        h1 := XorWords(h1, k1);
      }
      h1 := XorWords(h1, |mData|);
      h := FinalMix(h1);
    }
  }

  lemma GatherTail(t: seq<byte>)
    requires 0 < |t| < 4
    ensures |t| == 3 ==> Xor(Xor(Xor(0, t[2] as int * 0x1_0000), t[1] as int * 0x100), t[0]) == FromLE(t)
    ensures |t| == 2 ==> Xor(Xor(0, t[1] as int * 0x100), t[0]) == FromLE(t)
    ensures |t| == 1 ==> Xor(0, t[0]) == FromLE(t)
  {
    if |t| == 1 {
      XorZero(t[0]);
    } else if |t| == 2 {
      GatherTwo(t[1], t[0]);
      assert FromLE(t[1..]) == t[1];
    } else {
      GatherThree(t[2], t[1], t[0]);
      assert t[1..][1..] == [t[2]] && FromLE([t[2]]) == t[2];
      assert FromLE(t[1..]) == t[1] as int + 0x100 * t[2] as int;
    }
  }

  lemma GatherTwo(b1: nat, b0: byte)
    ensures Xor(Xor(0, b1 * 0x100), b0) == b0 as int + 0x100 * b1
  {
    XorZero(b1 * 0x100);
    assert Pow2(8) == 0x100;
    DisjointXor(b1, b0, 8);
  }

  lemma GatherThree(b2: byte, b1: byte, b0: byte)
    ensures Xor(Xor(Xor(0, b2 as int * 0x1_0000), b1 as int * 0x100), b0)
         == b0 as int + 0x100 * b1 as int + 0x1_0000 * b2 as int
  {
    var high := b2 as int * 0x100 + b1;
    XorZero(b2 as int * 0x1_0000);
    GatherHigh(b2, b1);
    GatherLow(high, b0);
  }

  lemma GatherHigh(b2: byte, b1: byte)
    ensures Xor(b2 as int * 0x1_0000, b1 as int * 0x100) == b2 as int * 0x1_0000 + b1 as int * 0x100
  {
    Pow2Values();
    hide Xor;
    hide Pow2;
    DisjointXor(b2, b1 as int * 0x100, 16);
  }

  lemma GatherLow(high: nat, b0: byte)
    ensures Xor(high * 0x100, b0) == high * 0x100 + b0
  {
    Pow2Values();
    hide Xor;
    hide Pow2;
    DisjointXor(high, b0, 8);
  }

  method HashMurmur(data: seq<byte>, seed: u32) returns (h: u32)
    requires |data| < WORD
    ensures h == Murmur(data, seed)
  {
    var hash := new HashMurmurImpl(data, seed);
    hash.CalculateWithCallback();
    h := hash.Finalize();
  }
}
