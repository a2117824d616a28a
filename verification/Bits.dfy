/**
 * 32-bit words as numbers below 2^32: exclusive or, shifts, rotation and multiplication modulo 2^32,
 * each with the law that undoes it.
 */
module Bits {
  import opened Bytes

  const WORD: int := 0x1_0000_0000

  /** Bitwise exclusive or. */
  function Xor(x: nat, y: nat): nat
    decreases x + y
  {
    if x == 0 && y == 0 then 0 else (x + y) % 2 + 2 * Xor(x / 2, y / 2)
  }

  lemma HalfAndParity(n: nat, s: nat, h: nat)
    requires n == s % 2 + 2 * h
    ensures n % 2 == s % 2 && n / 2 == h
  {
  }

  lemma {:induction false} XorUnfold(x: nat, y: nat)
    ensures Xor(x, y) % 2 == (x + y) % 2
    ensures Xor(x, y) / 2 == Xor(x / 2, y / 2)
  {
    if x == 0 && y == 0 {
      assert Xor(0, 0) == 0;
    } else {
      HalfAndParity(Xor(x, y), x + y, Xor(x / 2, y / 2));
    }
  }

  lemma ParityAssociates(x: nat, y: nat, z: nat, xy: nat, yz: nat)
    requires xy % 2 == (x + y) % 2 && yz % 2 == (y + z) % 2
    ensures (xy + z) % 2 == (x + yz) % 2
  {
  }

  lemma {:induction false} XorAssociates(x: nat, y: nat, z: nat)
    ensures Xor(Xor(x, y), z) == Xor(x, Xor(y, z))
    decreases x + y + z
  {
    if x + y + z == 0 {
    } else {
      XorAssociates(x / 2, y / 2, z / 2);
      XorHalves(x, y, z);
      SameHalfAndParity(Xor(Xor(x, y), z), Xor(x, Xor(y, z)));
    }
  }

  lemma {:induction false} XorHalves(x: nat, y: nat, z: nat)
    ensures Xor(Xor(x, y), z) / 2 == Xor(Xor(x / 2, y / 2), z / 2)
    ensures Xor(x, Xor(y, z)) / 2 == Xor(x / 2, Xor(y / 2, z / 2))
    ensures Xor(Xor(x, y), z) % 2 == Xor(x, Xor(y, z)) % 2
  {
    var xy, yz := Xor(x, y), Xor(y, z);
    XorUnfold(x, y);
    XorUnfold(y, z);
    XorUnfold(xy, z);
    XorUnfold(x, yz);
    ParityAssociates(x, y, z, xy, yz);
  }

  lemma SameHalfAndParity(a: nat, b: nat)
    requires a % 2 == b % 2 && a / 2 == b / 2
    ensures a == b
  {
  }

  lemma {:induction false} XorZero(x: nat)
    ensures Xor(x, 0) == x && Xor(0, x) == x
  {
    if x != 0 {
      XorZero(x / 2);
    }
  }

  lemma {:induction false} XorSelf(x: nat)
    ensures Xor(x, x) == 0
  {
    if x != 0 {
      XorSelf(x / 2);
    }
  }

  /** Applying the same mask twice changes nothing. */
  lemma XorCancels(x: nat, y: nat)
    ensures Xor(Xor(x, y), y) == x
    ensures Xor(x, Xor(x, y)) == y
  {
    XorAssociates(x, y, y);
    XorSelf(y);
    XorAssociates(x, x, y);
    XorSelf(x);
    XorZero(x);
    XorZero(y);
  }

  function Pow2(k: nat): (p: nat)
    ensures p > 0
  {
    if k == 0 then 1 else 2 * Pow2(k - 1)
  }

  lemma Pow2Values()
    ensures Pow2(8) == 0x100 && Pow2(16) == 0x1_0000 && Pow2(32) == WORD
  {
    assert Pow2(12) == 0x1000;
    assert Pow2(20) == 0x10_0000;
    assert Pow2(28) == 0x1000_0000;
  }

  lemma {:induction false} XorBound(x: nat, y: nat, k: nat)
    requires x < Pow2(k) && y < Pow2(k)
    ensures Xor(x, y) < Pow2(k)
  {
    if k > 0 {
      XorBound(x / 2, y / 2, k - 1);
      XorUnfold(x, y);
    }
  }

  function XorWords(x: u32, y: u32): (r: u32) {
    Pow2Values();
    XorBound(x, y, 32);
    Xor(x, y)
  }

  /** `x >> k`. */
  function ShiftRight(x: nat, k: nat): (y: nat)
    ensures y <= x
  {
    if k == 0 then x else ShiftRight(x / 2, k - 1)
  }

  lemma {:induction false} ShiftXor(x: nat, y: nat, k: nat)
    ensures ShiftRight(Xor(x, y), k) == Xor(ShiftRight(x, k), ShiftRight(y, k))
    decreases k
  {
    if k > 0 {
      XorUnfold(x, y);
      ShiftXor(x / 2, y / 2, k - 1);
    }
  }

  lemma {:induction false} ShiftTwice(x: nat, j: nat, k: nat)
    ensures ShiftRight(ShiftRight(x, j), k) == ShiftRight(x, j + k)
    decreases j
  {
    if j > 0 {
      ShiftTwice(x / 2, j - 1, k);
    }
  }

  /** `x ^ (x >> 16)`. */
  function XorShift16(x: u32): (y: u32) {
    XorWords(x, x / 0x1_0000)
  }

  /** `x ^ (x >> 13)`. */
  function XorShift13(x: u32): (y: u32) {
    XorWords(x, x / 0x2000)
  }

  /** `y ^ (y >> 13) ^ (y >> 26)`. */
  function UnXorShift13(y: u32): (x: u32) {
    XorWords(XorWords(y, y / 0x2000), y / 0x400_0000)
  }

  lemma HalvedFourTimes(x: nat, a: nat, b: nat, c: nat, d: nat)
    requires 2 * a <= x <= 2 * a + 1 && 2 * b <= a <= 2 * b + 1 && 2 * c <= b <= 2 * c + 1 && 2 * d <= c <= 2 * d + 1
    ensures d == x / 0x10
  {
    assert 0x10 * d <= x <= 0x10 * d + 0xF;
  }

  lemma {:induction false} ShiftFour(x: nat)
    ensures ShiftRight(x, 4) == x / 0x10
  {
    var a, b, c, d := x / 2, x / 2 / 2, x / 2 / 2 / 2, x / 2 / 2 / 2 / 2;
    assert ShiftRight(x, 4) == ShiftRight(a, 3) == ShiftRight(b, 2) == ShiftRight(c, 1) == ShiftRight(d, 0) == d;
    HalvedFourTimes(x, a, b, c, d);
  }

  lemma ShiftBy13(x: nat)
    ensures ShiftRight(x, 13) == x / 0x2000
  {
    ShiftTwice(x, 4, 9);
    ShiftTwice(x / 0x10, 4, 5);
    ShiftTwice(x / 0x10 / 0x10, 4, 1);
    ShiftFour(x);
    ShiftFour(x / 0x10);
    ShiftFour(x / 0x10 / 0x10);
    var y := x / 0x10 / 0x10 / 0x10;
    assert ShiftRight(y, 1) == y / 2;
  }

  lemma ShiftBy16(x: nat)
    ensures ShiftRight(x, 16) == x / 0x1_0000
  {
    ShiftTwice(x, 13, 3);
    ShiftBy13(x);
    var y := x / 0x2000;
    assert ShiftRight(y, 3) == ShiftRight(y / 2, 2) == ShiftRight(y / 2 / 2, 1) == y / 2 / 2 / 2;
  }

  lemma XorShift16Inverts(x: u32)
    ensures XorShift16(XorShift16(x)) == x
  {
    var a := x / 0x1_0000;
    ShiftXor(x, a, 16);
    ShiftBy16(x);
    ShiftBy16(a);
    ShiftBy16(Xor(x, a));
    XorZero(a);
    XorCancels(x, a);
  }

  lemma Shift13Xor(x: nat, y: nat)
    ensures Xor(x, y) / 0x2000 == Xor(x / 0x2000, y / 0x2000)
  {
    ShiftXor(x, y, 13);
    ShiftBy13(x);
    ShiftBy13(y);
    ShiftBy13(Xor(x, y));
  }

  lemma ShiftsOfWord(x: u32)
    ensures x / 0x2000 / 0x2000 == x / 0x400_0000
    ensures x / 0x400_0000 / 0x2000 == 0
  {
  }

  lemma ShiftAgain(n: nat)
    ensures n / 0x2000 / 0x2000 == n / 0x400_0000
  {
  }

  /** The shifts of `x ^ (x >> 13)`: a third shift by 13 leaves nothing. */
  lemma ShiftedXor13(x: u32, a: nat, b: nat, y: nat)
    requires a == x / 0x2000 && b == x / 0x400_0000 && y == Xor(x, a)
    ensures y / 0x2000 == Xor(a, b)
    ensures y / 0x400_0000 == b
  {
    ShiftsOfWord(x);
    Shift13Xor(x, a);
    Shift13Xor(a, b);
    XorZero(b);
    ShiftAgain(y);
  }

  /** Two terms of the series undo the shift by 13. */
  lemma XorShift13Inverts(x: u32)
    ensures UnXorShift13(XorShift13(x)) == x
  {
    var a, b := x / 0x2000, x / 0x400_0000;
    ShiftedXor13(x, a, b, Xor(x, a));
    XorChain(x, a, b);
  }

  lemma XorShift13InvertsBack(x: u32)
    ensures XorShift13(UnXorShift13(x)) == x
  {
    var a, b := x / 0x2000, x / 0x400_0000;
    ShiftsOfWord(x);
    Shift13Xor(x, a);
    Shift13Xor(Xor(x, a), b);
    XorZero(Xor(a, b));
    XorChain(x, a, b);
  }

  lemma XorChain(x: nat, a: nat, b: nat)
    ensures Xor(Xor(Xor(x, a), Xor(a, b)), b) == x
    ensures Xor(Xor(Xor(x, a), b), Xor(a, b)) == x
  {
    XorAssociates(x, a, b);
    XorCancels(x, Xor(a, b));
    XorAssociates(Xor(x, a), a, b);
    XorCancels(x, a);
    XorCancels(x, b);
  }

  // Left rotations by 13, 15, 17 and 19: `x << r` keeps the low 32 - r bits, and the two shifted parts
  // share no bit, so the or is a sum.

  function RotateLeft13(x: u32): (y: u32) {
    x % 0x8_0000 * 0x2000 + x / 0x8_0000
  }

  function RotateLeft15(x: u32): (y: u32) {
    x % 0x2_0000 * 0x8000 + x / 0x2_0000
  }

  function RotateLeft17(x: u32): (y: u32) {
    x % 0x8000 * 0x2_0000 + x / 0x8000
  }

  function RotateLeft19(x: u32): (y: u32) {
    x % 0x2000 * 0x8_0000 + x / 0x2000
  }

  lemma Rotate13Inverts(x: u32)
    ensures RotateLeft19(RotateLeft13(x)) == x
  {
    var y := RotateLeft13(x);
    assert y / 0x2000 == x % 0x8_0000 && y % 0x2000 == x / 0x8_0000;
  }

  lemma Rotate19Inverts(x: u32)
    ensures RotateLeft13(RotateLeft19(x)) == x
  {
    var y := RotateLeft19(x);
    assert y / 0x8_0000 == x % 0x2000 && y % 0x8_0000 == x / 0x2000;
  }

  lemma Rotate15Inverts(x: u32)
    ensures RotateLeft17(RotateLeft15(x)) == x
  {
    var y := RotateLeft15(x);
    assert y / 0x8000 == x % 0x2_0000 && y % 0x8000 == x / 0x2_0000;
  }

  lemma Rotate17Inverts(x: u32)
    ensures RotateLeft15(RotateLeft17(x)) == x
  {
    var y := RotateLeft17(x);
    assert y / 0x2_0000 == x % 0x8000 && y % 0x2_0000 == x / 0x8000;
  }

  /** A number as unsigned 32-bit arithmetic keeps it: 2^32 is dropped until it fits. */
  function Wrap(n: nat): (w: u32) {
    if n < 0x1_0000_0000 then n else Wrap(n - 0x1_0000_0000)
  }

  lemma {:induction false} WrapIsModulo(n: nat)
    ensures Wrap(n) == n % WORD
  {
    if n >= WORD {
      WrapIsModulo(n - WORD);
    }
  }

  /** Multiplying by a factor and then by its inverse modulo 2^32 changes nothing. */
  lemma ProductInverts(x: u32, c: nat, d: nat)
    requires c * d % WORD == 1
    ensures Wrap(Wrap(x * c) * d) == x
  {
    WrapIsModulo(x * c);
    var r: nat := Wrap(x * c);
    WrapIsModulo(r * d);
    var q := x * c / WORD;
    var k := c * d / WORD;
    assert x * c == q * WORD + r && c * d == k * WORD + 1;
    ProductExpands(x, c, d, q, r, k);
    MultipleDropped(r * d, x * k - q * d, x);
  }

  lemma ProductExpands(x: nat, c: nat, d: nat, q: nat, r: nat, k: nat)
    requires x * c == q * WORD + r && c * d == k * WORD + 1
    ensures r * d == (x * k - q * d) * WORD + x
  {
    assert (x * c) * d == x * (c * d);
    assert (q * WORD + r) * d == (q * d) * WORD + r * d;
    assert x * (k * WORD + 1) == (x * k) * WORD + x;
  }

  lemma MultipleDropped(n: nat, t: int, x: u32)
    requires n == t * WORD + x
    ensures n % WORD == x
  {
  }

  /** Words that share no bit combine by exclusive or as they do by addition. */
  lemma {:induction false} DisjointXor(high: nat, low: nat, k: nat)
    requires low < Pow2(k)
    ensures Xor(high * Pow2(k), low) == high * Pow2(k) + low
  {
    if k == 0 {
      XorZero(high);
    } else {
      var h := high * Pow2(k - 1);
      assert high * Pow2(k) == 2 * h;
      DisjointXor(high, low / 2, k - 1);
      EvenXor(h, low);
    }
  }

  lemma EvenXor(h: nat, low: nat)
    requires Xor(h, low / 2) == h + low / 2
    ensures Xor(2 * h, low) == 2 * h + low
  {
    XorUnfold(2 * h, low);
    hide Xor;
    assert 2 * h / 2 == h;
    SameHalfAndParity(Xor(2 * h, low), 2 * h + low);
  }

  // ----- exclusive or, bit by bit -----

  lemma {:induction false} ShiftDivides(x: nat, k: nat)
    ensures ShiftRight(x, k) == x / Pow2(k)
  {
    if k > 0 {
      ShiftDivides(x / 2, k - 1);
      HalfThenDivide(x, Pow2(k - 1));
    }
  }

  lemma HalfThenDivide(x: nat, p: nat)
    requires p > 0
    ensures x / 2 / p == x / (2 * p)
  {
    var q, r := x / 2 / p, x / 2 % p;
    assert x / 2 == q * p + r;
    assert x == q * (2 * p) + (2 * r + x % 2);
    QuotientIs(x, 2 * p, q, 2 * r + x % 2);
  }

  lemma QuotientIs(x: nat, d: nat, q: nat, r: nat)
    requires d > 0 && r < d && x == q * d + r
    ensures x / d == q
  {
    var e := x / d - q;
    assert x == (x / d) * d + x % d;
    assert e * d == r - x % d;
    if e != 0 {
      MultipleIsLarge(e, d);
    }
  }

  lemma {:induction false} MultipleIsLarge(e: int, d: int)
    requires e != 0 && d > 0
    ensures if e > 0 then e * d >= d else e * d <= -d
    decreases if e > 0 then e else -e
  {
    if e > 1 {
      MultipleIsLarge(e - 1, d);
      assert e * d == (e - 1) * d + d;
    } else if e < -1 {
      MultipleIsLarge(e + 1, d);
      assert e * d == (e + 1) * d - d;
    }
  }

  /** Bit `k` of an exclusive or is set exactly when it is set in one of the two. */
  lemma XorBit(x: nat, y: nat, k: nat)
    ensures Xor(x, y) / Pow2(k) % 2 == if x / Pow2(k) % 2 == y / Pow2(k) % 2 then 0 else 1
  {
    hide Xor;
    hide ShiftRight;
    hide Pow2;
    var a, b := ShiftRight(x, k), ShiftRight(y, k);
    ShiftDivides(x, k);
    ShiftDivides(y, k);
    ShiftDivides(Xor(x, y), k);
    ShiftXor(x, y, k);
    XorUnfold(a, b);
    OddSum(a, b);
  }

  lemma OddSum(a: nat, b: nat)
    ensures (a + b) % 2 == if a % 2 == b % 2 then 0 else 1
  {
  }
}
