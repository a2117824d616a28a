/** Values of the hash on given bytes, among them those that hash.h asserts at compile time. */
module HashVectors {
  import opened Bytes
  import opened Bits
  import opened Hash

  // ----- exclusive or, hexadecimal digit by digit -----

  /** A hexadecimal digit by its bits, the highest first. */
  datatype Hex = Hex(b3: bool, b2: bool, b1: bool, b0: bool)

  function Bit(b: bool): nat { if b then 1 else 0 }

  function Digit(h: Hex): nat {
    4 * Pair(h.b3, h.b2) + Pair(h.b1, h.b0)
  }

  function XorHex(g: Hex, h: Hex): Hex {
    Hex(g.b3 != h.b3, g.b2 != h.b2, g.b1 != h.b1, g.b0 != h.b0)
  }

  /** One more bit at the low end of two numbers and of their exclusive or. */
  lemma XorWithBit(x: nat, y: nat, z: nat, m: nat, n: nat, p: bool, q: bool, r: bool)
    requires x == 2 * m + Bit(p) && y == 2 * n + Bit(q) && z == 2 * Xor(m, n) + Bit(r) && r == (p != q)
    ensures Xor(x, y) == z
  {
    hide Xor;
    HalfAndBit(m, p);
    HalfAndBit(n, q);
    HalfAndBit(Xor(m, n), r);
    XorUnfold(x, y);
    OddSum(x, y);
    SameHalfAndParity(Xor(x, y), z);
  }

  lemma HalfAndBit(m: nat, p: bool)
    ensures (2 * m + Bit(p)) / 2 == m && (2 * m + Bit(p)) % 2 == Bit(p)
  {
  }

  function Pair(p: bool, q: bool): nat { 2 * Bit(p) + Bit(q) }

  lemma XorWithPair(x: nat, y: nat, z: nat, m: nat, n: nat, p: bool, p': bool, q: bool, q': bool,
                    r: bool, r': bool)
    requires r == (p != q) && r' == (p' != q')
    requires x == 4 * m + Pair(p, p') && y == 4 * n + Pair(q, q') && z == 4 * Xor(m, n) + Pair(r, r')
    ensures Xor(x, y) == z
  {
    hide Xor;
    hide Bit;
    XorWithBit(2 * m + Bit(p), 2 * n + Bit(q), 2 * Xor(m, n) + Bit(r), m, n, p, q, r);
    XorWithBit(x, y, z, 2 * m + Bit(p), 2 * n + Bit(q), p', q', r');
  }

  /** One more digit. */
  lemma XorWithDigit(x: nat, y: nat, z: nat, m: nat, n: nat, g: Hex, h: Hex)
    requires x == 0x10 * m + Digit(g) && y == 0x10 * n + Digit(h) && z == 0x10 * Xor(m, n) + Digit(XorHex(g, h))
    ensures Xor(x, y) == z
  {
    hide Xor;
    var k := XorHex(g, h);
    assert Digit(k) == 4 * Pair(k.b3, k.b2) + Pair(k.b1, k.b0);
    hide Pair;
    var x1, y1, z1 := 4 * m + Pair(g.b3, g.b2), 4 * n + Pair(h.b3, h.b2), 4 * Xor(m, n) + Pair(k.b3, k.b2);
    XorWithPair(x1, y1, z1, m, n, g.b3, g.b2, h.b3, h.b2, k.b3, k.b2);
    XorWithPair(x, y, z, x1, y1, g.b1, g.b0, h.b1, h.b0, k.b1, k.b0);
  }

  function High(x: bv8): Hex { Hex(x & 0x80 != 0, x & 0x40 != 0, x & 0x20 != 0, x & 0x10 != 0) }
  function Low(x: bv8): Hex { Hex(x & 8 != 0, x & 4 != 0, x & 2 != 0, x & 1 != 0) }

  function Int(x: bv8): byte { x as int }

  lemma ByteByBits(x: bv8)
    ensures x as int == (if x & 0x80 != 0 then 0x80 else 0) + (if x & 0x40 != 0 then 0x40 else 0)
      + (if x & 0x20 != 0 then 0x20 else 0) + (if x & 0x10 != 0 then 0x10 else 0)
      + (if x & 8 != 0 then 8 else 0) + (if x & 4 != 0 then 4 else 0)
      + (if x & 2 != 0 then 2 else 0) + (if x & 1 != 0 then 1 else 0)
  {
  }

  lemma ByteByDigits(x: bv8)
    ensures Int(x) == 0x10 * Digit(High(x)) + Digit(Low(x))
  {
    ByteByBits(x);
    DigitByBits(High(x));
    DigitByBits(Low(x));
    hide Digit;
  }

  lemma DigitByBits(h: Hex)
    ensures Digit(h) == (if h.b3 then 8 else 0) + (if h.b2 then 4 else 0) + (if h.b1 then 2 else 0) + (if h.b0 then 1 else 0)
  {
  }

  lemma DigitsOfXor(x: bv8, y: bv8)
    ensures High(x ^ y) == XorHex(High(x), High(y)) && Low(x ^ y) == XorHex(Low(x), Low(y))
  {
  }

  /** One more byte, on which machine bytes give the exclusive or. */
  lemma XorWithByte(p: nat, q: nat, r: nat, m: nat, n: nat, x: bv8, y: bv8)
    requires p == 0x100 * m + Int(x) && q == 0x100 * n + Int(y) && r == 0x100 * Xor(m, n) + Int(x ^ y)
    ensures Xor(p, q) == r
  {
    ByteByDigits(x);
    ByteByDigits(y);
    ByteByDigits(x ^ y);
    DigitsOfXor(x, y);
    var gx, gy, lx, ly, g, l := High(x), High(y), Low(x), Low(y), High(x ^ y), Low(x ^ y);
    hide *;
    XorWithDigit(0x10 * m + Digit(gx), 0x10 * n + Digit(gy), 0x10 * Xor(m, n) + Digit(g), m, n, gx, gy);
    XorWithDigit(p, q, r, 0x10 * m + Digit(gx), 0x10 * n + Digit(gy), lx, ly);
  }

  /** The exclusive or of two words, evaluated byte by byte. */
  lemma XorIs(m: u32, n: u32, r: u32, a: bv8, b: bv8, c: bv8, d: bv8, a': bv8, b': bv8, c': bv8, d': bv8)
    requires m == 0x100 * (0x100 * (0x100 * Int(a) + Int(b)) + Int(c)) + Int(d)
    requires n == 0x100 * (0x100 * (0x100 * Int(a') + Int(b')) + Int(c')) + Int(d')
    requires r == 0x100 * (0x100 * (0x100 * Int(a ^ a') + Int(b ^ b')) + Int(c ^ c')) + Int(d ^ d')
    ensures XorWords(m, n) == r
  {
    hide Xor;
    hide Int;
    var m1, n1, r1: nat := Int(a), Int(a'), Int(a ^ a');
    var m2, n2, r2: nat := 0x100 * m1 + Int(b), 0x100 * n1 + Int(b'), 0x100 * r1 + Int(b ^ b');
    var m3, n3, r3: nat := 0x100 * m2 + Int(c), 0x100 * n2 + Int(c'), 0x100 * r2 + Int(c ^ c');
    XorZero(0);
    XorWithByte(m1, n1, r1, 0, 0, a, a');
    XorWithByte(m2, n2, r2, m1, n1, b, b');
    XorWithByte(m3, n3, r3, m2, n2, c, c');
    XorWithByte(m, n, r, m3, n3, d, d');
  }

  // ----- the steps of the hash on given words -----

  /** Products by their quotient by 2^32 and rest, rotations by the two parts that change places. */
  lemma ScrambleIs(k: u32, p: nat, a: u32, hi: nat, lo: nat, b: u32, q: nat, s: u32)
    requires k as int * 0xcc9e2d51 == p * 0x1_0000_0000 + a
    requires a == hi * 0x2_0000 + lo && lo < 0x2_0000 && b == lo * 0x8000 + hi
    requires b as int * 0x1b873593 == q * 0x1_0000_0000 + s
    ensures Scramble(k) == s
  {
    WrapIs(k as int * 0xcc9e2d51, p, a);
    WrapIs(b as int * 0x1b873593, q, s);
    Rotate15Is(a, hi, lo);
    hide Wrap;
    hide RotateLeft15;
  }

  lemma WrapIs(n: nat, q: nat, r: u32)
    requires n == q * 0x1_0000_0000 + r
    ensures Wrap(n) == r
  {
    WrapIsModulo(n);
    MultipleDropped(n, q, r);
    hide Wrap;
  }

  lemma Rotate15Is(x: u32, hi: nat, lo: nat)
    requires x == hi * 0x2_0000 + lo && lo < 0x2_0000
    ensures RotateLeft15(x) == lo * 0x8000 + hi
  {
  }

  lemma Rotate13Is(x: u32, hi: nat, lo: nat)
    requires x == hi * 0x8_0000 + lo && lo < 0x8_0000
    ensures RotateLeft13(x) == lo * 0x2000 + hi
  {
  }

  /** From the exclusive or with the state to the next state. */
  lemma MixIs(h: u32, k: u32, x: u32, hi: nat, lo: nat, r: u32, q: nat, next: u32)
    requires x == XorWords(h, Scramble(k))
    requires x == hi * 0x8_0000 + lo && lo < 0x8_0000 && r == lo * 0x2000 + hi
    requires r as int * 5 + 0xe6546b64 == q * 0x1_0000_0000 + next
    ensures MixBlock(h, k) == next
  {
    hide XorWords;
    hide Scramble;
    WrapIs(r as int * 5 + 0xe6546b64, q, next);
    Rotate13Is(x, hi, lo);
    hide Wrap;
    hide RotateLeft13;
  }

  lemma ShiftsAre(h: u32, high: nat, low: nat, place: nat)
    requires place > 0 && h == high * place + low && low < place
    ensures h / place == high
  {
    QuotientIs(h, place, high, low);
  }

  /** The two products by quotient and rest, the three shifts by the number shifted and what drops out. */
  lemma FinalMixIs(h: u32, hHigh: u32, hLow: nat, a: u32, p: nat, b: u32, bHigh: u32, bLow: nat, c: u32,
                   q: nat, d: u32, dHigh: u32, dLow: nat, e: u32)
    requires h == hHigh as int * 0x1_0000 + hLow && hLow < 0x1_0000 && a == XorWords(h, hHigh)
    requires a as int * 0x85ebca6b == p * 0x1_0000_0000 + b
    requires b == bHigh as int * 0x2000 + bLow && bLow < 0x2000 && c == XorWords(b, bHigh)
    requires c as int * 0xc2b2ae35 == q * 0x1_0000_0000 + d
    requires d == dHigh as int * 0x1_0000 + dLow && dLow < 0x1_0000 && e == XorWords(d, dHigh)
    ensures FinalMix(h) == e
  {
    hide XorWords;
    ShiftsAre(h, hHigh, hLow, 0x1_0000);
    WrapIs(a as int * 0x85ebca6b, p, b);
    ShiftsAre(b, bHigh, bLow, 0x2000);
    WrapIs(c as int * 0xc2b2ae35, q, d);
    ShiftsAre(d, dHigh, dLow, 0x1_0000);
    hide Wrap;
  }

  // ----- from the bytes -----

  lemma NoBlocks(seed: u32, data: seq<byte>)
    ensures MixBlocks(seed, data, 0) == seed
  {
  }

  lemma NextBlock(seed: u32, data: seq<byte>, i: nat, h: u32, k: u32, next: u32)
    requires 4 * i + 4 <= |data| && MixBlocks(seed, data, i) == h && MixBlock(h, k) == next
    requires k as int == data[4 * i] as int + 0x100 * data[4 * i + 1] as int
      + 0x1_0000 * data[4 * i + 2] as int + 0x100_0000 * data[4 * i + 3] as int
    ensures MixBlocks(seed, data, i + 1) == next
  {
    hide MixBlock;
    assert GetBlock(data, i) == k;
  }

  lemma NoTail(h: u32, data: seq<byte>)
    requires |data| % 4 == 0
    ensures MixTail(h, Tail(data)) == h
  {
  }

  /** The tail word: the bytes after the last whole block, the first of them lowest. */
  lemma TailIs(h: u32, data: seq<byte>, k: u32, x: u32)
    requires |data| % 4 > 0
    requires var n := |data| - |data| % 4;
      k as int == data[n] as int
        + (if |data| % 4 > 1 then 0x100 * data[n + 1] as int else 0)
        + (if |data| % 4 > 2 then 0x1_0000 * data[n + 2] as int else 0)
    requires XorWords(h, Scramble(k)) == x
    ensures MixTail(h, Tail(data)) == x
  {
    hide XorWords;
    hide Scramble;
    TailWord(Tail(data));
  }

  lemma TailWord(t: seq<byte>)
    requires 0 < |t| < 4
    ensures FromLE(t) == t[0] as int
      + (if |t| > 1 then 0x100 * t[1] as int else 0) + (if |t| > 2 then 0x1_0000 * t[2] as int else 0)
  {
    if |t| > 1 {
      assert FromLE(t[1..]) == t[1] as int + 0x100 * FromLE(t[1..][1..]);
      if |t| > 2 {
        assert FromLE(t[1..][1..]) == t[2] as int + 0x100 * FromLE(t[1..][1..][1..]);
      }
    }
  }

  lemma MurmurIs(seed: u32, data: seq<byte>, h: u32, x: u32, r: u32)
    requires |data| < 0x1_0000_0000 && MixBlocks(seed, data, |data| / 4) == h && MixTail(h, Tail(data)) == x
    requires FinalMix(XorWords(x, |data|)) == r
    ensures Murmur(data, seed) == r
  {
    hide XorWords;
    hide FinalMix;
    hide MixBlocks;
    hide MixTail;
    hide Tail;
  }

  // ----- the values -----

  lemma MeowMeowMeowBlock1()
    ensures MixBlock(0, 0x776f656d) == 0xa25f06c1
  {
    hide XorWords;
    hide Scramble;
    hide MixBlock;
    ScrambleIs(0x776f656d, 0x5f7690b7, 0xd459407d, 0x6a2c, 0x1407d, 0xa03eea2c, 0x113b4569, 0x2bcf9344);
    XorIs(0, 0x2bcf9344, 0x2bcf9344, 0x00, 0x00, 0x00, 0x00, 0x2b, 0xcf, 0x93, 0x44);
    MixIs(0, 0x776f656d, 0x2bcf9344, 0x579, 0x79344, 0xf2688579, 5, 0xa25f06c1);
  }

  lemma MeowMeowMeowBlock2()
    ensures MixBlock(0xa25f06c1, 0x6f656d20) == 0x212ff1a1
  {
    hide XorWords;
    hide Scramble;
    hide MixBlock;
    ScrambleIs(0x6f656d20, 0x5909a746, 0xed062720, 0x7683, 0x2720, 0x13907683, 0x21a91c6, 0x74922c39);
    XorIs(0xa25f06c1, 0x74922c39, 0xd6cd2af8, 0xa2, 0x5f, 0x06, 0xc1, 0x74, 0x92, 0x2c, 0x39);
    MixIs(0xa25f06c1, 0x6f656d20, 0xd6cd2af8, 0x1ad9, 0x52af8, 0xa55f1ad9, 4, 0x212ff1a1);
  }

  lemma MeowMeowMeowBlock3()
    ensures MixBlock(0x212ff1a1, 0x656d2077) == 0x54d988a8
  {
    hide XorWords;
    hide Scramble;
    hide MixBlock;
    ScrambleIs(0x656d2077, 0x5111a12d, 0x23ae30a7, 0x11d7, 0x30a7, 0x185391d7, 0x29da98a, 0xda8f4175);
    XorIs(0x212ff1a1, 0xda8f4175, 0xfba0b0d4, 0x21, 0x2f, 0xf1, 0xa1, 0xda, 0x8f, 0x41, 0x75);
    MixIs(0x212ff1a1, 0x656d2077, 0xfba0b0d4, 0x1f74, 0xb0d4, 0x161a9f74, 1, 0x54d988a8);
  }

  lemma MeowMeowMeowTail()
    ensures XorWords(0x54d988a8, Scramble(0x776f)) == 0x3d0dfd81
  {
    hide XorWords;
    hide Scramble;
    ScrambleIs(0x776f, 0x5f76, 0x3fa64d1f, 0x1fd3, 0x4d1f, 0x268f9fd3, 0x42583aa, 0x69d47529);
    XorIs(0x54d988a8, 0x69d47529, 0x3d0dfd81, 0x54, 0xd9, 0x88, 0xa8, 0x69, 0xd4, 0x75, 0x29);
  }

  lemma MeowMeowMeowEnd()
    ensures FinalMix(XorWords(0x3d0dfd81, 14)) == 0x1a1888b6
  {
    hide XorWords;
    hide FinalMix;
    XorIs(0x3d0dfd81, 0xe, 0x3d0dfd8f, 0x3d, 0x0d, 0xfd, 0x81, 0x00, 0x00, 0x00, 0x0e);
    XorIs(0x3d0dfd8f, 0x3d0d, 0x3d0dc082, 0x3d, 0x0d, 0xfd, 0x8f, 0x00, 0x00, 0x3d, 0x0d);
    XorIs(0x9ffc0a56, 0x4ffe0, 0x9ff8f5b6, 0x9f, 0xfc, 0x0a, 0x56, 0x00, 0x04, 0xff, 0xe0);
    XorIs(0x1a1892ae, 0x1a18, 0x1a1888b6, 0x1a, 0x18, 0x92, 0xae, 0x00, 0x00, 0x1a, 0x18);
    FinalMixIs(0x3d0dfd8f, 0x3d0d, 0xfd8f, 0x3d0dc082, 0x1ff060e9, 0x9ffc0a56, 0x4ffe0, 0xa56, 0x9ff8f5b6,
               0x79aa522b, 0x1a1892ae, 0x1a18, 0x92ae, 0x1a1888b6);
  }

  /** "meow meow meow", as asserted in hash.h. */
  lemma MeowMeowMeow()
    ensures Murmur([0x6d, 0x65, 0x6f, 0x77, 0x20, 0x6d, 0x65, 0x6f, 0x77, 0x20, 0x6d, 0x65, 0x6f, 0x77], 0) == 0x1a1888b6
  {
    hide Murmur;
    hide MixBlocks;
    hide MixBlock;
    hide Scramble;
    hide XorWords;
    hide MixTail;
    hide Tail;
    hide FinalMix;
    var data: seq<byte> := [0x6d, 0x65, 0x6f, 0x77, 0x20, 0x6d, 0x65, 0x6f, 0x77, 0x20, 0x6d, 0x65, 0x6f, 0x77];
    NoBlocks(0, data);
    MeowMeowMeowBlock1();
    NextBlock(0, data, 0, 0, 0x776f656d, 0xa25f06c1);
    MeowMeowMeowBlock2();
    NextBlock(0, data, 1, 0xa25f06c1, 0x6f656d20, 0x212ff1a1);
    MeowMeowMeowBlock3();
    NextBlock(0, data, 2, 0x212ff1a1, 0x656d2077, 0x54d988a8);
    MeowMeowMeowTail();
    TailIs(0x54d988a8, data, 0x776f, 0x3d0dfd81);
    MeowMeowMeowEnd();
    MurmurIs(0, data, 0x54d988a8, 0x3d0dfd81, 0x1a1888b6);
  }

  lemma HaiiiiiiiiiiiiBlock1()
    ensures MixBlock(0, 0x69696148) == 0xf3e6a886
  {
    hide XorWords;
    hide Scramble;
    hide MixBlock;
    ScrambleIs(0x69696148, 0x54411b38, 0x4ae16fc8, 0x2570, 0x16fc8, 0xb7e42570, 0x13c62fbe, 0x61d1af50);
    XorIs(0, 0x61d1af50, 0x61d1af50, 0x00, 0x00, 0x00, 0x00, 0x61, 0xd1, 0xaf, 0x50);
    MixIs(0, 0x69696148, 0x61d1af50, 0xc3a, 0x1af50, 0x35ea0c3a, 1, 0xf3e6a886);
  }

  lemma HaiiiiiiiiiiiiBlock2()
    ensures MixBlock(0xf3e6a886, 0x69696969) == 0x8c5c9c2c
  {
    hide XorWords;
    hide Scramble;
    hide MixBlock;
    ScrambleIs(0x69696969, 0x544121b7, 0x9cafcf39, 0x4e57, 0x1cf39, 0xe79cce57, 0x18e7ddec, 0x72a37ef5);
    XorIs(0xf3e6a886, 0x72a37ef5, 0x8145d673, 0xf3, 0xe6, 0xa8, 0x86, 0x72, 0xa3, 0x7e, 0xf5);
    MixIs(0xf3e6a886, 0x69696969, 0x8145d673, 0x1028, 0x5d673, 0xbace7028, 4, 0x8c5c9c2c);
  }

  lemma HaiiiiiiiiiiiiBlock3()
    ensures MixBlock(0x8c5c9c2c, 0x69696969) == 0xd41caabf
  {
    hide XorWords;
    hide Scramble;
    hide MixBlock;
    ScrambleIs(0x69696969, 0x544121b7, 0x9cafcf39, 0x4e57, 0x1cf39, 0xe79cce57, 0x18e7ddec, 0x72a37ef5);
    XorIs(0x8c5c9c2c, 0x72a37ef5, 0xfeffe2d9, 0x8c, 0x5c, 0x9c, 0x2c, 0x72, 0xa3, 0x7e, 0xf5);
    MixIs(0x8c5c9c2c, 0x69696969, 0xfeffe2d9, 0x1fdf, 0x7e2d9, 0xfc5b3fdf, 5, 0xd41caabf);
  }

  lemma HaiiiiiiiiiiiiTail()
    ensures XorWords(0xd41caabf, Scramble(0x6969)) == 0xb4669ede
  {
    hide XorWords;
    hide Scramble;
    ScrambleIs(0x6969, 0x5440, 0xcd76cf39, 0x66bb, 0xcf39, 0x679ce6bb, 0xb2445c2, 0x607a3461);
    XorIs(0xd41caabf, 0x607a3461, 0xb4669ede, 0xd4, 0x1c, 0xaa, 0xbf, 0x60, 0x7a, 0x34, 0x61);
  }

  lemma HaiiiiiiiiiiiiEnd()
    ensures FinalMix(XorWords(0xb4669ede, 14)) == 0x6726fccb
  {
    hide XorWords;
    hide FinalMix;
    XorIs(0xb4669ede, 0xe, 0xb4669ed0, 0xb4, 0x66, 0x9e, 0xde, 0x00, 0x00, 0x00, 0x0e);
    XorIs(0xb4669ed0, 0xb466, 0xb4662ab6, 0xb4, 0x66, 0x9e, 0xd0, 0x00, 0x00, 0xb4, 0x66);
    XorIs(0xc7797612, 0x63bcb, 0xc77f4dd9, 0xc7, 0x79, 0x76, 0x12, 0x00, 0x06, 0x3b, 0xcb);
    XorIs(0x67269bed, 0x6726, 0x6726fccb, 0x67, 0x26, 0x9b, 0xed, 0x00, 0x00, 0x67, 0x26);
    FinalMixIs(0xb4669ed0, 0xb466, 0x9ed0, 0xb4662ab6, 0x5e5f3c9d, 0xc7797612, 0x63bcb, 0x1612, 0xc77f4dd9,
               0x97b9b744, 0x67269bed, 0x6726, 0x9bed, 0x6726fccb);
  }

  /** "Haiiiiiiiiiiii", as asserted in hash.h. */
  lemma Haiiiiiiiiiiii()
    ensures Murmur([0x48, 0x61, 0x69, 0x69, 0x69, 0x69, 0x69, 0x69, 0x69, 0x69, 0x69, 0x69, 0x69, 0x69], 0) == 0x6726fccb
  {
    hide Murmur;
    hide MixBlocks;
    hide MixBlock;
    hide Scramble;
    hide XorWords;
    hide MixTail;
    hide Tail;
    hide FinalMix;
    var data: seq<byte> := [0x48, 0x61, 0x69, 0x69, 0x69, 0x69, 0x69, 0x69, 0x69, 0x69, 0x69, 0x69, 0x69, 0x69];
    NoBlocks(0, data);
    HaiiiiiiiiiiiiBlock1();
    NextBlock(0, data, 0, 0, 0x69696148, 0xf3e6a886);
    HaiiiiiiiiiiiiBlock2();
    NextBlock(0, data, 1, 0xf3e6a886, 0x69696969, 0x8c5c9c2c);
    HaiiiiiiiiiiiiBlock3();
    NextBlock(0, data, 2, 0x8c5c9c2c, 0x69696969, 0xd41caabf);
    HaiiiiiiiiiiiiTail();
    TailIs(0xd41caabf, data, 0x6969, 0xb4669ede);
    HaiiiiiiiiiiiiEnd();
    MurmurIs(0, data, 0xd41caabf, 0xb4669ede, 0x6726fccb);
  }

  lemma SeededThreesBlock1()
    ensures MixBlock(0xb00b1e5, 0x3333333a) == 0x4d13c1a1
  {
    hide XorWords;
    hide Scramble;
    hide MixBlock;
    ScrambleIs(0x3333333a, 0x28ec6f7c, 0x900675a, 0x480, 0x675a, 0x33ad0480, 0x58e8a87, 0x5dc81580);
    XorIs(0xb00b1e5, 0x5dc81580, 0x56c8a465, 0x0b, 0x00, 0xb1, 0xe5, 0x5d, 0xc8, 0x15, 0x80);
    MixIs(0xb00b1e5, 0x3333333a, 0x56c8a465, 0xad9, 0xa465, 0x148caad9, 1, 0x4d13c1a1);
  }

  lemma SeededThreesBlock2()
    ensures MixBlock(0x4d13c1a1, 0x33333333) == 0x68ec788
  {
    hide XorWords;
    hide Scramble;
    hide MixBlock;
    ScrambleIs(0x33333333, 0x28ec6f76, 0x70ad2a23, 0x3856, 0x12a23, 0x9511b856, 0x100799fb, 0x8bb0a762);
    XorIs(0x4d13c1a1, 0x8bb0a762, 0xc6a366c3, 0x4d, 0x13, 0xc1, 0xa1, 0x8b, 0xb0, 0xa7, 0x62);
    MixIs(0x4d13c1a1, 0x33333333, 0xc6a366c3, 0x18d4, 0x366c3, 0x6cd878d4, 3, 0x68ec788);
  }

  lemma SeededThreesTail()
    ensures XorWords(0x68ec788, Scramble(0x3333)) == 0x26dfce17
  {
    hide XorWords;
    hide Scramble;
    ScrambleIs(0x3333, 0x28ec, 0x468a2a23, 0x2345, 0x2a23, 0x1511a345, 0x243fcee, 0x2051099f);
    XorIs(0x68ec788, 0x2051099f, 0x26dfce17, 0x06, 0x8e, 0xc7, 0x88, 0x20, 0x51, 0x09, 0x9f);
  }

  lemma SeededThreesEnd()
    ensures FinalMix(XorWords(0x26dfce17, 10)) == 0x4f39bed5
  {
    hide XorWords;
    hide FinalMix;
    XorIs(0x26dfce17, 0xa, 0x26dfce1d, 0x26, 0xdf, 0xce, 0x17, 0x00, 0x00, 0x00, 0x0a);
    XorIs(0x26dfce1d, 0x26df, 0x26dfe8c2, 0x26, 0xdf, 0xce, 0x1d, 0x00, 0x00, 0x26, 0xdf);
    XorIs(0x61555d16, 0x30aaa, 0x615657bc, 0x61, 0x55, 0x5d, 0x16, 0x00, 0x03, 0x0a, 0xaa);
    XorIs(0x4f39f1ec, 0x4f39, 0x4f39bed5, 0x4f, 0x39, 0xf1, 0xec, 0x00, 0x00, 0x4f, 0x39);
    FinalMixIs(0x26dfce1d, 0x26df, 0xce1d, 0x26dfe8c2, 0x14562234, 0x61555d16, 0x30aaa, 0x1d16, 0x615657bc,
               0x4a075ec2, 0x4f39f1ec, 0x4f39, 0xf1ec, 0x4f39bed5);
  }

  /** ":333333333" under the seed 0xB00B1E5, as asserted in hash.h. */
  lemma SeededThrees()
    ensures Murmur([0x3a, 0x33, 0x33, 0x33, 0x33, 0x33, 0x33, 0x33, 0x33, 0x33], 0xb00b1e5) == 0x4f39bed5
  {
    hide Murmur;
    hide MixBlocks;
    hide MixBlock;
    hide Scramble;
    hide XorWords;
    hide MixTail;
    hide Tail;
    hide FinalMix;
    var data: seq<byte> := [0x3a, 0x33, 0x33, 0x33, 0x33, 0x33, 0x33, 0x33, 0x33, 0x33];
    NoBlocks(0xb00b1e5, data);
    SeededThreesBlock1();
    NextBlock(0xb00b1e5, data, 0, 0xb00b1e5, 0x3333333a, 0x4d13c1a1);
    SeededThreesBlock2();
    NextBlock(0xb00b1e5, data, 1, 0x4d13c1a1, 0x33333333, 0x68ec788);
    SeededThreesTail();
    TailIs(0x68ec788, data, 0x3333, 0x26dfce17);
    SeededThreesEnd();
    MurmurIs(0xb00b1e5, data, 0x68ec788, 0x26dfce17, 0x4f39bed5);
  }

  lemma NoTailMeowBlock1()
    ensures MixBlock(0, 0x776f656d) == 0xa25f06c1
  {
    hide XorWords;
    hide Scramble;
    hide MixBlock;
    ScrambleIs(0x776f656d, 0x5f7690b7, 0xd459407d, 0x6a2c, 0x1407d, 0xa03eea2c, 0x113b4569, 0x2bcf9344);
    XorIs(0, 0x2bcf9344, 0x2bcf9344, 0x00, 0x00, 0x00, 0x00, 0x2b, 0xcf, 0x93, 0x44);
    MixIs(0, 0x776f656d, 0x2bcf9344, 0x579, 0x79344, 0xf2688579, 5, 0xa25f06c1);
  }

  lemma NoTailMeowEnd()
    ensures FinalMix(XorWords(0xa25f06c1, 4)) == 0xe1f9425d
  {
    hide XorWords;
    hide FinalMix;
    XorIs(0xa25f06c1, 4, 0xa25f06c5, 0xa2, 0x5f, 0x06, 0xc1, 0x00, 0x00, 0x00, 0x04);
    XorIs(0xa25f06c5, 0xa25f, 0xa25fa49a, 0xa2, 0x5f, 0x06, 0xc5, 0x00, 0x00, 0xa2, 0x5f);
    XorIs(0x7139505e, 0x389ca, 0x713ad994, 0x71, 0x39, 0x50, 0x5e, 0x00, 0x03, 0x89, 0xca);
    XorIs(0xe1f9a3a4, 0xe1f9, 0xe1f9425d, 0xe1, 0xf9, 0xa3, 0xa4, 0x00, 0x00, 0xe1, 0xf9);
    FinalMixIs(0xa25f06c5, 0xa25f, 0x6c5, 0xa25fa49a, 0x54f13eb3, 0x7139505e, 0x389ca, 0x105e, 0x713ad994,
               0x561da0da, 0xe1f9a3a4, 0xe1f9, 0xa3a4, 0xe1f9425d);
  }

  /** No tail: "meow". */
  lemma NoTailMeow()
    ensures Murmur([0x6d, 0x65, 0x6f, 0x77], 0) == 0xe1f9425d
  {
    hide Murmur;
    hide MixBlocks;
    hide MixBlock;
    hide Scramble;
    hide XorWords;
    hide MixTail;
    hide Tail;
    hide FinalMix;
    var data: seq<byte> := [0x6d, 0x65, 0x6f, 0x77];
    NoBlocks(0, data);
    NoTailMeowBlock1();
    NextBlock(0, data, 0, 0, 0x776f656d, 0xa25f06c1);
    NoTail(0xa25f06c1, data);
    NoTailMeowEnd();
    MurmurIs(0, data, 0xa25f06c1, 0xa25f06c1, 0xe1f9425d);
  }

  lemma TailOfOneTail()
    ensures XorWords(0, Scramble(0x61)) == 0x504ba9d5
  {
    hide XorWords;
    hide Scramble;
    ScrambleIs(0x61, 0x4d, 0x87ef2bb1, 0x43f7, 0x12bb1, 0x95d8c3f7, 0x101d0156, 0x504ba9d5);
    XorIs(0, 0x504ba9d5, 0x504ba9d5, 0x00, 0x00, 0x00, 0x00, 0x50, 0x4b, 0xa9, 0xd5);
  }

  lemma TailOfOneEnd()
    ensures FinalMix(XorWords(0x504ba9d5, 1)) == 0x3c2569b2
  {
    hide XorWords;
    hide FinalMix;
    XorIs(0x504ba9d5, 1, 0x504ba9d4, 0x50, 0x4b, 0xa9, 0xd5, 0x00, 0x00, 0x00, 0x01);
    XorIs(0x504ba9d4, 0x504b, 0x504bf99f, 0x50, 0x4b, 0xa9, 0xd4, 0x00, 0x00, 0x50, 0x4b);
    XorIs(0x42adcb75, 0x2156e, 0x42afde1b, 0x42, 0xad, 0xcb, 0x75, 0x00, 0x02, 0x15, 0x6e);
    XorIs(0x3c255597, 0x3c25, 0x3c2569b2, 0x3c, 0x25, 0x55, 0x97, 0x00, 0x00, 0x3c, 0x25);
    FinalMixIs(0x504ba9d4, 0x504b, 0xa9d4, 0x504bf99f, 0x2a016deb, 0x42adcb75, 0x2156e, 0xb75, 0x42afde1b,
               0x32b7d1fa, 0x3c255597, 0x3c25, 0x5597, 0x3c2569b2);
  }

  /** A tail of one byte: "a". */
  lemma TailOfOne()
    ensures Murmur([0x61], 0) == 0x3c2569b2
  {
    hide Murmur;
    hide MixBlocks;
    hide MixBlock;
    hide Scramble;
    hide XorWords;
    hide MixTail;
    hide Tail;
    hide FinalMix;
    var data: seq<byte> := [0x61];
    NoBlocks(0, data);
    TailOfOneTail();
    TailIs(0, data, 0x61, 0x504ba9d5);
    TailOfOneEnd();
    MurmurIs(0, data, 0, 0x504ba9d5, 0x3c2569b2);
  }

  lemma TailOfThreeTail()
    ensures XorWords(0, Scramble(0x636261)) == 0xa7349db7
  {
    hide XorWords;
    hide Scramble;
    ScrambleIs(0x636261, 0x4f6fcd, 0x9b9b2db1, 0x4dcd, 0x12db1, 0x96d8cdcd, 0x1038899a, 0xa7349db7);
    XorIs(0, 0xa7349db7, 0xa7349db7, 0x00, 0x00, 0x00, 0x00, 0xa7, 0x34, 0x9d, 0xb7);
  }

  lemma TailOfThreeEnd()
    ensures FinalMix(XorWords(0xa7349db7, 3)) == 0xb3dd93fa
  {
    hide XorWords;
    hide FinalMix;
    XorIs(0xa7349db7, 3, 0xa7349db4, 0xa7, 0x34, 0x9d, 0xb7, 0x00, 0x00, 0x00, 0x03);
    XorIs(0xa7349db4, 0xa734, 0xa7343a80, 0xa7, 0x34, 0x9d, 0xb4, 0x00, 0x00, 0xa7, 0x34);
    XorIs(0x4c7d7380, 0x263eb, 0x4c7f106b, 0x4c, 0x7d, 0x73, 0x80, 0x00, 0x02, 0x63, 0xeb);
    XorIs(0xb3dd2027, 0xb3dd, 0xb3dd93fa, 0xb3, 0xdd, 0x20, 0x27, 0x00, 0x00, 0xb3, 0xdd);
    FinalMixIs(0xa7349db4, 0xa734, 0x9db4, 0xa7343a80, 0x5778238b, 0x4c7d7380, 0x263eb, 0x1380, 0x4c7f106b,
               0x3a2daed8, 0xb3dd2027, 0xb3dd, 0x2027, 0xb3dd93fa);
  }

  /** A tail of three bytes: "abc". */
  lemma TailOfThree()
    ensures Murmur([0x61, 0x62, 0x63], 0) == 0xb3dd93fa
  {
    hide Murmur;
    hide MixBlocks;
    hide MixBlock;
    hide Scramble;
    hide XorWords;
    hide MixTail;
    hide Tail;
    hide FinalMix;
    var data: seq<byte> := [0x61, 0x62, 0x63];
    NoBlocks(0, data);
    TailOfThreeTail();
    TailIs(0, data, 0x636261, 0xa7349db7);
    TailOfThreeEnd();
    MurmurIs(0, data, 0, 0xa7349db7, 0xb3dd93fa);
  }

  /** Nothing at all. */
  lemma EmptyHash()
    ensures Murmur([], 0) == 0
  {
    hide Murmur;
    hide MixBlocks;
    hide MixTail;
    hide Tail;
    hide FinalMix;
    hide XorWords;
    NoBlocks(0, []);
    NoTail(0, []);
    XorIs(0, 0, 0, 0x00, 0x00, 0x00, 0x00, 0x00, 0x00, 0x00, 0x00);
    FinalMixIs(0, 0, 0, 0, 0, 0, 0, 0, 0, 0, 0, 0, 0, 0);
    MurmurIs(0, [], 0, 0, 0);
  }
}
