/**
 * Coordinates: IEEE 754 binary32 words and the numbers they denote, the 12-bit codes sent for them,
 * and the numbers the client gets back. Arithmetic is exact, over the reals.
 */
module Quantise {
  import opened Bytes

  function Scale(e: int): real
    decreases if e < 0 then -e else e
  {
    if e == 0 then 1.0 else if e > 0 then 2.0 * Scale(e - 1) else Scale(e + 1) / 2.0
  }

  /** A product kept under a name, so that proofs meet it only where they need it. */
  function Scaled(fraction: real, size: real): real {
    fraction * size
  }

  function Exponent(w: u32): nat {
    w / 0x80_0000 % 0x100
  }

  predicate Finite(w: u32) {
    Exponent(w) != 0xFF
  }

  predicate IsNaN(w: u32) {
    !Finite(w) && w % 0x80_0000 != 0
  }

  /**
   * The number a binary32 word denotes (section 3.4 of IEEE 754). An infinity is given the first power of
   * two beyond the finite numbers, which orders it as it should be; what a NaN is given means nothing.
   */
  function FloatValue(w: u32): real {
    var sign := if w >= 0x8000_0000 then -1.0 else 1.0;
    var exponent := Exponent(w);
    var fraction := w % 0x80_0000;
    if exponent == 0 then Scaled(sign * fraction as real, Scale(-149))
    else Scaled(sign * (0x80_0000 + fraction) as real, Scale(exponent - 150))
  }

  lemma ZeroWord(w: u32)
    requires w == 0
    ensures FloatValue(w) == 0.0
  {
    hide Scale;
  }

  /** The comparison of floats: false as soon as one of them is no number. */
  predicate FloatLess(a: u32, b: u32) {
    !IsNaN(a) && !IsNaN(b) && FloatValue(a) < FloatValue(b)
  }

  /** `std::clamp(w, 0.0f, high)` on words. */
  function ClampWord(w: u32, high: u32): u32 {
    if FloatLess(w, 0) then 0 else if FloatLess(high, w) then high else w
  }

  function Clamp(v: real, high: real): real {
    if v < 0.0 then 0.0 else if high < v then high else v
  }

  /** Conversion of a float to an integer drops the fraction, towards zero. */
  function Truncate(r: real): int {
    if r < 0.0 then -((-r).Floor) else r.Floor
  }

  /**
   * A float stored in a 12-bit field of an unsigned short keeps the low 12 bits. Outside the range of
   * unsigned short the conversion is undefined in C++; the model wraps there too.
   */
  function Field12(r: real): u12 {
    Truncate(r) % 0x1000
  }

  /** Division by a zero display size is undefined in C++ once converted; the model yields 0. */
  function Ratio(v: real, size: real): real {
    if size == 0.0 then 0.0 else v / size
  }

  /** The code for a position or a clip edge `v` on a display of the given size. */
  function Code(v: real, size: real): u12 {
    Field12(Ratio(v, size) * 4095.0)
  }

  /** The code for a texture coordinate. */
  function UvCode(v: real): u12 {
    Field12(v * 4095.0)
  }

  function DecodedUv(code: u12): real {
    code as real / 4095.0
  }

  /** What the client makes of a code. */
  function Decoded(code: u12, size: real): real {
    Scaled(DecodedUv(code), size)
  }

  // ----- the numbers of the words, and their order -----

  lemma {:induction false} ScaleDoubles(n: int)
    ensures Scale(n + 1) == 2.0 * Scale(n)
  {
  }

  lemma {:induction false} ScalePositive(n: int)
    ensures Scale(n) > 0.0
    decreases if n < 0 then -n else n
  {
    if n > 0 {
      ScalePositive(n - 1);
    } else if n < 0 {
      ScalePositive(n + 1);
    }
  }

  /** The value of the last place for a given exponent field. */
  function Place(e: nat): real {
    Scale(if e == 0 then -149 else e - 150)
  }

  /** A word without sign, by its two fields. */
  lemma ByFields(w: u32, e: nat, f: nat)
    requires w == e * 0x80_0000 + f && e < 0x100 && f < 0x80_0000
    ensures Exponent(w) == e && w % 0x80_0000 == f
    ensures FloatValue(w) == (if e == 0 then f else 0x80_0000 + f) as real * Place(e)
  {
    hide Scale;
  }

  /** Words that differ in the top bit only denote a number and its opposite. */
  lemma SignBitNegates(w: u32)
    requires w < 0x8000_0000
    ensures FloatValue(w + 0x8000_0000) == -FloatValue(w)
  {
    var e, f := w / 0x80_0000, w % 0x80_0000;
    ByFields(w, e, f);
    NegativeByFields(w + 0x8000_0000, e, f);
    hide FloatValue;
    hide Place;
    Opposite((if e == 0 then f else 0x80_0000 + f) as real, Place(e));
  }

  lemma NegativeByFields(w: u32, e: nat, f: nat)
    requires w == 0x8000_0000 + e * 0x80_0000 + f && e < 0x100 && f < 0x80_0000
    ensures Exponent(w) == e && w % 0x80_0000 == f
    ensures FloatValue(w) == (-1.0 * (if e == 0 then f else 0x80_0000 + f) as real) * Place(e)
  {
    hide Scale;
    assert w / 0x80_0000 == 0x100 + e;
  }

  lemma Opposite(x: real, s: real)
    ensures (-1.0 * x) * s == -(x * s)
  {
  }

  lemma OneIsOne()
    ensures FloatValue(0x3F80_0000) == 1.0
  {
    ByFields(0x3F80_0000, 127, 0);
    ScaleOfPlaces();
  }

  lemma ScaleOfPlaces()
    ensures Scale(-23) * 8388608.0 == 1.0
  {
    assert Scale(-8) == 1.0 / 256.0;
    assert Scale(-16) == 1.0 / 65536.0;
  }

  /** One more in the exponent doubles a normal number. */
  lemma ExponentDoubles(w: u32)
    requires 0 < Exponent(w) && Exponent(w) + 1 < 0xFF && w < 0x8000_0000
    ensures FloatValue(w + 0x80_0000) == 2.0 * FloatValue(w)
  {
    var e, f := w / 0x80_0000, w % 0x80_0000;
    ByFields(w, e, f);
    ByFields(w + 0x80_0000, e + 1, f);
    PlacesDouble(e);
    hide FloatValue;
    hide Place;
    Twice((0x80_0000 + f) as real, Place(e));
  }

  lemma Twice(x: real, s: real)
    ensures x * (2.0 * s) == 2.0 * (x * s)
  {
  }

  lemma PlacesDouble(e: nat)
    ensures Place(e + 1) == (if e == 0 then Place(e) else 2.0 * Place(e)) && Place(e) > 0.0
  {
    ScalePositive(if e == 0 then -149 else e - 150);
    if e > 0 {
      ScaleDoubles(e - 150);
    }
    hide Scale;
  }

  lemma NextFraction(w: u32, e: nat, f: nat)
    requires w == e * 0x80_0000 + f && e < 0x100 && f + 1 < 0x80_0000
    ensures FloatValue(w + 1) - FloatValue(w) == Place(e)
  {
    ByFields(w, e, f);
    ByFields(w + 1, e, f + 1);
    hide FloatValue;
    hide Place;
    OneMore(if e == 0 then f else 0x80_0000 + f, Place(e));
  }

  lemma NextExponent(w: u32, e: nat)
    requires w == e * 0x80_0000 + 0x7F_FFFF && e < 0xFF
    ensures FloatValue(w + 1) - FloatValue(w) == Place(e)
  {
    ByFields(w, e, 0x7F_FFFF);
    ByFields(w + 1, e + 1, 0);
    PlacesDouble(e);
    hide FloatValue;
    hide Place;
    if e > 0 {
      Twice(8388608.0, Place(e));
      OneMore(0xFF_FFFF, Place(e));
    } else {
      OneMore(0x7F_FFFF, Place(e));
    }
  }

  /** The next word denotes the next number, one place on, up to the infinity. */
  lemma NextWord(w: u32)
    requires w < 0x7F80_0000
    ensures FloatValue(w + 1) - FloatValue(w) == Place(w / 0x80_0000) > 0.0
  {
    var e, f := w / 0x80_0000, w % 0x80_0000;
    PlacesDouble(e);
    hide FloatValue;
    hide Place;
    if f + 1 < 0x80_0000 {
      NextFraction(w, e, f);
    } else {
      NextExponent(w, e);
    }
  }

  lemma OneMore(n: nat, s: real)
    ensures (n + 1) as real * s == n as real * s + s
  {
  }

  /** The step from a word to the next is the same for all words of one exponent. */
  lemma EvenSteps(u: u32, w: u32)
    requires u / 0x80_0000 == w / 0x80_0000 && w < 0x7F80_0000
    ensures FloatValue(u + 1) - FloatValue(u) == FloatValue(w + 1) - FloatValue(w) > 0.0
  {
    hide FloatValue;
    hide Place;
    NextWord(u);
    NextWord(w);
  }

  /** The smallest positive word denotes the step of the first normal numbers. */
  lemma SmallestStep()
    ensures FloatValue(1) == FloatValue(0x80_0001) - FloatValue(0x80_0000)
  {
    hide Scale;
    NextWord(0x80_0000);
    ByFields(1, 0, 1);
  }

  /** Without sign, words are in the order of the numbers they denote, the infinity last. */
  lemma {:induction false} WordOrder(a: u32, b: u32)
    requires a <= b <= 0x7F80_0000
    ensures FloatValue(a) <= FloatValue(b) && (a < b ==> FloatValue(a) < FloatValue(b))
    decreases b
  {
    hide FloatValue;
    hide Place;
    if a < b {
      WordOrder(a, b - 1);
      NextWord(b - 1);
    }
  }

  lemma NoSignNotNegative(w: u32)
    requires w <= 0x7F80_0000
    ensures FloatValue(w) >= 0.0 && (w > 0 ==> FloatValue(w) > 0.0)
  {
    hide FloatValue;
    ZeroWord(0);
    WordOrder(0, w);
  }

  /** A number with the sign bit set is clamped to the word 0; -0.0 stays. */
  lemma NegativeClampsToZero(w: u32, high: u32)
    requires w > 0x8000_0000 && !IsNaN(w)
    ensures ClampWord(w, high) == 0
  {
    hide FloatValue;
    ZeroWord(0);
    SignBitNegates(w - 0x8000_0000);
    NotNaNBelowInfinity(w - 0x8000_0000);
    NoSignNotNegative(w - 0x8000_0000);
  }

  lemma NotNaNBelowInfinity(w: u32)
    requires w < 0x8000_0000
    ensures IsNaN(w) <==> w > 0x7F80_0000
    ensures IsNaN(w + 0x8000_0000) <==> w > 0x7F80_0000
    ensures Finite(w) <==> w < 0x7F80_0000
    ensures Finite(w + 0x8000_0000) <==> w < 0x7F80_0000
  {
  }

  /** Without sign the clamp is the smaller word. */
  lemma ClampIsMinimum(w: u32, high: u32)
    requires w <= 0x7F80_0000 && high <= 0x7F80_0000
    ensures ClampWord(w, high) == if w > high then high else w
  {
    hide FloatValue;
    ZeroWord(0);
    NoSignNotNegative(w);
    NotNaNBelowInfinity(w);
    NotNaNBelowInfinity(high);
    if w > high {
      WordOrder(high, w);
    } else {
      WordOrder(w, high);
    }
  }

  // ----- how much a coordinate loses -----

  lemma TruncateInRange(r: real)
    requires 0.0 <= r <= 4095.0
    ensures 0 <= Truncate(r) <= 4095 && Field12(r) == Truncate(r)
    ensures Truncate(r) as real <= r < Truncate(r) as real + 1.0
  {
  }

  lemma RatioInRange(v: real, size: real)
    requires 0.0 <= v <= size && size > 0.0
    ensures 0.0 <= Ratio(v, size) <= 1.0 && Scaled(Ratio(v, size), size) == v
  {
    var q := v / size;
    assert q * size == v;
    if q < 0.0 {
      NegativeProduct(q, size);
    } else if q > 1.0 {
      NegativeProduct(1.0 - q, size);
    }
  }

  lemma NegativeProduct(a: real, b: real)
    requires a < 0.0 && b > 0.0
    ensures a * b < 0.0
  {
  }

  lemma ScaleOrder(a: real, b: real, size: real)
    requires size > 0.0
    ensures a <= b <==> Scaled(a, size) <= Scaled(b, size)
  {
    if a > b {
      NegativeProduct(b - a, size);
      assert (b - a) * size == b * size - a * size;
    } else if a < b {
      NegativeProduct(a - b, size);
      assert (a - b) * size == a * size - b * size;
    }
  }

  /** A coordinate inside the display loses at least nothing and less than one step. */
  lemma CodeLoss(v: real, size: real)
    requires 0.0 <= v <= size && size > 0.0
    ensures Decoded(Code(v, size), size) <= v < Decoded(Code(v, size), size) + size / 4095.0
  {
    RatioInRange(v, size);
    var q := Ratio(v, size);
    TruncateInRange(q * 4095.0);
    OneStep(Code(v, size), q);
    StepScaled(DecodedUv(Code(v, size)), q, size);
  }

  lemma OneStep(code: u12, q: real)
    requires code as real <= q * 4095.0 < code as real + 1.0
    ensures DecodedUv(code) <= q < DecodedUv(code) + 1.0 / 4095.0
  {
  }

  lemma StepScaled(u: real, q: real, size: real)
    requires size > 0.0 && u <= q < u + 1.0 / 4095.0
    ensures Scaled(u, size) <= Scaled(q, size) < Scaled(u, size) + size / 4095.0
  {
    ScaleOrder(u, q, size);
    ScaleOrder(u + 1.0 / 4095.0, q, size);
    assert (u + 1.0 / 4095.0) * size == u * size + (1.0 / 4095.0) * size;
  }

  /** The clamp, scale, truncate and rescale path as a whole, for every input. */
  lemma ClampedCodeLoss(v: real, size: real)
    requires size > 0.0
    ensures var c := Code(Clamp(v, size), size);
      Decoded(c, size) <= Clamp(v, size) < Decoded(c, size) + size / 4095.0
  {
    CodeLoss(Clamp(v, size), size);
  }

  lemma CodeMonotone(v: real, w: real, size: real)
    requires v <= w && size > 0.0
    ensures Code(Clamp(v, size), size) <= Code(Clamp(w, size), size)
  {
    var a, b := Clamp(v, size), Clamp(w, size);
    RatioInRange(a, size);
    RatioInRange(b, size);
    ScaleOrder(Ratio(a, size), Ratio(b, size), size);
    TruncateInRange(Ratio(a, size) * 4095.0);
    TruncateInRange(Ratio(b, size) * 4095.0);
    assert Ratio(a, size) <= Ratio(b, size);
    TruncateMonotone(Ratio(a, size) * 4095.0, Ratio(b, size) * 4095.0);
  }

  lemma TruncateMonotone(r: real, s: real)
    requires 0.0 <= r <= s
    ensures Truncate(r) <= Truncate(s)
  {
  }

  /** Sending a decoded coordinate again gives the same code: quantising twice is quantising once. */
  lemma CodeStable(code: u12, size: real)
    requires size > 0.0
    ensures 0.0 <= Decoded(code, size) <= size
    ensures Code(Decoded(code, size), size) == code
  {
    var q := DecodedUv(code);
    assert 0.0 <= q <= 1.0;
    ScaleOrder(0.0, q, size);
    ScaleOrder(q, 1.0, size);
    CancelProduct(q, size);
    assert Scaled(q, size) == Decoded(code, size);
    assert Ratio(Decoded(code, size), size) == q;
    WholeNumber(code, q * 4095.0);
  }

  lemma WholeNumber(code: u12, r: real)
    requires r == code as real
    ensures Field12(r) == code
  {
  }

  lemma CancelProduct(q: real, size: real)
    requires size != 0.0
    ensures Scaled(q, size) / size == q
  {
    var p := q * size;
    var r := p / size;
    assert r * size == p;
    assert (r - q) * size == r * size - q * size;
    if r > q {
      ProductNonZero(r - q, size);
    } else if r < q {
      ProductNonZero(r - q, size);
    }
  }

  lemma ProductNonZero(a: real, b: real)
    requires a != 0.0 && b != 0.0
    ensures a * b != 0.0
  {
  }

  lemma UvCodeLoss(v: real)
    requires 0.0 <= v <= 1.0
    ensures DecodedUv(UvCode(v)) <= v < DecodedUv(UvCode(v)) + 1.0 / 4095.0
    ensures UvCode(DecodedUv(UvCode(v))) == UvCode(v)
  {
    TruncateInRange(v * 4095.0);
    var c := UvCode(v);
    OneStep(c, v);
    WholeNumber(c, DecodedUv(c) * 4095.0);
  }

  // ----- the codes themselves -----

  /** The code counts whole steps of a 4095th of the display and keeps the low 12 bits of the count. */
  lemma CodeCountsSteps(v: real, size: real, q: nat)
    requires size > 0.0 && q as real * size <= 4095.0 * v < (q + 1) as real * size
    ensures Code(v, size) == q % 0x1000
  {
    var r := Ratio(v, size) * 4095.0;
    assert Ratio(v, size) * size == v;
    StepsBetween(r, size, 4095.0 * v, q);
    WholeBetween(r, q);
  }

  /** Less than one step below zero still counts as none: conversion drops the fraction towards zero. */
  lemma CodeNearZero(v: real, size: real)
    requires size > 0.0 && -size < 4095.0 * v <= 0.0
    ensures Code(v, size) == 0
  {
    var r := Ratio(v, size) * 4095.0;
    assert Ratio(v, size) * size == v;
    if r > 0.0 {
      NegativeProduct(-r, size);
    } else if r <= -1.0 && r < -1.0 {
      NegativeProduct(r + 1.0, size);
    }
    NoWholeBelowZero(r);
  }

  lemma NoWholeBelowZero(r: real)
    requires -1.0 < r <= 0.0
    ensures Field12(r) == 0
  {
  }

  /** `v` is between `q` and `q + 1` steps of a 4095th of `size`. */
  predicate Steps(v: real, size: real, q: nat) {
    q as real * size <= 4095.0 * v < (q + 1) as real * size
  }

  /** The code that the conversion gives for every value for which C++ defines one, kept to 12 bits. */
  ghost predicate Counts(code: u12, v: real, size: real) {
    && (forall q: u16 :: Steps(v, size, q) ==> code == q % 0x1000)
    && (-size < 4095.0 * v <= 0.0 ==> code == 0)
  }

  lemma CodeCounts(v: real, size: real)
    requires size > 0.0
    ensures Counts(Code(v, size), v, size)
  {
    hide Code;
    forall q: u16 | Steps(v, size, q) ensures Code(v, size) == q % 0x1000 {
      CodeCountsSteps(v, size, q);
    }
    if -size < 4095.0 * v <= 0.0 {
      CodeNearZero(v, size);
    }
  }

  lemma UvCodeCounts(v: real)
    ensures Counts(UvCode(v), v, 1.0)
  {
    hide UvCode;
    forall q: u16 | Steps(v, 1.0, q) ensures UvCode(v) == q % 0x1000 {
      UvCodeCountsSteps(v, q);
    }
    if -1.0 < 4095.0 * v <= 0.0 {
      UvCodeNearZero(v);
    }
  }

  lemma UvCodeNearZero(v: real)
    requires -1.0 < 4095.0 * v <= 0.0
    ensures UvCode(v) == 0
  {
    NoWholeBelowZero(v * 4095.0);
  }

  lemma StepsBetween(r: real, size: real, x: real, q: nat)
    requires size > 0.0 && r * size == x && q as real * size <= x < (q + 1) as real * size
    ensures q as real <= r < (q + 1) as real
  {
    if r < q as real {
      NegativeProduct(r - q as real, size);
    } else if r >= (q + 1) as real && r > (q + 1) as real {
      NegativeProduct((q + 1) as real - r, size);
    }
  }

  lemma WholeBetween(r: real, q: nat)
    requires q as real <= r < (q + 1) as real
    ensures Field12(r) == q % 0x1000
  {
    assert r >= 0.0 && r.Floor == q;
    assert Truncate(r) == q;
  }

  lemma UvCodeCountsSteps(v: real, q: nat)
    requires q as real <= 4095.0 * v < (q + 1) as real
    ensures UvCode(v) == q % 0x1000
  {
    WholeBetween(v * 4095.0, q);
  }

  /** A code comes back as that many steps. */
  lemma DecodedCountsSteps(code: u12, size: real)
    ensures 4095.0 * Decoded(code, size) == code as real * size && 4095.0 * DecodedUv(code) == code as real
  {
    var u := DecodedUv(code);
    assert 4095.0 * u == code as real;
    assert 4095.0 * (u * size) == (4095.0 * u) * size;
  }

  // ----- four 12-bit fields in six bytes, low bits first -----

  function Pack48(a: u12, b: u12, c: u12, d: u12): (s: seq<byte>)
    ensures |s| == 6
  {
    LE(a as int + 0x1000 * b as int + 0x100_0000 * c as int + 0x10_0000_0000 * d as int, 6)
  }

  function Field(s: seq<byte>, i: nat): u12
    requires i < 4
  {
    var n := FromLE(s);
    if i == 0 then n % 0x1000
    else if i == 1 then n / 0x1000 % 0x1000
    else if i == 2 then n / 0x100_0000 % 0x1000
    else n / 0x10_0000_0000 % 0x1000
  }

  lemma LowField(low: u12, rest: nat)
    ensures (low as int + 0x1000 * rest) % 0x1000 == low && (low as int + 0x1000 * rest) / 0x1000 == rest
  {
  }

  lemma Above24(n: nat, high: nat)
    requires 0x100_0000 * high <= n < 0x100_0000 * high + 0x100_0000
    ensures n / 0x100_0000 == high
  {
  }

  lemma Above36(n: nat, high: nat)
    requires 0x10_0000_0000 * high <= n < 0x10_0000_0000 * high + 0x10_0000_0000
    ensures n / 0x10_0000_0000 == high
  {
  }

  lemma FieldsOfSum(a: u12, b: u12, c: u12, d: u12, n: nat)
    requires n == a as int + 0x1000 * b as int + 0x100_0000 * c as int + 0x10_0000_0000 * d as int
    ensures n < 0x1_0000_0000_0000
    ensures n % 0x1000 == a && n / 0x1000 % 0x1000 == b
    ensures n / 0x100_0000 % 0x1000 == c && n / 0x10_0000_0000 % 0x1000 == d
  {
    var r2 := c as int + 0x1000 * d as int;
    var r1 := b as int + 0x1000 * r2;
    LowField(a, r1);
    LowField(b, r2);
    LowField(c, d);
    assert n == a as int + 0x1000 * r1;
    Above24(n, r2);
    Above36(n, d);
  }

  /** Each field keeps its own 12 bits. */
  lemma Pack48RoundTrip(a: u12, b: u12, c: u12, d: u12)
    ensures var s := Pack48(a, b, c, d);
      Field(s, 0) == a && Field(s, 1) == b && Field(s, 2) == c && Field(s, 3) == d
  {
    var n := a as int + 0x1000 * b as int + 0x100_0000 * c as int + 0x10_0000_0000 * d as int;
    FieldsOfSum(a, b, c, d, n);
    Pow256Values();
    FromLERoundTrip(n, 6);
  }

  /** Where the fields lie in any six bytes. */
  lemma FieldLayout(s: seq<byte>)
    requires |s| == 6
    ensures Field(s, 0) == s[0] as int + 0x100 * (s[1] as int % 0x10)
    ensures Field(s, 1) == s[1] as int / 0x10 + 0x10 * s[2] as int
    ensures Field(s, 2) == s[3] as int + 0x100 * (s[4] as int % 0x10)
    ensures Field(s, 3) == s[4] as int / 0x10 + 0x10 * s[5] as int
  {
    var a, b := s[0] as int + 0x100 * (s[1] as int % 0x10), s[1] as int / 0x10 + 0x10 * s[2] as int;
    var c, d := s[3] as int + 0x100 * (s[4] as int % 0x10), s[4] as int / 0x10 + 0x10 * s[5] as int;
    SixBytes(s);
    FieldsOfSum(a, b, c, d, FromLE(s));
  }
}
