/**
The 64-bit division that `spl-generic.c` supplies on 32-bit machines.  Every operation wraps as
the C type does; the proofs show that no wrap ever loses anything but in one signed case.
*/
module Division {
  import opened Arith

  const B31: int := 0x8000_0000
  const B32: int := 0x1_0000_0000
  const B63: int := 0x8000_0000_0000_0000
  const B64: int := 0x1_0000_0000_0000_0000

  // ---------------------------------------------------------------- uint64_t operations

  /** What a uint64_t keeps of a result.  Shifts by a constant are written as products or
      quotients with the power of two. */
  function Wrap(x: int): (r: nat)
    ensures 0 <= x < B64 ==> r == x
  {
    x % B64
  }

  function Shl(x: nat, n: nat): nat { Wrap(x * Pow2(n)) }

  lemma Pow2Of16()
    ensures Pow2(16) == 0x1_0000
  {
    assert Pow2(4) == 16;
    Pow2Plus(4, 4);
    Pow2Plus(8, 8);
  }

  lemma Pow2Of31()
    ensures Pow2(31) == B31 && Pow2(32) == B32
  {
    Pow2Of16();
    Pow2Plus(16, 16);
    assert Pow2(32) == 2 * Pow2(31);
  }

  lemma Pow2Of63()
    ensures Pow2(63) == B63 && Pow2(64) == B64
  {
    Pow2Of31();
    Pow2Plus(32, 32);
    assert Pow2(64) == 2 * Pow2(63);
  }

  // ---------------------------------------------------------------- nlz64

  /** One of the six tests of `nlz64`: if the top `k` bits are zero, drop and count them. */
  function NlzStep(x: nat, n: nat, k: nat): (nat, nat)
    requires k <= 64
  {
    if x < Pow2(64 - k) then (Shl(x, k), n + k) else (x, n)
  }

  predicate TestWidth(k: nat) { k == 32 || k == 16 || k == 8 || k == 4 || k == 2 || k == 1 }

  /** The tests of `nlz64` from width `k` down; the last one only counts. */
  function NlzFrom(x: nat, n: nat, k: nat): nat
    requires TestWidth(k)
    decreases k
  {
    var (y, m) := NlzStep(x, n, k);
    if k == 1 then m else NlzFrom(y, m, k / 2)
  }

  function Nlz64(x: nat): nat { if x == 0 then 64 else NlzFrom(x, 0, 32) }

  /** `x` shifted left by `n`, without losing bits, is at least 2^(64 - width). */
  ghost predicate Shifted(x0: nat, x: nat, n: nat, width: nat)
    requires width <= 64
  {
    x == x0 * Pow2(n) && Pow2(64 - width) <= x < B64
  }

  lemma ScaleBounds(x: int, p: int, r: int, q: int, top: int)
    requires q >= 1 && p * q == r && r * q == top && p <= x < r
    ensures r <= x * q < top
  {
    MulMono(p, x, q);
    MulMono(x + 1, r, q);
    MulNext(x, q);
  }

  lemma SplitPowers(k: nat)
    requires 1 <= k <= 32
    ensures Pow2(64 - 2 * k) * Pow2(k) == Pow2(64 - k) && Pow2(64 - k) * Pow2(k) == B64
  {
    Pow2Plus(64 - 2 * k, k);
    Pow2Plus(64 - k, k);
    Pow2Of63();
  }

  lemma ShiftTwice(x: int, n: nat, k: nat)
    ensures x * Pow2(n) * Pow2(k) == x * Pow2(n + k)
  {
    Pow2Plus(n, k);
    MulAssoc(x, Pow2(n), Pow2(k));
  }

  lemma MulAssoc(a: int, b: int, c: int)
    ensures a * b * c == a * (b * c)
  {
  }

  lemma NlzStepKeeps(x0: nat, x: nat, n: nat, k: nat)
    requires 1 <= k <= 32 && Shifted(x0, x, n, 2 * k)
    ensures var (y, m) := NlzStep(x, n, k); Shifted(x0, y, m, k)
    ensures var (y, m) := NlzStep(x, n, k); m == if x < Pow2(64 - k) then n + k else n
  {
    if x < Pow2(64 - k) {
      SplitPowers(k);
      ScaleBounds(x, Pow2(64 - 2 * k), Pow2(64 - k), Pow2(k), B64);
      ShiftTwice(x0, n, k);
    }
  }

  ghost predicate Normalised(x: int, n: nat) { B63 <= x * Pow2(n) < B64 }

  /** `nlz64` is the shift that normalises: it brings the top bit of `x` to position 63. */
  lemma Nlz64Normalises(x: nat)
    requires 0 < x < B64
    ensures Nlz64(x) <= 63 && B63 <= x * Pow2(Nlz64(x)) < B64
  {
    assert Pow2(0) == 1;
    NlzFromNormalises(x, x, 0, 32);
  }

  lemma {:induction false} NlzFromNormalises(x0: nat, x: nat, n: nat, k: nat)
    requires TestWidth(k) && Shifted(x0, x, n, 2 * k)
    ensures NlzFrom(x, n, k) < n + 2 * k && Normalised(x0, NlzFrom(x, n, k))
    decreases k
  {
    Pow2Of63();
    NlzStepKeeps(x0, x, n, k);
    if k > 1 {
      var (y, m) := NlzStep(x, n, k);
      NlzFromNormalises(x0, y, m, k / 2);
    }
  }

  // ---------------------------------------------------------------- __udivdi3

  /** `__div_u64`: the divisor is a uint32_t. */
  function DivU64(u: nat, v: nat): nat
    requires v % B32 != 0
  {
    u / (v % B32)
  }

  /** A 32-bit divisor and a quotient above 32 bits: two digits, the grade school way. */
  function TwoDigits(u1: nat, u0: nat, v: nat): nat
    requires v % B32 != 0
  {
    var q1 := DivU64(u1, v);
    var k := Wrap(u1 - Wrap(q1 * v));
    Wrap(Wrap(q1 * B32) + DivU64(Wrap(u0 + Wrap(k * B32)), v))
  }

  /** The high half of the normalised divisor. */
  function HighHalf(v: nat): nat { Shl(v, Nlz64(v)) / B32 }

  /** Undo the normalisation and the division of `u` by two. */
  function Unscaled(q1: nat, n: nat): nat { Shl(q1, n) / B31 }

  /** A divisor above 32 bits: estimate with its normalised high half, then undo the scaling. */
  function Estimate(u: nat, v: nat): nat
    requires HighHalf(v) % B32 != 0
  {
    Unscaled(DivU64(u / 2, HighHalf(v)), Nlz64(v))
  }

  /** Make the estimate correct or one too small, then correct it. */
  function Correct(u: nat, v: nat, q0: nat): nat {
    var q := if q0 != 0 then Wrap(q0 - 1) else q0;
    if Wrap(u - Wrap(q * v)) >= v then Wrap(q + 1) else q
  }

  function UDivDi3(u: nat, v: nat): nat
    requires 0 < v < B64
  {
    if v < B32 then
      if u / B32 < v then DivU64(u, v) else TwoDigits(u / B32, u % B32, v)
    else
      NormalisedHigh(v);
      Correct(u, v, Estimate(u, v))
  }

  /** The low digit: a remainder below `v` followed by 32 bits, divided by `v`, is below 2^32. */
  lemma LowDigit(k: int, u0: int, v: int)
    requires 0 <= k < v && 0 <= u0 < B32
    ensures 0 <= (k * B32 + u0) / v < B32
  {
    MulMono(k + 1, v, B32);
    MulNext(k, B32);
    DivAtLeast(k * B32 + u0, v, B32);
    DivAtLeast(k * B32 + u0, v, 0);
  }

  lemma GradeSchool(u: int, v: int)
    requires u >= 0 && v >= 1
    ensures u / v == u / B32 / v * B32 + (u / B32 % v * B32 + u % B32) / v
  {
    var u1, u0 := u / B32, u % B32;
    var w := u1 % v * B32 + u0;
    DivModDef(u, B32);
    DivModDef(u1, v);
    DivModDef(w, v);
    TwoDigitSum(u, u1, u0, v, u1 / v, u1 % v, w / v, w % v);
    DivModUnique(u, v, u1 / v * B32 + w / v, w % v);
  }

  lemma TwoDigitsExact(u: nat, v: nat)
    requires 0 < v < B32 && u < B64
    ensures TwoDigits(u / B32, u % B32, v) == u / v
  {
    DigitsAre(u / B32, u % B32, v);
    GradeSchool(u, v);
  }

  lemma DigitsAre(u1: nat, u0: nat, v: nat)
    requires 0 < v < B32 && u1 < B32 && u0 < B32
    ensures TwoDigits(u1, u0, v) == u1 / v * B32 + (u1 % v * B32 + u0) / v
  {
    var q1, k := u1 / v, u1 % v;
    FirstDigit(u1, v);
    LowDigit(k, u0, v);
    var q0 := (k * B32 + u0) / v;
    assert DivU64(u1, v) == q1;
    assert DivU64(k * B32 + u0, v) == q0;
    DigitsDoNotWrap(u1, u0, v, q1, k, q0);
  }

  lemma FirstDigit(u1: nat, v: nat)
    requires u1 < B32 && 0 < v
    ensures 0 <= u1 / v < B32 && u1 == u1 / v * v + u1 % v && 0 <= u1 % v < v
  {
    DivModDef(u1, v);
    DivAtLeast(u1, v, 0);
    DivAtLeast(u1, v, B32);
    MulMono(1, v, B32);
  }

  lemma TwoDigitSum(u: int, u1: int, u0: int, v: int, q1: int, k: int, q0: int, r: int)
    requires u == u1 * B32 + u0 && u1 == q1 * v + k && k * B32 + u0 == q0 * v + r
    ensures u == (q1 * B32 + q0) * v + r
  {
    assert u1 * B32 == (q1 * v) * B32 + k * B32;
    assert (q1 * v) * B32 == (q1 * B32) * v;
    assert (q1 * B32 + q0) * v == (q1 * B32) * v + q0 * v;
  }

  lemma DigitsDoNotWrap(u1: nat, u0: nat, v: nat, q1: nat, k: nat, q0: nat)
    requires u1 < B32 && u0 < B32 && k < v < B32 && q1 < B32 && q0 < B32 && u1 == q1 * v + k
    ensures Wrap(u1 - Wrap(q1 * v)) == k
    ensures Wrap(u0 + Wrap(k * B32)) == k * B32 + u0
    ensures Wrap(Wrap(q1 * B32) + q0) == q1 * B32 + q0
  {
    MulMono(0, q1, v);
  }

  lemma LongShift(v: nat, n: nat)
    requires v >= B32 && n >= 32
    ensures v * Pow2(n) >= B64
  {
    Pow2Plus(n - 32, 32);
    Pow2Of31();
    MulMono(1, Pow2(n - 32), B32);
    MulMono(B32, v, Pow2(n));
    MulMono(B32, Pow2(n), B32);
  }

  /** A divisor above 32 bits is shifted by at most 31. */
  lemma ShiftIsShort(v: nat)
    requires B32 <= v < B64
    ensures Nlz64(v) <= 31 && B63 <= v * Pow2(Nlz64(v)) < B64
  {
    Nlz64Normalises(v);
    if Nlz64(v) >= 32 {
      LongShift(v, Nlz64(v));
    }
  }

  lemma HalfScale(n: nat) returns (a: int)
    requires n <= 31
    ensures Pow2(n) * a == B31 && a >= 1
  {
    a := Pow2(31 - n);
    Pow2Plus(n, 31 - n);
    Pow2Of31();
  }

  lemma NormalisedHigh(v: nat)
    requires B32 <= v < B64
    ensures HighHalf(v) == v * Pow2(Nlz64(v)) / B32
    ensures B31 <= HighHalf(v) < B32 && HighHalf(v) % B32 == HighHalf(v)
  {
    ShiftIsShort(v);
    HalfRange(v * Pow2(Nlz64(v)));
  }

  lemma HalfRange(x: int)
    requires B63 <= x < B64
    ensures B31 <= x / B32 < B32 && x / B32 % B32 == x / B32
  {
  }

  /** The dropped half is a multiple of the scale, so it stays clear of 2^32 by one scale unit. */
  lemma DropsMultiple(v: int, p: int, a: int, v1: int, rest: int)
    requires p >= 1 && a >= 1 && p * a == B31
    requires v * p == v1 * B32 + rest && 0 <= rest < B32
    ensures rest <= B32 - p
  {
    var c := 2 * a;
    assert p * c == B32;
    assert v1 * B32 == (v1 * c) * p by {
      MulAssoc(v1, c, p);
      assert c * p == p * c;
    }
    var t := v - v1 * c;
    assert c * p == p * c && rest == t * p;
    if t >= c {
      MulMono(c, t, p);
      assert false;
    }
    MulMono(t + 1, c, p);
    MulNext(t, p);
  }

  /** The scaled quotient digit fits 32 bits, and its product with the scale 63. */
  lemma DigitFits(u: nat, v1: int, p: int, a: int)
    requires u < B64 && B31 <= v1 && p >= 1 && a >= 1 && p * a == B31
    ensures 0 <= u / 2 / v1 < B32 && 0 <= u / 2 / v1 * p < B63
  {
    DivAtLeast(u / 2, v1, 0);
    DivAtLeast(u / 2, v1, B32);
    MulMono(B31, v1, B32);
    DigitTimesScale(u / 2 / v1, p, a);
  }

  lemma DigitTimesScale(q1: int, p: int, a: int)
    requires 0 <= q1 < B32 && p >= 1 && a >= 1 && p * a == B31
    ensures 0 <= q1 * p < B63
  {
    MulMono(1, a, p);
    assert p <= B31;
    MulMono(0, q1, p);
    MulMono(q1, B32 - 1, p);
  }

  /** Undoing the scaling: the digit divided by the half scale. */
  lemma UnscaledBounds(q1: int, p: int, a: int, q0: int)
    requires 0 <= q1 < B32 && p >= 1 && a >= 1 && p * a == B31 && q0 == q1 * p / B31
    ensures 0 <= q0 < 2 * p && q0 * a <= q1
  {
    Unscale(q1, p, a, q0);
    Unscale(q1, p, a, 0);
    Unscale(q1, p, a, 2 * p);
    MulAssoc(2, p, a);
  }

  lemma Unscale(q1: int, p: int, a: int, t: int)
    requires p >= 1 && a >= 1 && p * a == B31
    ensures t * a <= q1 <==> t <= q1 * p / B31
  {
    DivAtLeast(q1 * p, B31, t);
    assert t * B31 == (t * a) * p by {
      MulAssoc(t, a, p);
      assert a * p == p * a;
    }
    if t * a <= q1 {
      MulMono(t * a, q1, p);
    } else {
      MulMono(q1 + 1, t * a, p);
      MulNext(q1, p);
    }
  }

  /** Not too small: the true quotient satisfies what the digit is the largest to satisfy. */
  lemma NotTooSmall(u: int, v: int, v1: int, p: int, a: int, rest: int, q: int)
    requires p >= 1 && a >= 1 && p * a == B31 && v1 >= 1
    requires v * p == v1 * B32 + rest && rest >= 0 && q >= 0 && q * v <= u
    ensures q * a <= u / 2 / v1
  {
    // q * a * v1 * 2^32 <= q * a * v * p == q * v * 2^31 <= u * 2^31
    assert (q * a) * (v * p) == (q * v) * (p * a) by {
      MulAssoc(q * a, v, p);
      assert q * a * v == q * v * a;
      MulAssoc(q * v, a, p);
      assert a * p == p * a;
    }
    MulMono(0, q, a);
    MulMono(0, rest, q * a);
    assert (q * a) * (v1 * B32 + rest) == (q * a * v1) * B32 + (q * a) * rest;
    assert rest * (q * a) == (q * a) * rest;
    assert 2 * (q * a * v1) <= u;
    DivAtLeast(u / 2, v1, q * a);
  }

  /** Not too large by more than one: scaled by 2^31, the estimate exceeds `u` by at most `v`. */
  lemma NotTooLarge(u: int, v: int, v1: int, p: int, a: int, rest: int, q1: int, q0: int)
    requires p >= 1 && a >= 1 && p * a == B31 && v1 >= 1
    requires v * p == v1 * B32 + rest && 0 <= rest <= B32 - p && v * p >= B63
    requires 0 <= q0 < 2 * p && q0 * a <= q1 && q1 * v1 <= u / 2
    ensures (q0 - 1) * v <= u
  {
    var k := q0 * a;
    Rescaled(q0, v, p, a);
    MulMono(k, q1, v1);
    SplitProduct(k, v1, rest);
    RestIsSmall(p, rest, q0);
    RestBounded(q0, rest, v, p, a);
    MulNext(q0 - 1, v);
  }

  lemma Rescaled(q: int, v: int, p: int, a: int)
    requires p * a == B31
    ensures (q * a) * (v * p) == (q * v) * B31
  {
    MulAssoc(q * a, v, p);
    MulAssoc(q, a, v);
    MulAssoc(q, v, a);
    MulAssoc(q * v, a, p);
    assert a * v == v * a && a * p == p * a;
  }

  lemma SplitProduct(k: int, v1: int, rest: int)
    ensures k * (v1 * B32 + rest) == (k * v1) * B32 + k * rest
  {
  }

  lemma RestBounded(q0: int, rest: int, v: int, p: int, a: int)
    requires q0 * rest <= v * p && a >= 1 && p * a == B31
    ensures (q0 * a) * rest <= v * B31
  {
    MulMono(q0 * rest, v * p, a);
    MulAssoc(v, p, a);
    MulAssoc(q0, rest, a);
    MulAssoc(q0, a, rest);
    assert rest * a == a * rest;
  }

  /** 2p(2^32 - p) is largest at p = 2^31, where it is 2^63. */
  lemma RestIsSmall(p: int, rest: int, q0: int)
    requires 1 <= p && 0 <= rest <= B32 - p && 0 <= q0 < 2 * p
    ensures q0 * rest <= B63
  {
    MulMono(q0, 2 * p, rest);
    MulMono(rest, B32 - p, 2 * p);
    assert rest * (2 * p) == 2 * p * rest;
    var d := p - 0x8000_0000;
    assert d * d >= 0;
    assert (B32 - p) * (2 * p) == B63 - 2 * (d * d);
  }

  lemma UnscaledIs(q1: nat, n: nat)
    requires q1 * Pow2(n) < B63
    ensures Unscaled(q1, n) == q1 * Pow2(n) / B31
  {
  }

  /** Before the correction the estimate is the quotient or one more, and nothing wrapped. */
  lemma EstimateClose(u: nat, v: nat)
    requires B32 <= v < B64 && u < B64
    ensures HighHalf(v) % B32 != 0
    ensures u / v <= Estimate(u, v) <= u / v + 1
  {
    ShiftIsShort(v);
    NormalisedHigh(v);
    var n := Nlz64(v);
    var a := HalfScale(n);
    DigitFits(u, HighHalf(v), Pow2(n), a);
    UnscaledIs(u / 2 / HighHalf(v), n);
    CloseCall(u, v, HighHalf(v), Pow2(n), a);
  }

  /** The estimate on plain numbers. */
  lemma CloseCall(u: int, v: int, v1: int, p: int, a: int)
    requires 0 <= u < B64 && v >= 1 && p >= 1 && a >= 1 && p * a == B31
    requires B63 <= v * p < B64 && v1 == v * p / B32 && B31 <= v1
    ensures u / v <= u / 2 / v1 * p / B31 <= u / v + 1
  {
    var q1 := u / 2 / v1;
    var q0 := q1 * p / B31;
    var rest := v * p % B32;
    DivModDef(v * p, B32);
    DropsMultiple(v, p, a, v1, rest);
    DigitFits(u, v1, p, a);
    UnscaledBounds(q1, p, a, q0);
    QuotientBelow(u, v, v1, p, a, rest);
    QuotientAbove(u, v, v1, p, a, rest, q0);
  }

  lemma QuotientBelow(u: int, v: int, v1: int, p: int, a: int, rest: int)
    requires 0 <= u && v >= 1 && p >= 1 && a >= 1 && p * a == B31 && v1 >= 1
    requires v * p == v1 * B32 + rest && rest >= 0
    ensures u / v <= u / 2 / v1 * p / B31
  {
    DivModDef(u, v);
    DivAtLeast(u, v, 0);
    NotTooSmall(u, v, v1, p, a, rest, u / v);
    Unscale(u / 2 / v1, p, a, u / v);
  }

  lemma QuotientAbove(u: int, v: int, v1: int, p: int, a: int, rest: int, q0: int)
    requires 0 <= u && v >= 1 && p >= 1 && a >= 1 && p * a == B31 && v1 >= 1
    requires v * p == v1 * B32 + rest && 0 <= rest <= B32 - p && v * p >= B63
    requires 0 <= q0 < 2 * p && q0 * a <= u / 2 / v1
    ensures q0 <= u / v + 1
  {
    DivModDef(u / 2, v1);
    NotTooLarge(u, v, v1, p, a, rest, u / 2 / v1, q0);
    DivAtLeast(u, v, q0 - 1);
  }

  lemma CorrectFixes(u: nat, v: nat, q0: nat)
    requires 0 < v < B64 && u < B64 && u / v <= q0 <= u / v + 1
    ensures Correct(u, v, q0) == u / v
  {
    var g := if q0 != 0 then q0 - 1 else q0;
    QuotientFits(u, v);
    GuessFits(u, v, g);
  }

  lemma QuotientFits(u: int, v: int)
    requires 0 <= u && v >= 1
    ensures 0 <= u / v <= u
  {
    DivAtLeast(u, v, 0);
    DivAtLeast(u, v, u + 1);
    MulMono(1, v, u + 1);
  }

  lemma GuessFits(u: int, v: int, g: int)
    requires 0 <= u < B64 && v >= 1 && 0 <= g <= u / v <= g + 1
    ensures 0 <= g * v <= u && (u - g * v >= v <==> g + 1 == u / v)
    ensures g + 1 == u / v ==> g + 1 < B64
  {
    DivAtLeast(u, v, g);
    DivAtLeast(u, v, g + 1);
    MulNext(g, v);
    MulMono(0, g, v);
    QuotientFits(u, v);
  }

  /** `__udivdi3` is floor division, for all 64-bit operands. */
  lemma UDivExact(u: nat, v: nat)
    requires u < B64 && 0 < v < B64
    ensures UDivDi3(u, v) == u / v
  {
    if v < B32 {
      if u / B32 >= v {
        TwoDigitsExact(u, v);
      }
    } else {
      NormalisedHigh(v);
      EstimateClose(u, v);
      CorrectFixes(u, v, Estimate(u, v));
    }
  }

  /** `__umoddi3` and the remainder of `__udivmoddi4`. */
  function UModDi3(u: nat, v: nat): nat
    requires 0 < v < B64
  {
    Wrap(u - Wrap(v * UDivDi3(u, v)))
  }

  lemma UModExact(u: nat, v: nat)
    requires u < B64 && 0 < v < B64
    ensures UModDi3(u, v) == u % v
  {
    UDivExact(u, v);
    RemainderFits(u, v);
  }

  lemma RemainderFits(u: int, v: int)
    requires 0 <= u < B64 && v >= 1
    ensures Wrap(u - Wrap(v * (u / v))) == u % v
  {
    DivModDef(u, v);
    DivAtLeast(u, v, 0);
    MulMono(0, u / v, v);
    assert v * (u / v) == u / v * v;
  }

  // ---------------------------------------------------------------- signed division

  predicate Int64(x: int) { -B63 <= x < B63 }

  /** A 64-bit pattern read as a signed number. */
  function Signed(b: int): int { if Wrap(b) < B63 then Wrap(b) else Wrap(b) - B64 }

  function Neg(x: int): int { Signed(-x) }

  function Abs(x: int): nat { if x < 0 then -x else x }

  /** What the unsigned division sees of an operand, `-x` wrapping for the most negative one. */
  function Magnitude(x: int): (r: nat)
    requires Int64(x)
    ensures r == Abs(x) <= B63
  {
    Wrap(if x < 0 then Neg(x) else x)
  }

  /** An unsigned result taken as signed, and negated if need be. */
  function WithSign(b: int, neg: bool): int {
    if neg then Neg(Signed(b)) else Signed(b)
  }

  /** `__divmoddi4`: divide the magnitudes, then put the signs back. */
  function DivModDi4(n: int, d: int): (int, int)
    requires Int64(n) && Int64(d) && d != 0
  {
    (WithSign(UDivDi3(Magnitude(n), Magnitude(d)), (n < 0) != (d < 0)),
     WithSign(UModDi3(Magnitude(n), Magnitude(d)), n < 0))
  }

  /** `__divdi3`: the sign is applied by complementing and adding one. */
  function DivDi3(u: int, v: int): int
    requires Int64(u) && Int64(v) && v != 0
  {
    var q := UDivDi3(Magnitude(u), Magnitude(v));
    Signed(if (u < 0) != (v < 0) then (B64 - 1 - q) + 1 else q)
  }

  /** The one quotient that has no 64-bit representation. */
  predicate Overflows(n: int, d: int) { n == -B63 && d == -1 }

  /** Division towards zero. */
  function TruncDiv(n: int, d: int): int
    requires d != 0
  {
    var q := Abs(n) / Abs(d);
    if (n < 0) != (d < 0) then -q else q
  }

  function TruncMod(n: int, d: int): int
    requires d != 0
  {
    var r := Abs(n) % Abs(d);
    if n < 0 then -r else r
  }

  /** Putting the sign back on a magnitude is exact, but for a positive 2^63. */
  lemma SignBack(b: int, neg: bool)
    requires 0 <= b <= B63
    ensures WithSign(b, neg) == if neg then -b else if b == B63 then -B63 else b
    ensures neg ==> Signed(B64 - b) == -b
  {
  }

  lemma MagnitudesDivide(n: int, d: int)
    requires 0 <= n <= B63 && 1 <= d
    ensures 0 <= n / d <= B63 && 0 <= n % d < d
    ensures n / d == B63 <==> n == B63 && d == 1
  {
    DivModDef(n, d);
    DivAtLeast(n, d, 0);
    DivAtLeast(n, d, B63);
    DivAtLeast(n, d, B63 + 1);
    MulMono(1, d, B63 + 1);
    if d >= 2 {
      MulMono(2, d, B63);
    }
  }

  /** `__divmoddi4` truncates towards zero, for all operands but one. */
  lemma DivModTruncates(n: int, d: int)
    requires Int64(n) && Int64(d) && d != 0
    ensures DivModDi4(n, d).0 == TruncDiv(n, d) <==> !Overflows(n, d)
    ensures DivModDi4(n, d).1 == TruncMod(n, d)
    ensures DivDi3(n, d) == DivModDi4(n, d).0
    ensures Overflows(n, d) ==> DivModDi4(n, d) == (-B63, 0)
  {
    UDivExact(Abs(n), Abs(d));
    UModExact(Abs(n), Abs(d));
    MagnitudesDivide(Abs(n), Abs(d));
    SignBack(Abs(n) / Abs(d), (n < 0) != (d < 0));
    SignBack(Abs(n) % Abs(d), n < 0);
  }

  lemma TruncDivMod(n: int, d: int)
    requires d != 0
    ensures n == TruncDiv(n, d) * d + TruncMod(n, d)
    ensures Abs(TruncMod(n, d)) < Abs(d)
    ensures TruncMod(n, d) == 0 || (TruncMod(n, d) < 0 <==> n < 0)
  {
    var q, r := Abs(n) / Abs(d), Abs(n) % Abs(d);
    DivModDef(Abs(n), Abs(d));
    SignsBack(n, d, q, r);
  }

  /** The signs on the magnitudes. */
  lemma SignsBack(n: int, d: int, q: int, r: int)
    requires Abs(n) == q * Abs(d) + r
    ensures n == (if (n < 0) != (d < 0) then -q else q) * d + if n < 0 then -r else r
  {
    assert (0 - q) * d == -(q * d);
    assert q * (0 - d) == -(q * d);
  }

  /** The law C gives division: n = q * d + r, with |r| < |d| and the sign of n, unless n is
      INT64_MIN and d is -1, when the quotient comes back negative. */
  lemma DivisionLaw(n: int, d: int)
    requires Int64(n) && Int64(d) && d != 0
    ensures var (q, r) := DivModDi4(n, d);
      && (n == q * d + r <==> !Overflows(n, d))
      && Abs(r) < Abs(d) && (r == 0 || (r < 0 <==> n < 0))
  {
    DivModTruncates(n, d);
    TruncDivMod(n, d);
  }
}
