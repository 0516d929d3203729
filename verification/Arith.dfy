/** Division and powers of two: facts that the arithmetic modules share. */
module Arith {

  function Min(a: int, b: int): int { if a <= b then a else b }

  function Max(a: int, b: int): int { if a <= b then b else a }

  lemma MulMono(a: int, b: int, d: int)
    requires a <= b && d >= 0
    ensures a * d <= b * d
  {
    assert (b - a) * d >= 0;
  }

  lemma MulNext(q: int, d: int)
    ensures (q + 1) * d == q * d + d
  {
  }

  /** Quotient and remainder are determined by what they satisfy. */
  lemma DivModUnique(x: int, d: int, q: int, r: int)
    requires d >= 1 && x == q * d + r && 0 <= r < d
    ensures x / d == q && x % d == r
  {
    var p := x / d;
    DivModDef(x, d);
    if p < q {
      MulMono(p + 1, q, d);
      MulNext(p, d);
      assert false;
    } else if p > q {
      MulMono(q + 1, p, d);
      MulNext(q, d);
      assert false;
    }
  }

  lemma DivModDef(x: int, d: int)
    requires d >= 1
    ensures x == x / d * d + x % d && 0 <= x % d < d
  {
  }

  lemma MultipleMod(q: int, d: int)
    requires d >= 1
    ensures (q * d) % d == 0 && (q * d) / d == q
  {
    DivModUnique(q * d, d, q, 0);
  }

  /** `x / d >= q` exactly when `x` reaches `q * d`. */
  lemma DivAtLeast(x: int, d: int, q: int)
    requires d >= 1
    ensures x / d >= q <==> x >= q * d
  {
    DivModDef(x, d);
    if x / d >= q {
      MulMono(q, x / d, d);
    } else {
      MulMono(x / d + 1, q, d);
      MulNext(x / d, d);
    }
  }

  /** Dividing twice is dividing by the product. */
  lemma DivDiv(x: int, a: int, b: int)
    requires x >= 0 && a >= 1 && b >= 1
    ensures a * b >= 1 && x / a / b == x / (a * b)
  {
    var q, r := x / a / b, (x / a) % b;
    DivModDef(x, a);
    DivModDef(x / a, b);
    MulMono(1, b, a);
    assert a * b == b * a;
    assert x / a * a == (q * b + r) * a == q * (a * b) + r * a;
    MulMono(0, r, a);
    MulMono(r + 1, b, a);
    MulNext(r, a);
    DivModUnique(x, a * b, q, r * a + x % a);
  }

  function Pow2(k: nat): (r: nat)
    ensures r >= 1
  {
    if k == 0 then 1 else 2 * Pow2(k - 1)
  }

  lemma {:induction false} Pow2Plus(a: nat, b: nat)
    ensures Pow2(a + b) == Pow2(a) * Pow2(b)
  {
    if a > 0 {
      Pow2Plus(a - 1, b);
      DoubleProduct(Pow2(a - 1), Pow2(b));
    }
  }

  lemma DoubleProduct(x: int, y: int)
    ensures 2 * (x * y) == (2 * x) * y
  {
  }
}
