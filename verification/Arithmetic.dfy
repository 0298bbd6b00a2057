/** The few facts about products, quotients and powers of two that the other modules share. */
module Arithmetic {
  lemma MulMono(a: int, b: int, d: nat)
    requires a <= b
    ensures a * d <= b * d
  {
  }

  lemma MulAssoc(a: int, b: int, c: int)
    ensures (a * b) * c == a * (b * c)
  {
  }

  lemma MulDistrib(a: int, b: int, c: int)
    ensures (a + b) * c == a * c + b * c
  {
  }

  /** k / d, by repeated subtraction: this form keeps the verifier away from division by a variable. */
  function Quot(k: nat, d: nat): nat
    requires d > 0
  {
    if k < d then 0 else 1 + Quot(k - d, d)
  }

  lemma {:induction false} QuotBounds(k: nat, d: nat)
    requires d > 0
    ensures Quot(k, d) * d <= k < Quot(k, d) * d + d
  {
    if k >= d {
      QuotBounds(k - d, d);
      MulDistrib(Quot(k - d, d), 1, d);
    }
  }

  /** Quotient and remainder are determined by the equation they satisfy. */
  lemma {:induction false} QuotUnique(k: nat, d: nat, q: nat, r: nat)
    requires r < d && k == q * d + r
    ensures Quot(k, d) == q
    decreases q
  {
    if q > 0 {
      MulDistrib(q - 1, 1, d);
      assert k - d == (q - 1) * d + r;
      QuotUnique(k - d, d, q - 1, r);
    }
  }

  lemma BlockFits(n: nat, d: nat, b: nat)
    requires d > 0 && b < Quot(n, d)
    ensures b * d + d <= n
  {
    QuotBounds(n, d);
    MulMono(b + 1, Quot(n, d), d);
    MulDistrib(b, 1, d);
  }

  lemma QuotNested(k: nat, a: nat, b: nat, q: nat, u: nat, v: nat, r: nat)
    requires r < a && v < b && k == q * a + r && q == u * b + v
    ensures a * b > 0 && Quot(k, a * b) == u
  {
    MulDistrib(u * b, v, a);
    MulAssoc(u, b, a);
    MulMono(v + 1, b, a);
    MulDistrib(v, 1, a);
    QuotUnique(k, a * b, u, v * a + r);
  }

  lemma QuotQuot(k: nat, a: nat, b: nat)
    requires a > 0 && b > 0
    ensures a * b > 0 && Quot(Quot(k, a), b) == Quot(k, a * b)
  {
    var q := Quot(k, a);
    var u := Quot(q, b);
    QuotBounds(k, a);
    QuotBounds(q, b);
    var r, v := k - q * a, q - u * b;
    QuotNested(k, a, b, q, u, v, r);
  }

  function Pow2(n: nat): (r: nat)
    ensures r >= 1
  {
    if n == 0 then 1 else 2 * Pow2(n - 1)
  }

  lemma {:induction false} Pow2Split(a: nat, b: nat)
    requires a <= b
    ensures Pow2(b) == Pow2(a) * Pow2(b - a)
  {
    if a < b {
      Pow2Split(a, b - 1);
      MulAssoc(Pow2(a), Pow2(b - 1 - a), 2);
    }
  }
}
