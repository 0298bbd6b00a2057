/** Complex amplitudes, and the index arithmetic of strided passes over them. */
module QuantumIndex {
  import opened Arithmetic

  datatype Complex = Complex(re: real, im: real) {
    function Plus(c: Complex): Complex {
      Complex(re + c.re, im + c.im)
    }

    function Times(c: Complex): Complex {
      Complex(re * c.re - im * c.im, re * c.im + im * c.re)
    }

    /** The squared modulus, which is the probability of the amplitude. */
    function Square(): real {
      re * re + im * im
    }
  }

  const Zero := Complex(0.0, 0.0)
  const One := Complex(1.0, 0.0)

  /** The bit of `k` that the stride `s` selects. */
  function Bit(k: nat, s: nat): nat
    requires s > 0
  {
    Quot(k, s) % 2
  }

  /** `k` with that bit cleared. */
  function Low(k: nat, s: nat): nat
    requires s > 0
  {
    if Bit(k, s) == 0 then k
    else
      k - s
  }

  lemma ClearBit(k: nat, s: nat)
    requires s > 0
    ensures Bit(Low(k, s), s) == 0 && Quot(Low(k, s), 2 * s) == Quot(k, 2 * s)
    ensures k == Low(k, s) + Bit(k, s) * s
  {
    var block, bit, i := SplitExists(k, s);
    Split(Low(k, s), s, block, 0, i);
  }

  /** An index is a block of two strides, a bit and a position, in only one way. */
  lemma Split(k: nat, s: nat, block: nat, bit: nat, i: nat)
    requires 0 < s && bit < 2 && i < s && k == block * (2 * s) + bit * s + i
    ensures Quot(k, 2 * s) == block && Bit(k, s) == bit && Low(k, s) == block * (2 * s) + i
  {
    MulMono(bit, 1, s);
    QuotUnique(k, 2 * s, block, bit * s + i);
    MulAssoc(block, 2, s);
    MulDistrib(block * 2, bit, s);
    QuotUnique(k, s, block * 2 + bit, i);
  }

  /** And every index is of that form. */
  lemma SplitExists(k: nat, s: nat) returns (block: nat, bit: nat, i: nat)
    requires 0 < s
    ensures bit < 2 && i < s && k == block * (2 * s) + bit * s + i
    ensures block == Quot(k, 2 * s) && bit == Bit(k, s) && Low(k, s) == block * (2 * s) + i
  {
    block := Quot(k, 2 * s);
    QuotBounds(k, 2 * s);
    var rest := k - block * (2 * s);
    bit := if rest < s then 0 else 1;
    i := rest - bit * s;
    Split(k, s, block, bit, i);
  }

  /** Adding an even multiple of a stride does not reach its bit. */
  lemma EvenMultiple(k: nat, t: nat, c: nat)
    requires t > 0
    ensures Bit(k + (2 * c) * t, t) == Bit(k, t)
  {
    QuotBounds(k, t);
    var q := Quot(k, t);
    var r := k - q * t;
    MulDistrib(q, 2 * c, t);
    QuotUnique(k + (2 * c) * t, t, q + 2 * c, r);
  }

  /** Indices of one block agree on the bits of the strides above. */
  lemma SameBlock(j: nat, k: nat, d: nat, c: nat)
    requires d > 0 && c > 0 && Quot(j, d) == Quot(k, d)
    ensures d * c > 0 && Bit(j, d * c) == Bit(k, d * c)
  {
    QuotQuot(j, d, c);
    QuotQuot(k, d, c);
  }

  lemma SetBit(k: nat, s: nat)
    requires s > 0 && Bit(k, s) == 0
    ensures Quot(k + s, 2 * s) == Quot(k, 2 * s) && Bit(k + s, s) == 1 && Low(k + s, s) == k
  {
    var block, bit, i := SplitExists(k, s);
    Split(k + s, s, block, 1, i);
  }

  /** A larger stride is an even multiple of a smaller one. */
  lemma StrideRatio(a: nat, b: nat) returns (c: nat)
    requires a < b
    ensures c > 0 && Pow2(b) == (2 * c) * Pow2(a) == c * (2 * Pow2(a)) == (2 * Pow2(a)) * c
  {
    Pow2Split(a + 1, b);
    c := Pow2(b - a - 1);
    MulAssoc(2, c, Pow2(a));
    MulAssoc(c, 2, Pow2(a));
  }

  /** Two strides of which one is an even multiple of the other. */
  ghost predicate Apart(s: nat, t: nat) {
    s > 0 && t > 0 && exists c: nat :: c > 0 && EvenRatio(s, t, c)
  }

  ghost predicate EvenRatio(s: nat, t: nat, c: nat) {
    s == (2 * c) * t || t == (2 * s) * c
  }

  /** The register of `n` amplitudes is made of whole blocks of two strides. */
  ghost predicate Tiles(s: nat, n: nat) {
    s > 0 && exists c: nat :: Times2(c, s) == n
  }

  ghost function Times2(c: nat, s: nat): nat {
    c * (2 * s)
  }

  lemma QubitsApart(a: nat, b: nat)
    requires a != b
    ensures Apart(Pow2(a), Pow2(b))
  {
    var c: nat;
    if b < a {
      c := StrideRatio(b, a);
    } else {
      c := StrideRatio(a, b);
    }
    assert EvenRatio(Pow2(a), Pow2(b), c);
  }

  lemma QubitTiles(t: nat, n: nat)
    requires t < n
    ensures Tiles(Pow2(t), Pow2(n))
  {
    var c := StrideRatio(t, n);
    assert Times2(c, Pow2(t)) == Pow2(n);
  }

  /** Setting the bit of one stride leaves the bit of the other stride alone. */
  lemma OtherBit(k: nat, s: nat, t: nat)
    requires Apart(s, t) && Bit(k, s) == 0
    ensures Bit(k + s, t) == Bit(k, t)
  {
    var c: nat :| c > 0 && EvenRatio(s, t, c);
    if s == (2 * c) * t {
      EvenMultiple(k, t, c);
    } else {
      SetBit(k, s);
      SameBlock(k + s, k, 2 * s, c);
    }
  }

  /** The partner of an index stays inside the register. */
  lemma PartnerInRange(k: nat, s: nat, n: nat)
    requires Tiles(s, n) && k < n && Bit(k, s) == 0
    ensures k + s < n
  {
    var c: nat :| Times2(c, s) == n;
    var block, bit, i := SplitExists(k, s);
    if c <= block {
      MulMono(c, block, 2 * s);
    } else {
      MulMono(block + 1, c, 2 * s);
      MulDistrib(block, 1, 2 * s);
    }
  }
}
