/** Shifts, masks and little-endian bit packing on natural numbers. */
module ParquetBits {
  import opened Words

  /** x << k */
  function Shl(x: nat, k: nat): nat {
    if k == 0 then x else 2 * Shl(x, k - 1)
  }

  /** x >> k */
  function Shr(x: nat, k: nat): nat {
    if k == 0 then x else Shr(x / 2, k - 1)
  }

  /** x & ((1 << k) - 1) */
  function Low(x: nat, k: nat): nat {
    if k == 0 then 0 else x % 2 + 2 * Low(x / 2, k - 1)
  }

  lemma {:induction false} ShlAdds(x: nat, y: nat, k: nat)
    ensures Shl(x + y, k) == Shl(x, k) + Shl(y, k)
  {
    if k > 0 {
      ShlAdds(x, y, k - 1);
    }
  }

  lemma {:induction false} ShlTwice(x: nat, a: nat, b: nat)
    ensures Shl(Shl(x, a), b) == Shl(x, a + b)
  {
    if b > 0 {
      ShlTwice(x, a, b - 1);
    }
  }

  lemma {:induction false} ShrTwice(x: nat, a: nat, b: nat)
    ensures Shr(Shr(x, a), b) == Shr(x, a + b)
  {
    if a > 0 {
      ShrTwice(x / 2, a - 1, b);
    }
  }

  lemma {:induction false} ShlMono(x: nat, y: nat, k: nat)
    requires x <= y
    ensures Shl(x, k) <= Shl(y, k)
  {
    if k > 0 {
      ShlMono(x, y, k - 1);
    }
  }

  /** A value below 2^k, put under a number shifted by k, can be taken off again. */
  lemma {:induction false} Apart(v: nat, high: nat, k: nat)
    requires v < Shl(1, k)
    ensures Low(v + Shl(high, k), k) == v && Shr(v + Shl(high, k), k) == high
  {
    if k > 0 {
      Apart(v / 2, high, k - 1);
      assert (v + Shl(high, k)) / 2 == v / 2 + Shl(high, k - 1);
    }
  }

  lemma ByEight(x: nat)
    ensures Shl(x, 7) == 128 * x && Shl(x, 8) == 256 * x
  {
    assert Shl(x, 1) == 2 * x && Shl(x, 2) == 2 * Shl(x, 1);
    assert Shl(x, 3) == 2 * Shl(x, 2) && Shl(x, 4) == 2 * Shl(x, 3);
    assert Shl(x, 5) == 2 * Shl(x, 4) && Shl(x, 6) == 2 * Shl(x, 5);
    assert Shl(x, 7) == 2 * Shl(x, 6) && Shl(x, 8) == 2 * Shl(x, 7);
  }

  // ----- fields of equal width, the first one lowest -----

  function Join(fields: seq<nat>, width: nat, high: nat): nat {
    if fields == [] then high else fields[0] + Shl(Join(fields[1..], width, high), width)
  }

  predicate Fit(fields: seq<nat>, width: nat) {
    forall i :: 0 <= i < |fields| ==> fields[i] < Shl(1, width)
  }

  lemma {:induction false} JoinConcat(a: seq<nat>, b: seq<nat>, width: nat, high: nat)
    ensures Join(a + b, width, high) == Join(a, width, Join(b, width, high))
  {
    if a == [] {
      assert a + b == b;
    } else {
      assert (a + b)[1..] == a[1..] + b;
      JoinConcat(a[1..], b, width, high);
    }
  }

  lemma NextField(n: nat, width: nat)
    requires n > 0
    ensures n * width == (n - 1) * width + width
  {
  }

  /** What is above the fields is shifted past all of them. */
  lemma {:induction false} JoinHigh(fields: seq<nat>, width: nat, high: nat)
    ensures Join(fields, width, high) == Join(fields, width, 0) + Shl(high, |fields| * width)
  {
    if fields != [] {
      var n := |fields|;
      JoinHigh(fields[1..], width, high);
      ShlAdds(Join(fields[1..], width, 0), Shl(high, (n - 1) * width), width);
      ShlTwice(high, (n - 1) * width, width);
      NextField(n, width);
    }
  }

  lemma {:induction false} JoinFits(fields: seq<nat>, width: nat)
    requires Fit(fields, width)
    ensures Join(fields, width, 0) < Shl(1, |fields| * width)
  {
    if fields != [] {
      var n, rest := |fields|, Join(fields[1..], width, 0);
      JoinFits(fields[1..], width);
      ShlMono(rest + 1, Shl(1, (n - 1) * width), width);
      ShlAdds(rest, 1, width);
      ShlTwice(1, (n - 1) * width, width);
      NextField(n, width);
    }
  }

  /** Shifting and masking gives each field back, whatever is above them all. */
  lemma {:induction false} FieldAt(fields: seq<nat>, width: nat, high: nat, i: nat)
    requires Fit(fields, width) && i < |fields|
    ensures Low(Shr(Join(fields, width, high), i * width), width) == fields[i]
  {
    Apart(fields[0], Join(fields[1..], width, high), width);
    if i > 0 {
      FieldAt(fields[1..], width, high, i - 1);
      NextField(i, width);
      ShrTwice(Join(fields, width, high), width, (i - 1) * width);
    }
  }

  // ----- little-endian bytes -----


  function Naturals(bytes: seq<Byte>): seq<nat> {
    seq(|bytes|, i requires 0 <= i < |bytes| => bytes[i] as nat)
  }

  /** The number that the bytes spell, the first one lowest. */
  function Spell(bytes: seq<Byte>): nat {
    Join(Naturals(bytes), 8, 0)
  }

  function BytesOf(n: nat, count: nat): (b: seq<Byte>)
    ensures |b| == count
  {
    if count == 0 then [] else [n % 256] + BytesOf(n / 256, count - 1)
  }

  lemma NaturalsConcat(a: seq<Byte>, b: seq<Byte>)
    ensures Naturals(a + b) == Naturals(a) + Naturals(b)
  {
  }

  lemma {:induction false} SpellBytes(n: nat, count: nat)
    requires n < Shl(1, count * 8)
    ensures Spell(BytesOf(n, count)) == n
  {
    if count > 0 {
      var rest := BytesOf(n / 256, count - 1);
      NextField(count, 8);
      ShlTwice(1, (count - 1) * 8, 8);
      ByEight(Shl(1, (count - 1) * 8));
      SpellBytes(n / 256, count - 1);
      NaturalsConcat([n % 256], rest);
      assert Naturals([n % 256] + rest)[1..] == Naturals(rest);
      ByEight(n / 256);
    }
  }

  lemma SpellMore(bytes: seq<Byte>, b: Byte)
    ensures Spell(bytes + [b]) == Spell(bytes) + Shl(b, |bytes| * 8)
  {
    NaturalsConcat(bytes, [b]);
    JoinConcat(Naturals(bytes), Naturals([b]), 8, 0);
    assert Naturals([b])[1..] == [];
    ShlOfZero(8);
    assert Join(Naturals([b]), 8, 0) == b;
    JoinHigh(Naturals(bytes), 8, b);
  }

  lemma {:induction false} ShlOfZero(k: nat)
    ensures Shl(0, k) == 0
  {
    if k > 0 {
      ShlOfZero(k - 1);
    }
  }

  /** Later bytes are above earlier ones. */
  lemma SpellThen(bytes: seq<Byte>, more: seq<Byte>)
    ensures Spell(bytes + more) == Spell(bytes) + Shl(Spell(more), |bytes| * 8)
  {
    NaturalsConcat(bytes, more);
    JoinConcat(Naturals(bytes), Naturals(more), 8, 0);
    JoinHigh(Naturals(bytes), 8, Spell(more));
  }
}
