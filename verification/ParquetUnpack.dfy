/** Bit unpacking, eight values at a time. */
module ParquetUnpack {
  import Arithmetic
  import opened ParquetBits
  import opened Words

  const GROUP := 8

  /** Eight values of such a width fit the 64-bit buffer. */
  predicate IsWidth(w: nat) {
    1 <= w <= 8
  }

  /** The largest width whose eighth value is still shifted by less than 64 bits; the language defines no more. */
  const MAX_WIDTH := 9

  function Min(a: nat, b: nat): nat {
    if a <= b then a else b
  }

  // ----- Unpack8 and Unpack32 -----

  /** The `i`th value that Unpack8 takes from its input. */
  function Unpacked(input: seq<Byte>, w: nat, i: nat): nat {
    Low(Shr(Spell(input[..Min(|input|, 8)]), i * w), w)
  }

  lemma {:induction false} LowFits(x: nat, w: nat)
    ensures Low(x, w) < Shl(1, w)
  {
    if w > 0 {
      LowFits(x / 2, w - 1);
    }
  }

  lemma UnpackedFits(input: seq<Byte>, w: nat, i: nat)
    requires w <= MAX_WIDTH
    ensures Unpacked(input, w, i) < Shl(1, w) <= 512
  {
    LowFits(Shr(Spell(input[..Min(|input|, 8)]), i * w), w);
    ByEight(1);
    ShlTwice(1, 8, 1);
    ShlTwice(1, w, MAX_WIDTH - w);
    ShlAtLeast(Shl(1, w), MAX_WIDTH - w);
  }

  lemma {:induction false} ShlAtLeast(x: nat, k: nat)
    ensures x <= Shl(x, k)
  {
    if k > 0 {
      ShlAtLeast(x, k - 1);
    }
  }

  /** Unpack8's first loop. The bits or-ed into the buffer do not overlap, so adding them is the same. */
  method Load(input: seq<Byte>, inBytes: nat) returns (buffer: nat)
    requires inBytes <= |input|
    ensures buffer == Spell(input[..inBytes])
  {
    buffer := 0;
    for i := 0 to inBytes
      invariant buffer == Spell(input[..i])
    {
      SpellMore(input[..i], input[i]);
      assert input[..i + 1] == input[..i] + [input[i]];
      buffer := buffer + Shl(input[i], i * 8);
    }
  }

  /** The first eight elements of a span of the output, which starts at `start`. */
  method Unpack8(input: seq<Byte>, w: nat, out: array<UInt32>, start: nat)
    requires w <= MAX_WIDTH && start <= out.Length
    modifies out
    ensures w == 0 || input == [] || out.Length - start < GROUP ==> out[..] == old(out[..])
    ensures !(w == 0 || input == [] || out.Length - start < GROUP) ==>
              && (forall i :: 0 <= i < GROUP ==> out[start + i] == Unpacked(input, w, i))
              && (forall i :: 0 <= i < out.Length && !(start <= i < start + GROUP) ==> out[i] == old(out[i]))
  {
    if w == 0 || input == [] || out.Length - start < GROUP {
      return;
    }
    var inBytes := if |input| <= 8 then |input| else 8;
    var buffer := Load(input, inBytes);
    for i := 0 to GROUP
      invariant forall j :: 0 <= j < i ==> out[start + j] == Unpacked(input, w, j)
      invariant forall j :: 0 <= j < out.Length && !(start <= j < start + GROUP) ==> out[j] == old(out[j])
    {
      UnpackedFits(input, w, i);
      out[start + i] := Low(Shr(buffer, i * w), w);
    }
  }

  /** Eight values as `w` bytes. */
  function GroupBytes(values: seq<nat>, w: nat): (b: seq<Byte>)
    ensures |b| == w
  {
    BytesOf(Join(values, w, 0), w)
  }

  predicate IsGroup(values: seq<nat>, w: nat) {
    |values| == GROUP && Fit(values, w)
  }

  /** Unpacking gives a packed group back, whatever bytes come after it. */
  lemma UnpackGroup(values: seq<nat>, w: nat, rest: seq<Byte>, i: nat)
    requires IsWidth(w) && IsGroup(values, w) && i < GROUP
    ensures Unpacked(GroupBytes(values, w) + rest, w, i) == values[i]
  {
    var g := GroupBytes(values, w);
    var m := Min(|g + rest|, 8);
    assert (g + rest)[..m] == g + rest[..m - w];
    SpellThen(g, rest[..m - w]);
    JoinFits(values, w);
    SpellBytes(Join(values, w, 0), w);
    JoinHigh(values, w, Spell(rest[..m - w]));
    FieldAt(values, w, Spell(rest[..m - w]), i);
  }

  /** One group of Unpack32's output: unpacked from its own bytes, or left alone when the input does not reach that far. */
  ghost predicate GroupUnpacked(out: seq<UInt32>, before: seq<UInt32>, input: seq<Byte>, w: nat, g: nat)
    requires |out| == |before| && 8 * g + 8 <= |out|
  {
    var group, was := out[8 * g..8 * g + 8], before[8 * g..8 * g + 8];
    forall i :: 0 <= i < 8 ==> group[i] == if w > 0 && g * w < |input| then Unpacked(input[g * w..], w, i) else was[i]
  }

  method Unpack32(input: seq<Byte>, w: nat, out: array<UInt32>)
    requires w <= MAX_WIDTH
    modifies out
    ensures out.Length < 32 ==> out[..] == old(out[..])
    ensures out.Length >= 32 ==>
              && (forall g: nat :: g < 4 ==> GroupUnpacked(out[..], old(out[..]), input, w, g))
              && out[32..] == old(out[32..])
  {
    if out.Length < 32 {
      return;
    }
    ghost var before := out[..];
    var g := 0;
    while g < 4
      invariant g <= 4
      invariant forall h: nat :: h < g ==> GroupUnpacked(out[..], before, input, w, h)
      invariant forall i :: 8 * g <= i < out.Length ==> out[i] == before[i]
    {
      var byteOffset := g * w;
      if byteOffset >= |input| {
        break;
      }
      ghost var prior := out[..];
      Unpack8(input[byteOffset..], w, out, g * 8);
      forall h: nat | h <= g ensures GroupUnpacked(out[..], before, input, w, h) {
        if h < g {
          assert GroupUnpacked(prior, before, input, w, h);
          assert out[..][8 * h..8 * h + 8] == prior[8 * h..8 * h + 8];
        } else {
          assert w == 0 ==> out[..][8 * h..8 * h + 8] == before[8 * h..8 * h + 8];
        }
      }
      g := g + 1;
    }
    forall h: nat | g <= h < 4 ensures GroupUnpacked(out[..], before, input, w, h) {
      Arithmetic.MulMono(g, h, w);
    }
  }

  /** Four packed groups in a row come out as their 32 values. */
  lemma FourGroups(a: seq<nat>, b: seq<nat>, c: seq<nat>, d: seq<nat>, w: nat, rest: seq<Byte>, out: seq<UInt32>, before: seq<UInt32>)
    requires IsWidth(w) && IsGroup(a, w) && IsGroup(b, w) && IsGroup(c, w) && IsGroup(d, w)
    requires |out| == |before| == 32
    requires var input := GroupBytes(a, w) + (GroupBytes(b, w) + (GroupBytes(c, w) + (GroupBytes(d, w) + rest)));
             forall g: nat :: g < 4 ==> GroupUnpacked(out, before, input, w, g)
    ensures forall i :: 0 <= i < 32 ==> out[i] == (a + b + c + d)[i]
  {
    var input := GroupBytes(a, w) + (GroupBytes(b, w) + (GroupBytes(c, w) + (GroupBytes(d, w) + rest)));
    assert input[0..] == input && input[w..] == GroupBytes(b, w) + (GroupBytes(c, w) + (GroupBytes(d, w) + rest));
    assert input[2 * w..] == GroupBytes(c, w) + (GroupBytes(d, w) + rest);
    assert input[3 * w..] == GroupBytes(d, w) + rest;
    forall i | 0 <= i < 8 ensures out[i] == a[i] && out[8 + i] == b[i] && out[16 + i] == c[i] && out[24 + i] == d[i] {
      UnpackGroup(a, w, GroupBytes(b, w) + (GroupBytes(c, w) + (GroupBytes(d, w) + rest)), i);
      UnpackGroup(b, w, GroupBytes(c, w) + (GroupBytes(d, w) + rest), i);
      UnpackGroup(c, w, GroupBytes(d, w) + rest, i);
      UnpackGroup(d, w, rest, i);
      assert GroupUnpacked(out, before, input, w, 0) && GroupUnpacked(out, before, input, w, 1);
      assert GroupUnpacked(out, before, input, w, 2) && GroupUnpacked(out, before, input, w, 3);
      assert out[8 * 0..8 * 0 + 8][i] == a[i] && out[8 * 1..8 * 1 + 8][i] == b[i];
      assert out[8 * 2..8 * 2 + 8][i] == c[i] && out[8 * 3..8 * 3 + 8][i] == d[i];
    }
  }
}
