/** Variable-length integers, section 16 of RFC 9000. */
module QuicVarInt {
  import opened Options
  import opened Words

  /** A decoded value and the number of bytes it took. */
  datatype Decoded = Decoded(val: UInt64, len: nat)

  // ----- the encodings -----

  predicate IsWidth(len: nat) {
    len == 1 || len == 2 || len == 4 || len == 8
  }

  /** The first value that no longer fits an encoding of `len` bytes. */
  function Limit(len: nat): nat
    requires IsWidth(len)
  {
    if len == 1 then 0x40 else if len == 2 then 0x4000 else if len == 4 then 0x4000_0000 else 0x4000_0000_0000_0000
  }

  /** The two-bit prefix that announces `len` bytes, as the top bits of a byte. */
  function Tag(len: nat): int
    requires IsWidth(len)
  {
    if len == 1 then 0 else if len == 2 then 0x40 else if len == 4 then 0x80 else 0xC0
  }

  /** The `n` low bytes of `val`, most significant first, that one cut to six bits. */
  function Digits(val: nat, n: nat): (d: seq<Byte>)
    requires n > 0
    ensures |d| == n && d[0] < 64
  {
    if n == 1 then [val % 64] else Digits(val / 256, n - 1) + [val % 256]
  }

  /** Reading bytes on from `acc`, as the decoding loop does. */
  function Accumulate(acc: nat, bytes: seq<Byte>): nat {
    if bytes == [] then acc else Accumulate(acc, bytes[..|bytes| - 1]) * 256 + bytes[|bytes| - 1]
  }

  /** The `len` bytes for `val`; values may be encoded wider than they need. */
  function Wide(val: nat, len: nat): (bytes: seq<Byte>)
    requires IsWidth(len)
    ensures |bytes| == len
  {
    var d := Digits(val, len);
    [Tag(len) + d[0]] + d[1..]
  }

  /** 64 * 256^(n - 1) */
  function Cap(n: nat): nat
    requires n > 0
  {
    if n == 1 then 64 else 256 * Cap(n - 1)
  }

  lemma LimitIsCap(len: nat)
    requires IsWidth(len)
    ensures Limit(len) == Cap(len)
  {
    assert Cap(2) == 0x4000 && Cap(3) == 0x40_0000 && Cap(4) == 0x4000_0000;
    assert Cap(5) == 0x40_0000_0000 && Cap(6) == 0x4000_0000_0000 && Cap(7) == 0x40_0000_0000_0000;
  }

  lemma {:induction false} AccumulateDigits(val: nat, n: nat)
    requires n > 0 && val < Cap(n)
    ensures Accumulate(0, Digits(val, n)) == val
  {
    if n == 1 {
      assert Accumulate(0, Digits(val, 1)[..0]) == 0;
    } else {
      AccumulateDigits(val / 256, n - 1);
      assert Digits(val, n)[..n - 1] == Digits(val / 256, n - 1);
    }
  }

  /** Accumulating from the first byte on is accumulating the rest from it. */
  lemma {:induction false} AccumulateFrom(bytes: seq<Byte>)
    requires bytes != []
    ensures Accumulate(bytes[0], bytes[1..]) == Accumulate(0, bytes)
  {
    var n := |bytes| - 1;
    if n > 0 {
      AccumulateFrom(bytes[..n]);
      assert bytes[1..][..n - 1] == bytes[..n][1..];
    } else {
      assert Accumulate(0, bytes[..0]) == 0;
    }
  }

  lemma {:induction false} AccumulateBound(bytes: seq<Byte>)
    requires bytes != [] && bytes[0] < 64
    ensures Accumulate(0, bytes) < Cap(|bytes|)
  {
    var n := |bytes| - 1;
    if n > 0 {
      AccumulateBound(bytes[..n]);
    } else {
      assert Accumulate(0, bytes[..0]) == 0;
    }
  }

  // ----- Decode -----

  /** What Decode answers. */
  function Read(src: seq<Byte>): (r: Option<Decoded>)
    ensures r.Some? ==> IsWidth(r.value.len) && r.value.len <= |src| && r.value.val < Limit(r.value.len)
  {
    if src == [] then None
    else
      var len := Announced(src[0]);
      if |src| < len then None
      else
        assert ([src[0] % 64] + src[1..len])[1..] == src[1..len];
        AccumulateFrom([src[0] % 64] + src[1..len]);
        AccumulateBound([src[0] % 64] + src[1..len]);
        LimitIsCap(len);
        Some(Decoded(Accumulate(src[0] % 64, src[1..len]), len))
  }

  /** 1 << (the top two bits). */
  function Announced(b: Byte): (len: nat)
    ensures IsWidth(len) && b == Tag(len) + b % 64
  {
    var prefix := b / 64;
    if prefix == 0 then 1 else if prefix == 1 then 2 else if prefix == 2 then 4 else 8
  }

  method Decode(src: seq<Byte>) returns (r: Option<Decoded>)
    ensures r == Read(src)
  {
    if src == [] {
      return None;
    }
    var prefix := (src[0] / 64) % 4;
    var len := 1;
    for i := 0 to prefix
      invariant len == if i == 0 then 1 else if i == 1 then 2 else if i == 2 then 4 else 8
    {
      len := len * 2;
    }
    if |src| < len {
      return None;
    }
    var val: nat := src[0] % 64;
    for i := 1 to len
      invariant val == Accumulate(src[0] % 64, src[1..i])
    {
      assert src[1..i + 1][..i - 1] == src[1..i];
      val := val * 256 + src[i];
    }
    ghost var answer := Read(src);
    assert val == answer.value.val;
    return Some(Decoded(val, len));
  }

  /** Decoding answers exactly what was encoded, whatever follows and whatever width was used ... */
  lemma ReadWide(val: nat, len: nat, rest: seq<Byte>)
    requires IsWidth(len) && val < Limit(len)
    ensures Read(Wide(val, len) + rest) == Some(Decoded(val, len))
  {
    var d := Digits(val, len);
    var src := Wide(val, len) + rest;
    assert src[0] == Tag(len) + d[0] && Announced(src[0]) == len && src[0] % 64 == d[0];
    assert src[1..len] == d[1..];
    AccumulateFrom(d);
    LimitIsCap(len);
    AccumulateDigits(val, len);
  }

  /** ... refuses every strict prefix of an encoding ... */
  lemma ReadTruncated(val: nat, len: nat, k: nat)
    requires IsWidth(len) && k < len
    ensures Read(Wide(val, len)[..k]) == None
  {
    if k > 0 {
      assert Wide(val, len)[..k][0] == Tag(len) + Digits(val, len)[0];
    }
  }

  /** ... and whenever it answers, the bytes read are the encoding of the answer. */
  lemma ReadIsWide(src: seq<Byte>)
    requires Read(src).Some?
    ensures src[..Read(src).value.len] == Wide(Read(src).value.val, Read(src).value.len)
  {
    var r := Read(src).value;
    var d := [src[0] % 64] + src[1..r.len];
    assert d[1..] == src[1..r.len];
    AccumulateFrom(d);
    DigitsAccumulate(d);
  }

  lemma {:induction false} DigitsAccumulate(d: seq<Byte>)
    requires d != [] && d[0] < 64
    ensures Digits(Accumulate(0, d), |d|) == d
  {
    var n := |d| - 1;
    if n > 0 {
      var high := Accumulate(0, d[..n]);
      DigitsAccumulate(d[..n]);
      assert Accumulate(0, d) == high * 256 + d[n];
      assert (high * 256 + d[n]) / 256 == high && (high * 256 + d[n]) % 256 == d[n];
      assert d == d[..n] + [d[n]];
    } else {
      assert Accumulate(0, d[..0]) == 0;
    }
  }

  // ----- Encode -----

  function EncodedLength(val: UInt64): (len: nat)
    ensures IsWidth(len)
    ensures val < Limit(8) ==> val < Limit(len) && forall w: nat :: IsWidth(w) && val < Limit(w) ==> len <= w
  {
    if val <= 63 then 1 else if val <= 16383 then 2 else if val <= 1073741823 then 4 else 8
  }

  /** Encode writes the shortest form, or nothing at all when the destination is too small. */
  method Encode(val: UInt64, dst: array<Byte>) returns (len: nat)
    modifies dst
    ensures dst.Length < EncodedLength(val) ==> len == 0 && dst[..] == old(dst[..])
    ensures dst.Length >= EncodedLength(val) ==>
              && len == EncodedLength(val)
              && dst[..] == Wide(val, len) + old(dst[len..])
  {
    len := EncodedLength(val);
    if dst.Length < len {
      return 0;
    }
    if len == 1 {
      FewBytes(val);
      dst[0] := val;
    } else if len == 2 {
      FewBytes(val);
      dst[0] := 0x40 + (val / 0x100) % 64;
      dst[1] := val % 256;
    } else if len == 4 {
      FewBytes(val);
      dst[0] := 0x80 + (val / 0x100_0000) % 64;
      dst[1] := (val / 0x1_0000) % 256;
      dst[2] := (val / 0x100) % 256;
      dst[3] := val % 256;
    } else {
      EncodeEight(val, dst);
    }
  }

  /** The eight-byte branch. */
  method EncodeEight(val: UInt64, dst: array<Byte>)
    requires dst.Length >= 8
    modifies dst
    ensures dst[..] == Wide(val, 8) + old(dst[8..])
  {
    EightBytes(val);
    dst[0] := 0xC0 + (val / 0x100_0000_0000_0000) % 64;
    dst[1] := (val / 0x1_0000_0000_0000) % 256;
    dst[2] := (val / 0x100_0000_0000) % 256;
    dst[3] := (val / 0x1_0000_0000) % 256;
    dst[4] := (val / 0x100_0000) % 256;
    dst[5] := (val / 0x1_0000) % 256;
    dst[6] := (val / 0x100) % 256;
    dst[7] := val % 256;
  }

  lemma Digits4(val: nat)
    ensures Digits(val, 4) == [(val / 0x100_0000) % 64, (val / 0x1_0000) % 256, (val / 0x100) % 256, val % 256]
  {
    var v1 := val / 256;
    var v2 := v1 / 256;
    var v3 := v2 / 256;
    assert Digits(v2, 2) == Digits(v3, 1) + [v2 % 256];
    assert Digits(v1, 3) == Digits(v2, 2) + [v1 % 256];
    assert v2 == val / 0x1_0000 && v3 == val / 0x100_0000;
  }

  /** The shifts and masks of the shorter cases are the digits of the value. */
  lemma FewBytes(val: UInt64)
    ensures val < 0x40 ==> Wide(val, 1) == [val]
    ensures Wide(val, 2) == [0x40 + (val / 0x100) % 64, val % 256]
    ensures Wide(val, 4) == [0x80 + (val / 0x100_0000) % 64, (val / 0x1_0000) % 256, (val / 0x100) % 256, val % 256]
  {
    Digits4(val);
    assert Digits(val, 2) == Digits(val / 256, 1) + [val % 256];
  }

  /** The shifts and masks of the eight-byte case are the digits of the low 62 bits. */
  lemma EightBytes(val: UInt64)
    ensures Wide(val, 8) ==
            [0xC0 + (val / 0x100_0000_0000_0000) % 64, (val / 0x1_0000_0000_0000) % 256, (val / 0x100_0000_0000) % 256,
             (val / 0x1_0000_0000) % 256, (val / 0x100_0000) % 256, (val / 0x1_0000) % 256, (val / 0x100) % 256, val % 256]
  {
    var v1 := val / 256;
    var v2 := v1 / 256;
    var v3 := v2 / 256;
    var v4 := v3 / 256;
    Digits4(v4);
    assert Digits(v3, 5) == Digits(v4, 4) + [v3 % 256];
    assert Digits(v2, 6) == Digits(v3, 5) + [v2 % 256];
    assert Digits(v1, 7) == Digits(v2, 6) + [v1 % 256];
    assert v2 == val / 0x1_0000 && v3 == val / 0x100_0000 && v4 == val / 0x1_0000_0000;
    assert v4 / 0x100_0000 == val / 0x100_0000_0000_0000 && v4 / 0x1_0000 == val / 0x1_0000_0000_0000 && v4 / 0x100 == val / 0x100_0000_0000;
  }

  /** A value survives encoding and decoding if and only if it is below 2^62. */
  lemma EncodeRoundTrip(val: UInt64, rest: seq<Byte>)
    ensures Read(Wide(val, EncodedLength(val)) + rest) == Some(Decoded(val, EncodedLength(val))) <==> val < Limit(8)
  {
    if val < Limit(8) {
      ReadWide(val, EncodedLength(val), rest);
    }
  }
}
