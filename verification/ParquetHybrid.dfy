/** The decoder of the RLE / bit-packing hybrid, on all inputs on which the language defines what it does. */
module ParquetHybrid {
  import opened Options
  import opened ParquetBits
  import opened ParquetUnpack
  import opened Words

  // ----- filling an output up to a total -----

  function Fill(out: seq<nat>, values: seq<nat>, total: nat): seq<nat> {
    if |out| >= total then out
    else if |out| + |values| <= total then out + values
    else out + values[..total - |out|]
  }

  lemma TakeOfConcat(a: seq<nat>, b: seq<nat>, n: nat)
    requires n <= |a| + |b|
    ensures (a + b)[..n] == if n <= |a| then a[..n] else a + b[..n - |a|]
  {
  }

  lemma FillTwice(out: seq<nat>, a: seq<nat>, b: seq<nat>, total: nat)
    ensures Fill(Fill(out, a, total), b, total) == Fill(out, a + b, total)
  {
    assert (out + a) + b == out + (a + b);
    if |out| < total && total - |out| <= |a| + |b| {
      TakeOfConcat(a, b, total - |out|);
      if total - |out| > |a| {
        assert (out + a) + b[..total - |out| - |a|] == out + (a + b[..total - |out| - |a|]);
      } else {
        assert total - |out| == |a| ==> a[..total - |out|] == a && b[..0] == [] && (out + a) + [] == out + a;
      }
    }
  }

  lemma FillNothing(out: seq<nat>, total: nat)
    ensures Fill(out, [], total) == out
  {
    assert out + [] == out;
  }

  lemma FillStays(out: seq<nat>, values: seq<nat>, more: seq<nat>, total: nat)
    requires |Fill(out, values, total)| >= total
    ensures Fill(out, values + more, total) == Fill(out, values, total)
  {
    FillTwice(out, values, more, total);
  }

  // ----- what the decoder makes of any bytes -----

  /** The bytes of a header: up to the first one without the continuation bit, or up to the end. */
  function HeaderSize(src: seq<Byte>): (n: nat)
    ensures n <= |src| && (src != [] ==> n > 0)
  {
    if src == [] then 0 else if src[0] < 128 then 1 else 1 + HeaderSize(src[1..])
  }

  /** The number that these bytes spell, seven bits each, before it is cut to 32 bits. */
  function HeaderValue(src: seq<Byte>): nat {
    if src == [] then 0 else if src[0] < 128 then src[0] else src[0] % 128 + 128 * HeaderValue(src[1..])
  }

  const WRAP := 0x1_0000_0000

  /** A sixth header byte would be shifted by more than 31 bits. */
  const MAX_HEADER := 5

  /** What is left of the input, and the output so far. */
  datatype Progress = Progress(src: seq<Byte>, out: seq<nat>)

  function Group(src: seq<Byte>, w: nat): (values: seq<nat>)
    ensures |values| == GROUP
  {
    seq(GROUP, i requires 0 <= i < GROUP => Unpacked(src, w, i))
  }

  /** `n` packed groups. `beyond` says that the position is past the end of the input, where no span may start;
      `buf` is the buffer of the run, which an empty span leaves as it is. None where nothing is defined. */
  function Groups(src: seq<Byte>, beyond: bool, n: nat, w: nat, out: seq<nat>, total: nat, buf: Option<seq<nat>>): Option<Progress>
    decreases n
  {
    if n == 0 || |out| >= total then Some(Progress(src, out))
    else if beyond || w > MAX_WIDTH then None
    else
      var filled := if w == 0 || src == [] then buf else Some(Group(src, w));
      if filled.None? then None
      else Groups(src[Min(w, |src|)..], w > |src|, n - 1, w, Fill(out, filled.value, total), total, filled)
  }

  function ValueSize(src: seq<Byte>, w: nat): nat {
    Min((w + 7) / 8, |src|)
  }

  /** One run: a header and what it announces. */
  function OneRun(src: seq<Byte>, w: nat, out: seq<nat>, total: nat): Option<Progress> {
    var rest, header := src[HeaderSize(src)..], HeaderValue(src) % WRAP;
    if HeaderSize(src) > MAX_HEADER then None
    else if header % 2 == 1 then Groups(rest, false, header / 2, w, out, total, None)
    else if ValueSize(rest, w) > 4 then None
    else
      Some(Progress(rest[ValueSize(rest, w)..], Fill(out, seq(header / 2, _ => Spell(rest[..ValueSize(rest, w)])), total)))
  }

  lemma {:induction false} GroupsShrink(src: seq<Byte>, beyond: bool, n: nat, w: nat, out: seq<nat>, total: nat, buf: Option<seq<nat>>)
    ensures var p := Groups(src, beyond, n, w, out, total, buf); p.Some? ==> |p.value.src| <= |src|
    decreases n
  {
    if !(n == 0 || |out| >= total || beyond || w > MAX_WIDTH) {
      var filled := if w == 0 || src == [] then buf else Some(Group(src, w));
      if filled.Some? {
        GroupsShrink(src[Min(w, |src|)..], w > |src|, n - 1, w, Fill(out, filled.value, total), total, filled);
      }
    }
  }

  lemma RunShrinks(src: seq<Byte>, w: nat, out: seq<nat>, total: nat)
    requires src != []
    ensures var p := OneRun(src, w, out, total); p.Some? ==> |p.value.src| < |src|
  {
    GroupsShrink(src[HeaderSize(src)..], false, HeaderValue(src) % WRAP / 2, w, out, total, None);
  }

  /** The whole output, or none where the decoder would leave its buffers or shift too far. */
  function Decoded(src: seq<Byte>, w: nat, out: seq<nat>, total: nat): Option<seq<nat>>
    decreases |src|
  {
    if src == [] || |out| >= total then Some(out)
    else
      RunShrinks(src, w, out, total);
      var p := OneRun(src, w, out, total);
      if p.None? then None else Decoded(p.value.src, w, p.value.out, total)
  }

  // ----- DecodeRLE -----

  /** The loop over the bytes of a header. */
  method ReadHeader(input: seq<Byte>, start: nat) returns (header: UInt32, next: nat)
    requires start <= |input| && HeaderSize(input[start..]) <= MAX_HEADER
    ensures header == HeaderValue(input[start..]) % WRAP && next == start + HeaderSize(input[start..])
  {
    header, next := 0, start;
    var shift: nat := 0;
    ghost var all := HeaderValue(input[start..]);
    while next < |input|
      invariant start <= next <= |input| && shift == 7 * (next - start)
      invariant next - start + HeaderSize(input[next..]) == HeaderSize(input[start..])
      invariant (header + Shl(HeaderValue(input[next..]), shift)) % WRAP == all % WRAP
      decreases |input| - next
    {
      var b := input[next];
      assert shift < 32;
      assert input[next..][0] == b && input[next..][1..] == input[next + 1..];
      HeaderByte(header, input[next..], shift);
      next := next + 1;
      header := (header + Shl(b % 128, shift)) % WRAP;
      shift := shift + 7;
      if b < 128 {
        return;
      }
    }
    ShlOfZero(shift);
  }

  lemma WrapSum(a: nat, b: nat, c: nat)
    ensures ((a + b) % WRAP + c) % WRAP == (a + b + c) % WRAP
  {
  }

  /** One header byte adds seven bits. */
  lemma HeaderByte(header: nat, src: seq<Byte>, shift: nat)
    requires src != []
    ensures src[0] < 128 ==> Shl(HeaderValue(src), shift) == Shl(src[0] % 128, shift)
    ensures src[0] >= 128 ==>
              ((header + Shl(src[0] % 128, shift)) % WRAP + Shl(HeaderValue(src[1..]), shift + 7)) % WRAP
              == (header + Shl(HeaderValue(src), shift)) % WRAP
  {
    if src[0] >= 128 {
      var high := HeaderValue(src[1..]);
      ByEight(high);
      ShlAdds(src[0] % 128, Shl(high, 7), shift);
      ShlTwice(high, 7, shift);
      WrapSum(header, Shl(src[0] % 128, shift), Shl(high, shift + 7));
    }
  }

  /** The values of an output, as numbers. */
  function Naturals32(out: seq<UInt32>): seq<nat> {
    seq(|out|, i requires 0 <= i < |out| => out[i] as nat)
  }

  lemma PushFills(out: seq<UInt32>, x: UInt32)
    ensures Naturals32(out + [x]) == Naturals32(out) + [x as nat]
  {
  }

  /** Pushing values one by one, until the total is reached. */
  lemma FillOneMore(out: seq<nat>, values: seq<nat>, i: nat, total: nat)
    requires i < |values|
    ensures Fill(out, values[..i + 1], total) ==
            if |Fill(out, values[..i], total)| < total then Fill(out, values[..i], total) + [values[i]] else Fill(out, values[..i], total)
  {
    assert values[..i + 1] == values[..i] + [values[i]];
    FillTwice(out, values[..i], [values[i]], total);
  }

  /** Stopping early because the total is reached makes no difference. */
  lemma FillDone(out: seq<nat>, values: seq<nat>, i: nat, total: nat)
    requires i <= |values| && (i == |values| || |Fill(out, values[..i], total)| >= total)
    ensures Fill(out, values, total) == Fill(out, values[..i], total)
  {
    assert values[..i] + values[i..] == values;
    if i < |values| {
      FillStays(out, values[..i], values[i..], total);
    } else {
      assert values[..i] == values;
    }
  }

  method PushRepeated(out: seq<UInt32>, count: nat, value: UInt32, total: nat) returns (res: seq<UInt32>)
    ensures Naturals32(res) == Fill(Naturals32(out), seq(count, _ => value as nat), total)
  {
    res := out;
    ghost var values := seq(count, _ => value as nat);
    var c := 0;
    FillNothing(Naturals32(out), total);
    assert values[..0] == [];
    while c < count && |res| < total
      invariant c <= count && Naturals32(res) == Fill(Naturals32(out), values[..c], total)
    {
      FillOneMore(Naturals32(out), values, c, total);
      PushFills(res, value);
      res := res + [value];
      c := c + 1;
    }
    FillDone(Naturals32(out), values, c, total);
  }

  /** The inner loop of a bit-packed run: one unpacked group. */
  method PushGroup(out: seq<UInt32>, buf: array<UInt32>, total: nat, ghost values: seq<nat>) returns (res: seq<UInt32>)
    requires buf.Length == GROUP && |values| == GROUP && forall i :: 0 <= i < GROUP ==> buf[i] == values[i]
    ensures Naturals32(res) == Fill(Naturals32(out), values, total)
  {
    res := out;
    var i := 0;
    FillNothing(Naturals32(out), total);
    assert values[..0] == [];
    while i < GROUP && |res| < total
      invariant i <= GROUP && Naturals32(res) == Fill(Naturals32(out), values[..i], total)
    {
      FillOneMore(Naturals32(out), values, i, total);
      PushFills(res, buf[i]);
      res := res + [buf[i]];
      i := i + 1;
    }
    FillDone(Naturals32(out), values, i, total);
  }

  /** The input from a position on, which may be past its end. */
  function From(input: seq<Byte>, at: nat): seq<Byte> {
    if at <= |input| then input[at..] else []
  }

  method UnpackPacked(input: seq<Byte>, start: nat, w: nat, out: seq<UInt32>, numGroups: nat, total: nat)
    returns (next: nat, res: seq<UInt32>)
    requires start <= |input| && Groups(input[start..], false, numGroups, w, Naturals32(out), total, None).Some?
    ensures start <= next
    ensures Groups(input[start..], false, numGroups, w, Naturals32(out), total, None) == Some(Progress(From(input, next), Naturals32(res)))
  {
    next, res := start, out;
    var buf := new UInt32[8];
    ghost var all, seen := Groups(input[start..], false, numGroups, w, Naturals32(out), total, None), None;
    var g := 0;
    while g < numGroups && |res| < total
      invariant g <= numGroups && start <= next && (seen.Some? ==> |seen.value| == GROUP && forall i :: 0 <= i < GROUP ==> buf[i] == seen.value[i])
      invariant all == Groups(From(input, next), next > |input|, numGroups - g, w, Naturals32(res), total, seen)
    {
      ghost var src := From(input, next);
      Unpack8(input[next..], w, buf, 0);
      if !(w == 0 || src == []) {
        seen := Some(Group(src, w));
      }
      res := PushGroup(res, buf, total, seen.value);
      assert From(input, next + w) == src[Min(w, |src|)..];
      next := next + w;
      g := g + 1;
    }
  }

  lemma SmallSpells(bytes: seq<Byte>)
    requires |bytes| <= 4
    ensures Spell(bytes) < WRAP
  {
    ByEight(1);
    JoinFits(Naturals(bytes), 8);
    ShlTwice(1, |bytes| * 8, 32 - |bytes| * 8);
    ShlAtLeast(Shl(1, |bytes| * 8), 32 - |bytes| * 8);
    ShlTwice(1, 8, 8);
    ShlTwice(1, 16, 8);
    ShlTwice(1, 24, 8);
    ByEight(Shl(1, 8));
    ByEight(Shl(1, 16));
    ByEight(Shl(1, 24));
  }

  /** The value of a repeated run, from as many bytes as the width needs or the input has. */
  method ReadValue(input: seq<Byte>, start: nat, w: nat) returns (value: UInt32, next: nat)
    requires start <= |input| && ValueSize(input[start..], w) <= 4
    ensures var size := ValueSize(input[start..], w);
            next == start + size && value == Spell(input[start..][..size])
  {
    var valBytes := (w + 7) / 8;
    var val: nat := 0;
    next := start;
    var b := 0;
    assert Spell([]) == 0;
    while b < valBytes && next < |input|
      invariant b <= valBytes && next == start + b <= |input| && val == Spell(input[start..][..b])
      decreases valBytes - b
    {
      ghost var bytes := input[start..];
      SpellMore(bytes[..b], bytes[b]);
      assert bytes[..b + 1] == bytes[..b] + [bytes[b]];
      val := val + Shl(input[next], b * 8);
      next := next + 1;
      b := b + 1;
    }
    SmallSpells(input[start..][..b]);
    value := val;
  }

  /** One turn of the decoder: a header and its run. */
  method DecodeRun(input: seq<Byte>, start: nat, w: nat, out: seq<UInt32>, total: nat) returns (next: nat, res: seq<UInt32>)
    requires start < |input| && OneRun(input[start..], w, Naturals32(out), total).Some?
    ensures start < next && OneRun(input[start..], w, Naturals32(out), total) == Some(Progress(From(input, next), Naturals32(res)))
  {
    var header;
    header, next := ReadHeader(input, start);
    assert input[start..][next - start..] == input[next..];
    if header % 2 == 0 {
      var value;
      ghost var size := ValueSize(input[next..], w);
      assert input[next..][size..] == input[next + size..];
      value, next := ReadValue(input, next, w);
      res := PushRepeated(out, header / 2, value, total);
    } else {
      next, res := UnpackPacked(input, next, w, out, header / 2, total);
    }
  }

  /** Terminates with what the bytes stand for, on every input that does not lead it out of its buffers. */
  method DecodeRLE(input: seq<Byte>, w: nat, out: seq<UInt32>, total: nat) returns (res: seq<UInt32>)
    requires Decoded(input, w, Naturals32(out), total).Some?
    ensures Decoded(input, w, Naturals32(out), total) == Some(Naturals32(res))
  {
    res := out;
    var inIdx := 0;
    assert input[0..] == input;
    while inIdx < |input| && |res| < total
      invariant Decoded(input, w, Naturals32(out), total) == Decoded(From(input, inIdx), w, Naturals32(res), total)
      decreases |input| - inIdx
    {
      inIdx, res := DecodeRun(input, inIdx, w, res, total);
    }
  }
}
