/** Encodings of runs, and that the decoder gives them back. */
module ParquetRuns {
  import opened Options
  import opened ParquetBits
  import opened ParquetHybrid
  import opened ParquetUnpack
  import opened Words

  // ----- runs -----

  /** A repeated value, or groups of eight packed ones; `head` is how many bytes the sender gives the run's header. */
  datatype Run =
    | Repeated(head: nat, count: nat, value: nat)
    | Packed(head: nat, groups: seq<seq<nat>>)

  function HeaderOf(r: Run): nat {
    match r
    case Repeated(_, count, _) => 2 * count
    case Packed(_, groups) => 2 * |groups| + 1
  }

  /** A LEB128 integer in `count` bytes. */
  function Leb(n: nat, count: nat): (b: seq<Byte>)
    requires count > 0
    ensures |b| == count
  {
    if count == 1 then [n % 128] else [128 + n % 128] + Leb(n / 128, count - 1)
  }

  /** The bytes of a repeated value. */
  function ValueBytes(w: nat): nat {
    (w + 7) / 8
  }

  /** The header and the values fit their bytes; packed values have one of the widths that the buffer of a group can hold. */
  predicate WellFormed(r: Run, w: nat) {
    && 0 < r.head && HeaderOf(r) < Shl(1, r.head * 7) && HeaderOf(r) < WRAP && r.head <= MAX_HEADER
    && match r
       case Repeated(_, _, value) => w <= 32 && value < Shl(1, ValueBytes(w) * 8)
       case Packed(_, groups) => IsWidth(w) && forall i :: 0 <= i < |groups| ==> IsGroup(groups[i], w)
  }

  function GroupsBytes(groups: seq<seq<nat>>, w: nat): seq<Byte> {
    if groups == [] then [] else GroupBytes(groups[0], w) + GroupsBytes(groups[1..], w)
  }

  function GroupsValues(groups: seq<seq<nat>>): seq<nat> {
    if groups == [] then [] else groups[0] + GroupsValues(groups[1..])
  }

  function Body(r: Run, w: nat): seq<Byte> {
    match r
    case Repeated(_, _, value) => BytesOf(value, ValueBytes(w))
    case Packed(_, groups) => GroupsBytes(groups, w)
  }

  function RunBytes(r: Run, w: nat): seq<Byte>
    requires r.head > 0
  {
    Leb(HeaderOf(r), r.head) + Body(r, w)
  }

  function RunValues(r: Run): seq<nat> {
    match r
    case Repeated(_, count, value) => seq(count, _ => value)
    case Packed(_, groups) => GroupsValues(groups)
  }

  predicate AllWellFormed(runs: seq<Run>, w: nat) {
    forall i :: 0 <= i < |runs| ==> WellFormed(runs[i], w)
  }

  /** The encoding of a mix of runs, and the values it stands for. */
  function Encoded(runs: seq<Run>, w: nat): seq<Byte>
    requires AllWellFormed(runs, w)
  {
    if runs == [] then [] else RunBytes(runs[0], w) + Encoded(runs[1..], w)
  }

  function Values(runs: seq<Run>): seq<nat> {
    if runs == [] then [] else RunValues(runs[0]) + Values(runs[1..])
  }

  // ----- decoding what was encoded -----

  lemma {:induction false} HeaderReads(n: nat, count: nat, rest: seq<Byte>)
    requires count > 0 && n < Shl(1, count * 7)
    ensures HeaderSize(Leb(n, count) + rest) == count && HeaderValue(Leb(n, count) + rest) == n
    ensures (Leb(n, count) + rest)[count..] == rest
  {
    var src := Leb(n, count) + rest;
    ByEight(1);
    if count > 1 {
      NextField(count, 7);
      ShlTwice(1, (count - 1) * 7, 7);
      ByEight(Shl(1, (count - 1) * 7));
      HeaderReads(n / 128, count - 1, rest);
      assert src == [128 + n % 128] + (Leb(n / 128, count - 1) + rest);
      assert src[1..] == Leb(n / 128, count - 1) + rest;
    }
  }

  lemma GroupReads(values: seq<nat>, w: nat, rest: seq<Byte>)
    requires IsWidth(w) && IsGroup(values, w)
    ensures Group(GroupBytes(values, w) + rest, w) == values
    ensures (GroupBytes(values, w) + rest)[w..] == rest
  {
    forall i | 0 <= i < GROUP ensures Group(GroupBytes(values, w) + rest, w)[i] == values[i] {
      UnpackGroup(values, w, rest, i);
    }
  }

  function Zeros(n: nat): seq<Byte> {
    seq(n, _ => 0)
  }

  lemma {:induction false} SpellZeros(n: nat)
    ensures Spell(Zeros(n)) == 0
  {
    if n > 0 {
      assert Zeros(n) == Zeros(n - 1) + [0];
      SpellMore(Zeros(n - 1), 0);
      SpellZeros(n - 1);
      ShlOfZero((n - 1) * 8);
    } else {
      assert Zeros(0) == [];
    }
  }

  /** A group that the end of the input cuts short reads as if zeros followed. */
  lemma CutGroupReadsZeros(src: seq<Byte>, w: nat, n: nat)
    requires |src| + n <= 8
    ensures Group(src + Zeros(n), w) == Group(src, w)
  {
    SpellThen(src, Zeros(n));
    SpellZeros(n);
    ShlOfZero(|src| * 8);
    assert (src + Zeros(n))[..Min(|src + Zeros(n)|, 8)] == src + Zeros(n);
    assert src[..Min(|src|, 8)] == src;
    forall i | 0 <= i < GROUP ensures Group(src + Zeros(n), w)[i] == Group(src, w)[i] {
      assert Unpacked(src + Zeros(n), w, i) == Unpacked(src, w, i);
    }
  }

  lemma NextGroup(groups: seq<seq<nat>>, w: nat, rest: seq<Byte>)
    requires groups != []
    ensures GroupsBytes(groups, w) + rest == GroupBytes(groups[0], w) + (GroupsBytes(groups[1..], w) + rest)
  {
  }

  /** Packed groups come out in order; what follows them is left, unless the total was reached before. */
  lemma {:induction false} GroupsRead(groups: seq<seq<nat>>, w: nat, rest: seq<Byte>, out: seq<nat>, total: nat, buf: Option<seq<nat>>)
    requires IsWidth(w) && forall i :: 0 <= i < |groups| ==> IsGroup(groups[i], w)
    ensures var p := Groups(GroupsBytes(groups, w) + rest, false, |groups|, w, out, total, buf);
            p.Some? && p.value.out == Fill(out, GroupsValues(groups), total) && (|p.value.out| < total ==> p.value.src == rest)
    decreases groups
  {
    if groups == [] || |out| >= total {
      FillNothing(out, total);
      assert groups == [] ==> GroupsBytes(groups, w) + rest == rest;
    } else {
      var tail := GroupsBytes(groups[1..], w) + rest;
      NextGroup(groups, w, rest);
      GroupReads(groups[0], w, tail);
      FillTwice(out, groups[0], GroupsValues(groups[1..]), total);
      GroupsRead(groups[1..], w, rest, Fill(out, groups[0], total), total, Some(groups[0]));
    }
  }

  lemma ValueReads(value: nat, w: nat, rest: seq<Byte>)
    requires w <= 32 && value < Shl(1, ValueBytes(w) * 8)
    ensures var src, size := BytesOf(value, ValueBytes(w)) + rest, ValueBytes(w);
            ValueSize(src, w) == size <= 4 && Spell(src[..size]) == value && src[size..] == rest
  {
    var bytes := BytesOf(value, ValueBytes(w));
    assert (bytes + rest)[..|bytes|] == bytes;
    SpellBytes(value, ValueBytes(w));
  }

  /** What a run's header leads to. */
  lemma RunByHeader(src: seq<Byte>, rest: seq<Byte>, header: nat, w: nat, out: seq<nat>, total: nat)
    requires HeaderSize(src) <= MAX_HEADER && src[HeaderSize(src)..] == rest && HeaderValue(src) == header < WRAP
    ensures header % 2 == 1 ==> OneRun(src, w, out, total) == Groups(rest, false, header / 2, w, out, total, None)
    ensures header % 2 == 0 && ValueSize(rest, w) <= 4 ==>
              OneRun(src, w, out, total)
              == Some(Progress(rest[ValueSize(rest, w)..], Fill(out, seq(header / 2, _ => Spell(rest[..ValueSize(rest, w)])), total)))
  {
  }

  lemma RepeatedByHeader(src: seq<Byte>, count: nat, value: nat, w: nat, rest: seq<Byte>, out: seq<nat>, total: nat)
    requires w <= 32 && value < Shl(1, ValueBytes(w) * 8)
    requires HeaderSize(src) <= MAX_HEADER && src[HeaderSize(src)..] == BytesOf(value, ValueBytes(w)) + rest
    requires HeaderValue(src) == 2 * count < WRAP
    ensures OneRun(src, w, out, total) == Some(Progress(rest, Fill(out, seq(count, _ => value), total)))
  {
    var body := BytesOf(value, ValueBytes(w)) + rest;
    ValueReads(value, w, rest);
    RunByHeader(src, body, 2 * count, w, out, total);
    assert seq(count, _ => Spell(body[..ValueBytes(w)])) == seq(count, _ => value);
  }

  lemma RepeatedReads(head: nat, count: nat, value: nat, w: nat, rest: seq<Byte>, out: seq<nat>, total: nat)
    requires WellFormed(Repeated(head, count, value), w)
    ensures OneRun(Leb(2 * count, head) + (BytesOf(value, ValueBytes(w)) + rest), w, out, total)
            == Some(Progress(rest, Fill(out, RunValues(Repeated(head, count, value)), total)))
  {
    var body := BytesOf(value, ValueBytes(w)) + rest;
    HeaderReads(2 * count, head, body);
    RepeatedByHeader(Leb(2 * count, head) + body, count, value, w, rest, out, total);
    assert seq(count, _ => value) == RunValues(Repeated(head, count, value));
  }

  lemma PackedReads(head: nat, groups: seq<seq<nat>>, w: nat, rest: seq<Byte>, out: seq<nat>, total: nat)
    requires WellFormed(Packed(head, groups), w)
    ensures var p := OneRun(Leb(2 * |groups| + 1, head) + (GroupsBytes(groups, w) + rest), w, out, total);
            p.Some? && p.value.out == Fill(out, GroupsValues(groups), total) && (|p.value.out| < total ==> p.value.src == rest)
  {
    var body := GroupsBytes(groups, w) + rest;
    HeaderReads(2 * |groups| + 1, head, body);
    RunByHeader(Leb(2 * |groups| + 1, head) + body, body, 2 * |groups| + 1, w, out, total);
    assert (2 * |groups| + 1) / 2 == |groups|;
    GroupsRead(groups, w, rest, out, total, None);
  }

  lemma RunReads(r: Run, w: nat, rest: seq<Byte>, out: seq<nat>, total: nat)
    requires WellFormed(r, w)
    ensures var p := OneRun(RunBytes(r, w) + rest, w, out, total);
            p.Some? && p.value.out == Fill(out, RunValues(r), total) && (|p.value.out| < total ==> p.value.src == rest)
  {
    assert RunBytes(r, w) + rest == Leb(HeaderOf(r), r.head) + (Body(r, w) + rest);
    match r
    case Repeated(head, count, value) => RepeatedReads(head, count, value, w, rest, out, total);
    case Packed(head, groups) => PackedReads(head, groups, w, rest, out, total);
  }

  lemma FirstRun(runs: seq<Run>, w: nat, rest: seq<Byte>)
    requires AllWellFormed(runs, w) && runs != []
    ensures Encoded(runs, w) + rest == RunBytes(runs[0], w) + (Encoded(runs[1..], w) + rest)
  {
  }

  lemma FillLength(out: seq<nat>, a: seq<nat>, b: seq<nat>, total: nat)
    requires |out| + |a + b| >= total
    ensures |Fill(out, a, total)| + |b| >= total
  {
  }

  /** Any well-formed mix of runs comes out as the first `total` of its values, after what `out` held before.
      Bytes after the encoding make no difference, as long as it has values enough. */
  lemma {:induction false} EncodedDecodes(runs: seq<Run>, w: nat, rest: seq<Byte>, out: seq<nat>, total: nat)
    requires AllWellFormed(runs, w) && (rest == [] || |out| + |Values(runs)| >= total)
    ensures Decoded(Encoded(runs, w) + rest, w, out, total) == Some(Fill(out, Values(runs), total))
    decreases runs
  {
    if runs == [] || |out| >= total {
      FillNothing(out, total);
      assert runs == [] ==> Encoded(runs, w) + rest == rest;
    } else {
      var tail := Encoded(runs[1..], w) + rest;
      var after := Fill(out, RunValues(runs[0]), total);
      FirstRun(runs, w, rest);
      RunReads(runs[0], w, tail, out, total);
      FillTwice(out, RunValues(runs[0]), Values(runs[1..]), total);
      if |after| < total {
        if rest != [] {
          FillLength(out, RunValues(runs[0]), Values(runs[1..]), total);
        }
        EncodedDecodes(runs[1..], w, rest, after, total);
      }
    }
  }

  lemma FillEmpty(values: seq<nat>, total: nat)
    ensures Fill([], values, total) == values[..Min(total, |values|)]
  {
    assert [] + values == values == values[..|values|];
    if 0 < total < |values| {
      assert [] + values[..total] == values[..total];
    }
  }

  /** Decoding into an empty output gives the first `total` values encoded. */
  lemma FirstValues(runs: seq<Run>, w: nat, total: nat)
    requires AllWellFormed(runs, w)
    ensures Decoded(Encoded(runs, w), w, [], total) == Some(Values(runs)[..Min(total, |Values(runs)|)])
  {
    var src, values := Encoded(runs, w), Values(runs);
    assert src + [] == src;
    EncodedDecodes(runs, w, [], [], total);
    FillEmpty(values, total);
  }
}
