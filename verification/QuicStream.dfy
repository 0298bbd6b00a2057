/** The stream reassembler: out-of-order, overlapping and repeated pieces in, the stream's bytes out. */
module QuicStream {
  import opened Finite
  import opened QuicFrame
  import opened Words

  type Segments = map<nat, seq<Byte>>

  const UINT64_MAX := 0xFFFF_FFFF_FFFF_FFFF

  datatype StreamState = StreamState(segments: Segments, bytesRead: nat, finReceived: bool, finalSize: nat) {
    predicate IsFinished() {
      finReceived && bytesRead == finalSize
    }
  }

  const Fresh := StreamState(map[], 0, false, UINT64_MAX)

  /** A STREAM frame whose bytes have 64-bit positions. RFC 9000, section 19.8, allows positions below 2^62 only. */
  predicate Positioned(f: Frame) {
    f.Stream? && f.offset + |f.data| <= UINT64_MAX
  }

  /** PushFrame on a frame of this stream: a payload replaces the one held at the same offset. */
  function Push(s: StreamState, f: Frame): StreamState
    requires f.Stream?
  {
    var t := if f.fin then s.(finReceived := true, finalSize := f.offset + |f.data|) else s;
    if f.data == [] then t else t.(segments := t.segments[f.offset := f.data])
  }

  // ----- Read -----

  /** The first key of the ordered map. */
  ghost function Least(segs: Segments): (k: nat)
    requires segs != map[]
    ensures k in segs && forall j :: j in segs ==> k <= j
  {
    assert segs.Keys != {};
    LeastExists(segs.Keys);
    var k :| k in segs.Keys && forall j :: j in segs.Keys ==> k <= j;
    k
  }

  datatype Drained = Drained(out: seq<Byte>, segments: Segments, bytesRead: nat)

  /** What a read of at most `max` bytes returns and leaves behind. */
  ghost function Drain(segs: Segments, bytesRead: nat, max: nat): Drained
    decreases |segs|
  {
    if segs == map[] || max == 0 then Drained([], segs, bytesRead)
    else
      var k: nat := Least(segs);
      var data := segs[k];
      if k > bytesRead then Drained([], segs, bytesRead)
      else if k + |data| <= bytesRead then Drain(segs - {k}, bytesRead, max)
      else
        var skip := bytesRead - k;
        var available := |data| - skip;
        if max < available then Drained(data[skip..skip + max], segs, bytesRead + max)
        else
          var rest := Drain(segs - {k}, bytesRead + available, max - available);
          Drained(data[skip..] + rest.out, rest.segments, rest.bytesRead)
  }

  ghost function Then(out: seq<Byte>, d: Drained): Drained {
    Drained(out + d.out, d.segments, d.bytesRead)
  }

  lemma ThenThen(a: seq<Byte>, b: seq<Byte>, d: Drained)
    ensures Then(a, Then(b, d)) == Then(a + b, d)
  {
    assert a + (b + d.out) == (a + b) + d.out;
  }

  /** What one turn of the read loop does at the first piece: nothing when it lies
      ahead, otherwise copy what fits of its unread part and erase it once it is used up. */
  ghost predicate Turn(segs: Segments, bytesRead: nat, room: nat, piece: seq<Byte>, segs': Segments, bytesRead': nat, more: bool)
    requires segs != map[]
  {
    var k: nat := Least(segs);
    var end := k + |segs[k]|;
    if k > bytesRead then piece == [] && segs' == segs && bytesRead' == bytesRead && !more
    else if end <= bytesRead then piece == [] && segs' == segs - {k} && bytesRead' == bytesRead && more
    else if bytesRead + room < end then
      piece == segs[k][bytesRead - k..bytesRead - k + room] && segs' == segs && bytesRead' == bytesRead + room && !more
    else
      piece == segs[k][bytesRead - k..bytesRead - k + (end - bytesRead)] && segs' == segs - {k} && bytesRead' == end && more
  }

  lemma TurnDrains(segs: Segments, bytesRead: nat, room: nat, piece: seq<Byte>, segs': Segments, bytesRead': nat, more: bool)
    requires segs != map[] && room > 0 && Turn(segs, bytesRead, room, piece, segs', bytesRead', more)
    ensures |piece| <= room
    ensures more ==> |segs'| < |segs| && Drain(segs, bytesRead, room) == Then(piece, Drain(segs', bytesRead', room - |piece|))
    ensures !more ==> Drain(segs, bytesRead, room) == Drained(piece, segs', bytesRead')
  {
    var k: nat := Least(segs);
    assert segs.Keys == (segs - {k}).Keys + {k};
    var end := k + |segs[k]|;
    if k <= bytesRead < end <= bytesRead + room {
      assert piece == segs[k][bytesRead - k..];
    }
  }

  /** What the read loop keeps: the whole read is what has been copied so far, then the read of what is left. */
  ghost predicate Going(all: Drained, result: seq<Byte>, segs: Segments, bytesRead: nat, maxBytes: nat) {
    |result| <= maxBytes && all == Then(result, Drain(segs, bytesRead, maxBytes - |result|))
  }

  lemma GoesOn(all: Drained, result: seq<Byte>, segs: Segments, bytesRead: nat, maxBytes: nat,
               piece: seq<Byte>, segs': Segments, bytesRead': nat, more: bool)
    requires Going(all, result, segs, bytesRead, maxBytes) && segs != map[] && |result| < maxBytes
    requires Turn(segs, bytesRead, maxBytes - |result|, piece, segs', bytesRead', more)
    ensures more ==> Going(all, result + piece, segs', bytesRead', maxBytes) && |segs'| < |segs|
    ensures !more ==> all == Drained(result + piece, segs', bytesRead')
  {
    TurnDrains(segs, bytesRead, maxBytes - |result|, piece, segs', bytesRead', more);
    if more {
      ThenThen(result, piece, Drain(segs', bytesRead', maxBytes - |result| - |piece|));
    }
  }

  predicate Covers(segs: Segments, k: nat, p: nat) {
    k in segs && k <= p < k + |segs[k]|
  }

  ghost predicate Held(segs: Segments, p: nat) {
    exists k :: Covers(segs, k, p)
  }

  /** The piece with the lowest offset among those that hold `p`; overlaps are decided in its favour. */
  ghost predicate Owner(segs: Segments, p: nat, k: nat) {
    Covers(segs, k, p) && forall j :: Covers(segs, j, p) ==> k <= j
  }

  /** A read returns min(max, r) bytes, where r is the length of the contiguous run
      held from the read position on, and each byte comes from its owner. */
  lemma {:induction false} DrainIsMaximal(segs: Segments, bytesRead: nat, max: nat)
    ensures var d := Drain(segs, bytesRead, max);
            && |d.out| <= max && d.bytesRead == bytesRead + |d.out|
            && (forall p: nat :: bytesRead <= p < d.bytesRead ==> Held(segs, p))
            && (|d.out| < max ==> !Held(segs, d.bytesRead))
    decreases |segs|
  {
    if segs != map[] && max > 0 {
      var k: nat := Least(segs);
      var rest := segs - {k};
      if k + |segs[k]| <= bytesRead {
        DrainIsMaximal(rest, bytesRead, max);
        WithoutFirst(segs, k, bytesRead);
      } else if k <= bytesRead && k + |segs[k]| - bytesRead <= max {
        var next := k + |segs[k]|;
        DrainIsMaximal(rest, next, max - (next - bytesRead));
        WithoutFirst(segs, k, next);
        forall p: nat | bytesRead <= p < next ensures Held(segs, p) {
          assert Covers(segs, k, p);
        }
      } else if k <= bytesRead {
        forall p: nat | bytesRead <= p < bytesRead + max ensures Held(segs, p) {
          assert Covers(segs, k, p);
        }
      }
    }
  }

  /** From the end of a piece on, the piece makes no difference. */
  lemma WithoutFirst(segs: Segments, k: nat, from: nat)
    requires k in segs && k + |segs[k]| <= from
    ensures forall p: nat, j: nat :: p >= from ==> (Covers(segs, j, p) <==> Covers(segs - {k}, j, p))
    ensures forall p: nat :: p >= from ==> (Held(segs, p) <==> Held(segs - {k}, p))
  {
    forall p: nat | p >= from ensures Held(segs, p) <==> Held(segs - {k}, p) {
      if Held(segs, p) {
        var j :| Covers(segs, j, p);
        assert Covers(segs - {k}, j, p);
      }
      if Held(segs - {k}, p) {
        var j :| Covers(segs - {k}, j, p);
        assert Covers(segs, j, p);
      }
    }
  }

  lemma {:induction false} DrainTakesOwners(segs: Segments, bytesRead: nat, max: nat, p: nat, k: nat)
    requires bytesRead <= p < Drain(segs, bytesRead, max).bytesRead && Owner(segs, p, k)
    ensures var d := Drain(segs, bytesRead, max);
            |d.out| == d.bytesRead - bytesRead && d.out[p - bytesRead] == segs[k][p - k]
    decreases |segs|
  {
    DrainIsMaximal(segs, bytesRead, max);
    if segs != map[] && max > 0 {
      var first: nat := Least(segs);
      var next := first + |segs[first]|;
      if next <= bytesRead {
        WithoutFirst(segs, first, bytesRead);
        DrainTakesOwners(segs - {first}, bytesRead, max, p, k);
      } else if first <= bytesRead {
        if p < next {
          assert Covers(segs, first, p);
          assert k == first;
        } else {
          WithoutFirst(segs, first, next);
          DrainTakesOwners(segs - {first}, next, max - (next - bytesRead), p, k);
        }
      }
    }
  }

  /** A read that ends inside the first piece. */
  lemma DrainPart(segs: Segments, bytesRead: nat, max: nat, k: nat)
    requires segs != map[] && k == Least(segs) && k <= bytesRead && bytesRead + max < k + |segs[k]| && max > 0
    ensures Drain(segs, bytesRead, max) == Drained(segs[k][bytesRead - k..bytesRead - k + max], segs, bytesRead + max)
  {
  }

  /** A read that uses the first piece up. */
  lemma DrainWhole(segs: Segments, bytesRead: nat, max: nat, k: nat, next: nat)
    requires segs != map[] && k == Least(segs) && next == k + |segs[k]| && k <= bytesRead < next <= bytesRead + max
    ensures Drain(segs, bytesRead, max) == Then(segs[k][bytesRead - k..], Drain(segs - {k}, next, max - (next - bytesRead)))
  {
  }

  lemma SplitPiece(data: seq<Byte>, i: nat, j: nat, n: nat)
    requires i <= j <= n <= |data|
    ensures data[i..j] + data[j..n] == data[i..n]
  {
  }

  lemma SplitPieceThen(data: seq<Byte>, i: nat, j: nat, rest: seq<Byte>)
    requires i <= j <= |data|
    ensures data[i..j] + (data[j..] + rest) == data[i..] + rest
  {
    SplitPiece(data, i, j, |data|);
    assert data[j..|data|] == data[j..] && data[i..|data|] == data[i..];
    Assoc(data[i..j], data[j..], rest);
  }

  /** Two reads inside the same piece ... */
  lemma ComposeInPiece(segs: Segments, bytesRead: nat, a: nat, b: nat, k: nat)
    requires segs != map[] && k == Least(segs) && k <= bytesRead && bytesRead + a + b < k + |segs[k]| && a > 0 && b > 0
    ensures var d := Drain(segs, bytesRead, a);
            var e := Drain(d.segments, d.bytesRead, b);
            Drain(segs, bytesRead, a + b) == Drained(d.out + e.out, e.segments, e.bytesRead)
  {
    var data, i := segs[k], bytesRead - k;
    DrainPart(segs, bytesRead, a, k);
    DrainPart(segs, bytesRead + a, b, k);
    DrainPart(segs, bytesRead, a + b, k);
    SplitPiece(data, i, i + a, i + a + b);
    assert Drain(segs, bytesRead, a) == Drained(data[i..i + a], segs, bytesRead + a);
    assert Drain(segs, bytesRead + a, b) == Drained(data[i + a..i + a + b], segs, bytesRead + a + b);
  }

  /** ... and two reads that begin inside the same piece and leave it. */
  lemma ComposeBeyond(segs: Segments, bytesRead: nat, a: nat, b: nat, k: nat, next: nat)
    requires segs != map[] && k == Least(segs) && next == k + |segs[k]|
    requires k <= bytesRead && bytesRead + a < next <= bytesRead + a + b && a > 0
    ensures var d := Drain(segs, bytesRead, a);
            var e := Drain(d.segments, d.bytesRead, b);
            Drain(segs, bytesRead, a + b) == Drained(d.out + e.out, e.segments, e.bytesRead)
  {
    var rest := Drain(segs - {k}, next, bytesRead + a + b - next);
    DrainPart(segs, bytesRead, a, k);
    DrainWhole(segs, bytesRead + a, b, k, next);
    DrainWhole(segs, bytesRead, a + b, k, next);
    SplitPieceThen(segs[k], bytesRead - k, bytesRead - k + a, rest.out);
  }

  lemma ReadNothing(d: Drained)
    ensures Drain(d.segments, d.bytesRead, 0) == Drained([], d.segments, d.bytesRead)
    ensures Drained(d.out + [], d.segments, d.bytesRead) == d
  {
  }

  lemma ComposeInside(segs: Segments, bytesRead: nat, a: nat, b: nat, k: nat)
    requires segs != map[] && k == Least(segs) && k <= bytesRead && bytesRead + a < k + |segs[k]| && a > 0
    ensures var d := Drain(segs, bytesRead, a);
            var e := Drain(d.segments, d.bytesRead, b);
            Drain(segs, bytesRead, a + b) == Drained(d.out + e.out, e.segments, e.bytesRead)
  {
    if b == 0 {
      ReadNothing(Drain(segs, bytesRead, a));
    } else if bytesRead + a + b < k + |segs[k]| {
      ComposeInPiece(segs, bytesRead, a, b, k);
    } else {
      ComposeBeyond(segs, bytesRead, a, b, k, k + |segs[k]|);
    }
  }

  /** Two reads in a row return and leave what one read of the total size does. */
  lemma {:induction false} ReadsCompose(segs: Segments, bytesRead: nat, a: nat, b: nat)
    ensures var d := Drain(segs, bytesRead, a);
            var e := Drain(d.segments, d.bytesRead, b);
            Drain(segs, bytesRead, a + b) == Drained(d.out + e.out, e.segments, e.bytesRead)
    decreases |segs|
  {
    if segs != map[] && a > 0 {
      var k: nat := Least(segs);
      var next := k + |segs[k]|;
      if next <= bytesRead {
        ReadsCompose(segs - {k}, bytesRead, a, b);
      } else if k <= bytesRead && bytesRead + a < next {
        ComposeInside(segs, bytesRead, a, b, k);
      } else if k <= bytesRead {
        ReadsCompose(segs - {k}, next, a - (next - bytesRead), b);
        var d := Drain(segs - {k}, next, a - (next - bytesRead));
        var e := Drain(d.segments, d.bytesRead, b);
        assert (segs[k][bytesRead - k..] + d.out) + e.out == segs[k][bytesRead - k..] + (d.out + e.out);
      }
    }
  }

  /** What is held beyond the new read position stays held. */
  lemma {:induction false} DrainKeepsUnread(segs: Segments, bytesRead: nat, max: nat, p: nat)
    requires p >= Drain(segs, bytesRead, max).bytesRead && Held(segs, p)
    ensures Held(Drain(segs, bytesRead, max).segments, p)
    decreases |segs|
  {
    DrainIsMaximal(segs, bytesRead, max);
    if segs != map[] && max > 0 {
      var k: nat := Least(segs);
      var next := k + |segs[k]|;
      if next <= bytesRead {
        WithoutFirst(segs, k, bytesRead);
        DrainKeepsUnread(segs - {k}, bytesRead, max, p);
      } else if k <= bytesRead && next - bytesRead <= max {
        DrainIsMaximal(segs - {k}, next, max - (next - bytesRead));
        WithoutFirst(segs, k, next);
        DrainKeepsUnread(segs - {k}, next, max - (next - bytesRead), p);
      }
    }
  }

  /** A piece that a read removes lies before the new read position. */
  lemma {:induction false} DrainDropsRead(segs: Segments, bytesRead: nat, max: nat, k: nat)
    requires k in segs && k !in Drain(segs, bytesRead, max).segments
    ensures k + |segs[k]| <= Drain(segs, bytesRead, max).bytesRead
    decreases |segs|
  {
    var first: nat := Least(segs);
    var next := first + |segs[first]|;
    if next <= bytesRead {
      DrainIsMaximal(segs - {first}, bytesRead, max);
      if k != first {
        DrainDropsRead(segs - {first}, bytesRead, max, k);
      }
    } else {
      DrainIsMaximal(segs - {first}, next, max - (next - bytesRead));
      if k != first {
        DrainDropsRead(segs - {first}, next, max - (next - bytesRead), k);
      }
    }
  }

  lemma {:induction false} DrainKeepsPieces(segs: Segments, bytesRead: nat, max: nat)
    ensures var left := Drain(segs, bytesRead, max).segments;
            forall k :: k in left ==> k in segs && left[k] == segs[k]
    decreases |segs|
  {
    if segs != map[] && max > 0 {
      var k: nat := Least(segs);
      var next := k + |segs[k]|;
      if next <= bytesRead {
        DrainKeepsPieces(segs - {k}, bytesRead, max);
      } else if k <= bytesRead && next - bytesRead <= max {
        DrainKeepsPieces(segs - {k}, next, max - (next - bytesRead));
      }
    }
  }

  // ----- the object -----

  class StreamReassembler {
    const streamId: UInt64
    var segments: Segments
    var bytesRead: nat
    var finReceived: bool
    var finalSize: nat

    ghost function View(): StreamState
      reads this
    {
      StreamState(segments, bytesRead, finReceived, finalSize)
    }

    constructor (streamId: UInt64)
      ensures this.streamId == streamId && View() == Fresh
    {
      this.streamId := streamId;
      segments, bytesRead, finReceived, finalSize := map[], 0, false, UINT64_MAX;
    }

    method PushFrame(f: Frame) returns (ok: bool)
      requires Positioned(f)
      modifies this
      ensures ok <==> f.streamId == streamId
      ensures View() == if ok then Push(old(View()), f) else old(View())
    {
      if f.streamId != streamId {
        return false;
      }
      if f.fin {
        finReceived := true;
        finalSize := f.offset + |f.data|;
      }
      if f.data != [] {
        segments := segments[f.offset := f.data];
      }
      return true;
    }

    /** One turn of Read's loop, with room for `room` more bytes; `more` tells the
        loop to go on, after the first piece has been used up and erased. */
    method ReadFirst(room: nat) returns (piece: seq<Byte>, more: bool)
      requires segments != map[] && room > 0
      modifies this`segments, this`bytesRead
      ensures Turn(old(segments), old(bytesRead), room, piece, segments, bytesRead, more)
    {
      LeastExists(segments.Keys);
      var segStart: nat :| segStart in segments.Keys && forall j :: j in segments.Keys ==> segStart <= j;
      assert segStart == Least(segments);
      piece := [];
      if segStart > bytesRead {
        return piece, false;
      }
      var data := segments[segStart];
      var segEnd := segStart + |data|;
      if segEnd > bytesRead {
        var offsetInData := bytesRead - segStart;
        var available := |data| - offsetInData;
        var toCopy := if available <= room then available else room;
        piece := data[offsetInData..offsetInData + toCopy];
        bytesRead := bytesRead + toCopy;
        if offsetInData + toCopy < |data| {
          return piece, false;
        }
      }
      segments := segments - {segStart};
      return piece, true;
    }

    method Read(maxBytes: nat) returns (result: seq<Byte>)
      modifies this`segments, this`bytesRead
      ensures Drain(old(segments), old(bytesRead), maxBytes) == Drained(result, segments, bytesRead)
    {
      ghost var all := Drain(segments, bytesRead, maxBytes);
      result := [];
      while segments != map[] && |result| < maxBytes
        invariant Going(all, result, segments, bytesRead, maxBytes)
        decreases |segments|
      {
        ghost var before, from := segments, bytesRead;
        var piece, more := ReadFirst(maxBytes - |result|);
        GoesOn(all, result, before, from, maxBytes, piece, segments, bytesRead, more);
        result := result + piece;
        if !more {
          return result;
        }
      }
    }
  }
}
