/** What a stream's reader gets, over whole runs of frames and reads. */
module QuicDelivery {
  import opened QuicFrame
  import opened QuicStream
  import opened Words

  datatype Op = Receive(frame: Frame) | Take(max: nat)

  datatype Delivery = Delivery(state: StreamState, out: seq<Byte>)

  const Start := Delivery(Fresh, [])

  /** One push or read; `out` collects what all reads have returned. A stream is handed STREAM frames only. */
  ghost function Step(d: Delivery, op: Op): Delivery {
    match op
    case Receive(f) => if f.Stream? then d.(state := Push(d.state, f)) else d
    case Take(max) =>
      var r := Drain(d.state.segments, d.state.bytesRead, max);
      Delivery(d.state.(segments := r.segments, bytesRead := r.bytesRead), d.out + r.out)
  }

  /** `f` is cut from the stream `bytes`, and only a frame that reaches its end says so. */
  predicate CutFrom(bytes: seq<Byte>, f: Frame) {
    && f.Stream? && f.offset + |f.data| <= |bytes|
    && f.data == bytes[f.offset..f.offset + |f.data|]
    && (f.fin ==> f.offset + |f.data| == |bytes|)
  }

  predicate AllCutFrom(bytes: seq<Byte>, ops: seq<Op>) {
    forall i :: 0 <= i < |ops| && ops[i].Receive? ==> CutFrom(bytes, ops[i].frame)
  }

  /** A run from the fresh reassembler. */
  ghost function Run(ops: seq<Op>): Delivery {
    if ops == [] then Start else Step(Run(ops[..|ops| - 1]), ops[|ops| - 1])
  }

  // ----- only the stream, in order -----

  ghost predicate Slices(bytes: seq<Byte>, segs: Segments) {
    forall k :: k in segs ==> segs[k] != [] && k + |segs[k]| <= |bytes| && segs[k] == bytes[k..k + |segs[k]|]
  }

  ghost predicate InOrder(bytes: seq<Byte>, d: Delivery) {
    && Slices(bytes, d.state.segments)
    && d.state.bytesRead <= |bytes|
    && d.out == bytes[..d.state.bytesRead]
    && d.state.finalSize == (if d.state.finReceived then |bytes| else UINT64_MAX)
  }

  lemma SliceOfSlice(b: seq<Byte>, lo: nat, hi: nat, i: nat, j: nat)
    requires lo <= hi <= |b| && i <= j <= hi - lo
    ensures b[lo..hi][i..j] == b[lo + i..lo + j]
  {
    forall x | 0 <= x < j - i ensures b[lo..hi][i..j][x] == b[lo + i..lo + j][x] {
    }
  }

  lemma Adjacent(b: seq<Byte>, lo: nat, mid: nat, hi: nat)
    requires lo <= mid <= hi <= |b|
    ensures b[lo..mid] + b[mid..hi] == b[lo..hi]
  {
    var joined := b[lo..mid] + b[mid..hi];
    forall i | 0 <= i < hi - lo ensures joined[i] == b[lo..hi][i] {
    }
  }

  lemma TakeThen(b: seq<Byte>, mid: nat, hi: nat)
    requires mid <= hi <= |b|
    ensures b[..mid] + b[mid..hi] == b[..hi]
  {
  }

  ghost predicate ReadsOn(bytes: seq<Byte>, bytesRead: nat, d: Drained) {
    Slices(bytes, d.segments) && bytesRead <= d.bytesRead <= |bytes| && d.out == bytes[bytesRead..d.bytesRead]
  }

  lemma WholePiece(bytes: seq<Byte>, segs: Segments, bytesRead: nat, max: nat, k: nat, next: nat)
    requires Slices(bytes, segs) && segs != map[] && k == Least(segs)
    requires next == k + |segs[k]| && k <= bytesRead < next <= bytesRead + max
    requires ReadsOn(bytes, next, Drain(segs - {k}, next, max - (next - bytesRead)))
    ensures ReadsOn(bytes, bytesRead, Drain(segs, bytesRead, max))
  {
    SliceOfSlice(bytes, k, next, bytesRead - k, |segs[k]|);
    Adjacent(bytes, bytesRead, next, Drain(segs - {k}, next, max - (next - bytesRead)).bytesRead);
  }

  lemma SkippedPiece(bytes: seq<Byte>, segs: Segments, bytesRead: nat, max: nat, k: nat)
    requires segs != map[] && max > 0 && k == Least(segs) && k + |segs[k]| <= bytesRead
    requires ReadsOn(bytes, bytesRead, Drain(segs - {k}, bytesRead, max))
    ensures ReadsOn(bytes, bytesRead, Drain(segs, bytesRead, max))
  {
  }

  lemma PartPiece(bytes: seq<Byte>, segs: Segments, bytesRead: nat, max: nat, k: nat)
    requires Slices(bytes, segs) && segs != map[] && k == Least(segs)
    requires max > 0 && k <= bytesRead && bytesRead + max < k + |segs[k]|
    ensures ReadsOn(bytes, bytesRead, Drain(segs, bytesRead, max))
  {
    SliceOfSlice(bytes, k, k + |segs[k]|, bytesRead - k, bytesRead - k + max);
  }

  lemma NoPiece(bytes: seq<Byte>, segs: Segments, bytesRead: nat, max: nat)
    requires Slices(bytes, segs) && bytesRead <= |bytes| && (segs == map[] || max == 0 || Least(segs) > bytesRead)
    ensures ReadsOn(bytes, bytesRead, Drain(segs, bytesRead, max))
  {
  }

  lemma {:induction false} DrainOfSlices(bytes: seq<Byte>, segs: Segments, bytesRead: nat, max: nat)
    requires Slices(bytes, segs) && bytesRead <= |bytes|
    ensures ReadsOn(bytes, bytesRead, Drain(segs, bytesRead, max))
    decreases |segs|
  {
    if segs == map[] || max == 0 || Least(segs) > bytesRead {
      NoPiece(bytes, segs, bytesRead, max);
    } else {
      var k: nat := Least(segs);
      var next := k + |segs[k]|;
      if next <= bytesRead {
        DrainOfSlices(bytes, segs - {k}, bytesRead, max);
        SkippedPiece(bytes, segs, bytesRead, max, k);
      } else if next <= bytesRead + max {
        DrainOfSlices(bytes, segs - {k}, next, max - (next - bytesRead));
        WholePiece(bytes, segs, bytesRead, max, k, next);
      } else {
        PartPiece(bytes, segs, bytesRead, max, k);
      }
    }
  }

  lemma StepInOrder(bytes: seq<Byte>, d: Delivery, op: Op)
    requires InOrder(bytes, d) && (op.Receive? ==> CutFrom(bytes, op.frame))
    ensures InOrder(bytes, Step(d, op))
  {
    match op
    case Receive(f) =>
    case Take(max) =>
      DrainOfSlices(bytes, d.state.segments, d.state.bytesRead, max);
      TakeThen(bytes, d.state.bytesRead, Drain(d.state.segments, d.state.bytesRead, max).bytesRead);
  }

  lemma {:induction false} RunInOrder(bytes: seq<Byte>, ops: seq<Op>)
    requires AllCutFrom(bytes, ops)
    ensures InOrder(bytes, Run(ops))
  {
    if ops != [] {
      RunInOrder(bytes, ops[..|ops| - 1]);
      StepInOrder(bytes, Run(ops[..|ops| - 1]), ops[|ops| - 1]);
    }
  }

  /** However the stream is cut, repeated, overlapped, reordered and interleaved with
      reads, the reads return a prefix of it, and all of it once the stream is finished. */
  lemma DeliversInOrder(bytes: seq<Byte>, ops: seq<Op>)
    requires AllCutFrom(bytes, ops) && |bytes| < UINT64_MAX
    ensures var d := Run(ops);
            && d.state.bytesRead <= |bytes| && d.out == bytes[..d.state.bytesRead]
            && (d.state.IsFinished() <==> d.state.finReceived && d.out == bytes)
  {
    RunInOrder(bytes, ops);
  }

  // ----- and nothing goes missing, unless a payload is replaced by a shorter one -----

  /** What a push loses, exactly: the positions held only by a piece that a shorter
      payload at the same offset replaces. */
  lemma PushLoses(s: StreamState, f: Frame, p: nat)
    requires f.Stream?
    ensures Held(s.segments, p) && !Held(Push(s, f).segments, p) <==>
              && f.data != [] && f.offset in s.segments
              && f.offset + |f.data| <= p < f.offset + |s.segments[f.offset]|
              && forall k :: Covers(s.segments, k, p) ==> k == f.offset
  {
    var t := Push(s, f).segments;
    if Held(s.segments, p) && !Held(t, p) {
      forall k | Covers(s.segments, k, p) ensures f.data != [] && k == f.offset {
        assert !Covers(t, k, p);
      }
      assert !Covers(t, f.offset, p);
    }
    if f.data != [] && f.offset in s.segments && f.offset + |f.data| <= p < f.offset + |s.segments[f.offset]| {
      assert Covers(s.segments, f.offset, p);
      if Held(t, p) {
        var k :| Covers(t, k, p);
        assert Covers(s.segments, k, p) && k != f.offset;
      }
    }
  }

  lemma PushHolds(s: StreamState, f: Frame, p: nat)
    requires f.Stream?
    ensures f.offset <= p < f.offset + |f.data| ==> Held(Push(s, f).segments, p)
    ensures Held(Push(s, f).segments, p) ==> Held(s.segments, p) || f.offset <= p < f.offset + |f.data|
  {
    var t := Push(s, f).segments;
    if f.offset <= p < f.offset + |f.data| {
      assert Covers(t, f.offset, p);
    } else if Held(t, p) {
      var k :| Covers(t, k, p);
      assert Covers(s.segments, k, p);
    }
  }

  lemma ReadOne(a: Byte)
    ensures Drain(map[0 := [a]], 0, 2) == Drained([a], map[], 1)
  {
    var segs: Segments := map[0 := [a]];
    assert 0 in segs;
    assert Least(segs) == 0;
    assert segs - {0} == map[];
  }

  /** A retransmission that is shorter than the payload it replaces loses bytes for good. */
  lemma ShorterRetransmissionLoses(a: Byte, b: Byte)
    ensures var first, second := Receive(Stream(0, 0, true, [a, b])), Receive(Stream(0, 0, false, [a]));
            && CutFrom([a, b], first.frame) && CutFrom([a, b], second.frame)
            && var d := Step(Step(Step(Start, first), second), Take(2));
               d.out == [a] && d.state.segments == map[] && !d.state.IsFinished()
  {
    assert [a, b][0..1] == [a] && [a, b][0..2] == [a, b];
    var d2 := Step(Step(Start, Receive(Stream(0, 0, true, [a, b]))), Receive(Stream(0, 0, false, [a])));
    assert d2.state.segments == map[0 := [a]];
    ReadOne(a);
  }

  predicate Payload(op: Op) {
    op.Receive? && op.frame.Stream? && op.frame.data != []
  }

  predicate Bears(op: Op, p: nat) {
    Payload(op) && op.frame.offset <= p < op.frame.offset + |op.frame.data|
  }

  ghost predicate Arrived(ops: seq<Op>, p: nat) {
    exists i: nat :: i < |ops| && Bears(ops[i], p)
  }

  /** No payload after the `i`th operation starts where its payload does. */
  predicate Latest(ops: seq<Op>, i: nat)
    requires i < |ops| && Payload(ops[i])
  {
    forall j: nat :: i < j < |ops| && Payload(ops[j]) ==> ops[j].frame.offset != ops[i].frame.offset
  }

  /** Some payload bears the position and was not followed by another one at its own offset. */
  ghost predicate Survives(ops: seq<Op>, p: nat) {
    exists i: nat :: i < |ops| && Bears(ops[i], p) && Latest(ops, i)
  }

  /** The last payload received at an offset; empty if there was none. */
  function LastAt(ops: seq<Op>, k: nat): seq<Byte> {
    if ops == [] then []
    else
      var op := ops[|ops| - 1];
      if Payload(op) && op.frame.offset == k then op.frame.data else LastAt(ops[..|ops| - 1], k)
  }

  /** Where the last payload of an offset is among the operations. */
  lemma {:induction false} LastIsLatest(ops: seq<Op>, k: nat) returns (i: nat)
    requires LastAt(ops, k) != []
    ensures i < |ops| && Payload(ops[i]) && ops[i].frame.offset == k && ops[i].frame.data == LastAt(ops, k) && Latest(ops, i)
  {
    var n := |ops| - 1;
    if Payload(ops[n]) && ops[n].frame.offset == k {
      i := n;
    } else {
      i := LastIsLatest(ops[..n], k);
    }
  }

  lemma {:induction false} LatestIsLast(ops: seq<Op>, i: nat)
    requires i < |ops| && Payload(ops[i]) && Latest(ops, i)
    ensures LastAt(ops, ops[i].frame.offset) == ops[i].frame.data
  {
    if i < |ops| - 1 {
      LatestIsLast(ops[..|ops| - 1], i);
    }
  }

  /** Every piece held is the last payload of its offset, and a last payload is held or has been read. */
  ghost predicate LastOnesHeld(s: StreamState, ops: seq<Op>) {
    && (forall k :: k in s.segments ==> s.segments[k] != [] && s.segments[k] == LastAt(ops, k))
    && (forall k: nat :: LastAt(ops, k) != [] ==> k in s.segments || k + |LastAt(ops, k)| <= s.bytesRead)
  }

  lemma LastOnesNext(s: StreamState, ops: seq<Op>, op: Op)
    requires LastOnesHeld(s, ops)
    ensures LastOnesHeld(Step(Delivery(s, []), op).state, ops + [op])
  {
    var t, all := Step(Delivery(s, []), op).state, ops + [op];
    assert all[..|all| - 1] == ops;
    if op.Take? {
      DrainKeepsPieces(s.segments, s.bytesRead, op.max);
      DrainIsMaximal(s.segments, s.bytesRead, op.max);
      forall k: nat | LastAt(all, k) != [] ensures k in t.segments || k + |LastAt(all, k)| <= t.bytesRead {
        if k in s.segments && k !in t.segments {
          DrainDropsRead(s.segments, s.bytesRead, op.max, k);
        }
      }
    }
  }

  lemma {:induction false} RunHoldsLastOnes(ops: seq<Op>)
    ensures LastOnesHeld(Run(ops).state, ops)
  {
    if ops != [] {
      var before, op := ops[..|ops| - 1], ops[|ops| - 1];
      assert ops == before + [op];
      RunHoldsLastOnes(before);
      LastOnesNext(Run(before).state, before, op);
    }
  }

  /** Beyond the read position, what is held is what some payload bears that no later payload at its offset has replaced. */
  lemma HeldIffSurvives(ops: seq<Op>, p: nat)
    requires p >= Run(ops).state.bytesRead
    ensures Held(Run(ops).state.segments, p) <==> Survives(ops, p)
  {
    var segs := Run(ops).state.segments;
    RunHoldsLastOnes(ops);
    if Held(segs, p) {
      var k :| Covers(segs, k, p);
      var i := LastIsLatest(ops, k);
      assert Bears(ops[i], p) && Latest(ops, i);
    }
    if Survives(ops, p) {
      var i: nat :| i < |ops| && Bears(ops[i], p) && Latest(ops, i);
      LatestIsLast(ops, i);
      assert Covers(segs, ops[i].frame.offset, p);
    }
  }

  ghost predicate FinArrived(ops: seq<Op>) {
    exists i :: 0 <= i < |ops| && ops[i].Receive? && ops[i].frame.Stream? && ops[i].frame.fin
  }

  lemma {:induction false} FinRemembered(ops: seq<Op>)
    ensures Run(ops).state.finReceived <==> FinArrived(ops)
  {
    if ops != [] {
      var before := ops[..|ops| - 1];
      FinRemembered(before);
      if FinArrived(before) {
        var i :| 0 <= i < |before| && before[i].Receive? && before[i].frame.Stream? && before[i].frame.fin;
        assert ops[i] == before[i];
      }
    }
  }

  /** A large enough read finishes the stream if and only if its end has been announced
      and everything unread is held. */
  lemma FinishesWhenHeld(bytes: seq<Byte>, ops: seq<Op>, max: nat)
    requires AllCutFrom(bytes, ops) && |bytes| < UINT64_MAX && Run(ops).state.bytesRead + max >= |bytes|
    ensures var s := Run(ops).state;
            Step(Run(ops), Take(max)).state.IsFinished() <==>
            s.finReceived && forall p: nat :: s.bytesRead <= p < |bytes| ==> Held(s.segments, p)
  {
    RunInOrder(bytes, ops);
    var s := Run(ops).state;
    DrainIsMaximal(s.segments, s.bytesRead, max);
    StepInOrder(bytes, Run(ops), Take(max));
  }

  /** A large enough read finishes the stream if and only if the end of the stream has arrived, and each byte not
      read before is borne by a payload that no later one at the same offset has replaced. */
  lemma FinishesIffSurvives(bytes: seq<Byte>, ops: seq<Op>, max: nat)
    requires AllCutFrom(bytes, ops) && |bytes| < UINT64_MAX && Run(ops).state.bytesRead + max >= |bytes|
    ensures Step(Run(ops), Take(max)).state.IsFinished() <==>
            FinArrived(ops) && forall p: nat :: Run(ops).state.bytesRead <= p < |bytes| ==> Survives(ops, p)
  {
    FinishesWhenHeld(bytes, ops, max);
    FinRemembered(ops);
    forall p: nat | p >= Run(ops).state.bytesRead ensures Held(Run(ops).state.segments, p) <==> Survives(ops, p) {
      HeldIffSurvives(ops, p);
    }
  }

  /** No payload is shorter than an earlier one at the same offset. */
  predicate NeverShorter(ops: seq<Op>) {
    forall i, j :: 0 <= i < j < |ops| && Payload(ops[i]) && Payload(ops[j]) && ops[i].frame.offset == ops[j].frame.offset
      ==> |ops[i].frame.data| <= |ops[j].frame.data|
  }

  lemma {:induction false} ArrivedSurvives(ops: seq<Op>, i: nat)
    requires NeverShorter(ops) && i < |ops| && Payload(ops[i])
    ensures |ops[i].frame.data| <= |LastAt(ops, ops[i].frame.offset)|
  {
    var n := |ops| - 1;
    if i < n && !(Payload(ops[n]) && ops[n].frame.offset == ops[i].frame.offset) {
      ArrivedSurvives(ops[..n], i);
    }
  }

  /** Once every byte and the end of the stream have arrived, with no payload shorter than
      one it replaces, a large enough read completes the stream, whatever was read before. */
  lemma AllArrivedAllRead(bytes: seq<Byte>, ops: seq<Op>, max: nat)
    requires AllCutFrom(bytes, ops) && |bytes| < UINT64_MAX && NeverShorter(ops)
    requires FinArrived(ops) && forall p: nat :: p < |bytes| ==> Arrived(ops, p)
    requires Run(ops).state.bytesRead + max >= |bytes|
    ensures var d := Step(Run(ops), Take(max)); d.state.IsFinished() && d.out == bytes
  {
    forall p: nat | p < |bytes| ensures Survives(ops, p) {
      assert Arrived(ops, p);
      var i: nat :| i < |ops| && Bears(ops[i], p);
      ArrivedSurvives(ops, i);
      var j := LastIsLatest(ops, ops[i].frame.offset);
      assert Bears(ops[j], p);
    }
    FinishesIffSurvives(bytes, ops, max);
    RunInOrder(bytes, ops);
    StepInOrder(bytes, Run(ops), Take(max));
  }
}
