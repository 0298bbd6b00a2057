/** From packets to streams: what the receive path does from end to end. */
module QuicPackets {
  import opened Options
  import opened QuicVarInt
  import opened QuicFrame
  import opened QuicStream
  import opened QuicDelivery
  import opened QuicEngine
  import opened Words

  // ----- packets are lists of frames -----

  ghost predicate AllEncodable(frames: seq<Frame>, shapes: seq<Shape>) {
    |frames| == |shapes| && forall i :: 0 <= i < |frames| ==> Encodable(frames[i], shapes[i])
  }

  /** Encodings of the frames, one after the other. */
  ghost function Packed(frames: seq<Frame>, shapes: seq<Shape>): seq<Byte>
    requires AllEncodable(frames, shapes)
  {
    if frames == [] then [] else Encoding(frames[0], shapes[0]) + Packed(frames[1..], shapes[1..])
  }

  lemma FirstFrame(packet: seq<Byte>, f: Frame, size: nat)
    requires Parse(packet) == Some(Parsed(f, size))
    ensures 0 < size <= |packet|
    ensures FramesOf(packet) == [f] + FramesOf(packet[size..])
    ensures Accepted(packet) == Accepted(packet[size..])
  {
  }

  lemma EmptyPacket()
    ensures FramesOf([]) == [] && Accepted([])
  {
  }

  lemma FirstEncoding(f: Frame, w: Shape, rest: seq<Byte>)
    requires Encodable(f, w)
    ensures FramesOf(Encoding(f, w) + rest) == [f] + FramesOf(rest)
    ensures Accepted(Encoding(f, w) + rest) == Accepted(rest)
  {
    ParseEncoding(f, w, rest);
    FirstFrame(Encoding(f, w) + rest, f, |Encoding(f, w)|);
    assert (Encoding(f, w) + rest)[|Encoding(f, w)|..] == rest;
  }

  lemma PackedFirst(frames: seq<Frame>, shapes: seq<Shape>, rest: seq<Byte>)
    requires AllEncodable(frames, shapes) && frames != []
    ensures Packed(frames, shapes) + rest == Encoding(frames[0], shapes[0]) + (Packed(frames[1..], shapes[1..]) + rest)
  {
    Assoc(Encoding(frames[0], shapes[0]), Packed(frames[1..], shapes[1..]), rest);
  }

  lemma Regroup(frames: seq<Frame>, more: seq<Frame>)
    requires frames != []
    ensures [frames[0]] + (frames[1..] + more) == frames + more
  {
  }

  lemma {:induction false} PackedThen(frames: seq<Frame>, shapes: seq<Shape>, rest: seq<Byte>, whole: seq<Byte>)
    requires AllEncodable(frames, shapes) && whole == Packed(frames, shapes) + rest
    ensures FramesOf(whole) == frames + FramesOf(rest)
    ensures Accepted(whole) == Accepted(rest)
    decreases frames
  {
    if frames == [] {
      assert whole == rest;
    } else {
      var tail := Packed(frames[1..], shapes[1..]) + rest;
      PackedFirst(frames, shapes, rest);
      PackedThen(frames[1..], shapes[1..], rest, tail);
      FirstEncoding(frames[0], shapes[0], tail);
      Regroup(frames, FramesOf(rest));
    }
  }

  /** Any encodings of any length-bearing frames, one after the other, are accepted
      and dispatched as exactly these frames, in their order. */
  lemma PacketDispatchesItsFrames(s: EngineState, frames: seq<Frame>, shapes: seq<Shape>)
    requires AllEncodable(frames, shapes)
    ensures Accepted(Packed(frames, shapes))
    ensures DispatchAll(s, FramesOf(Packed(frames, shapes))) == DispatchAll(s, frames)
  {
    PackedThen(frames, shapes, [], Packed(frames, shapes) + []);
    EmptyPacket();
    assert Packed(frames, shapes) + [] == Packed(frames, shapes) && frames + [] == frames;
  }

  /** A packet cut off inside a frame is refused, but only after the frames before the cut were dispatched. */
  lemma CutPacketIsRefused(s: EngineState, frames: seq<Frame>, shapes: seq<Shape>, last: Frame, w: Shape, k: nat)
    requires AllEncodable(frames, shapes) && Encodable(last, w) && 0 < k < |Encoding(last, w)|
    ensures var packet := Packed(frames, shapes) + Encoding(last, w)[..k];
            !Accepted(packet) && DispatchAll(s, FramesOf(packet)) == DispatchAll(s, frames)
  {
    var cut := Encoding(last, w)[..k];
    PackedThen(frames, shapes, cut, Packed(frames, shapes) + cut);
    PrefixRefused(last, w, k);
    assert frames + [] == frames;
  }

  /** The frames of a list that SerializeFrame writes. */
  function Limits(frames: seq<Frame>): seq<Frame> {
    if frames == [] then []
    else Limits(frames[..|frames| - 1]) + if frames[|frames| - 1].MaxData? then [frames[|frames| - 1]] else []
  }

  lemma SerializedShape(m: UInt64) returns (w: Shape)
    requires m < Limit(8)
    ensures Encodable(MaxData(m), w) && Serialized(MaxData(m)) == Encoding(MaxData(m), w)
  {
    w := Shape(1, 1, 1, EncodedLength(m), false);
  }

  lemma {:induction false} PackedMore(frames: seq<Frame>, shapes: seq<Shape>, f: Frame, w: Shape)
    requires AllEncodable(frames, shapes) && Encodable(f, w)
    ensures AllEncodable(frames + [f], shapes + [w])
    ensures Packed(frames + [f], shapes + [w]) == Packed(frames, shapes) + Encoding(f, w)
    decreases frames
  {
    if frames == [] {
      assert [f][1..] == [] && [w][1..] == [];
      assert Packed([f], [w]) == Encoding(f, w) + [];
    } else {
      PackedMore(frames[1..], shapes[1..], f, w);
      assert (frames + [f])[1..] == frames[1..] + [f] && (shapes + [w])[1..] == shapes[1..] + [w];
      Assoc(Encoding(frames[0], shapes[0]), Packed(frames[1..], shapes[1..]), Encoding(f, w));
    }
  }

  lemma {:induction false} SerializedIsPacked(frames: seq<Frame>) returns (shapes: seq<Shape>)
    requires forall f :: f in frames && f.MaxData? ==> f.maximum < Limit(8)
    ensures AllEncodable(Limits(frames), shapes) && SerializedAll(frames) == Packed(Limits(frames), shapes)
  {
    shapes := [];
    if frames != [] {
      var before, f := frames[..|frames| - 1], frames[|frames| - 1];
      shapes := SerializedIsPacked(before);
      if f.MaxData? {
        var w := SerializedShape(f.maximum);
        PackedMore(Limits(before), shapes, f, w);
        shapes := shapes + [w];
      } else {
        assert SerializedAll(before) + [] == SerializedAll(before) && Limits(before) + [] == Limits(before);
      }
    }
  }

  /** The control frames that one engine generates are dispatched by another in their order: the MAX_DATA frames that
      were pending, if all their limits are below 2^62, and nothing else. */
  lemma ControlFramesArrive(s: EngineState, frames: seq<Frame>)
    requires forall f :: f in frames && f.MaxData? ==> f.maximum < Limit(8)
    ensures Accepted(SerializedAll(frames))
    ensures DispatchAll(s, FramesOf(SerializedAll(frames))) == DispatchAll(s, Limits(frames))
  {
    var shapes := SerializedIsPacked(frames);
    PacketDispatchesItsFrames(s, Limits(frames), shapes);
  }

  // ----- what a list of frames does to the connection -----

  function StreamBytes(frames: seq<Frame>): nat {
    if frames == [] then 0 else (if frames[0].Stream? then |frames[0].data| else 0) + StreamBytes(frames[1..])
  }

  /** The byte count grows by all stream bytes, repeated ones included, modulo 2^64. */
  lemma {:induction false} BytesAreCounted(s: EngineState, frames: seq<Frame>)
    ensures DispatchAll(s, frames).bytesReceived == (s.bytesReceived + StreamBytes(frames)) % WRAP
    decreases |frames|
  {
    if frames != [] {
      var here := if frames[0].Stream? then |frames[0].data| else 0;
      BytesAreCounted(Dispatch(s, frames[0]), frames[1..]);
      WrapTwice(s.bytesReceived, here, StreamBytes(frames[1..]));
    }
  }

  lemma WrapTwice(a: UInt64, b: nat, c: nat)
    ensures ((a + b) % WRAP + c) % WRAP == (a + (b + c)) % WRAP && (a + c) % WRAP == (a % WRAP + c) % WRAP
  {
  }

  /** The limit becomes the largest of the old one and those announced; MAX_STREAM_DATA changes nothing. */
  lemma {:induction false} LimitIsLargest(s: EngineState, frames: seq<Frame>)
    ensures var m := DispatchAll(s, frames).maxData;
            && m >= s.maxData && (forall f :: f in frames && f.MaxData? ==> m >= f.maximum)
            && (m == s.maxData || MaxData(m) in frames)
    decreases |frames|
  {
    if frames != [] {
      var t := Dispatch(s, frames[0]);
      LimitIsLargest(t, frames[1..]);
      forall f | f in frames && f.MaxData? ensures DispatchAll(s, frames).maxData >= f.maximum {
        assert f == frames[0] || f in frames[1..];
      }
    }
  }

  /** The operations a list of frames amounts to for one stream. */
  function ForStream(frames: seq<Frame>, id: UInt64): seq<Op> {
    if frames == [] then []
    else if frames[0].Stream? && frames[0].streamId == id then [Receive(frames[0])] + ForStream(frames[1..], id)
    else ForStream(frames[1..], id)
  }

  ghost function StepAll(d: Delivery, ops: seq<Op>): Delivery
    decreases |ops|
  {
    if ops == [] then d else StepAll(Step(d, ops[0]), ops[1..])
  }

  lemma {:induction false} RunThen(before: seq<Op>, after: seq<Op>)
    ensures Run(before + after) == StepAll(Run(before), after)
    decreases after
  {
    if after == [] {
      assert before + after == before;
    } else {
      var mid := before + [after[0]];
      assert mid[..|mid| - 1] == before;
      assert before + after == mid + after[1..];
      RunThen(mid, after[1..]);
    }
  }

  /** Each stream gets exactly the frames that carry its id, in order. */
  lemma {:induction false} FramesReachTheirStream(s: EngineState, frames: seq<Frame>, id: UInt64, out: seq<Byte>)
    ensures StepAll(Delivery(StreamOf(s, id), out), ForStream(frames, id)) == Delivery(StreamOf(DispatchAll(s, frames), id), out)
    decreases |frames|
  {
    if frames != [] {
      var f := frames[0];
      var t := Dispatch(s, f);
      FramesReachTheirStream(t, frames[1..], id, out);
      if f.Stream? && f.streamId == id {
        assert ([Receive(f)] + ForStream(frames[1..], id))[1..] == ForStream(frames[1..], id);
      } else {
        assert StreamOf(t, id) == StreamOf(s, id);
      }
    }
  }

  // ----- whole connections -----

  /** A packet arrives, or the application reads from the stream GetStream gives it. */
  datatype Event = Arrives(packet: seq<Byte>) | Reads(id: UInt64, max: nat)

  /** The engine, and what every stream's reads have returned so far. */
  datatype Connection = Connection(engine: EngineState, out: map<UInt64, seq<Byte>>)

  ghost function OutOf(c: Connection, id: UInt64): seq<Byte> {
    if id in c.out then c.out[id] else []
  }

  ghost function Happens(c: Connection, e: Event): Connection {
    match e
    case Arrives(packet) => c.(engine := DispatchAll(c.engine, FramesOf(packet)))
    case Reads(id, max) =>
      var d := Step(Delivery(StreamOf(c.engine, id), OutOf(c, id)), Take(max));
      Connection(c.engine.(streams := c.engine.streams[id := d.state]), c.out[id := d.out])
  }

  ghost function History(limit: UInt64, events: seq<Event>): Connection {
    if events == [] then Connection(EngineState(limit, 0, map[]), map[])
    else Happens(History(limit, events[..|events| - 1]), events[|events| - 1])
  }

  function OpsOf(e: Event, id: UInt64): seq<Op> {
    match e
    case Arrives(packet) => ForStream(FramesOf(packet), id)
    case Reads(other, max) => if other == id then [Take(max)] else []
  }

  /** What one stream sees of a connection. */
  function AllOpsOf(events: seq<Event>, id: UInt64): seq<Op> {
    if events == [] then [] else AllOpsOf(events[..|events| - 1], id) + OpsOf(events[|events| - 1], id)
  }

  lemma HappensToStream(c: Connection, e: Event, id: UInt64)
    ensures StepAll(Delivery(StreamOf(c.engine, id), OutOf(c, id)), OpsOf(e, id)) ==
            Delivery(StreamOf(Happens(c, e).engine, id), OutOf(Happens(c, e), id))
  {
    match e
    case Arrives(packet) =>
      FramesReachTheirStream(c.engine, FramesOf(packet), id, OutOf(c, id));
    case Reads(other, max) =>
  }

  /** Streams do not interfere: each behaves as a reassembler of its own that sees its frames and its reads only. */
  lemma {:induction false} StreamsAreIndependent(limit: UInt64, events: seq<Event>, id: UInt64)
    ensures var c := History(limit, events);
            Run(AllOpsOf(events, id)) == Delivery(StreamOf(c.engine, id), OutOf(c, id))
  {
    if events != [] {
      var before, e := events[..|events| - 1], events[|events| - 1];
      StreamsAreIndependent(limit, before, id);
      HappensToStream(History(limit, before), e, id);
      RunThen(AllOpsOf(before, id), OpsOf(e, id));
    }
  }

  /** Every STREAM frame on `id` in any packet is cut from `bytes`. */
  ghost predicate Carries(events: seq<Event>, id: UInt64, bytes: seq<Byte>) {
    forall e, f :: e in events && e.Arrives? && f in FramesOf(e.packet) && f.Stream? && f.streamId == id ==> CutFrom(bytes, f)
  }

  lemma {:induction false} OpsAreCut(frames: seq<Frame>, id: UInt64, bytes: seq<Byte>)
    requires forall f :: f in frames && f.Stream? && f.streamId == id ==> CutFrom(bytes, f)
    ensures AllCutFrom(bytes, ForStream(frames, id))
  {
    if frames != [] {
      assert frames[0] in frames;
      forall f | f in frames[1..] && f.Stream? && f.streamId == id ensures CutFrom(bytes, f) {
        assert f in frames;
      }
      OpsAreCut(frames[1..], id, bytes);
    }
  }

  lemma {:induction false} AllOpsAreCut(events: seq<Event>, id: UInt64, bytes: seq<Byte>)
    requires Carries(events, id, bytes)
    ensures AllCutFrom(bytes, AllOpsOf(events, id))
  {
    if events != [] {
      var e := events[|events| - 1];
      assert e in events;
      AllOpsAreCut(events[..|events| - 1], id, bytes);
      if e.Arrives? {
        OpsAreCut(FramesOf(e.packet), id, bytes);
      }
    }
  }

  /** From bytes on the wire to bytes read: whatever packets arrive, accepted or refused, on however
      many streams, a stream whose frames are all cut from `bytes` delivers a prefix of it, in order,
      and is finished only when all of it has been delivered. */
  lemma ConnectionDeliversInOrder(limit: UInt64, events: seq<Event>, id: UInt64, bytes: seq<Byte>)
    requires Carries(events, id, bytes) && |bytes| < UINT64_MAX
    ensures var c := History(limit, events);
            var s := StreamOf(c.engine, id);
            && s.bytesRead <= |bytes| && OutOf(c, id) == bytes[..s.bytesRead]
            && (s.IsFinished() <==> s.finReceived && OutOf(c, id) == bytes)
  {
    StreamsAreIndependent(limit, events, id);
    AllOpsAreCut(events, id, bytes);
    DeliversInOrder(bytes, AllOpsOf(events, id));
  }
}
