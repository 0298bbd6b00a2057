/** The receiving engine: packets in, one reassembler per stream. */
module QuicEngine {
  import opened Options
  import opened QuicVarInt
  import opened QuicFrame
  import opened QuicStream
  import opened Words

  const WRAP := 0x1_0000_0000_0000_0000

  /** The largest object a 64-bit process can hold. */
  const MAX_PACKET := 0x7FFF_FFFF_FFFF_FFFF

  datatype EngineState = EngineState(maxData: UInt64, bytesReceived: UInt64, streams: map<UInt64, StreamState>)

  /** The state of a stream; one that was never mentioned is fresh. */
  function StreamOf(s: EngineState, id: UInt64): StreamState {
    if id in s.streams then s.streams[id] else Fresh
  }

  function Max(a: UInt64, b: UInt64): UInt64 {
    if a >= b then a else b
  }

  /** What the engine does with one parsed frame. */
  function Dispatch(s: EngineState, f: Frame): EngineState {
    match f
    case Stream(id, _, _, data) =>
      s.(streams := s.streams[id := Push(StreamOf(s, id), f)], bytesReceived := (s.bytesReceived + |data|) % WRAP)
    case MaxData(m) => s.(maxData := Max(s.maxData, m))
    case _ => s
  }

  function DispatchAll(s: EngineState, frames: seq<Frame>): EngineState
    decreases |frames|
  {
    if frames == [] then s else DispatchAll(Dispatch(s, frames[0]), frames[1..])
  }

  /** The frames of a packet, up to the first bytes that are none. */
  function FramesOf(packet: seq<Byte>): seq<Frame>
    decreases |packet|
  {
    var p := Parse(packet);
    if p.None? then [] else [p.value.frame] + FramesOf(packet[p.value.size..])
  }

  predicate Accepted(packet: seq<Byte>)
    decreases |packet|
  {
    packet == [] || (Parse(packet).Some? && Accepted(packet[Parse(packet).value.size..]))
  }

  predicate Bounded(r: Option<Parsed>, size: nat) {
    r.Some? && r.value.frame.Stream? ==> r.value.frame.offset < Limit(8) && |r.value.frame.data| <= size
  }

  lemma FromLengthBounded(src: seq<Byte>, t: nat, id: UInt64, offset: UInt64)
    requires offset < Limit(8)
    ensures Bounded(FromLength(src, t, id, offset), |src|)
  {
  }

  lemma FromOffsetBounded(src: seq<Byte>, t: nat, id: UInt64)
    ensures Bounded(FromOffset(src, t, id), |src|)
  {
    if HasOffset(t) {
      var off := Read(src);
      if off.Some? {
        FromLengthBounded(src[off.value.len..], t, id, off.value.val);
      }
    } else {
      FromLengthBounded(src, t, id, 0);
    }
  }

  lemma BodyBounded(src: seq<Byte>, t: nat)
    ensures Bounded(Body(src, t), |src|)
  {
    if IsStreamType(t) {
      var sid := Read(src);
      if sid.Some? {
        FromOffsetBounded(src[sid.value.len..], t, sid.value.val);
      }
    }
  }

  /** Positions of parsed data cannot wrap around. */
  lemma ParsedIsPositioned(buf: seq<Byte>)
    requires Parse(buf).Some? && Parse(buf).value.frame.Stream? && |buf| <= MAX_PACKET
    ensures Positioned(Parse(buf).value.frame)
  {
    var t := Read(buf).value;
    BodyBounded(buf[t.len..], t.val);
  }

  /** What the packet loop keeps. */
  ghost predicate OnCourse(all: EngineState, ok: bool, s: EngineState, rest: seq<Byte>) {
    all == DispatchAll(s, FramesOf(rest)) && ok == Accepted(rest)
  }

  lemma NextFrame(all: EngineState, ok: bool, s: EngineState, rest: seq<Byte>)
    requires OnCourse(all, ok, s, rest) && rest != []
    ensures Parse(rest).None? ==> all == s && !ok
    ensures Parse(rest).Some? ==> OnCourse(all, ok, Dispatch(s, Parse(rest).value.frame), rest[Parse(rest).value.size..])
  {
    if Parse(rest).Some? {
      var frames := FramesOf(rest[Parse(rest).value.size..]);
      assert ([Parse(rest).value.frame] + frames)[1..] == frames;
    }
  }

  lemma NoFrames(all: EngineState, ok: bool, s: EngineState)
    requires OnCourse(all, ok, s, [])
    ensures all == s && ok
  {
  }

  // ----- the object -----

  class QuicEngine {
    var maxData: UInt64
    const initialMaxStreamData: UInt64
    var bytesReceived: UInt64
    var streams: map<UInt64, StreamReassembler>
    var pendingControlFrames: seq<Frame>

    ghost predicate Valid()
      reads this
    {
      forall id :: id in streams ==> streams[id].streamId == id
    }

    ghost function View(): EngineState
      reads this, streams.Values
    {
      EngineState(maxData, bytesReceived, map id | id in streams :: streams[id].View())
    }

    constructor (initialMaxData: UInt64, initialMaxStreamData: UInt64)
      ensures Valid() && View() == EngineState(initialMaxData, 0, map[])
    {
      maxData, bytesReceived, streams, pendingControlFrames := initialMaxData, 0, map[], [];
      this.initialMaxStreamData := initialMaxStreamData;
    }

    method GetStream(id: UInt64) returns (stream: StreamReassembler)
      requires Valid()
      modifies this`streams
      ensures Valid() && id in streams && streams[id] == stream
      ensures id in old(streams) ==> streams == old(streams)
      ensures id !in old(streams) ==> fresh(stream) && stream.View() == Fresh && streams == old(streams)[id := stream]
    {
      if id in streams {
        return streams[id];
      }
      stream := new StreamReassembler(id);
      streams := streams[id := stream];
    }

    /** The body of the packet loop, after parsing. */
    method Handle(f: Frame) returns (ok: bool)
      requires Valid() && (f.Stream? ==> Positioned(f))
      modifies this`streams, this`bytesReceived, this`maxData, streams.Values
      ensures Valid() && ok && View() == Dispatch(old(View()), f)
      ensures fresh(streams.Values - old(streams.Values))
    {
      ghost var before := View();
      ok := true;
      if f.Stream? {
        var stream := GetStream(f.streamId);
        assert stream.View() == StreamOf(before, f.streamId);
        var pushed := stream.PushFrame(f);
        if !pushed {
          return false;
        }
        bytesReceived := (bytesReceived + |f.data|) % WRAP;
        assert View().streams == before.streams[f.streamId := stream.View()];
      } else if f.MaxData? {
        maxData := Max(maxData, f.maximum);
        assert View().streams == before.streams;
      }
    }

    /** One turn of the packet loop, on what is left of the packet. */
    method ProcessFrame(rest: seq<Byte>) returns (ok: bool, size: nat)
      requires Valid() && |rest| <= MAX_PACKET
      modifies this`streams, this`bytesReceived, this`maxData, streams.Values
      ensures Valid() && fresh(streams.Values - old(streams.Values))
      ensures ok == Parse(rest).Some?
      ensures !ok ==> View() == old(View())
      ensures ok ==> size == Parse(rest).value.size && View() == Dispatch(old(View()), Parse(rest).value.frame)
    {
      var res := ParseFrame(rest);
      if res.None? {
        return false, 0;
      }
      var frame := res.value.frame;
      if frame.Stream? {
        ParsedIsPositioned(rest);
      }
      size := res.value.size;
      ok := Handle(frame);
    }

    method ProcessPacket(packet: seq<Byte>) returns (ok: bool)
      requires Valid() && |packet| <= MAX_PACKET
      modifies this`streams, this`bytesReceived, this`maxData, streams.Values
      ensures Valid() && fresh(streams.Values - old(streams.Values))
      ensures ok == Accepted(packet) && View() == DispatchAll(old(View()), FramesOf(packet))
    {
      ghost var all, accepted := DispatchAll(View(), FramesOf(packet)), Accepted(packet);
      var offset := 0;
      ghost var rest := packet;
      while offset < |packet|
        invariant offset <= |packet| && rest == packet[offset..]
        invariant Valid() && fresh(streams.Values - old(streams.Values))
        invariant OnCourse(all, accepted, View(), rest)
      {
        ghost var before := View();
        var parsed, size := ProcessFrame(packet[offset..]);
        NextFrame(all, accepted, before, rest);
        if !parsed {
          return false;
        }
        offset, rest := offset + size, rest[size..];
      }
      NoFrames(all, accepted, View());
      return true;
    }

    method GenerateControlFrames() returns (out: seq<Byte>)
      modifies this`pendingControlFrames
      ensures out == SerializedAll(old(pendingControlFrames)) && pendingControlFrames == []
    {
      out := [];
      for i := 0 to |pendingControlFrames|
        invariant pendingControlFrames == old(pendingControlFrames)
        invariant out == SerializedAll(pendingControlFrames[..i])
      {
        var bytes := SerializeFrame(pendingControlFrames[i]);
        assert pendingControlFrames[..i + 1] == pendingControlFrames[..i] + [pendingControlFrames[i]];
        out := out + bytes;
      }
      assert pendingControlFrames[..|pendingControlFrames|] == pendingControlFrames;
      pendingControlFrames := [];
    }
  }

  function SerializedAll(frames: seq<Frame>): seq<Byte> {
    if frames == [] then [] else SerializedAll(frames[..|frames| - 1]) + Serialized(frames[|frames| - 1])
  }
}
