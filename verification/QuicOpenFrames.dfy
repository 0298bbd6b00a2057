/** STREAM frames without a length, section 19.8 of RFC 9000: their data is everything up to the end of the packet. */
module QuicOpenFrames {
  import opened Options
  import opened QuicVarInt
  import opened QuicFrame
  import opened QuicEngine
  import opened QuicPackets
  import opened Words

  // ----- the encodings -----

  ghost predicate OpenEncodable(f: Frame, w: Shape) {
    && f.Stream? && IsWidth(w.tw) && IsWidth(w.iw) && IsWidth(w.ow)
    && f.streamId < Limit(w.iw) && (if w.stated then f.offset < Limit(w.ow) else f.offset == 0)
  }

  ghost function OpenType(f: Frame, w: Shape): nat
    requires OpenEncodable(f, w)
  {
    0x08 + (if w.stated then 4 else 0) + (if f.fin then 1 else 0)
  }

  ghost function OpenTail(f: Frame, w: Shape): seq<Byte>
    requires OpenEncodable(f, w)
  {
    if w.stated then Wide(f.offset, w.ow) + f.data else f.data
  }

  ghost function OpenBody(f: Frame, w: Shape): seq<Byte>
    requires OpenEncodable(f, w)
  {
    Wide(f.streamId, w.iw) + OpenTail(f, w)
  }

  ghost function OpenEncoding(f: Frame, w: Shape): seq<Byte>
    requires OpenEncodable(f, w)
  {
    Wide(OpenType(f, w), w.tw) + OpenBody(f, w)
  }

  lemma OpenTypeBits(f: Frame, w: Shape)
    requires OpenEncodable(f, w)
    ensures var t := OpenType(f, w);
            && t < Limit(w.tw) && IsStreamType(t) && (HasOffset(t) <==> w.stated) && !HasLength(t) && (t % 2 == 1 <==> f.fin)
  {
  }

  // ----- parsing -----

  lemma OpenTailParses(f: Frame, w: Shape)
    requires OpenEncodable(f, w)
    ensures FromOffset(OpenTail(f, w), OpenType(f, w), f.streamId) == Some(Parsed(f, |OpenTail(f, w)|))
  {
    OpenTypeBits(f, w);
    assert f.data[..|f.data|] == f.data;
    if w.stated {
      NextInteger(OpenTail(f, w), f.offset, w.ow, f.data);
    }
  }

  lemma OpenBodyParses(f: Frame, w: Shape)
    requires OpenEncodable(f, w)
    ensures Body(OpenBody(f, w), OpenType(f, w)) == Some(Parsed(f, |OpenBody(f, w)|))
  {
    OpenTypeBits(f, w);
    NextInteger(OpenBody(f, w), f.streamId, w.iw, OpenTail(f, w));
    OpenTailParses(f, w);
  }

  /** A frame without a length parses back to itself, with all data to the end of the buffer. */
  lemma OpenParses(f: Frame, w: Shape)
    requires OpenEncodable(f, w)
    ensures Parse(OpenEncoding(f, w)) == Some(Parsed(f, |OpenEncoding(f, w)|))
  {
    OpenTypeBits(f, w);
    NextInteger(OpenEncoding(f, w), OpenType(f, w), w.tw, OpenBody(f, w));
    OpenBodyParses(f, w);
    AfterType(OpenEncoding(f, w), OpenType(f, w), w.tw, OpenBody(f, w), Parsed(f, |OpenBody(f, w)|));
  }

  lemma OpenStreamType(t: nat)
    requires IsStreamType(t) && !HasLength(t)
    ensures t == 0x08 + (if HasOffset(t) then 4 else 0) + (if t % 2 == 1 then 1 else 0)
  {
  }

  lemma WholeRead(src: seq<Byte>)
    requires Read(src).Some?
    ensures var r := Read(src).value; src == Wide(r.val, r.len) + src[r.len..]
  {
    ReadIsWide(src);
    var len := Read(src).value.len;
    assert src == src[..len] + src[len..];
  }

  lemma OpenFromOffset(src: seq<Byte>, t: nat, id: UInt64) returns (ow: nat)
    requires !HasLength(t) && FromOffset(src, t, id).Some?
    ensures var p := FromOffset(src, t, id).value;
            && IsWidth(ow) && (if HasOffset(t) then p.frame.offset < Limit(ow) else p.frame.offset == 0)
            && p.size == |src| && src == (if HasOffset(t) then Wide(p.frame.offset, ow) + p.frame.data else p.frame.data)
            && p.frame == Stream(id, p.frame.offset, t % 2 == 1, p.frame.data)
  {
    if HasOffset(t) {
      ow := Read(src).value.len;
      WholeRead(src);
      assert src[ow..][..|src[ow..]|] == src[ow..];
    } else {
      ow := 1;
      assert src[..|src|] == src;
    }
  }

  /** And it is the only thing accepted besides length-bearing frames: such a frame reaches to the end of the buffer,
      its data is all that comes after its header, and the buffer is its encoding. */
  lemma OpenTakesAll(buf: seq<Byte>) returns (w: Shape)
    requires Parse(buf).Some? && !SelfDelimiting(buf)
    ensures Parse(buf).value.size == |buf|
    ensures OpenEncodable(Parse(buf).value.frame, w) && buf == OpenEncoding(Parse(buf).value.frame, w)
  {
    var t := Read(buf).value;
    var body := buf[t.len..];
    var id := Read(body).value;
    WholeRead(buf);
    WholeRead(body);
    OpenStreamType(t.val);
    var ow := OpenFromOffset(body[id.len..], t.val, id.val);
    w := Shape(t.len, id.len, ow, 1, HasOffset(t.val));
  }

  ghost function OpenHeader(f: Frame, w: Shape): seq<Byte>
    requires OpenEncodable(f, w)
  {
    Wide(OpenType(f, w), w.tw) + (Wide(f.streamId, w.iw) + if w.stated then Wide(f.offset, w.ow) else [])
  }

  lemma HeaderThenData(f: Frame, w: Shape)
    requires OpenEncodable(f, w)
    ensures OpenEncoding(f, w) == OpenHeader(f, w) + f.data
  {
    var offset := if w.stated then Wide(f.offset, w.ow) else [];
    assert OpenTail(f, w) == offset + f.data;
    Assoc(Wide(f.streamId, w.iw), offset, f.data);
    Assoc(Wide(OpenType(f, w), w.tw), Wide(f.streamId, w.iw) + offset, f.data);
  }

  lemma HeaderParses(src: seq<Byte>, f: Frame, w: Shape)
    requires OpenEncodable(f, w) && src == OpenHeader(f, w) + f.data
    ensures Parse(src) == Some(Parsed(f, |src|))
  {
    HeaderThenData(f, w);
    OpenParses(f, w);
  }

  lemma SameHeader(f: Frame, g: Frame, w: Shape)
    requires OpenEncodable(f, w) && g.Stream? && g == f.(data := g.data)
    ensures OpenEncodable(g, w) && OpenHeader(g, w) == OpenHeader(f, w)
  {
  }

  lemma CutInside(header: seq<Byte>, data: seq<Byte>, k: nat)
    requires k <= |data|
    ensures (header + data)[..|header| + k] == header + data[..k]
  {
  }

  /** A cut inside the data goes unnoticed: the bytes left are the frame with less data. */
  lemma OpenCutIsShorter(f: Frame, w: Shape, k: nat)
    requires OpenEncodable(f, w) && k <= |f.data|
    ensures |OpenEncoding(f, w)| == |OpenHeader(f, w)| + |f.data|
    ensures var cut := OpenEncoding(f, w)[..|OpenHeader(f, w)| + k];
            Parse(cut) == Some(Parsed(f.(data := f.data[..k]), |cut|))
  {
    var g := f.(data := f.data[..k]);
    HeaderThenData(f, w);
    CutInside(OpenHeader(f, w), f.data, k);
    SameHeader(f, g, w);
    HeaderParses(OpenHeader(f, w) + f.data[..k], g, w);
  }

  // ----- packets -----

  /** A packet of length-bearing frames that ends in a frame without a length dispatches exactly these frames. */
  lemma OpenPacketDispatches(s: EngineState, frames: seq<Frame>, shapes: seq<Shape>, last: Frame, w: Shape)
    requires AllEncodable(frames, shapes) && OpenEncodable(last, w)
    ensures var packet := Packed(frames, shapes) + OpenEncoding(last, w);
            Accepted(packet) && DispatchAll(s, FramesOf(packet)) == DispatchAll(s, frames + [last])
  {
    var rest := OpenEncoding(last, w);
    OpenParses(last, w);
    FirstFrame(rest, last, |rest|);
    EmptyPacket();
    assert rest[|rest|..] == [] && [last] + [] == [last];
    PackedThen(frames, shapes, rest, Packed(frames, shapes) + rest);
  }

  // ----- the standard's samples -----

  lemma Sample(val: UInt64, len: nat, bytes: seq<Byte>)
    requires IsWidth(len) && val < Limit(len) && bytes == Wide(val, len)
    ensures Read(bytes) == Some(Decoded(val, len))
  {
    ReadWide(val, len, []);
    assert bytes + [] == bytes;
  }

  /** Sample integers of RFC 9000, appendix A.1. */
  lemma ShortSamples()
    ensures Read([0x9D, 0x7F, 0x3E, 0x7D]) == Some(Decoded(494878333, 4)) && Read([0x7B, 0xBD]) == Some(Decoded(15293, 2))
    ensures Read([0x25]) == Some(Decoded(37, 1)) && Read([0x40, 0x25]) == Some(Decoded(37, 2))
  {
    FewBytes(494878333);
    Sample(494878333, 4, [0x9D, 0x7F, 0x3E, 0x7D]);
    FewBytes(15293);
    Sample(15293, 2, [0x7B, 0xBD]);
    FewBytes(37);
    Sample(37, 1, [0x25]);
    Sample(37, 2, [0x40, 0x25]);
  }
}
