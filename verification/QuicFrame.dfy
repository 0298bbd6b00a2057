/** The frame parser: STREAM, MAX_DATA and MAX_STREAM_DATA, sections 19.8 to 19.10 of RFC 9000. */
module QuicFrame {
  import opened Options
  import opened QuicVarInt
  import opened Words

  /** The alternatives of the frame variant; the last two are never parsed or serialized. */
  datatype Frame =
    | Stream(streamId: UInt64, offset: UInt64, fin: bool, data: seq<Byte>)
    | MaxData(maximum: UInt64)
    | MaxStreamData(streamId: UInt64, maximum: UInt64)
    | Ack
    | ResetStream

  datatype Parsed = Parsed(frame: Frame, size: nat)

  predicate IsStreamType(t: int) {
    0x08 <= t <= 0x0F
  }

  predicate HasOffset(t: nat) {
    (t / 4) % 2 == 1
  }

  predicate HasLength(t: nat) {
    (t / 2) % 2 == 1
  }

  // ----- what the parser answers -----

  /** A result from later in the buffer, counted from `n` bytes earlier. */
  function After(n: nat, r: Option<Parsed>): Option<Parsed> {
    if r.None? then None else Some(Parsed(r.value.frame, n + r.value.size))
  }

  /** The rest of a STREAM frame of type `t`, from its stream id on ... */
  function StreamBody(src: seq<Byte>, t: nat): (r: Option<Parsed>)
    ensures r.Some? ==> r.value.size <= |src| && r.value.frame.Stream?
  {
    var sid := Read(src);
    if sid.None? then None else After(sid.value.len, FromOffset(src[sid.value.len..], t, sid.value.val))
  }

  /** ... from its offset on ... */
  function FromOffset(src: seq<Byte>, t: nat, id: UInt64): (r: Option<Parsed>)
    ensures r.Some? ==> r.value.size <= |src| && r.value.frame.Stream?
  {
    if HasOffset(t) then
      var off := Read(src);
      if off.None? then None else After(off.value.len, FromLength(src[off.value.len..], t, id, off.value.val))
    else FromLength(src, t, id, 0)
  }

  /** ... and from its length on, which defaults to everything left. */
  function FromLength(src: seq<Byte>, t: nat, id: UInt64, offset: UInt64): (r: Option<Parsed>)
    ensures r.Some? ==> r.value.size <= |src| && r.value.frame.Stream?
  {
    if HasLength(t) then
      var len := Read(src);
      if len.None? then None
      else After(len.value.len, Payload(src[len.value.len..], id, offset, t % 2 == 1, len.value.val))
    else Payload(src, id, offset, t % 2 == 1, |src|)
  }

  function Payload(src: seq<Byte>, id: UInt64, offset: UInt64, fin: bool, length: nat): (r: Option<Parsed>)
    ensures r.Some? ==> r.value.size <= |src| && r.value.frame.Stream?
  {
    if |src| < length then None else Some(Parsed(Stream(id, offset, fin, src[..length]), length))
  }

  function MaxDataBody(src: seq<Byte>): (r: Option<Parsed>)
    ensures r.Some? ==> r.value.size <= |src| && r.value.frame.MaxData?
  {
    var m := Read(src);
    if m.None? then None else Some(Parsed(MaxData(m.value.val), m.value.len))
  }

  function MaxStreamDataBody(src: seq<Byte>): (r: Option<Parsed>)
    ensures r.Some? ==> r.value.size <= |src| && r.value.frame.MaxStreamData?
  {
    var sid := Read(src);
    if sid.None? then None
    else
      var m := Read(src[sid.value.len..]);
      if m.None? then None else Some(Parsed(MaxStreamData(sid.value.val, m.value.val), sid.value.len + m.value.len))
  }

  function Body(src: seq<Byte>, t: nat): (r: Option<Parsed>)
    ensures r.Some? ==> r.value.size <= |src| && !r.value.frame.Ack? && !r.value.frame.ResetStream?
  {
    if IsStreamType(t) then StreamBody(src, t)
    else if t == 0x10 then MaxDataBody(src)
    else if t == 0x11 then MaxStreamDataBody(src)
    else None
  }

  function Parse(buf: seq<Byte>): (r: Option<Parsed>)
    ensures r.Some? ==> 0 < r.value.size <= |buf| && !r.value.frame.Ack? && !r.value.frame.ResetStream?
  {
    var t := Read(buf);
    if t.None? then None else After(t.value.len, Body(buf[t.value.len..], t.value.val))
  }

  // ----- ParseFrame -----

  /** The STREAM branch, from offset `start` of the buffer. */
  method ParseStream(buffer: seq<Byte>, typeVal: nat, start: nat) returns (r: Option<Parsed>)
    requires start <= |buffer|
    ensures r == After(start, StreamBody(buffer[start..], typeVal))
  {
    var offset := start;
    var sidRes := Decode(buffer[offset..]);
    if sidRes.None? {
      return None;
    }
    offset := offset + sidRes.value.len;
    assert buffer[offset..] == buffer[start..][sidRes.value.len..];
    r := ParseOffset(buffer, typeVal, offset, sidRes.value.val);
  }

  method ParseOffset(buffer: seq<Byte>, typeVal: nat, start: nat, id: UInt64) returns (r: Option<Parsed>)
    requires start <= |buffer|
    ensures r == After(start, FromOffset(buffer[start..], typeVal, id))
  {
    var hasOff := (typeVal / 4) % 2 == 1;
    var offset := start;
    var streamOffset: UInt64 := 0;
    if hasOff {
      var offRes := Decode(buffer[offset..]);
      if offRes.None? {
        return None;
      }
      streamOffset := offRes.value.val;
      offset := offset + offRes.value.len;
      assert buffer[offset..] == buffer[start..][offRes.value.len..];
    }
    r := ParseLength(buffer, typeVal, offset, id, streamOffset);
  }

  method ParseLength(buffer: seq<Byte>, typeVal: nat, start: nat, id: UInt64, streamOffset: UInt64) returns (r: Option<Parsed>)
    requires start <= |buffer|
    ensures r == After(start, FromLength(buffer[start..], typeVal, id, streamOffset))
  {
    var hasLen, fin := (typeVal / 2) % 2 == 1, typeVal % 2 == 1;
    var offset := start;
    var length: nat := 0;
    if hasLen {
      var lenRes := Decode(buffer[offset..]);
      if lenRes.None? {
        return None;
      }
      length := lenRes.value.val;
      offset := offset + lenRes.value.len;
      assert buffer[offset..] == buffer[start..][lenRes.value.len..];
    } else {
      length := |buffer| - offset;
    }
    if |buffer| < offset + length {
      return None;
    }
    var data := buffer[offset..offset + length];
    assert data == buffer[offset..][..length];
    return Some(Parsed(Stream(id, streamOffset, fin, data), offset + length));
  }

  /** ParseFrame, with its three fields of a STREAM frame read in turn. */
  method ParseFrame(buffer: seq<Byte>) returns (r: Option<Parsed>)
    ensures r == Parse(buffer)
  {
    if buffer == [] {
      return None;
    }
    var typeRes := Decode(buffer);
    if typeRes.None? {
      return None;
    }
    var typeVal := typeRes.value.val;
    var offset := typeRes.value.len;
    if 0x08 <= typeVal <= 0x0F {
      r := ParseStream(buffer, typeVal, offset);
      return r;
    } else if typeVal == 0x10 {
      var maxRes := Decode(buffer[offset..]);
      if maxRes.None? {
        return None;
      }
      return Some(Parsed(MaxData(maxRes.value.val), offset + maxRes.value.len));
    } else if typeVal == 0x11 {
      var sidRes := Decode(buffer[offset..]);
      if sidRes.None? {
        return None;
      }
      assert buffer[offset..][sidRes.value.len..] == buffer[offset + sidRes.value.len..];
      offset := offset + sidRes.value.len;
      var maxRes := Decode(buffer[offset..]);
      if maxRes.None? {
        return None;
      }
      return Some(Parsed(MaxStreamData(sidRes.value.val, maxRes.value.val), offset + maxRes.value.len));
    }
    return None;
  }

  // ----- the encodings of a frame -----

  /** How wide a sender makes each integer of a frame, and whether it states an offset of zero. */
  datatype Shape = Shape(tw: nat, iw: nat, ow: nat, lw: nat, stated: bool)

  ghost predicate Encodable(f: Frame, w: Shape) {
    && IsWidth(w.tw) && IsWidth(w.iw) && IsWidth(w.ow) && IsWidth(w.lw)
    && match f
       case Stream(id, offset, _, data) =>
         id < Limit(w.iw) && (if w.stated then offset < Limit(w.ow) else offset == 0) && |data| < Limit(w.lw)
       case MaxData(m) => m < Limit(w.lw)
       case MaxStreamData(id, m) => id < Limit(w.iw) && m < Limit(w.lw)
       case _ => false
  }

  ghost function TypeOf(f: Frame, w: Shape): nat
    requires Encodable(f, w)
  {
    match f
    case Stream(_, _, fin, _) => 0x08 + (if w.stated then 4 else 0) + 2 + (if fin then 1 else 0)
    case MaxData(_) => 0x10
    case MaxStreamData(_, _) => 0x11
  }

  ghost function LengthAndData(f: Frame, w: Shape): seq<Byte>
    requires Encodable(f, w) && f.Stream?
  {
    Wide(|f.data|, w.lw) + f.data
  }

  ghost function StreamTail(f: Frame, w: Shape): seq<Byte>
    requires Encodable(f, w) && f.Stream?
  {
    (if w.stated then Wide(f.offset, w.ow) else []) + LengthAndData(f, w)
  }

  ghost function BodyOf(f: Frame, w: Shape): seq<Byte>
    requires Encodable(f, w)
  {
    match f
    case Stream(id, _, _, _) => Wide(id, w.iw) + StreamTail(f, w)
    case MaxData(m) => Wide(m, w.lw)
    case MaxStreamData(id, m) => Wide(id, w.iw) + Wide(m, w.lw)
  }

  /** The bytes of a length-bearing frame. */
  ghost function Encoding(f: Frame, w: Shape): seq<Byte>
    requires Encodable(f, w)
  {
    Wide(TypeOf(f, w), w.tw) + BodyOf(f, w)
  }

  lemma Assoc(a: seq<Byte>, b: seq<Byte>, c: seq<Byte>)
    ensures (a + b) + c == a + (b + c)
  {
  }

  /** Reading the next integer, when the input goes on with its encoding. */
  lemma NextInteger(src: seq<Byte>, val: UInt64, len: nat, rest: seq<Byte>)
    requires IsWidth(len) && val < Limit(len) && src == Wide(val, len) + rest
    ensures Read(src) == Some(Decoded(val, len)) && len <= |src| && src[len..] == rest
  {
    ReadWide(val, len, rest);
  }

  lemma TypeBits(f: Frame, w: Shape)
    requires Encodable(f, w)
    ensures TypeOf(f, w) < Limit(w.tw)
    ensures f.Stream? ==> IsStreamType(TypeOf(f, w)) && (HasOffset(TypeOf(f, w)) <==> w.stated)
                          && HasLength(TypeOf(f, w)) && (TypeOf(f, w) % 2 == 1 <==> f.fin)
  {
  }

  lemma FromLengthParses(src: seq<Byte>, f: Frame, w: Shape, rest: seq<Byte>)
    requires Encodable(f, w) && f.Stream? && src == LengthAndData(f, w) + rest
    ensures FromLength(src, TypeOf(f, w), f.streamId, f.offset) == Some(Parsed(f, |LengthAndData(f, w)|))
  {
    TypeBits(f, w);
    assert src == Wide(|f.data|, w.lw) + (f.data + rest);
    NextInteger(src, |f.data|, w.lw, f.data + rest);
    assert (f.data + rest)[..|f.data|] == f.data;
  }

  lemma StreamTailIs(f: Frame, w: Shape, rest: seq<Byte>)
    requires Encodable(f, w) && f.Stream?
    ensures StreamTail(f, w) + rest ==
            if w.stated then Wide(f.offset, w.ow) + (LengthAndData(f, w) + rest) else LengthAndData(f, w) + rest
    ensures |StreamTail(f, w)| == (if w.stated then w.ow else 0) + |LengthAndData(f, w)|
  {
    if w.stated {
      Assoc(Wide(f.offset, w.ow), LengthAndData(f, w), rest);
    } else {
      assert [] + LengthAndData(f, w) == LengthAndData(f, w);
    }
  }

  lemma FromOffsetParses(src: seq<Byte>, f: Frame, w: Shape, rest: seq<Byte>)
    requires Encodable(f, w) && f.Stream? && src == StreamTail(f, w) + rest
    ensures FromOffset(src, TypeOf(f, w), f.streamId) == Some(Parsed(f, |StreamTail(f, w)|))
  {
    TypeBits(f, w);
    StreamTailIs(f, w, rest);
    var tail := LengthAndData(f, w) + rest;
    if w.stated {
      NextInteger(src, f.offset, w.ow, tail);
    }
    FromLengthParses(tail, f, w, rest);
  }

  lemma StreamBodyParses(src: seq<Byte>, f: Frame, w: Shape, rest: seq<Byte>)
    requires Encodable(f, w) && f.Stream? && src == BodyOf(f, w) + rest
    ensures StreamBody(src, TypeOf(f, w)) == Some(Parsed(f, |BodyOf(f, w)|))
  {
    var tail := StreamTail(f, w) + rest;
    Assoc(Wide(f.streamId, w.iw), StreamTail(f, w), rest);
    NextInteger(src, f.streamId, w.iw, tail);
    FromOffsetParses(tail, f, w, rest);
  }

  lemma BodyParses(src: seq<Byte>, f: Frame, w: Shape, rest: seq<Byte>)
    requires Encodable(f, w) && src == BodyOf(f, w) + rest
    ensures Body(src, TypeOf(f, w)) == Some(Parsed(f, |BodyOf(f, w)|))
  {
    TypeBits(f, w);
    match f
    case Stream(_, _, _, _) =>
      StreamBodyParses(src, f, w, rest);
    case MaxData(m) =>
      NextInteger(src, m, w.lw, rest);
    case MaxStreamData(id, m) =>
      Assoc(Wide(id, w.iw), Wide(m, w.lw), rest);
      NextInteger(src, id, w.iw, Wide(m, w.lw) + rest);
      NextInteger(Wide(m, w.lw) + rest, m, w.lw, rest);
  }

  lemma AfterType(src: seq<Byte>, t: UInt64, len: nat, tail: seq<Byte>, p: Parsed)
    requires Read(src) == Some(Decoded(t, len)) && len <= |src| && src[len..] == tail && Body(tail, t) == Some(p)
    ensures Parse(src) == Some(Parsed(p.frame, len + p.size))
  {
  }

  lemma EncodingIs(f: Frame, w: Shape, rest: seq<Byte>)
    requires Encodable(f, w)
    ensures Encoding(f, w) + rest == Wide(TypeOf(f, w), w.tw) + (BodyOf(f, w) + rest)
    ensures |Encoding(f, w)| == w.tw + |BodyOf(f, w)|
  {
    Assoc(Wide(TypeOf(f, w), w.tw), BodyOf(f, w), rest);
  }

  /** The parser gives back exactly the frame, and exactly its bytes, whatever follows. */
  lemma ParseEncoding(f: Frame, w: Shape, rest: seq<Byte>)
    requires Encodable(f, w)
    ensures Parse(Encoding(f, w) + rest) == Some(Parsed(f, |Encoding(f, w)|))
  {
    var src, body := Encoding(f, w) + rest, BodyOf(f, w) + rest;
    TypeBits(f, w);
    EncodingIs(f, w, rest);
    NextInteger(src, TypeOf(f, w), w.tw, body);
    BodyParses(body, f, w, rest);
    AfterType(src, TypeOf(f, w), w.tw, body, Parsed(f, |BodyOf(f, w)|));
  }

  /** An integer that was read does not depend on what follows it. */
  lemma ReadExtends(src: seq<Byte>, rest: seq<Byte>)
    requires Read(src).Some?
    ensures Read(src + rest) == Read(src)
    ensures (src + rest)[Read(src).value.len..] == src[Read(src).value.len..] + rest
  {
    var len := Read(src).value.len;
    assert (src + rest)[1..len] == src[1..len];
  }

  lemma FromLengthExtends(src: seq<Byte>, t: nat, id: UInt64, offset: UInt64, rest: seq<Byte>)
    requires FromLength(src, t, id, offset).Some? && HasLength(t)
    ensures FromLength(src + rest, t, id, offset) == FromLength(src, t, id, offset)
  {
    ReadExtends(src, rest);
    var len := Read(src).value;
    var tail := src[len.len..];
    assert (tail + rest)[..len.val] == tail[..len.val];
  }

  lemma FromOffsetExtends(src: seq<Byte>, t: nat, id: UInt64, rest: seq<Byte>)
    requires FromOffset(src, t, id).Some? && HasLength(t)
    ensures FromOffset(src + rest, t, id) == FromOffset(src, t, id)
  {
    if HasOffset(t) {
      ReadExtends(src, rest);
      FromLengthExtends(src[Read(src).value.len..], t, id, Read(src).value.val, rest);
    } else {
      FromLengthExtends(src, t, id, 0, rest);
    }
  }

  lemma BodyExtends(src: seq<Byte>, t: nat, rest: seq<Byte>)
    requires Body(src, t).Some? && (IsStreamType(t) ==> HasLength(t))
    ensures Body(src + rest, t) == Body(src, t)
  {
    ReadExtends(src, rest);
    var first := Read(src).value;
    if IsStreamType(t) {
      FromOffsetExtends(src[first.len..], t, first.val, rest);
    } else if t == 0x11 {
      ReadExtends(src[first.len..], rest);
    }
  }

  /** A buffer whose frame, if any, does not reach to the end of the buffer by default. */
  predicate SelfDelimiting(buf: seq<Byte>) {
    Read(buf).Some? && IsStreamType(Read(buf).value.val) ==> HasLength(Read(buf).value.val)
  }

  /** A frame does not depend on what follows it, unless it takes all there is. */
  lemma ParseExtends(buf: seq<Byte>, rest: seq<Byte>)
    requires Parse(buf).Some? && SelfDelimiting(buf)
    ensures Parse(buf + rest) == Parse(buf)
  {
    ReadExtends(buf, rest);
    BodyExtends(buf[Read(buf).value.len..], Read(buf).value.val, rest);
  }

  /** What is left of an encoding still tells whether it has a length. */
  lemma CutIsDelimiting(f: Frame, w: Shape, cut: seq<Byte>, tail: seq<Byte>)
    requires Encodable(f, w) && Encoding(f, w) == cut + tail
    ensures SelfDelimiting(cut)
  {
    if Read(cut).Some? {
      ReadExtends(cut, tail);
      TypeBits(f, w);
      NextInteger(cut + tail, TypeOf(f, w), w.tw, BodyOf(f, w));
    }
  }

  lemma WholeParses(f: Frame, w: Shape)
    requires Encodable(f, w)
    ensures Parse(Encoding(f, w)) == Some(Parsed(f, |Encoding(f, w)|))
  {
    assert Encoding(f, w) + [] == Encoding(f, w);
    ParseEncoding(f, w, []);
  }

  /** Every strict prefix of one encoded frame is refused. */
  lemma PrefixRefused(f: Frame, w: Shape, k: nat)
    requires Encodable(f, w) && k < |Encoding(f, w)|
    ensures Parse(Encoding(f, w)[..k]) == None
  {
    var whole := Encoding(f, w);
    var cut, tail := whole[..k], whole[k..];
    assert whole == cut + tail;
    WholeParses(f, w);
    CutIsDelimiting(f, w, cut, tail);
    if Parse(cut).Some? {
      ParseExtends(cut, tail);
    }
  }

  // ----- and nothing but encodings is accepted -----

  /** The bytes of the integer read, then the bytes after it. */
  lemma ReadPrefix(src: seq<Byte>, size: nat)
    requires Read(src).Some? && Read(src).value.len <= size <= |src|
    ensures var r := Read(src).value; src[..size] == Wide(r.val, r.len) + src[r.len..][..size - r.len]
  {
    ReadIsWide(src);
    var len := Read(src).value.len;
    assert src[..size] == src[..len] + src[len..][..size - len];
  }

  lemma StreamTypeBits(t: nat)
    requires IsStreamType(t) && HasLength(t)
    ensures t == 0x08 + (if HasOffset(t) then 4 else 0) + 2 + (if t % 2 == 1 then 1 else 0)
  {
  }

  lemma FromLengthIsEncoding(src: seq<Byte>, t: nat, id: UInt64, offset: UInt64) returns (lw: nat)
    requires HasLength(t) && FromLength(src, t, id, offset).Some?
    ensures var p := FromLength(src, t, id, offset).value;
            && IsWidth(lw) && |p.frame.data| < Limit(lw) && src[..p.size] == Wide(|p.frame.data|, lw) + p.frame.data
            && p.frame == Stream(id, offset, t % 2 == 1, p.frame.data)
  {
    lw := Read(src).value.len;
    ReadPrefix(src, FromLength(src, t, id, offset).value.size);
  }

  lemma FromOffsetIsEncoding(src: seq<Byte>, t: nat, id: UInt64) returns (ow: nat, lw: nat)
    requires HasLength(t) && FromOffset(src, t, id).Some?
    ensures var p := FromOffset(src, t, id).value;
            && IsWidth(ow) && (if HasOffset(t) then p.frame.offset < Limit(ow) else p.frame.offset == 0)
            && IsWidth(lw) && |p.frame.data| < Limit(lw)
            && src[..p.size] == (if HasOffset(t) then Wide(p.frame.offset, ow) else []) + (Wide(|p.frame.data|, lw) + p.frame.data)
            && p.frame == Stream(id, p.frame.offset, t % 2 == 1, p.frame.data)
  {
    if HasOffset(t) {
      var off := Read(src).value;
      ow := off.len;
      lw := FromLengthIsEncoding(src[ow..], t, id, off.val);
      ReadPrefix(src, FromOffset(src, t, id).value.size);
    } else {
      ow := 1;
      lw := FromLengthIsEncoding(src, t, id, 0);
    }
  }

  lemma BodyIsEncoding(src: seq<Byte>, t: nat, tw: nat) returns (w: Shape)
    requires IsWidth(tw) && Body(src, t).Some? && (IsStreamType(t) ==> HasLength(t))
    ensures var p := Body(src, t).value;
            Encodable(p.frame, w) && w.tw == tw && TypeOf(p.frame, w) == t && src[..p.size] == BodyOf(p.frame, w)
  {
    var p := Body(src, t).value;
    var first := Read(src).value;
    ReadPrefix(src, p.size);
    if IsStreamType(t) {
      var ow, lw := FromOffsetIsEncoding(src[first.len..], t, first.val);
      w := Shape(tw, first.len, ow, lw, HasOffset(t));
      StreamTypeBits(t);
    } else if t == 0x10 {
      w := Shape(tw, 1, 1, first.len, false);
    } else {
      var tail := src[first.len..];
      ReadPrefix(tail, Read(tail).value.len);
      w := Shape(tw, first.len, 1, Read(tail).value.len, false);
    }
  }

  /** The parser accepts nothing else: the bytes of a parsed frame are one of its
      encodings, except for a STREAM frame without a length. */
  lemma ParsedIsEncoding(buf: seq<Byte>) returns (w: Shape)
    requires Parse(buf).Some? && SelfDelimiting(buf)
    ensures Encodable(Parse(buf).value.frame, w)
    ensures buf[..Parse(buf).value.size] == Encoding(Parse(buf).value.frame, w)
  {
    var t := Read(buf).value;
    w := BodyIsEncoding(buf[t.len..], t.val, t.len);
    ReadPrefix(buf, Parse(buf).value.size);
  }

  // ----- SerializeFrame -----

  /** The bytes SerializeFrame writes: a MAX_DATA frame in shortest form, nothing for any other. */
  function Serialized(f: Frame): seq<Byte> {
    if f.MaxData? then Wide(0x10, EncodedLength(0x10)) + Wide(f.maximum, EncodedLength(f.maximum)) else []
  }

  method SerializeFrame(f: Frame) returns (out: seq<Byte>)
    ensures out == Serialized(f)
  {
    out := [];
    if f.MaxData? {
      var buf := new Byte[16];
      var l1 := Encode(0x10, buf);
      assert buf[..l1] == Wide(0x10, l1);
      out := out + buf[..l1];
      var l2 := Encode(f.maximum, buf);
      assert buf[..l2] == Wide(f.maximum, l2);
      out := out + buf[..l2];
    }
  }

  lemma SmallLimitParses(m: UInt64, rest: seq<Byte>)
    requires m < Limit(8)
    ensures Parse(Serialized(MaxData(m)) + rest) == Some(Parsed(MaxData(m), |Serialized(MaxData(m))|))
  {
    var w := Shape(1, 1, 1, EncodedLength(m), false);
    assert Serialized(MaxData(m)) == Encoding(MaxData(m), w);
    ParseEncoding(MaxData(m), w, rest);
  }

  lemma ParsedLimitFits(buf: seq<Byte>)
    requires Parse(buf).Some? && Parse(buf).value.frame.MaxData?
    ensures Parse(buf).value.frame.maximum < Limit(8)
  {
  }

  /** A serialized MAX_DATA frame parses back if and only if its limit is below 2^62. */
  lemma SerializedParses(m: UInt64, rest: seq<Byte>)
    ensures Parse(Serialized(MaxData(m)) + rest) == Some(Parsed(MaxData(m), |Serialized(MaxData(m))|)) <==> m < Limit(8)
  {
    var buf := Serialized(MaxData(m)) + rest;
    if m < Limit(8) {
      SmallLimitParses(m, rest);
    } else if Parse(buf).Some? && Parse(buf).value.frame.MaxData? {
      ParsedLimitFits(buf);
    }
  }
}
