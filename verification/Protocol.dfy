/**
 Frames.  Encoded says which bytes stand for a frame; Encode builds them field by field, and Decode, which reads them
 back with its length and type checks, is exactly the partial inverse of Encoded.
 */
module Protocol {
  import opened Wrappers
  import opened ByteOrder

  const PROTOCOL_MAGIC: U16 := 0xBABE
  const FRAME_HEADER_SIZE := 13
  const MAX_FRAME_SIZE := 10 * 1024 * 1024

  datatype MessageType = Request | Response | Error

  datatype Frame = Frame(requestId: U32, msgType: MessageType, methodName: Bytes, body: Bytes)

  function TypeByte(t: MessageType): Byte {
    match t
    case Request => 1
    case Response => 2
    case Error => 3
  }

  function Size(f: Frame): nat {
    FRAME_HEADER_SIZE + |f.methodName| + |f.body|
  }

  /** The bytes of a frame; the length fields are cut to their widths as the casts of the source cut them. */
  function Encoded(f: Frame): Bytes {
    Put16(PROTOCOL_MAGIC) + Put32(Size(f) % 0x1_0000_0000) + Put32(f.requestId) + [TypeByte(f.msgType)]
    + Put16(|f.methodName| % 0x1_0000) + f.methodName + f.body
  }

  /** The frames whose length fields tell the truth and that a reader accepts. */
  predicate Encodable(f: Frame) {
    |f.methodName| < 0x1_0000 && Size(f) <= MAX_FRAME_SIZE
  }

  /** Where the fields of a frame lie. */
  lemma Layout(f: Frame)
    ensures var s := Encoded(f); var n := |f.methodName|;
            && |s| == Size(f)
            && s[..2] == Put16(PROTOCOL_MAGIC) && s[2..6] == Put32(Size(f) % 0x1_0000_0000)
            && s[6..10] == Put32(f.requestId) && s[10] == TypeByte(f.msgType)
            && s[11..13] == Put16(n % 0x1_0000) && s[13..13 + n] == f.methodName && s[13 + n..] == f.body
  {
    hide HostToNetwork16, HostToNetwork32;
  }

  /** The same byte by byte, for a frame whose lengths fit their fields. */
  lemma FrameBytes(f: Frame)
    requires |f.methodName| < 0x1_0000 && |f.methodName| + |f.body| + 13 < 0x1_0000_0000
    ensures var s := Encoded(f); var n := |f.methodName|;
            && |s| == 13 + n + |f.body| && s[..2] == [0xBA, 0xBE]
            && BigEndian(s[2..6]) == |s| && BigEndian(s[6..10]) == f.requestId
            && s[10] == (match f.msgType case Request => 1 case Response => 2 case Error => 3)
            && BigEndian(s[11..13]) == n && s[13..13 + n] == f.methodName && s[13 + n..] == f.body
  {
    hide Encoded, Put16, Put32, BigEndian, Get16, Get32;
    Layout(f);
    MagicBytes();
    HeaderNumbers(Size(f), f.requestId, |f.methodName|);
    assert Size(f) % 0x1_0000_0000 == Size(f) && |f.methodName| % 0x1_0000 == |f.methodName|;
  }

  lemma HeaderNumbers(size: U32, id: U32, n: U16)
    ensures BigEndian(Put32(size)) == size && BigEndian(Put32(id)) == id && BigEndian(Put16(n)) == n
  {
    hide Put16, Put32, BigEndian, Get16, Get32, Store;
    Field32(size, [0, 0, 0, 0]);
    Field32(id, [0, 0, 0, 0]);
    Field16(n, [0, 0]);
  }

  lemma MagicBytes()
    ensures Put16(PROTOCOL_MAGIC) == [0xBA, 0xBE]
  {
    Field16(PROTOCOL_MAGIC, [0, 0]);
    var t: Bytes := [0xBA, 0xBE];
    LoadTwo(0xBE, 0xBA);
    assert Reversed(t) == [0xBE, 0xBA];
    Spelling(Put16(PROTOCOL_MAGIC), t);
  }

  /** The frame these bytes encode, if there is one. */
  ghost function Meaning(raw: Bytes): (r: Option<Frame>)
    ensures r.Some? ==> Encodable(r.value) && Encoded(r.value) == raw
  {
    if exists f :: Encodable(f) && Encoded(f) == raw then
      var f :| Encodable(f) && Encoded(f) == raw;
      Some(f)
    else None
  }

  lemma TypeByteInjective(a: MessageType, b: MessageType)
    requires TypeByte(a) == TypeByte(b)
    ensures a == b
  {
  }

  /** The fields of an encodable frame as a reader reads them. */
  lemma ReadBack(f: Frame)
    requires Encodable(f)
    ensures var s := Encoded(f); var n := |f.methodName|;
            && |s| == Size(f)
            && Get16(s[..2]) == PROTOCOL_MAGIC && Get32(s[2..6]) == |s| && Get32(s[6..10]) == f.requestId
            && s[10] == TypeByte(f.msgType) && Get16(s[11..13]) == n
            && s[13..13 + n] == f.methodName && s[13 + n..] == f.body
  {
    hide Encoded, Put16, Put32, Get16, Get32;
    Layout(f);
    RoundTrip16(PROTOCOL_MAGIC, [0, 0]);
    RoundTrip32(Size(f), [0, 0, 0, 0]);
    RoundTrip32(f.requestId, [0, 0, 0, 0]);
    RoundTrip16(|f.methodName|, [0, 0]);
  }

  /** Distinct encodable frames have distinct bytes. */
  lemma EncodedInjective(f: Frame, g: Frame)
    requires Encodable(f) && Encodable(g) && Encoded(f) == Encoded(g)
    ensures f == g
  {
    hide Encoded, Get16, Get32;
    ReadBack(f);
    ReadBack(g);
    TypeByteInjective(f.msgType, g.msgType);
  }

  /** Decoding gives back an encoded frame exactly when the frame is encodable. */
  lemma RoundTripExact(f: Frame)
    ensures Meaning(Encoded(f)) == Some(f) <==> Encodable(f)
  {
    hide Encoded;
    if Encodable(f) {
      EncodedInjective(f, Meaning(Encoded(f)).value);
    }
  }

  /** ProtocolFrame::Encode. */
  method Encode(requestId: U32, msgType: MessageType, methodName: Bytes, body: Bytes) returns (frame: Bytes)
    ensures frame == Encoded(Frame(requestId, msgType, methodName, body))
  {
    hide Put16, Put32;
    var totalLen: U32 := (FRAME_HEADER_SIZE + |methodName| + |body|) % 0x1_0000_0000;
    frame := [];
    frame := frame + Put16(PROTOCOL_MAGIC);
    frame := frame + Put32(totalLen);
    frame := frame + Put32(requestId);
    frame := frame + [TypeByte(msgType)];
    frame := frame + Put16(|methodName| % 0x1_0000);
    frame := frame + methodName;
    frame := frame + body;
  }

  /** What the checks of Decode have established when it reads the name: the bytes encode this frame. */
  lemma Reassemble(raw: Bytes, f: Frame)
    requires |raw| >= FRAME_HEADER_SIZE && Get16(raw[..2]) == PROTOCOL_MAGIC
    requires Get32(raw[2..6]) == |raw| <= MAX_FRAME_SIZE
    requires f.requestId == Get32(raw[6..10]) && TypeByte(f.msgType) == raw[10]
    requires Get16(raw[11..13]) <= |raw| - 13
    requires f.methodName == raw[13..13 + Get16(raw[11..13])] && f.body == raw[13 + Get16(raw[11..13])..]
    ensures Encodable(f) && Encoded(f) == raw
  {
    hide Put16, Put32, Get16, Get32;
    RoundTrip16(0, raw[..2]);
    RoundTrip32(0, raw[2..6]);
    RoundTrip32(0, raw[6..10]);
    RoundTrip16(0, raw[11..13]);
    assert raw == raw[..2] + raw[2..6] + raw[6..10] + [raw[10]] + raw[11..13] + f.methodName + f.body;
  }

  /** ProtocolFrame::Decode: the frame these bytes encode, or nothing when they encode none. */
  method Decode(raw: Bytes) returns (r: Option<Frame>)
    ensures r == Meaning(raw)
  {
    hide Encoded, Get16, Get32;
    forall f | Encodable(f) && Encoded(f) == raw
      ensures var n := |f.methodName|;
              && |raw| == Size(f)
              && Get16(raw[..2]) == PROTOCOL_MAGIC && Get32(raw[2..6]) == |raw|
              && raw[10] == TypeByte(f.msgType) && Get16(raw[11..13]) == n
    {
      ReadBack(f);
    }
    var size := |raw|;
    if size < FRAME_HEADER_SIZE {
      return None;
    }
    var pos := 0;
    if Get16(raw[pos..pos + 2]) != PROTOCOL_MAGIC {
      return None;
    }
    pos := pos + 2;
    var totalLen := Get32(raw[pos..pos + 4]);
    pos := pos + 4;
    if totalLen < FRAME_HEADER_SIZE || totalLen > MAX_FRAME_SIZE {
      return None;
    }
    if totalLen != size {
      return None;
    }
    var requestId := Get32(raw[pos..pos + 4]);
    pos := pos + 4;
    var msgByte := raw[pos];
    pos := pos + 1;
    if msgByte != 1 && msgByte != 2 && msgByte != 3 {
      return None;
    }
    var msgType := if msgByte == 1 then Request else if msgByte == 2 then Response else Error;
    var nameLen := Get16(raw[pos..pos + 2]);
    pos := pos + 2;
    var remaining := size - pos;
    if nameLen > remaining {
      return None;
    }
    var methodName := raw[pos..pos + nameLen];
    pos := pos + nameLen;
    var body := raw[pos..];
    var f := Frame(requestId, msgType, methodName, body);
    Reassemble(raw, f);
    EncodedInjective(f, Meaning(raw).value);
    return Some(f);
  }
}
