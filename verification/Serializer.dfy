/**
 Typed values.  Each is written as a type byte, a length and a payload.  A list of values is recovered in order from
 its text, no two lists share a text, and on arbitrary bytes the read cursor never passes the end.

 A float or a double is represented by its bits, which the source copies without looking at them.
 */
module Serializing {
  import opened Wrappers
  import opened ByteOrder

  type I32 = x: int | -0x8000_0000 <= x < 0x8000_0000
  type I64 = x: int | -0x8000_0000_0000_0000 <= x < 0x8000_0000_0000_0000

  datatype ValueType = INT32 | INT64 | FLOAT | DOUBLE | STRING | BOOL

  datatype Value =
    | Int32(i: I32)
    | Int64(l: I64)
    | Float(bits: U32)
    | Double(wideBits: U64)
    | Text(chars: Bytes)
    | Bool(b: bool)

  function Tag(t: ValueType): Byte {
    match t
    case INT32 => 1
    case INT64 => 2
    case FLOAT => 3
    case DOUBLE => 4
    case STRING => 5
    case BOOL => 6
  }

  function TypeOf(v: Value): ValueType {
    match v
    case Int32(_) => INT32
    case Int64(_) => INT64
    case Float(_) => FLOAT
    case Double(_) => DOUBLE
    case Text(_) => STRING
    case Bool(_) => BOOL
  }

  /** The length a reader insists on; any length will do for a string. */
  function Width(t: ValueType): Option<nat> {
    match t
    case INT32 => Some(4)
    case INT64 => Some(8)
    case FLOAT => Some(4)
    case DOUBLE => Some(8)
    case STRING => None
    case BOOL => Some(1)
  }

  // ---- two's complement ----

  function ToUnsigned32(i: I32): U32 { if i < 0 then i + 0x1_0000_0000 else i }
  function ToSigned32(u: U32): I32 { if u < 0x8000_0000 then u else u - 0x1_0000_0000 }
  function ToUnsigned64(l: I64): U64 { if l < 0 then l + 0x1_0000_0000_0000_0000 else l }
  function ToSigned64(u: U64): I64 { if u < 0x8000_0000_0000_0000 then u else u - 0x1_0000_0000_0000_0000 }

  // ---- the text of values ----

  function Payload(v: Value): Bytes {
    match v
    case Int32(i) => Put32(ToUnsigned32(i))
    case Int64(l) => Put64(ToUnsigned64(l))
    case Float(bits) => Put32(bits)
    case Double(bits) => Put64(bits)
    case Text(chars) => chars
    case Bool(b) => [if b then 1 else 0]
  }

  function Field(t: ValueType, payload: Bytes): Bytes {
    [Tag(t)] + Put32(|payload| % 0x1_0000_0000) + payload
  }

  function Tlv(v: Value): Bytes {
    Field(TypeOf(v), Payload(v))
  }

  function TextOf(vs: seq<Value>): Bytes {
    if vs == [] then [] else Tlv(vs[0]) + TextOf(vs[1..])
  }

  /** A string's length must fit its length field. */
  predicate Writable(v: Value) {
    v.Text? ==> |v.chars| < 0x1_0000_0000
  }

  /** The big-endian number u is i in two's complement. */
  predicate TwosComplement(u: nat, i: int, size: nat) {
    u == if i < 0 then i + size else i
  }

  /** The payloads, type by type. */
  lemma PayloadBytes(v: Value)
    ensures var p := Payload(v);
            match v
            case Int32(i) => |p| == 4 && TwosComplement(BigEndian(p), i, 0x1_0000_0000)
            case Int64(l) => |p| == 8 && TwosComplement(BigEndian(p), l, 0x1_0000_0000_0000_0000)
            case Float(bits) => |p| == 4 && BigEndian(p) == bits
            case Double(bits) => |p| == 8 && BigEndian(p) == bits
            case Text(chars) => p == chars
            case Bool(b) => p == [if b then 1 else 0]
  {
    hide HostToNetwork32, HostToNetwork64, BigEndian, Store;
    match v
    case Int32(i) => Field32(ToUnsigned32(i), [0, 0, 0, 0]);
    case Int64(l) => Field64(ToUnsigned64(l), [0, 0, 0, 0, 0, 0, 0, 0]);
    case Float(bits) => Field32(bits, [0, 0, 0, 0]);
    case Double(bits) => Field64(bits, [0, 0, 0, 0, 0, 0, 0, 0]);
    case _ =>
  }

  /** The bytes of a value: a byte for the type, the length of the payload, the payload. */
  lemma TlvBytes(v: Value)
    requires Writable(v)
    ensures var s := Tlv(v);
            && |s| == 5 + |Payload(v)| && BigEndian(s[1..5]) == |Payload(v)| && s[5..] == Payload(v)
            && (v.Int32? ==> s[0] == 1) && (v.Int64? ==> s[0] == 2) && (v.Float? ==> s[0] == 3)
            && (v.Double? ==> s[0] == 4) && (v.Text? ==> s[0] == 5) && (v.Bool? ==> s[0] == 6)
  {
    PayloadBytes(v);
    hide BigEndian, Payload, Field;
    FieldLayout(TypeOf(v), Payload(v));
  }

  lemma FieldLayout(t: ValueType, payload: Bytes)
    requires |payload| < 0x1_0000_0000
    ensures var s := Field(t, payload);
            |s| == 5 + |payload| && s[0] == Tag(t) && BigEndian(s[1..5]) == |payload| && s[5..] == payload
  {
    hide Store, HostToNetwork32, BigEndian, Get32;
    Field32(|payload|, [0, 0, 0, 0]);
    hide Put32;
    assert |Put32(|payload|)| == 4;
    assert Field(t, payload)[1..5] == Put32(|payload|);
  }

  // ---- what the readers do ----

  datatype Outcome = Outcome(value: Option<Value>, pos: nat)

  /** The value a payload of the right length stands for; every byte but 0 reads as true. */
  function Interpret(t: ValueType, payload: Bytes): Value
    requires Width(t).Some? ==> |payload| == Width(t).value
  {
    match t
    case INT32 => Int32(ToSigned32(Get32(payload)))
    case INT64 => Int64(ToSigned64(Get64(payload)))
    case FLOAT => Float(Get32(payload))
    case DOUBLE => Double(Get64(payload))
    case STRING => Text(payload)
    case BOOL => Bool(payload[0] != 0)
  }

  /** One reader on bytes b with its cursor at pos: a failed read leaves the cursor where it gave up. */
  function ReadAt(t: ValueType, b: Bytes, pos: nat): (r: Outcome)
    requires pos <= |b|
    ensures pos <= r.pos <= |b|
  {
    if pos + 1 > |b| || b[pos] != Tag(t) then Outcome(None, pos)
    else if pos + 5 > |b| then Outcome(None, pos + 1)
    else
      var length: int := Get32(b[pos + 1..pos + 5]);
      if (Width(t).Some? && length != Width(t).value) || pos + 5 + length > |b| then Outcome(None, pos + 5)
      else Outcome(Some(Interpret(t, b[pos + 5..pos + 5 + length])), pos + 5 + length)
  }

  /** Reading values of the given types one after another, stopping at the first failure. */
  function ReadMany(ts: seq<ValueType>, b: Bytes, pos: nat): (r: (Option<seq<Value>>, nat))
    requires pos <= |b|
    ensures pos <= r.1 <= |b|
  {
    if ts == [] then (Some([]), pos) else
    var first := ReadAt(ts[0], b, pos);
    if first.value.None? then (None, first.pos) else
    var rest := ReadMany(ts[1..], b, first.pos);
    (if rest.0.Some? then Some([first.value.value] + rest.0.value) else None, rest.1)
  }

  function Types(vs: seq<Value>): seq<ValueType> {
    seq(|vs|, i requires 0 <= i < |vs| => TypeOf(vs[i]))
  }

  // ---- readers undo writers ----

  lemma InterpretPayload(v: Value)
    ensures Width(TypeOf(v)).Some? ==> |Payload(v)| == Width(TypeOf(v)).value
    ensures Interpret(TypeOf(v), Payload(v)) == v
    ensures Writable(v) ==> |Payload(v)| < 0x1_0000_0000
  {
    hide Put32, Put64, Get32, Get64;
    match v
    case Int32(i) => RoundTrip32(ToUnsigned32(i), [0, 0, 0, 0]);
    case Int64(l) => RoundTrip64(ToUnsigned64(l), [0, 0, 0, 0, 0, 0, 0, 0]);
    case Float(bits) => RoundTrip32(bits, [0, 0, 0, 0]);
    case Double(bits) => RoundTrip64(bits, [0, 0, 0, 0, 0, 0, 0, 0]);
    case Text(chars) =>
    case Bool(b) =>
  }

  lemma Slice(b: Bytes, from: nat, to: nat, i: nat, j: nat)
    requires from <= to <= |b| && i <= j <= to - from
    ensures b[from..to][i..j] == b[from + i..from + j]
  {
    var l, r := b[from..to][i..j], b[from + i..from + j];
    assert forall k :: 0 <= k < |l| ==> l[k] == b[from..to][i + k] == r[k];
    assert l == r;
  }

  lemma FieldAt(t: ValueType, payload: Bytes, b: Bytes, pos: nat)
    requires |payload| < 0x1_0000_0000 && pos + 5 + |payload| <= |b|
    requires b[pos..pos + 5 + |payload|] == Field(t, payload)
    ensures b[pos] == Tag(t) && Get32(b[pos + 1..pos + 5]) == |payload|
    ensures b[pos + 5..pos + 5 + |payload|] == payload
  {
    hide Put32, Get32;
    RoundTrip32(|payload|, [0, 0, 0, 0]);
    var end := pos + 5 + |payload|;
    Slice(b, pos, end, 1, 5);
    Slice(b, pos, end, 5, 5 + |payload|);
    assert b[pos..end][0] == b[pos];
    assert Field(t, payload)[1..5] == Put32(|payload|) && Field(t, payload)[5..5 + |payload|] == payload;
  }

  /** A written value is read back from wherever it stands, and the cursor ends right after it. */
  lemma ReadWritten(v: Value, b: Bytes, pos: nat)
    requires Writable(v) && pos + |Tlv(v)| <= |b| && b[pos..pos + |Tlv(v)|] == Tlv(v)
    ensures ReadAt(TypeOf(v), b, pos) == Outcome(Some(v), pos + |Tlv(v)|)
  {
    hide Put32, Get32, Payload, Interpret;
    InterpretPayload(v);
    RoundTrip32(|Payload(v)| % 0x1_0000_0000, [0, 0, 0, 0]);
    FieldAt(TypeOf(v), Payload(v), b, pos);
  }

  /**
   Exactly what a reader accepts: the text of a value of its type that has a writable length, and for bool also the
   255 - 1 other payload bytes that are not 0, all read as true.
   */
  lemma ReadExactly(t: ValueType, b: Bytes, pos: nat, v: Value, end: nat)
    requires pos <= |b|
    ensures ReadAt(t, b, pos) == Outcome(Some(v), end) <==>
            && TypeOf(v) == t && Writable(v) && pos + 5 <= end <= |b|
            && (b[pos..end] == Tlv(v) ||
                (v == Bool(true) && exists x: Byte :: x > 1 && b[pos..end] == Field(BOOL, [x])))
  {
    hide Put32, Get32, Interpret, Payload;
    if ReadAt(t, b, pos) == Outcome(Some(v), end) {
      AcceptedText(t, b, pos, v, end);
    }
    if TypeOf(v) == t && Writable(v) && pos + 5 <= end <= |b| {
      RoundTrip32(|Payload(v)| % 0x1_0000_0000, [0, 0, 0, 0]);
      if b[pos..end] == Tlv(v) {
        ReadWritten(v, b, pos);
      }
      if v == Bool(true) && exists x: Byte :: x > 1 && b[pos..end] == Field(BOOL, [x]) {
        var x: Byte :| x > 1 && b[pos..end] == Field(BOOL, [x]);
        LooseTrue(b, pos, end, x);
      }
    }
  }

  lemma LooseTrue(b: Bytes, pos: nat, end: nat, x: Byte)
    requires pos <= end <= |b| && x > 1 && b[pos..end] == Field(BOOL, [x])
    ensures ReadAt(BOOL, b, pos) == Outcome(Some(Bool(true)), end)
  {
    RoundTrip32(1, [0, 0, 0, 0]);
    hide Put32, Get32;
    FieldAt(BOOL, [x], b, pos);
  }

  lemma AcceptedText(t: ValueType, b: Bytes, pos: nat, v: Value, end: nat)
    requires pos <= |b| && ReadAt(t, b, pos) == Outcome(Some(v), end)
    ensures TypeOf(v) == t && Writable(v) && pos + 5 <= end <= |b|
    ensures b[pos..end] == Tlv(v) || (v == Bool(true) && exists x: Byte :: x > 1 && b[pos..end] == Field(BOOL, [x]))
  {
    hide Put32, Get32, Interpret, Payload;
    var head, payload := b[pos + 1..pos + 5], b[pos + 5..end];
    RoundTrip32(0, head);
    assert b[pos..end] == [b[pos]] + head + payload;
    assert b[pos..end] == Field(t, payload);
    PayloadOf(t, payload);
    hide ReadAt, Field;
    if Payload(v) != payload {
      assert b[pos..end] == Field(BOOL, [payload[0]]);
    }
  }

  lemma PayloadOf(t: ValueType, payload: Bytes)
    requires Width(t).Some? ==> |payload| == Width(t).value
    ensures TypeOf(Interpret(t, payload)) == t
    ensures Interpret(t, payload).Text? ==> Interpret(t, payload) == Text(payload)
    ensures Payload(Interpret(t, payload)) == payload ||
            (t == BOOL && payload[0] > 1 && payload == [payload[0]] && Interpret(t, payload) == Bool(true))
  {
    hide Put32, Put64, Get32, Get64;
    match t
    case INT32 => RoundTrip32(0, payload);
    case INT64 => RoundTrip64(0, payload);
    case FLOAT => RoundTrip32(0, payload);
    case DOUBLE => RoundTrip64(0, payload);
    case STRING =>
    case BOOL =>
  }

  // ---- lists ----

  lemma TextSplit(vs: seq<Value>, b: Bytes, pos: nat)
    requires vs != [] && pos <= |b| && b[pos..] == TextOf(vs)
    ensures var end := pos + |Tlv(vs[0])|; end <= |b| && b[pos..end] == Tlv(vs[0]) && b[end..] == TextOf(vs[1..])
  {
    hide Tlv;
    var n := |Tlv(vs[0])|;
    Slice(b, pos, |b|, 0, n);
    Slice(b, pos, |b|, n, |b| - pos);
    assert b[pos..|b|] == b[pos..];
    assert TextOf(vs)[0..n] == Tlv(vs[0]) && TextOf(vs)[n..|b| - pos] == TextOf(vs[1..]);
  }

  lemma {:induction false} ReadListAt(vs: seq<Value>, b: Bytes, pos: nat)
    requires (forall i :: 0 <= i < |vs| ==> Writable(vs[i])) && pos <= |b| && b[pos..] == TextOf(vs)
    ensures ReadMany(Types(vs), b, pos) == (Some(vs), |b|)
  {
    hide Tlv, ReadAt, TextOf, Writable;
    if vs != [] {
      TextSplit(vs, b, pos);
      ReadWritten(vs[0], b, pos);
      ReadListAt(vs[1..], b, pos + |Tlv(vs[0])|);
      assert Types(vs)[1..] == Types(vs[1..]);
      assert vs == [vs[0]] + vs[1..];
    } else {
      assert |TextOf(vs)| == 0 by { EmptyText(vs); }
    }
  }

  lemma EmptyText(vs: seq<Value>)
    ensures TextOf(vs) == [] <==> vs == []
  {
  }

  /** Any list of values is recovered in order, with every byte consumed. */
  lemma ListRoundTrip(vs: seq<Value>)
    requires forall i :: 0 <= i < |vs| ==> Writable(vs[i])
    ensures ReadMany(Types(vs), TextOf(vs), 0) == (Some(vs), |TextOf(vs)|)
  {
    ReadListAt(vs, TextOf(vs), 0);
  }

  /** Distinct lists, of whatever types and lengths, have distinct texts. */
  lemma {:induction false} TextInjective(vs: seq<Value>, us: seq<Value>)
    requires forall i :: 0 <= i < |vs| ==> Writable(vs[i])
    requires forall i :: 0 <= i < |us| ==> Writable(us[i])
    requires TextOf(vs) == TextOf(us)
    ensures vs == us
  {
    hide Tlv, ReadAt, TextOf, Writable;
    EmptyText(vs);
    EmptyText(us);
    if vs != [] {
      var b := TextOf(vs);
      assert b[0..] == b;
      TextSplit(vs, b, 0);
      TextSplit(us, b, 0);
      TagFirst(vs[0], b);
      TagFirst(us[0], b);
      TagInjective(TypeOf(vs[0]), TypeOf(us[0]));
      ReadWritten(vs[0], b, 0);
      ReadWritten(us[0], b, 0);
      TextInjective(vs[1..], us[1..]);
      assert vs == [vs[0]] + vs[1..] && us == [us[0]] + us[1..];
    }
  }

  lemma TagFirst(v: Value, b: Bytes)
    requires |Tlv(v)| <= |b| && b[..|Tlv(v)|] == Tlv(v)
    ensures |b| > 0 && b[0] == Tag(TypeOf(v))
  {
    assert Tlv(v)[0] == Tag(TypeOf(v));
  }

  lemma TagInjective(t: ValueType, u: ValueType)
    ensures Tag(t) == Tag(u) ==> t == u
  {
  }

  lemma {:induction false} TextAppend(vs: seq<Value>, v: Value)
    ensures TextOf(vs + [v]) == TextOf(vs) + Tlv(v)
  {
    hide Tlv;
    if vs == [] {
      assert [v][1..] == [] && TextOf([v]) == Tlv(v) + TextOf([]);
    } else {
      TextAppend(vs[1..], v);
      assert (vs + [v])[1..] == vs[1..] + [v];
    }
  }

  // ---- the class ----

  class Serializer {
    var buffer: Bytes
    var readPos: nat

    ghost predicate Valid()
      reads this
    {
      readPos <= |buffer|
    }

    constructor ()
      ensures Valid() && buffer == [] && readPos == 0
    {
      buffer, readPos := [], 0;
    }

    constructor Reader(data: Bytes)
      ensures Valid() && buffer == data && readPos == 0
    {
      buffer, readPos := data, 0;
    }

    // ---- writers ----

    method WriteType(t: ValueType)
      modifies this`buffer
      ensures buffer == old(buffer) + [Tag(t)]
    {
      buffer := buffer + [Tag(t)];
    }

    /** The length goes through a cast to 32 bits. */
    method WriteLength(length: nat)
      modifies this`buffer
      ensures buffer == old(buffer) + Put32(length % 0x1_0000_0000)
    {
      hide Put32;
      buffer := buffer + Put32(length % 0x1_0000_0000);
    }

    method WriteRawBytes(data: Bytes)
      modifies this`buffer
      ensures buffer == old(buffer) + data
    {
      buffer := buffer + data;
    }

    method WriteInt32(value: I32)
      modifies this`buffer
      ensures buffer == old(buffer) + Tlv(Int32(value))
    {
      hide Put32, Interpret;
      WriteType(INT32);
      InterpretPayload(Int32(value));
      WriteLength(4);
      WriteRawBytes(Put32(ToUnsigned32(value)));
    }

    method WriteInt64(value: I64)
      modifies this`buffer
      ensures buffer == old(buffer) + Tlv(Int64(value))
    {
      hide Put32, Put64, Interpret;
      WriteType(INT64);
      InterpretPayload(Int64(value));
      WriteLength(8);
      WriteRawBytes(Put64(ToUnsigned64(value)));
    }

    method WriteFloat(bits: U32)
      modifies this`buffer
      ensures buffer == old(buffer) + Tlv(Float(bits))
    {
      hide Put32, Interpret;
      WriteType(FLOAT);
      InterpretPayload(Float(bits));
      WriteLength(4);
      WriteRawBytes(Put32(bits));
    }

    method WriteDouble(bits: U64)
      modifies this`buffer
      ensures buffer == old(buffer) + Tlv(Double(bits))
    {
      hide Put32, Put64, Interpret;
      WriteType(DOUBLE);
      InterpretPayload(Double(bits));
      WriteLength(8);
      WriteRawBytes(Put64(bits));
    }

    method WriteString(value: Bytes)
      modifies this`buffer
      ensures buffer == old(buffer) + Tlv(Text(value))
    {
      hide Put32, Interpret;
      WriteType(STRING);
      WriteLength(|value|);
      WriteRawBytes(value);
    }

    method WriteBool(value: bool)
      modifies this`buffer
      ensures buffer == old(buffer) + Tlv(Bool(value))
    {
      hide Put32, Interpret;
      WriteType(BOOL);
      WriteLength(1);
      buffer := buffer + [if value then 1 else 0];
    }

    // ---- readers ----

    predicate CanRead(need: nat)
      reads this
    {
      readPos + need <= |buffer|
    }

    /** The three steps every reader goes through: type, length, payload. */
    method ReadField(t: ValueType) returns (payload: Option<Bytes>)
      requires Valid()
      modifies this`readPos
      ensures Valid() && readPos == ReadAt(t, buffer, old(readPos)).pos
      ensures payload.Some? ==> Width(t).Some? ==> |payload.value| == Width(t).value
      ensures ReadAt(t, buffer, old(readPos)).value ==
              if payload.None? then None else Some(Interpret(t, payload.value))
    {
      hide Get32, Interpret;
      if !CanRead(1) {
        return None;
      }
      if buffer[readPos] != Tag(t) {
        return None;
      }
      readPos := readPos + 1;
      if !CanRead(4) {
        return None;
      }
      var length: int := Get32(buffer[readPos..readPos + 4]);
      readPos := readPos + 4;
      if Width(t).Some? && length != Width(t).value {
        return None;
      }
      if !CanRead(length) {
        return None;
      }
      payload := Some(buffer[readPos..readPos + length]);
      readPos := readPos + length;
    }

    method ReadInt32() returns (value: Option<I32>)
      requires Valid()
      modifies this`readPos
      ensures Valid() && ReadAt(INT32, buffer, old(readPos)) ==
                         Outcome(if value.None? then None else Some(Int32(value.value)), readPos)
    {
      hide Get32, ReadAt;
      var payload := ReadField(INT32);
      if payload.None? {
        return None;
      }
      value := Some(ToSigned32(Get32(payload.value)));
    }

    method ReadInt64() returns (value: Option<I64>)
      requires Valid()
      modifies this`readPos
      ensures Valid() && ReadAt(INT64, buffer, old(readPos)) ==
                         Outcome(if value.None? then None else Some(Int64(value.value)), readPos)
    {
      hide Get64, ReadAt;
      var payload := ReadField(INT64);
      if payload.None? {
        return None;
      }
      value := Some(ToSigned64(Get64(payload.value)));
    }

    method ReadFloat() returns (bits: Option<U32>)
      requires Valid()
      modifies this`readPos
      ensures Valid() && ReadAt(FLOAT, buffer, old(readPos)) ==
                         Outcome(if bits.None? then None else Some(Float(bits.value)), readPos)
    {
      hide Get32, ReadAt;
      var payload := ReadField(FLOAT);
      if payload.None? {
        return None;
      }
      bits := Some(Get32(payload.value));
    }

    method ReadDouble() returns (bits: Option<U64>)
      requires Valid()
      modifies this`readPos
      ensures Valid() && ReadAt(DOUBLE, buffer, old(readPos)) ==
                         Outcome(if bits.None? then None else Some(Double(bits.value)), readPos)
    {
      hide Get64, ReadAt;
      var payload := ReadField(DOUBLE);
      if payload.None? {
        return None;
      }
      bits := Some(Get64(payload.value));
    }

    method ReadString() returns (value: Option<Bytes>)
      requires Valid()
      modifies this`readPos
      ensures Valid() && ReadAt(STRING, buffer, old(readPos)) ==
                         Outcome(if value.None? then None else Some(Text(value.value)), readPos)
    {
      hide Get32, ReadAt;
      value := ReadField(STRING);
    }

    method ReadBool() returns (value: Option<bool>)
      requires Valid()
      modifies this`readPos
      ensures Valid() && ReadAt(BOOL, buffer, old(readPos)) ==
                         Outcome(if value.None? then None else Some(Bool(value.value)), readPos)
    {
      hide Get32, ReadAt;
      var payload := ReadField(BOOL);
      if payload.None? {
        return None;
      }
      value := Some(payload.value[0] != 0);
    }
  }
}
