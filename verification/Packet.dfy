/** Table-driven packets: what encoding a field list yields and what decoding a byte string
    yields, as values (src/protocol/packet_protocol.h, packet_protocol.cpp). */
module Packet {
  import opened Bytes
  import opened Streams

  const TYPE_CHAR := 0
  const TYPE_BYTE := 1
  const TYPE_SHORT := 2
  const TYPE_LONG := 3
  const TYPE_LONGLONG := 4
  const TYPE_FLOAT := 5
  const TYPE_DOUBLE := 6

  const FIELD_HMARK := 0
  const FIELD_METHOD := 1
  const FIELD_BSIZE := 2
  const FIELD_RETURN := 3
  const FIELD_TIME := 4
  const FIELD_COUNT := 5
  const FIELD_HCRC := 6
  const FIELD_BMARK := 7
  const FIELD_NEXT := 8

  const HEAD_MARK := 0x11111111
  const BODY_MARK := 0x22222222
  const HEADER_BYTES := 32

  /** What a FIELD's data pointer leads to. */
  datatype Memory = Null | Mem(bytes: seq<Byte>)

  /** One FIELD; a field list is the entries before the first negative type. */
  datatype Field = Field(ty: int, ivalue: int, data: Memory, count: int)

  /** Ok and the three error codes of the original; Aborted is its stream assertion; Outside is
      behaviour the original leaves undefined or this model leaves out. */
  datatype Status = Ok | EncodeError | DecodeError | CrcError | Aborted | Outside

  /** The checksum is any function of the bytes; the host's byte order is free as well. */
  datatype Env = Env(crc: seq<Byte> -> Word32, little: bool)

  /** Bytes a scalar of this type takes on the wire; none for float, double and unknown types. */
  function ScalarSize(ty: int): nat {
    if ty == TYPE_CHAR || ty == TYPE_BYTE then 1
    else if ty == TYPE_SHORT then 2
    else if ty == TYPE_LONG then 4
    else if ty == TYPE_LONGLONG then 8
    else 0
  }

  /** Bytes per element that array reads and writes move: long long arrays move four. */
  function MoveSize(ty: int): nat {
    if ty == TYPE_CHAR || ty == TYPE_BYTE then 1
    else if ty == TYPE_SHORT then 2
    else if ty == TYPE_LONG || ty == TYPE_LONGLONG || ty == TYPE_FLOAT then 4
    else if ty == TYPE_DOUBLE then 8
    else 0
  }

  /** Bytes per element that fields_size predicts. */
  function SizeOfType(ty: int): nat {
    if ty == TYPE_LONGLONG then 8 else MoveSize(ty)
  }

  predicate CountType(ty: int) {
    ty == TYPE_SHORT || ty == TYPE_LONG
  }

  // ---------------------------------------------------------------- encoding

  datatype Chunk = Chunk(bytes: seq<Byte>) | Stop(status: Status)

  function ArrayOut(env: Env, ty: int, mem: seq<Byte>, count: int): Chunk {
    var size := MoveSize(ty);
    if size == 0 then Chunk([])
    else if count < 0 || Span(size, count) > |mem| then Stop(Outside)
    else Chunk(ArrayWire(env.little, size, mem[..Span(size, count)]))
  }

  function ScalarOut(f: Field): Chunk {
    if f.ty == TYPE_FLOAT || f.ty == TYPE_DOUBLE then Stop(Outside)
    else Chunk(BeBytes(ToUnsigned(f.ivalue, ScalarSize(f.ty)), ScalarSize(f.ty)))
  }

  /** What field n adds to the output. */
  function FieldOut(env: Env, fs: seq<Field>, n: nat): Chunk
    requires FIELD_COUNT < |fs| && n < |fs|
  {
    var f := fs[n];
    if f.data.Null? then ScalarOut(f)
    else if f.count > 0 then ArrayOut(env, f.ty, f.data.bytes, Int32(f.count * fs[FIELD_COUNT].ivalue))
    else if n == 0 then Stop(Outside)
    else if !CountType(fs[n - 1].ty) then Stop(EncodeError)
    else if f.count == -1 then ArrayOut(env, f.ty, f.data.bytes, Int32(fs[n - 1].ivalue))
    else Chunk([])
  }

  /** The checksum entries are filled in just before they are written. */
  function SealField(env: Env, f: Field, n: nat, len: int, out: seq<Byte>, base: int): (g: Field)
    requires base <= |out|
  {
    if n == FIELD_HCRC then
      if |out| > 0 then f.(ivalue := env.crc(out)) else f
    else if n == len - 1 && 0 <= base < |out| then f.(ivalue := env.crc(out[base..]))
    else f
  }

  datatype Encoding = Encoded(fields: seq<Field>, out: seq<Byte>) | EncodeFailed(status: Status)

  /** One turn of the encoding loop: `base` is where the body starts in the output, or -1 until
      the header has been written, and `room` is the size of the output buffer. */
  function EncodeTurn(env: Env, fs: seq<Field>, n: nat, len: int, out: seq<Byte>, base: int, room: nat): (e: Encoding)
    requires FIELD_COUNT < |fs| && n < |fs| && base <= |out|
    ensures e.Encoded? ==> |e.fields| == |fs| && |e.out| >= |out|
  {
    var fs1 := fs[n := SealField(env, fs[n], n, len, out, base)];
    match FieldOut(env, fs1, n)
    case Stop(status) => EncodeFailed(status)
    case Chunk(bytes) => if |out + bytes| > room then EncodeFailed(Aborted) else Encoded(fs1, out + bytes)
  }

  function NextBase(n: nat, base: int, out: seq<Byte>): int {
    if n == FIELD_BMARK - 1 then |out| else base
  }

  /** The encoding loop from field n on. */
  function EncodeFrom(env: Env, fs: seq<Field>, n: nat, len: int, out: seq<Byte>, base: int, room: nat): (e: Encoding)
    requires FIELD_COUNT < |fs| && n <= |fs| && base <= |out|
    decreases |fs| - n
  {
    if n == |fs| then Encoded(fs, out)
    else
      match EncodeTurn(env, fs, n, len, out, base, room)
      case EncodeFailed(status) => EncodeFailed(status)
      case Encoded(fs1, out1) => EncodeFrom(env, fs1, n + 1, len, out1, NextBase(n, base, out1), room)
  }

  function Encode(env: Env, fs: seq<Field>, len: int, room: nat): Encoding
    requires FIELD_COUNT < |fs|
  {
    EncodeFrom(env, fs, 0, len, [], -1, room)
  }

  // ---------------------------------------------------------------- decoding

  datatype Reading = Got(field: Field, used: nat) | Halt(status: Status)

  function ScalarIn(f: Field, rest: seq<Byte>): Reading {
    var size := ScalarSize(f.ty);
    if f.ty == TYPE_FLOAT || f.ty == TYPE_DOUBLE then Halt(Outside)
    else if size == 0 then Got(f, 0)
    else if size > |rest| then Halt(Aborted)
    else Got(f.(ivalue := ToSigned(BeValue(rest[..size]), size)), size)
  }

  /** Reading `count` elements into the front of the caller's memory. */
  function ArrayIn(env: Env, f: Field, rest: seq<Byte>, count: nat): Reading
    requires f.data.Mem?
  {
    var size := MoveSize(f.ty);
    var bytes := Span(size, count);
    if size == 0 then Got(f, 0)
    else if bytes > |f.data.bytes| then Halt(Outside)
    else if bytes > |rest| then Halt(Aborted)
    else Got(f.(data := Mem(ArrayWire(env.little, size, rest[..bytes]) + f.data.bytes[bytes..])), bytes)
  }

  /** Reading body field n when `rest` is what is left of the input. */
  function FieldIn(env: Env, fs: seq<Field>, n: nat, rest: seq<Byte>): Reading
    requires FIELD_COUNT < n < |fs|
  {
    var f := fs[n];
    if f.data.Null? then ScalarIn(f, rest)
    else if f.count >= 0 then
      var count := f.count * Int32(fs[FIELD_COUNT].ivalue);
      if 0 <= count < 0x8000_0000 then ArrayIn(env, f, rest, count) else Halt(Outside)
    else if !CountType(fs[n - 1].ty) then Halt(DecodeError)
    else if f.count != -1 then Got(f, 0)
    else if fs[n - 1].data.Mem? then Halt(DecodeError)
    else if Int32(fs[n - 1].ivalue) > 0 then ArrayIn(env, f, rest, Int32(fs[n - 1].ivalue))
    else Got(f, 0)
  }

  datatype Decoding = Decoded(fields: seq<Field>, pos: nat) | DecodeFailed(status: Status)

  /** The low 32 bits of a decoded value, as the mark and checksum tests see it. */
  function Low32(v: int): nat {
    ToUnsigned(v, 4)
  }

  /** The checksum of the input read so far, or 0 when nothing has been read. */
  function SumOf(env: Env, read: seq<Byte>): nat {
    if |read| > 0 then env.crc(read) else 0
  }

  /** One turn of the header loop, with the input read up to pos. */
  function HeaderTurn(env: Env, fs: seq<Field>, n: nat, compare: bool, wire: seq<Byte>, pos: nat): (d: Decoding)
    requires n < |fs| && pos <= |wire|
    ensures d.Decoded? ==> |d.fields| == |fs| && pos <= d.pos <= |wire|
  {
    match if fs[n].data.Null? then ScalarIn(fs[n], wire[pos..]) else Got(fs[n], 0)
    case Halt(status) => DecodeFailed(status)
    case Got(f, used) =>
      if n == FIELD_HMARK && Low32(f.ivalue) != HEAD_MARK then DecodeFailed(DecodeError)
      else if n == FIELD_HCRC && compare && Low32(f.ivalue) != SumOf(env, wire[..pos]) then DecodeFailed(CrcError)
      else Decoded(fs[n := f], pos + used)
  }

  /** unserialize_header_packet from field n on: it stops behind the header checksum. */
  function DecodeHeaderFrom(env: Env, fs: seq<Field>, n: nat, compare: bool, wire: seq<Byte>, pos: nat): (d: Decoding)
    requires n <= |fs| && pos <= |wire|
    ensures d.Decoded? ==> |d.fields| == |fs| && pos <= d.pos <= |wire|
    decreases |fs| - n
  {
    if n == |fs| || n > FIELD_HCRC then Decoded(fs, pos)
    else
      match HeaderTurn(env, fs, n, compare, wire, pos)
      case DecodeFailed(status) => DecodeFailed(status)
      case Decoded(fs1, pos1) => DecodeHeaderFrom(env, fs1, n + 1, compare, wire, pos1)
  }

  function DecodeHeader(env: Env, fs: seq<Field>, compare: bool, wire: seq<Byte>): (d: Decoding)
    ensures d.Decoded? ==> |d.fields| == |fs| && d.pos <= |wire|
  {
    DecodeHeaderFrom(env, fs, 0, compare, wire, 0)
  }

  /** One turn of the body loop, with the input read up to pos. */
  function BodyTurn(env: Env, fs: seq<Field>, n: nat, len: int, compare: bool, wire: seq<Byte>, pos: nat):
    (d: Decoding)
    requires FIELD_COUNT < n < |fs| && pos <= |wire|
    ensures d.Decoded? ==> |d.fields| == |fs| && pos <= d.pos <= |wire|
  {
    match FieldIn(env, fs, n, wire[pos..])
    case Halt(status) => DecodeFailed(status)
    case Got(f, used) =>
      if n == len - 1 && compare && Low32(f.ivalue) != SumOf(env, wire[..pos]) then DecodeFailed(CrcError)
      else Decoded(fs[n := f], pos + used)
  }

  /** unserialize_body_packet from field n on. */
  function DecodeBodyFrom(env: Env, fs: seq<Field>, n: nat, len: int, compare: bool, wire: seq<Byte>, pos: nat):
    (d: Decoding)
    requires FIELD_COUNT < n <= |fs| && pos <= |wire|
    ensures d.Decoded? ==> |d.fields| == |fs| && pos <= d.pos <= |wire|
    decreases |fs| - n
  {
    if n == |fs| then Decoded(fs, pos)
    else
      match BodyTurn(env, fs, n, len, compare, wire, pos)
      case DecodeFailed(status) => DecodeFailed(status)
      case Decoded(fs1, pos1) => DecodeBodyFrom(env, fs1, n + 1, len, compare, wire, pos1)
  }

  function DecodeBody(env: Env, fs: seq<Field>, len: int, compare: bool, wire: seq<Byte>): (d: Decoding)
    requires FIELD_BMARK < |fs|
    ensures d.Decoded? ==> |d.fields| == |fs| && d.pos <= |wire|
  {
    DecodeBodyFrom(env, fs, FIELD_BMARK, len, compare, wire, 0)
  }

  /** copy_fields with only_header: the seven header entries replaced. */
  function WithHeader(dest: seq<Field>, src: seq<Field>): (r: seq<Field>)
    requires |dest| >= FIELD_BMARK && |src| >= FIELD_BMARK
    ensures |r| == |dest|
    ensures forall i :: 0 <= i < |dest| ==> r[i] == if i < FIELD_BMARK then src[i] else dest[i]
  {
    src[..FIELD_BMARK] + dest[FIELD_BMARK..]
  }

  /** A whole packet received: the header decoded into `htmpl` and copied over the front of
      `tmpl`, then the body decoded into that. */
  function DecodePacket(env: Env, htmpl: seq<Field>, tmpl: seq<Field>, packet: seq<Byte>): (d: Decoding)
    requires |htmpl| >= FIELD_BMARK && |tmpl| > FIELD_BMARK && |packet| >= HEADER_BYTES
    ensures d.Decoded? ==> |d.fields| == |tmpl| && d.pos <= |packet|
  {
    match DecodeHeader(env, htmpl, true, packet[..HEADER_BYTES])
    case DecodeFailed(status) => DecodeFailed(status)
    case Decoded(header, _) =>
      match DecodeBody(env, WithHeader(tmpl, header), |tmpl|, true, packet[HEADER_BYTES..])
      case DecodeFailed(status) => DecodeFailed(status)
      case Decoded(fields, pos) => Decoded(fields, HEADER_BYTES + pos)
  }

  // ---------------------------------------------------------------- sizes

  /** What fields_size counts for field n. */
  function FieldSize(fs: seq<Field>, n: nat): int
    requires FIELD_COUNT < |fs| && n < |fs|
  {
    var f := fs[n];
    var size := SizeOfType(f.ty);
    if f.data.Null? then size
    else if f.count >= 0 then size * (f.count * Int32(fs[FIELD_COUNT].ivalue))
    else if f.count == -1 && n > 0 && fs[n - 1].data.Null? then size * fs[n - 1].ivalue
    else size
  }

  function SizeSum(fs: seq<Field>, a: nat, b: nat): int
    requires FIELD_COUNT < |fs| && a <= b <= |fs|
    decreases b
  {
    if a == b then 0 else SizeSum(fs, a, b - 1) + FieldSize(fs, b - 1)
  }

  // ---------------------------------------------------------------- well-formed lists

  /** The static part of a packet template: the MSG_HEADER entries, then scalars and arrays,
      then the MSG_TAIL entry. A negative or zero count needs a short or long entry before it. */
  predicate ShapedAt(fs: seq<Field>, n: nat)
    requires n < |fs|
  {
    var f := fs[n];
    if n < FIELD_HCRC || n == FIELD_BMARK then f.ty == TYPE_LONG && f.data.Null?
    else if n == FIELD_HCRC || n == |fs| - 1 then f.ty == TYPE_LONGLONG && f.data.Null?
    else if f.data.Null? then ScalarSize(f.ty) > 0
    else
      && MoveSize(f.ty) > 0
      && f.count >= -1
      && (f.count <= 0 ==> CountType(fs[n - 1].ty))
      && (f.count == -1 ==> fs[n - 1].data.Null?)
  }

  predicate Shaped(fs: seq<Field>) {
    |fs| > FIELD_NEXT && forall n :: 0 <= n < |fs| ==> ShapedAt(fs, n)
  }

  /** How many elements array field n holds. */
  function Count(fs: seq<Field>, n: nat): int
    requires FIELD_COUNT < n < |fs|
  {
    if fs[n].count >= 0 then fs[n].count * fs[FIELD_COUNT].ivalue else fs[n - 1].ivalue
  }

  /** The values an entry may hold: scalars fit their type, arrays have a length that is not
      negative, fits an int and is backed by memory. Checksum entries are overwritten. */
  predicate FilledAt(fs: seq<Field>, n: nat)
    requires Shaped(fs) && n < |fs|
  {
    var f := fs[n];
    assert ShapedAt(fs, n);
    if n == FIELD_HCRC || n == |fs| - 1 then true
    else if f.data.Null? then InRange(f.ivalue, ScalarSize(f.ty))
    else 0 <= Count(fs, n) < 0x8000_0000 && Span(MoveSize(f.ty), Count(fs, n)) <= |f.data.bytes|
  }

  /** The bytes a filled field takes on the wire. */
  function Extent(fs: seq<Field>, n: nat): nat
    requires Shaped(fs) && n < |fs| && FilledAt(fs, n)
  {
    assert ShapedAt(fs, n);
    if fs[n].data.Null? then ScalarSize(fs[n].ty) else Span(MoveSize(fs[n].ty), Count(fs, n))
  }

  predicate WellFormed(fs: seq<Field>) {
    Shaped(fs) && fs[FIELD_HMARK].ivalue == HEAD_MARK && forall n :: 0 <= n < |fs| ==> FilledAt(fs, n)
  }

  /** The bytes of fields a to b as they stand. */
  function FieldBytes(env: Env, fs: seq<Field>, n: nat): seq<Byte>
    requires FIELD_COUNT < |fs| && n < |fs|
  {
    match FieldOut(env, fs, n)
    case Chunk(bytes) => bytes
    case Stop(_) => []
  }

  function Wire(env: Env, fs: seq<Field>, a: nat, b: nat): seq<Byte>
    requires FIELD_COUNT < |fs| && a <= b <= |fs|
    decreases b - a
  {
    if a == b then [] else FieldBytes(env, fs, a) + Wire(env, fs, a + 1, b)
  }

  /** The list with both checksums in place: the header's over the six fields before it, the
      body's over everything from the body mark to the field before it. */
  function Seal(env: Env, fs: seq<Field>): (s: seq<Field>)
    requires |fs| > FIELD_NEXT
    ensures |s| == |fs|
  {
    var h := fs[FIELD_HCRC := fs[FIELD_HCRC].(ivalue := env.crc(Wire(env, fs, 0, FIELD_HCRC)))];
    var last := |fs| - 1;
    h[last := h[last].(ivalue := env.crc(Wire(env, h, FIELD_BMARK, last)))]
  }

  /** A packet on the wire. */
  function PacketBytes(env: Env, fs: seq<Field>): seq<Byte>
    requires |fs| > FIELD_NEXT
  {
    Wire(env, Seal(env, fs), 0, |fs|)
  }

  // ---------------------------------------------------------------- message templates

  function Entry(ty: int, value: int): Field {
    Field(ty, value, Null, 1)
  }

  /** MSG_HEADER: the entries every message starts with. */
  function MsgHeader(method_: int, ret: int, count: int, time: int): (fs: seq<Field>)
    ensures |fs| == FIELD_NEXT
  {
    [ Entry(TYPE_LONG, HEAD_MARK), Entry(TYPE_LONG, method_), Entry(TYPE_LONG, 0), Entry(TYPE_LONG, ret),
      Entry(TYPE_LONG, time), Entry(TYPE_LONG, count), Entry(TYPE_LONGLONG, 0), Entry(TYPE_LONG, BODY_MARK) ]
  }

  /** A whole message: MSG_HEADER, its own fields and MSG_TAIL. */
  function Message(method_: int, ret: int, count: int, time: int, fields: seq<Field>): (fs: seq<Field>)
    ensures |fs| == FIELD_NEXT + |fields| + 1
  {
    MsgHeader(method_, ret, count, time) + fields + [Entry(TYPE_LONGLONG, 0)]
  }

  const MSG_COMMON := 1
  const MSG_CONNECT := 2
  const MSG_DISCONNECT := 3

  /** MSG_COMMON_REQ_FIELDS: the template a header is decoded into. */
  function CommonMessage(time: int): seq<Field> {
    Message(MSG_COMMON, 0, 1, time, [])
  }
}
