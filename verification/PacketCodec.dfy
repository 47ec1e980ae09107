/** The codec's loops over a FIELD array (src/protocol/packet_protocol.cpp), proved against Packet. */
module PacketCodec {
  import opened Bytes
  import opened Streams
  import opened Packet

  /** A FIELD: its data pointer leads to memory the caller owns. */
  datatype Desc = Desc(ty: int, ivalue: int, data: array?<Byte>, count: int)

  function Contents(data: array?<Byte>): Memory
    reads data
  {
    if data == null then Null else Mem(data[..])
  }

  function View(d: Desc): Field
    reads d.data
  {
    Field(d.ty, d.ivalue, Contents(d.data), d.count)
  }

  function Views(ds: seq<Desc>): (fs: seq<Field>)
    reads set i | 0 <= i < |ds| :: ds[i].data
    ensures |fs| == |ds|
    ensures forall i :: 0 <= i < |ds| ==> fs[i] == View(ds[i])
  {
    seq(|ds|, i requires 0 <= i < |ds| reads set j | 0 <= j < |ds| :: ds[j].data => View(ds[i]))
  }

  /** The list ends at the first negative type. */
  ghost predicate EndsAt(ds: seq<Desc>, used: nat) {
    used < |ds| && ds[used].ty < 0 && forall i :: 0 <= i < used ==> ds[i].ty >= 0
  }

  /** Only values changed: types, counts and data pointers are those of before. */
  ghost predicate SameDescs(before: seq<Desc>, after: seq<Desc>) {
    |before| == |after| &&
    forall i :: 0 <= i < |before| ==> after[i] == before[i].(ivalue := after[i].ivalue)
  }

  ghost predicate NoneIs(ds: seq<Desc>, buf: array<Byte>) {
    forall i :: 0 <= i < |ds| ==> ds[i].data != buf
  }

  method WriteElements(env: Env, out: OutputStream, ty: int, data: array<Byte>, count: int) returns (status: Status)
    requires out.Valid() && !out.aborted && out.little == env.little && data != out.buf
    modifies out, out.buf
    ensures out.Valid() && out.RestKept()
    ensures match ArrayOut(env, ty, data[..], count) {
      case Stop(s) => status == s
      case Chunk(bytes) =>
        if old(out.Fits(|bytes|)) then status == Ok && !out.aborted && out.Written() == old(out.Written()) + bytes
        else status == Aborted
    }
  {
    var size := MoveSize(ty);
    if size == 0 {
      return Ok;
    }
    if count < 0 || Span(size, count) > data.Length {
      return Outside;
    }
    assert data[..][..Span(size, count)] == data[..Span(size, count)];
    out.WriteArray(data, size, count);
    status := if out.aborted then Aborted else Ok;
  }

  method SerializeField(env: Env, out: OutputStream, fields: array<Desc>, n: nat, ghost used: nat)
    returns (status: Status)
    requires out.Valid() && !out.aborted && out.little == env.little
    requires FIELD_COUNT < used <= fields.Length && n < used && NoneIs(fields[..used], out.buf)
    modifies out, out.buf
    ensures out.Valid() && out.RestKept()
    ensures match FieldOut(env, Views(fields[..used]), n) {
      case Stop(s) => status == s
      case Chunk(bytes) =>
        if old(out.Fits(|bytes|)) then status == Ok && !out.aborted && out.Written() == old(out.Written()) + bytes
        else status == Aborted
    }
  {
    var p := fields[n];
    assert p == fields[..used][n] && fields[FIELD_COUNT] == fields[..used][FIELD_COUNT];
    if p.data == null {
      if p.ty == TYPE_FLOAT || p.ty == TYPE_DOUBLE {
        return Outside;
      }
      var size := ScalarSize(p.ty);
      if size > 0 {
        out.WriteNumber(ToUnsigned(p.ivalue, size), size);
      }
      status := if out.aborted then Aborted else Ok;
    } else if p.count > 0 {
      status := WriteElements(env, out, p.ty, p.data, Int32(p.count * fields[FIELD_COUNT].ivalue));
    } else if n == 0 {
      status := Outside;
    } else {
      var prev := fields[n - 1];
      assert prev == fields[..used][n - 1];
      if prev.ty != TYPE_SHORT && prev.ty != TYPE_LONG {
        return EncodeError;
      }
      if p.count == -1 {
        status := WriteElements(env, out, p.ty, p.data, Int32(prev.ivalue));
      } else {
        status := Ok;
      }
    }
  }

  /** The checksum entries are computed just before they are written. */
  method SealInPlace(env: Env, out: OutputStream, fields: array<Desc>, n: nat, len: int, base: int, ghost used: nat)
    requires out.Valid() && base <= out.pos && n < used <= fields.Length
    modifies fields
    ensures SameDescs(old(fields[..]), fields[..])
    ensures Views(fields[..used])
         == old(Views(fields[..used])[n := SealField(env, View(fields[n]), n, len, out.Written(), base)])
  {
    ghost var was := Views(fields[..used]);
    if n == FIELD_HCRC {
      if out.pos > 0 {
        fields[n] := fields[n].(ivalue := env.crc(out.buf[..out.pos]));
      }
    } else if len - 1 == n {
      if base >= 0 && out.pos > base {
        assert out.buf[base..out.pos] == out.Written()[base..];
        fields[n] := fields[n].(ivalue := env.crc(out.buf[base..out.pos]));
      }
    }
    assert Views(fields[..used]) == was[n := View(fields[n])];
  }

  /** One turn of the loop of serialize_packet. */
  method SerializeTurn(env: Env, out: OutputStream, fields: array<Desc>, n: nat, len: int, base: int,
                       ghost used: nat, ghost cur: seq<Field>, ghost written: seq<Byte>)
    returns (status: Status)
    requires out.Valid() && !out.aborted && out.little == env.little && base <= out.pos
    requires FIELD_COUNT < used <= fields.Length && n < used && NoneIs(fields[..used], out.buf)
    requires cur == Views(fields[..used]) && written == out.Written()
    modifies out, out.buf, fields
    ensures out.Valid() && out.RestKept() && SameDescs(old(fields[..]), fields[..])
    ensures match EncodeTurn(env, cur, n, len, written, base, out.buf.Length) {
      case EncodeFailed(s) => status == s != Ok
      case Encoded(fs, bytes) =>
        status == Ok && !out.aborted && Views(fields[..used]) == fs && out.Written() == bytes
    }
  {
    SealInPlace(env, out, fields, n, len, base, used);
    ghost var fs := Views(fields[..used]);
    assert NoneIs(fields[..used], out.buf);
    status := SerializeField(env, out, fields, n, used);
    assert forall i :: 0 <= i < used ==> View(fields[..used][i]) == fs[i];
  }

  method SerializePacket(env: Env, out: OutputStream, fields: array<Desc>, len: int, ghost used: nat)
    returns (status: Status)
    requires out.Valid() && !out.aborted && out.little == env.little
    requires FIELD_COUNT < used && EndsAt(fields[..], used) && NoneIs(fields[..used], out.buf)
    modifies out, out.buf, fields
    ensures out.Valid() && out.RestKept() && SameDescs(old(fields[..]), fields[..])
    ensures match old(EncodeFrom(env, Views(fields[..used]), 0, len, out.Written(), -1, out.buf.Length)) {
      case EncodeFailed(s) => status == s != Ok
      case Encoded(fs, bytes) => status == Ok && Views(fields[..used]) == fs && out.Written() == bytes
    }
  {
    hide EncodeTurn, View;
    var base := -1;
    var n := 0;
    ghost var cur, written := Views(fields[..used]), out.Written();
    ghost var goal := EncodeFrom(env, cur, 0, len, written, -1, out.buf.Length);
    while fields[n].ty >= 0
      invariant n <= used && out.Valid() && !out.aborted && base <= out.pos && out.RestKept()
      invariant SameDescs(old(fields[..]), fields[..])
      invariant cur == Views(fields[..used]) && written == out.Written() && |cur| == used && |written| == out.pos
      invariant EncodeFrom(env, cur, n, len, written, base, out.buf.Length) == goal
      decreases used - n
    {
      assert n < used && NoneIs(fields[..used], out.buf);
      ghost var e := EncodeTurn(env, cur, n, len, written, base, out.buf.Length);
      status := SerializeTurn(env, out, fields, n, len, base, used, cur, written);
      if status != Ok {
        return;
      }
      cur, written := e.fields, e.out;
      if n == FIELD_BMARK - 1 {
        base := out.pos;
      }
      n := n + 1;
    }
    assert n == used;
    status := Ok;
  }

  // ---------------------------------------------------------------- decoding

  /** The caller's arrays lie in `held`; they are all different, and none of them is the
      stream's own buffer. */
  ghost predicate Holds(ds: seq<Desc>, held: set<array<Byte>>) {
    forall i :: 0 <= i < |ds| && ds[i].data != null ==> ds[i].data in held
  }

  ghost predicate Separate(ds: seq<Desc>, buf: array<Byte>) {
    NoneIs(ds, buf) &&
    forall i, j :: 0 <= i < j < |ds| && ds[i].data != null ==> ds[i].data != ds[j].data
  }

  method ReadScalar(input: InputStream, fields: array<Desc>, n: nat) returns (status: Status)
    requires input.Valid() && !input.aborted && n < fields.Length && fields[n].data == null
    modifies input, fields
    ensures input.Valid() && forall i :: 0 <= i < fields.Length && i != n ==> fields[i] == old(fields[i])
    ensures fields[n] == old(fields[n]).(ivalue := fields[n].ivalue)
    ensures match old(ScalarIn(View(fields[n]), input.buf[input.pos..input.end])) {
      case Halt(s) => status == s != Ok
      case Got(f, used) =>
        status == Ok && !input.aborted && View(fields[n]) == f && input.pos == old(input.pos) + used
    }
  {
    var p := fields[n];
    if p.ty == TYPE_FLOAT || p.ty == TYPE_DOUBLE {
      return Outside;
    }
    var size := ScalarSize(p.ty);
    if size == 0 {
      return Ok;
    }
    ghost var rest := input.buf[input.pos..input.end];
    var v := input.ReadNumber(size);
    if input.aborted {
      return Aborted;
    }
    assert rest[..size] == input.buf[input.pos - size..input.pos];
    fields[n] := p.(ivalue := ToSigned(v, size));
    status := Ok;
  }

  method ReadElements(env: Env, input: InputStream, p: Desc, count: nat) returns (status: Status)
    requires input.Valid() && !input.aborted && input.little == env.little
    requires p.data != null && p.data != input.buf
    modifies input, p.data
    ensures input.Valid()
    ensures match old(ArrayIn(env, View(p), input.buf[input.pos..input.end], count)) {
      case Halt(s) => status == s != Ok
      case Got(f, used) =>
        status == Ok && !input.aborted && View(p) == f && input.pos == old(input.pos) + used
    }
  {
    var size := MoveSize(p.ty);
    if size == 0 {
      return Ok;
    }
    if Span(size, count) > p.data.Length {
      return Outside;
    }
    ghost var rest := input.buf[input.pos..input.end];
    ghost var held := p.data[..];
    assert held[Span(size, count)..] == p.data[Span(size, count)..];
    input.ReadArray(p.data, size, count);
    if input.aborted {
      return Aborted;
    }
    assert rest[..Span(size, count)] == old(input.buf[input.pos..input.pos + Span(size, count)]);
    status := Ok;
  }

  /** One body field. */
  method UnserializeField(env: Env, input: InputStream, fields: array<Desc>, n: nat, cnt: int, ghost used: nat)
    returns (status: Status)
    requires input.Valid() && !input.aborted && input.little == env.little
    requires FIELD_COUNT < n < used <= fields.Length && Separate(fields[..used], input.buf)
    requires cnt == Int32(fields[FIELD_COUNT].ivalue)
    modifies input, fields, fields[n].data
    ensures input.Valid() && forall i :: 0 <= i < fields.Length && i != n ==> fields[i] == old(fields[i])
    ensures fields[n] == old(fields[n]).(ivalue := fields[n].ivalue)
    ensures match old(FieldIn(env, Views(fields[..used]), n, input.buf[input.pos..input.end])) {
      case Halt(s) => status == s != Ok
      case Got(f, used) =>
        status == Ok && !input.aborted && View(fields[n]) == f && input.pos == old(input.pos) + used
    }
  {
    var p := fields[n];
    assert p == fields[..used][n] && fields[FIELD_COUNT] == fields[..used][FIELD_COUNT];
    if p.data == null {
      status := ReadScalar(input, fields, n);
    } else if p.count >= 0 {
      var count := p.count * cnt;
      if 0 <= count < 0x8000_0000 {
        status := ReadElements(env, input, p, count);
      } else {
        status := Outside;
      }
    } else {
      var prev := fields[n - 1];
      assert prev == fields[..used][n - 1];
      if prev.ty != TYPE_SHORT && prev.ty != TYPE_LONG {
        return DecodeError;
      }
      if p.count == -1 {
        if prev.data != null {
          return DecodeError;
        }
        var count := Int32(prev.ivalue);
        if count > 0 {
          status := ReadElements(env, input, p, count);
          return;
        }
      }
      status := Ok;
    }
  }

  /** One turn of the loop of unserialize_body_packet; `base` is where the body starts. */
  method UnserializeTurn(env: Env, input: InputStream, fields: array<Desc>, n: nat, len: int, compare: bool,
                         cnt: int, base: nat, ghost used: nat, ghost cur: seq<Field>, ghost wire: seq<Byte>)
    returns (status: Status)
    requires input.Valid() && !input.aborted && input.little == env.little && base <= input.pos
    requires wire == input.buf[base..input.end]
    requires FIELD_COUNT < n < used <= fields.Length && Separate(fields[..used], input.buf)
    requires cnt == Int32(fields[FIELD_COUNT].ivalue) && cur == Views(fields[..used])
    modifies input, fields, fields[n].data
    ensures input.Valid() && SameDescs(old(fields[..]), fields[..]) && wire == input.buf[base..input.end]
    ensures fields[FIELD_COUNT] == old(fields[FIELD_COUNT])
    ensures match BodyTurn(env, cur, n, len, compare, wire, old(input.pos) - base) {
      case DecodeFailed(s) => status == s != Ok
      case Decoded(fs, pos) =>
        status == Ok && !input.aborted && Views(fields[..used]) == fs && input.pos == base + pos
    }
  {
    ghost var pos := input.pos - base;
    assert wire[pos..] == input.buf[input.pos..input.end] && wire[..pos] == input.buf[base..input.pos];
    var crc := 0;
    if len - 1 == n && compare {
      if input.pos > base {
        crc := env.crc(input.buf[base..input.pos]);
      }
    }
    status := UnserializeField(env, input, fields, n, cnt, used);
    if status != Ok {
      return;
    }
    OthersKept(old(fields[..used]), fields[..used], n, cur);
    if n == len - 1 {
      if compare && ToUnsigned(fields[n].ivalue, 4) != crc {
        status := CrcError;
      }
    }
  }

  /** Only field n and its own array were touched, so only its view changed. */
  lemma {:induction false} OthersKept(before: seq<Desc>, after: seq<Desc>, n: nat, was: seq<Field>)
    requires n < |before| == |after| == |was|
    requires forall i :: 0 <= i < |before| && i != n ==> after[i] == before[i] && View(after[i]) == was[i]
    ensures Views(after) == was[n := View(after[n])]
  {
  }

  lemma {:induction false} SeparateKept(was: seq<Desc>, now: seq<Desc>, used: nat, n: nat, buf: array<Byte>,
                                        held: set<array<Byte>>)
    requires SameDescs(was, now) && EndsAt(was, used) && n <= used && now[n].ty >= 0
    requires Separate(was[..used], buf) && Holds(was[..used], held)
    ensures n < used && Separate(now[..used], buf) && (now[n].data != null ==> now[n].data in held)
  {
    assert now[n].data == was[..used][n].data;
    forall i | 0 <= i < used
      ensures now[..used][i].data == was[..used][i].data
    {
    }
  }

  /** The turn as the loop makes it: only values and owned arrays have changed so far. */
  method UnserializeNext(env: Env, input: InputStream, fields: array<Desc>, n: nat, len: int, compare: bool,
                         cnt: int, base: nat, ghost used: nat, ghost cur: seq<Field>, ghost wire: seq<Byte>,
                         ghost was: seq<Desc>, ghost held: set<array<Byte>>)
    returns (status: Status)
    requires input.Valid() && !input.aborted && input.little == env.little && base <= input.pos
    requires FIELD_COUNT < n < used && SameDescs(was, fields[..]) && EndsAt(was, used)
    requires Separate(was[..used], input.buf) && Holds(was[..used], held) && input.buf !in held
    requires wire == input.buf[base..input.end]
    requires cnt == Int32(fields[FIELD_COUNT].ivalue) && cur == Views(fields[..used])
    modifies input, fields, held
    ensures input.Valid() && SameDescs(was, fields[..]) && wire == input.buf[base..input.end]
    ensures fields[FIELD_COUNT] == old(fields[FIELD_COUNT])
    ensures match BodyTurn(env, cur, n, len, compare, wire, old(input.pos) - base) {
      case DecodeFailed(s) => status == s != Ok
      case Decoded(fs, pos) =>
        status == Ok && !input.aborted && Views(fields[..used]) == fs && input.pos == base + pos
    }
  {
    SeparateKept(was, fields[..], used, n, input.buf, held);
    assert fields[..used] == fields[..][..used];
    status := UnserializeTurn(env, input, fields, n, len, compare, cnt, base, used, cur, wire);
  }

  method UnserializeBodyPacket(env: Env, input: InputStream, fields: array<Desc>, len: int, compare: bool,
                               ghost used: nat, ghost held: set<array<Byte>>)
    returns (status: Status)
    requires input.Valid() && !input.aborted && input.little == env.little
    requires FIELD_BMARK < used && EndsAt(fields[..], used)
    requires Separate(fields[..used], input.buf) && Holds(fields[..used], held) && input.buf !in held
    modifies input, fields, held
    ensures input.Valid() && SameDescs(old(fields[..]), fields[..])
    ensures match old(DecodeBodyFrom(env, Views(fields[..used]), FIELD_BMARK, len, compare,
                                     input.buf[input.pos..input.end], 0)) {
      case DecodeFailed(s) => status == s != Ok
      case Decoded(fs, pos) => status == Ok && Views(fields[..used]) == fs && input.pos == old(input.pos) + pos
    }
  {
    hide BodyTurn, View, Separate;
    var n := FIELD_BMARK;
    var cnt := Int32(fields[FIELD_COUNT].ivalue);
    var base := input.pos;
    ghost var wire := input.buf[base..input.end];
    ghost var was, cur, pos: nat := fields[..], Views(fields[..used]), 0;
    ghost var goal := DecodeBodyFrom(env, cur, n, len, compare, wire, pos);
    while fields[n].ty >= 0
      invariant FIELD_BMARK <= n <= used && input.Valid() && !input.aborted && base + pos == input.pos && pos <= |wire|
      invariant SameDescs(was, fields[..]) && cnt == Int32(fields[FIELD_COUNT].ivalue)
      invariant cur == Views(fields[..used]) && wire == input.buf[base..input.end] && |cur| == used
      invariant DecodeBodyFrom(env, cur, n, len, compare, wire, pos) == goal
      decreases used - n
    {
      assert n < used;
      ghost var d := BodyTurn(env, cur, n, len, compare, wire, pos);
      status := UnserializeNext(env, input, fields, n, len, compare, cnt, base, used, cur, wire, was, held);
      if status != Ok {
        return;
      }
      assert d.Decoded?;
      cur, pos := d.fields, d.pos;
      n := n + 1;
    }
    assert n == used;
    status := Ok;
  }

  /** Header arrays need no terminator: the loop stops behind the header checksum. */
  ghost predicate HeaderEnds(ds: seq<Desc>, used: nat) {
    used <= |ds| && (forall i :: 0 <= i < used ==> ds[i].ty >= 0) && (used > FIELD_HCRC || EndsAt(ds, used))
  }

  method HeaderNext(env: Env, input: InputStream, fields: array<Desc>, n: nat, compare: bool,
                    ghost used: nat, ghost cur: seq<Field>, ghost wire: seq<Byte>)
    returns (status: Status)
    requires input.Valid() && !input.aborted && n < used <= fields.Length
    requires cur == Views(fields[..used]) && wire == input.buf[..input.end]
    modifies input, fields
    ensures input.Valid() && SameDescs(old(fields[..]), fields[..])
    ensures match HeaderTurn(env, cur, n, compare, wire, old(input.pos)) {
      case DecodeFailed(s) => status == s != Ok
      case Decoded(fs, pos) =>
        status == Ok && !input.aborted && Views(fields[..used]) == fs && input.pos == pos
    }
  {
    assert wire[input.pos..] == input.buf[input.pos..input.end] && wire[..input.pos] == input.buf[..input.pos];
    assert cur[n] == View(fields[..used][n]) == View(fields[n]);
    var crc := 0;
    if n == FIELD_HCRC {
      if input.pos > 0 && compare {
        crc := env.crc(input.buf[..input.pos]);
      }
    }
    if fields[n].data == null {
      status := ReadScalar(input, fields, n);
      if status != Ok {
        return;
      }
    } else {
      status := Ok;
    }
    OthersKept(old(fields[..used]), fields[..used], n, cur);
    if n == FIELD_HMARK {
      if ToUnsigned(fields[n].ivalue, 4) != HEAD_MARK {
        status := DecodeError;
      }
    } else if n == FIELD_HCRC {
      if compare && crc != ToUnsigned(fields[n].ivalue, 4) {
        status := CrcError;
      }
    }
  }

  method UnserializeHeaderPacket(env: Env, input: InputStream, fields: array<Desc>, compare: bool, ghost used: nat)
    returns (status: Status)
    requires input.Valid() && !input.aborted && input.little == env.little
    requires HeaderEnds(fields[..], used)
    modifies input, fields
    ensures input.Valid() && SameDescs(old(fields[..]), fields[..])
    ensures match old(DecodeHeaderFrom(env, Views(fields[..used]), 0, compare, input.buf[..input.end], input.pos)) {
      case DecodeFailed(s) => status == s != Ok
      case Decoded(fs, pos) => status == Ok && Views(fields[..used]) == fs && input.pos == pos
    }
  {
    hide HeaderTurn;
    var n := 0;
    ghost var was, wire, cur, pos := fields[..], input.buf[..input.end], Views(fields[..used]), input.pos;
    ghost var goal := DecodeHeaderFrom(env, cur, 0, compare, wire, pos);
    while n <= FIELD_HCRC && fields[n].ty >= 0
      invariant n <= used && n <= FIELD_BMARK && input.Valid() && !input.aborted && SameDescs(was, fields[..])
      invariant cur == Views(fields[..used]) && wire == input.buf[..input.end] && |cur| == used
      invariant pos == input.pos && pos <= |wire|
      invariant DecodeHeaderFrom(env, cur, n, compare, wire, pos) == goal
      decreases used - n
    {
      assert n < used;
      ghost var d := HeaderTurn(env, cur, n, compare, wire, pos);
      status := HeaderNext(env, input, fields, n, compare, used, cur, wire);
      if status != Ok {
        return;
      }
      cur, pos := d.fields, d.pos;
      n := n + 1;
    }
    assert n == used || n > FIELD_HCRC;
    status := Ok;
  }

  // ---------------------------------------------------------------- copying and sizes

  /** How many entries copy_fields takes: it stops at the first type that is not positive, and
      in header mode behind the header checksum. */
  function CopyLength(onlyHeader: bool, stop: nat): nat {
    if onlyHeader && stop > FIELD_HCRC then FIELD_BMARK else stop
  }

  function Copied(dest: seq<Desc>, src: seq<Desc>, onlyHeader: bool, stop: nat): seq<Desc>
    requires CopyLength(onlyHeader, stop) <= |dest| && CopyLength(onlyHeader, stop) <= |src|
    requires !onlyHeader ==> stop < |dest|
  {
    if onlyHeader then src[..CopyLength(true, stop)] + dest[CopyLength(true, stop)..]
    else src[..stop] + [dest[stop].(ty := -1)] + dest[stop + 1..]
  }

  ghost predicate StopsAt(ds: seq<Desc>, onlyHeader: bool, stop: nat) {
    && stop <= |ds|
    && (forall i :: 0 <= i < stop ==> ds[i].ty > 0)
    && ((onlyHeader && stop > FIELD_HCRC) || (stop < |ds| && ds[stop].ty <= 0))
  }

  method CopyFields(dest: array<Desc>, src: array<Desc>, onlyHeader: bool, ghost stop: nat) returns (n: nat)
    requires dest != src && StopsAt(src[..], onlyHeader, stop)
    requires CopyLength(onlyHeader, stop) <= dest.Length && (!onlyHeader ==> stop < dest.Length)
    modifies dest
    ensures dest[..] == Copied(old(dest[..]), src[..], onlyHeader, stop)
    ensures n == if onlyHeader && stop > FIELD_HCRC then FIELD_HCRC else stop
  {
    n := 0;
    while src[n].ty > 0
      invariant n <= stop && n <= CopyLength(onlyHeader, stop)
      invariant onlyHeader && stop > FIELD_HCRC ==> n <= FIELD_HCRC
      invariant forall i :: 0 <= i < n ==> dest[i] == src[i]
      invariant forall i :: n <= i < dest.Length ==> dest[i] == old(dest[i])
      decreases stop - n
    {
      dest[n] := src[n];
      if onlyHeader && n == FIELD_BMARK - 1 {
        return;
      }
      n := n + 1;
    }
    if !onlyHeader {
      dest[n] := dest[n].(ty := -1);
    }
  }

  /** A full copy of a list is the list exactly when no entry has type char, which is 0; and
      then it ends where the list ends. */
  lemma {:induction false} FullCopyFaithful(dest: seq<Desc>, src: seq<Desc>, used: nat, stop: nat)
    requires EndsAt(src, used) && StopsAt(src, false, stop) && used < |dest|
    ensures stop <= used
    ensures EndsAt(Copied(dest, src, false, stop), stop)
    ensures stop == used <==> forall i :: 0 <= i < used ==> src[i].ty != TYPE_CHAR
    ensures stop == used <==> Copied(dest, src, false, stop)[..used] == src[..used]
  {
    var c := Copied(dest, src, false, stop);
    assert c[..stop] == src[..stop];
    if stop < used {
      assert src[stop].ty == TYPE_CHAR;
      assert c[..used][stop] == c[stop] && src[..used][stop] == src[stop];
    }
  }

  method FieldsSize(fields: array<Desc>, ghost used: nat, bodyCount0: int)
    returns (total: int, header: int, body: int, bodyCount: int)
    requires FIELD_COUNT < used && EndsAt(fields[..], used)
    ensures total == SizeSum(Views(fields[..used]), 0, used)
    ensures header == SizeSum(Views(fields[..used]), 0, if used < FIELD_BMARK then used else FIELD_BMARK)
    ensures body == total - header
    ensures bodyCount == used - (if used > FIELD_NEXT then FIELD_NEXT else bodyCount0) + 1
  {
    hide FieldSize, View;
    total, header, body, bodyCount := 0, 0, 0, bodyCount0;
    var n := 0;
    var cnt := Int32(fields[FIELD_COUNT].ivalue);
    ghost var fs := Views(fields[..used]);
    while fields[n].ty >= 0
      invariant n <= used && total == SizeSum(fs, 0, n) && body == total - header
      invariant header == SizeSum(fs, 0, if n < FIELD_BMARK then n else FIELD_BMARK)
      invariant bodyCount == if n > FIELD_NEXT then FIELD_NEXT else bodyCount0
      decreases used - n
    {
      assert n < used;
      var size := SizeOfField(fields, n, cnt, used);
      if n == FIELD_NEXT {
        bodyCount := n;
      }
      total := total + size;
      if n <= FIELD_HCRC {
        header := header + size;
      } else {
        body := body + size;
      }
      n := n + 1;
    }
    assert n == used;
    bodyCount := n - bodyCount + 1;
  }

  method SizeOfField(fields: array<Desc>, n: nat, cnt: int, ghost used: nat) returns (size: int)
    requires FIELD_COUNT < used <= fields.Length && n < used && cnt == Int32(fields[FIELD_COUNT].ivalue)
    ensures size == FieldSize(Views(fields[..used]), n)
  {
    var p := fields[n];
    assert p == fields[..used][n] && fields[FIELD_COUNT] == fields[..used][FIELD_COUNT];
    size := SizeOfType(p.ty);
    if p.data != null {
      if p.count >= 0 {
        size := size * (p.count * cnt);
      } else if p.count == -1 && n > 0 {
        var prev := fields[n - 1];
        assert prev == fields[..used][n - 1];
        if prev.data == null {
          size := size * prev.ivalue;
        }
      }
    }
  }
}
