/** The session object with its buffers (src/core/network/session_handler.cpp, api_network.cpp):
    every completion handler does what SessionSpec says. */
module SessionHandlers {
  import opened Bytes
  import opened Streams
  import opened Packet
  import opened PacketSizes
  import opened PacketCodec
  import opened Messages
  import opened SessionSpec

  /** A message without arrays as a FIELD array with its terminator. */
  method ScalarFields(fs: seq<Field>) returns (fields: array<Desc>)
    requires forall i :: 0 <= i < |fs| ==> fs[i].data.Null? && fs[i].ty >= 0
    ensures fresh(fields) && fields.Length == |fs| + 1
    ensures EndsAt(fields[..], |fs|) && Views(fields[..|fs|]) == fs
    ensures forall i :: 0 <= i < fields.Length ==> fields[i].data == null
  {
    fields := new Desc[|fs| + 1](i requires 0 <= i <= |fs| =>
      if i < |fs| then Desc(fs[i].ty, fs[i].ivalue, null, fs[i].count) else Desc(-1, 0, null, 0));
  }

  /** MSG_CONNECT_FIELDS over the caller's two name arrays. */
  method ConnectFields(client: array<Byte>, process: array<Byte>, time: int) returns (fields: array<Desc>)
    ensures fresh(fields) && fields.Length == 14 && EndsAt(fields[..], 13)
    ensures Views(fields[..13]) == ConnectMessage(client[..], process[..], time)
    ensures forall i :: 0 <= i < 14 && i != 9 && i != 11 ==> fields[i].data == null
    ensures fields[9].data == client && fields[11].data == process
  {
    hide CString;
    ghost var fs := ConnectMessage(client[..], process[..], time);
    var plain := ConnectMessage([], [], time);
    fields := new Desc[14](i requires 0 <= i <= 13 =>
      if i < 13 then Desc(plain[i].ty, plain[i].ivalue, null, plain[i].count) else Desc(-1, 0, null, 0));
    fields[8] := fields[8].(ivalue := |CString(client[..])| + 1);
    fields[9] := fields[9].(data := client);
    fields[10] := fields[10].(ivalue := |CString(process[..])| + 1);
    fields[11] := fields[11].(data := process);
    forall i | 0 <= i < 13
      ensures View(fields[i]) == fs[i]
    {
      assert i != 8 && i != 9 && i != 10 && i != 11 ==> plain[i] == fs[i];
    }
    assert forall i :: 0 <= i < 13 ==> Views(fields[..13])[i] == fs[i];
  }

  /** Decoding a body that lies at the front of a buffer. */
  method DecodeFromBuffer(env: Env, buf: array<Byte>, size: nat, fields: array<Desc>, len: int, ghost used: nat,
                          ghost held: set<array<Byte>>, ghost wire: seq<Byte>)
    returns (status: Status)
    requires size <= buf.Length && wire == buf[..][..size] && FIELD_BMARK < used && EndsAt(fields[..], used)
    requires Separate(fields[..used], buf) && Holds(fields[..used], held) && buf !in held
    modifies fields, held
    ensures match old(DecodeBody(env, Views(fields[..used]), len, true, wire)) {
      case DecodeFailed(s) => status == s != Ok
      case Decoded(fs, _) => status == Ok && Views(fields[..used]) == fs
    }
    ensures forall i :: 0 <= i < fields.Length ==> fields[i].data == old(fields[i].data)
  {
    var input := new InputStream(env.little, buf, size);
    assert buf[input.pos..input.end] == wire;
    ghost var was := fields[..];
    status := UnserializeBodyPacket(env, input, fields, len, true, used, held);
    assert forall i :: 0 <= i < fields.Length ==> fields[..][i].data == was[i].data;
  }

  class SessionHandler {
    const env: Env
    const header: array<Desc>
    var recv: array<Byte>
    var hasHeader: bool
    var op: Op
    var life: Life
    var seen: seq<(seq<Byte>, seq<Byte>)>
    /** History: asynchronous operations started and not completed. */
    ghost var outstanding: nat

    /** Between callbacks the operation recorded is the only one outstanding, if there is one. */
    ghost predicate Settled()
      reads this
    {
      outstanding == if op == Idle then 0 else 1
    }

    /** The decoded packet header as values. */
    function HeaderView(): (h: seq<Field>)
      reads this, header
      requires header.Length == FIELD_BMARK + 3
      ensures |h| == FIELD_BMARK
    {
      seq(FIELD_BMARK, i requires 0 <= i < FIELD_BMARK reads this, header =>
        Field(header[i].ty, header[i].ivalue, Null, header[i].count))
    }

    ghost function State(): State
      reads this, recv, header
      requires header.Length == FIELD_BMARK + 3
    {
      SessionSpec.State.State(recv[..], if hasHeader && op != Idle then HeaderView() else [], op, life, seen)
    }

    ghost predicate Valid()
      reads this, recv, header
    {
      && header.Length == FIELD_BMARK + 3
      && SessionSpec.Valid(State())
      && (hasHeader ==> HeaderUsable())
    }

    constructor (env: Env)
      ensures Valid() && Settled() && this.env == env && fresh(recv) && fresh(header)
      ensures State() == SessionSpec.State.State([], [], Idle, Open, [])
    {
      this.env := env;
      header := new Desc[FIELD_BMARK + 3];
      recv := new Byte[0];
      hasHeader, op, life, seen, outstanding := false, Idle, Open, [], 0;
    }

    /** m_recv_buffer.clear() and resize(n). */
    method Resize(n: nat)
      requires header.Length == FIELD_BMARK + 3
      modifies this`recv, recv
      ensures recv[..] == Resized(old(recv[..]), n) && (recv == old(recv) || fresh(recv))
    {
      if n <= recv.Length {
        forall i | 0 <= i < n {
          recv[i] := 0;
        }
      } else {
        recv := new Byte[n](_ => 0);
      }
    }

    /** Called once, on a fresh session. */
    method Start()
      requires Valid() && life == Open && !hasHeader
      requires outstanding == 0
      modifies this, recv
      ensures Settled()
      ensures Valid() && State() == SessionSpec.Start(old(State())) && (recv == old(recv) || fresh(recv))
    {
      Resize(HEADER_BYTES);
      op := Reading(0, HEADER_BYTES);
      outstanding := outstanding + 1;
    }

    method Close()
      requires Valid()
      requires outstanding == 0
      modifies this
      ensures Settled()
      ensures Valid() && State() == SessionSpec.Close(old(State())) && recv == old(recv)
    {
      op, life := Idle, Closed;
    }

    /** An error return: a crash where the original's behaviour ends, else no operation follows. */
    method Fail(status: Status)
      requires Valid() && life == Open
      requires outstanding == 0
      modifies this
      ensures Settled()
      ensures Valid() && State() == SessionSpec.Fail(old(State()), status) && recv == old(recv)
    {
      op := Idle;
      if status == Aborted || status == Outside {
        life := Crashed;
      }
    }

    /** copy_fields(m_packet_header, robj, true) from the common template. */
    method LoadHeaderTemplate(now: int)
      requires header.Length == FIELD_BMARK + 3
      modifies header
      ensures Views(header[..FIELD_BMARK]) == CommonMessage(now)[..FIELD_BMARK]
      ensures HeaderUsable()
    {
      var robj := ScalarFields(CommonMessage(now));
      ghost var fs := Views(robj[..9]);
      assert forall i :: 0 <= i < 9 ==> View(robj[..9][i]) == fs[i] && robj[i] == robj[..9][i];
      var n := CopyFields(header, robj, true, 9);
      assert forall i :: 0 <= i < FIELD_BMARK ==> header[..][i] == robj[..][i];
      assert forall i :: 0 <= i < FIELD_BMARK ==> header[i] == robj[i];
    }

    /** The header entries are plain scalars with positive types, so copy_fields takes them all. */
    ghost predicate HeaderUsable()
      reads this, header
    {
      header.Length == FIELD_BMARK + 3 &&
      forall i :: 0 <= i < FIELD_BMARK ==> header[i].data == null && header[i].ty > 0
    }

    /** The two ways of looking at the header array agree while it holds no pointers. */
    lemma {:induction false} HeaderViews()
      requires HeaderUsable()
      ensures Views(header[..FIELD_BMARK]) == HeaderView()
    {
    }

    /** read_packet_header: the template's header entries, then the bytes received. */
    method ReadPacketHeader(now: int) returns (status: Status)
      requires header.Length == FIELD_BMARK + 3 && recv.Length >= HEADER_BYTES
      modifies header
      ensures match DecodeHeader(env, CommonMessage(now)[..FIELD_BMARK], true, recv[..HEADER_BYTES]) {
        case DecodeFailed(s) => status == s != Ok
        case Decoded(h, _) => status == Ok && HeaderView() == h && HeaderUsable()
      }
    {
      hide CommonMessage, DecodeHeaderFrom;
      LoadHeaderTemplate(now);
      var input := new InputStream(env.little, recv, HEADER_BYTES);
      ghost var was := header[..];
      status := UnserializeHeaderPacket(env, input, header, true, FIELD_BMARK);
      if status == Ok {
        assert forall i :: 0 <= i < FIELD_BMARK ==> header[..][i].data == was[i].data && header[..][i].ty == was[i].ty;
        HeaderViews();
      }
    }

    method HandlePacketHeader(now: int)
      requires Valid() && op != Idle
      requires outstanding == 0
      modifies this, recv, header
      ensures Settled()
      ensures Valid() && State() == HandleHeader(env, now, old(State()))
      ensures recv == old(recv) || fresh(recv)
    {
      hide DecodeHeader;
      var status := ReadPacketHeader(now);
      if status == Ok {
        hasHeader := true;
        assert HeaderView()[FIELD_BSIZE].ivalue == header[FIELD_BSIZE].ivalue;
        var size := Int32(header[FIELD_BSIZE].ivalue);
        if size < 0 {
          op, life := Idle, Crashed;
          return;
        }
        Resize(size);
        op := Reading(0, size);
        outstanding := outstanding + 1;
      } else {
        hasHeader := false;
        Fail(status);
      }
    }

    /** copy_fields(fields, m_packet_header, true). */
    method TakeOverHeader(fields: array<Desc>, ghost used: nat)
      requires HeaderUsable() && fields != header && FIELD_BMARK < used <= fields.Length
      modifies fields
      ensures Views(fields[..used]) == WithHeader(old(Views(fields[..used])), HeaderView())
      ensures forall i :: FIELD_BMARK <= i < fields.Length ==> fields[i] == old(fields[i])
      ensures forall i :: 0 <= i < FIELD_BMARK ==> fields[i].data == null && fields[i].ty > 0
    {
      ghost var was := fields[..];
      var n := CopyFields(fields, header, true, FIELD_BMARK);
      assert forall i :: 0 <= i < fields.Length ==> fields[..][i] == if i < FIELD_BMARK then header[..][i] else was[i];
      assert forall i :: 0 <= i < FIELD_BMARK ==> fields[i] == header[i];
      HeaderViews();
      assert forall i :: FIELD_BMARK <= i < used ==> was[..used][i] == fields[..used][i];
    }

    /** read_packet_body: the header entries taken over, then the body decoded. */
    method ReadPacketBody(fields: array<Desc>, ghost used: nat, len: int, ghost held: set<array<Byte>>)
      returns (status: Status)
      requires Valid() && hasHeader && op != Idle && fields != header
      requires FIELD_BMARK < used == len && EndsAt(fields[..], used)
      requires Separate(fields[FIELD_BMARK..used], recv) && Holds(fields[FIELD_BMARK..used], held) && recv !in held
      modifies fields, held
      ensures match ReadBody(env, State(), old(Views(fields[..used]))) {
        case DecodeFailed(s) => status == s != Ok
        case Decoded(fs, _) => status == Ok && Views(fields[..used]) == fs
      }
      ensures forall i :: FIELD_BMARK <= i < fields.Length ==> fields[i].data == old(fields[i].data)
    {
      hide DecodeBodyFrom, WithHeader;
      ghost var was := fields[..];
      TakeOverHeader(fields, used);
      assert HeaderView()[FIELD_BSIZE].ivalue == header[FIELD_BSIZE].ivalue;
      var size := Int32(header[FIELD_BSIZE].ivalue);
      if size < 0 || size > recv.Length {
        return Outside;
      }
      TakenOver(was, fields[..], used, held);
      assert fields[..used] == fields[..][..used];
      ghost var wire := recv[..][..size];
      status := DecodeFromBuffer(env, recv, size, fields, len, used, held, wire);
    }

    lemma {:induction false} TakenOver(was: seq<Desc>, now: seq<Desc>, used: nat, held: set<array<Byte>>)
      requires FIELD_BMARK < used && EndsAt(was, used) && |now| == |was|
      requires Separate(was[FIELD_BMARK..used], recv) && Holds(was[FIELD_BMARK..used], held)
      requires forall i :: FIELD_BMARK <= i < |was| ==> now[i] == was[i]
      requires forall i :: 0 <= i < FIELD_BMARK ==> now[i].data == null && now[i].ty > 0
      ensures EndsAt(now, used) && Separate(now[..used], recv) && Holds(now[..used], held)
    {
      forall i | 0 <= i < used
        ensures now[..used][i].data == null || (i >= FIELD_BMARK
          && now[..used][i] == was[FIELD_BMARK..used][i - FIELD_BMARK])
      {
      }
    }

    /** send_packet: the socket gets the whole send buffer. */
    method SendPacket(fields: array<Desc>, ghost used: nat, len: int)
      requires Valid() && op != Idle && fields != header
      requires FIELD_NEXT < used == len && EndsAt(fields[..], used)
      requires outstanding == 0
      modifies this, fields
      ensures Settled()
      ensures Valid() && State() == Send(env, old(State()), old(Views(fields[..used]))) && recv == old(recv)
    {
      var status, bytes := EncodeMessage(env, fields, used, len);
      if status == Ok {
        op := Writing(bytes);
        outstanding := outstanding + 1;
      } else {
        Fail(status);
      }
    }

    /** msg_connect: names decoded into two zeroed local arrays and logged, then the reply. */
    method MsgConnect(now: int)
      requires Valid() && op != Idle && hasHeader
      requires outstanding == 0
      modifies this
      ensures Settled()
      ensures Valid() && State() == HandleConnect(env, now, old(State())) && recv == old(recv)
    {
      hide WithHeader, ConnectMessage, ReadBody, ConnectReply;
      var status, names := ReadNames(now);
      if status != Ok {
        Fail(status);
        return;
      }
      seen := seen + [names];
      SendReply(now);
    }

    method SendReply(now: int)
      requires Valid() && op != Idle
      requires outstanding == 0
      modifies this
      ensures Settled()
      ensures Valid() && State() == Send(env, old(State()), ConnectReply(0, 1, now)) && recv == old(recv)
    {
      var wobj := ScalarFields(ConnectReply(0, 1, now));
      SendPacket(wobj, 10, 10);
    }

    method ReadNames(now: int) returns (status: Status, names: (seq<Byte>, seq<Byte>))
      requires Valid() && op != Idle && hasHeader
      ensures match ReadBody(env, State(), ConnectMessage(Zeros(NAME_BYTES), Zeros(NAME_BYTES), now)) {
        case DecodeFailed(s) => status == s != Ok
        case Decoded(fs, _) => status == Ok && names == (NameOf(fs[9]), NameOf(fs[11]))
      }
    {
      var client := new Byte[NAME_BYTES](_ => 0);
      var process := new Byte[NAME_BYTES](_ => 0);
      assert client[..] == Zeros(NAME_BYTES) && process[..] == Zeros(NAME_BYTES);
      status := ReadConnect(client, process, now);
      names := (CString(client[..]), CString(process[..]));
    }

    method ReadConnect(client: array<Byte>, process: array<Byte>, now: int) returns (status: Status)
      requires Valid() && op != Idle && hasHeader
      requires client != process && client != recv && process != recv
      modifies client, process
      ensures match ReadBody(env, State(), old(ConnectMessage(client[..], process[..], now))) {
        case DecodeFailed(s) => status == s != Ok
        case Decoded(fs, _) =>
          status == Ok && NameOf(fs[9]) == CString(client[..]) && NameOf(fs[11]) == CString(process[..])
      }
    {
      var robj := ConnectFields(client, process, now);
      ghost var held := {client, process};
      assert Separate(robj[FIELD_BMARK..13], recv) && Holds(robj[FIELD_BMARK..13], held) by {
        assert forall i :: 0 <= i < 6 ==> robj[FIELD_BMARK..13][i] == robj[FIELD_BMARK + i];
      }
      status := ReadPacketBody(robj, 13, 13, held);
      assert robj[..13][9] == robj[9] && robj[..13][11] == robj[11];
    }

    method MsgDisconnect(now: int)
      requires Valid() && op != Idle && hasHeader
      requires outstanding == 0
      modifies this
      ensures Settled()
      ensures Valid() && State() == HandleDisconnect(env, now, old(State())) && recv == old(recv)
    {
      hide DecodeBody, WithHeader, ReadBody;
      var robj := ScalarFields(DisconnectMessage(now));
      assert Separate(robj[FIELD_BMARK..9], recv) && Holds(robj[FIELD_BMARK..9], {}) by {
        assert forall i :: 0 <= i < 2 ==> robj[FIELD_BMARK..9][i] == robj[FIELD_BMARK + i];
      }
      var status := ReadPacketBody(robj, 9, 9, {});
      if status != Ok {
        Fail(status);
        return;
      }
      Close();
    }

    method HandlePacketBody(now: int)
      requires Valid() && op != Idle
      requires outstanding == 0
      modifies this
      ensures Settled()
      ensures Valid() && State() == HandleBody(env, now, old(State())) && recv == old(recv)
    {
      hide HandleConnect, HandleDisconnect;
      if !hasHeader {
        Fail(Outside);
        return;
      }
      assert HeaderView()[FIELD_METHOD].ivalue == header[FIELD_METHOD].ivalue;
      var method_ := Int32(header[FIELD_METHOD].ivalue);
      if method_ == MSG_CONNECT {
        MsgConnect(now);
      } else if method_ == MSG_DISCONNECT {
        MsgDisconnect(now);
      } else {
        op := Idle;
      }
    }

    /** The completion of a read: `chunk` is what the socket has put at the offset asked for. */
    method HandleRead(error: bool, chunk: seq<Byte>, now: int)
      requires Valid() && op.Reading? && |chunk| <= op.want
      requires Settled()
      modifies this, recv, header
      ensures Settled()
      ensures Valid() && (recv == old(recv) || fresh(recv))
      ensures State() == if error then ReadError(old(State())) else ReadDone(env, now, old(State()), chunk)
      ensures error || |chunk| == 0 ==> life == Closed && op == Idle && outstanding == 0
    {
      hide Dispatch, Overwrite;
      outstanding := outstanding - 1;
      if error {
        Close();
        return;
      }
      assert State() == old(State());
      Arrive(chunk);
      var transferred, want := |chunk|, op.want;
      if transferred <= 0 {
        Close();
      } else if transferred < want {
        op := Reading(transferred, want - transferred);
        outstanding := outstanding + 1;
      } else {
        DispatchPart(now);
      }
    }

    /** The socket's own write into the buffer. */
    method Arrive(chunk: seq<Byte>)
      requires Valid() && op.Reading? && |chunk| <= op.want
      modifies recv
      ensures Valid() && State() == old(State()).(recv := Overwrite(old(recv[..]), op.at, chunk))
    {
      var at := op.at;
      forall i | 0 <= i < |chunk| {
        recv[at + i] := chunk[i];
      }
      assert recv[..] == Overwrite(old(recv[..]), at, chunk);
    }

    method DispatchPart(now: int)
      requires Valid() && op != Idle
      requires outstanding == 0
      modifies this, recv, header
      ensures Settled()
      ensures Valid() && State() == Dispatch(env, now, old(State())) && (recv == old(recv) || fresh(recv))
    {
      var p := recv[..4];
      assert p == recv[..][..4];
      var mark := MemValue(env.little, p);
      if mark == HEAD_MARK {
        HandlePacketHeader(now);
      } else if mark == BODY_MARK {
        HandlePacketBody(now);
      } else {
        op := Idle;
      }
    }

    /** The completion of a write: the next header is read into the memory there is. */
    method HandleWrite(error: bool)
      requires Valid() && op.Writing?
      requires Settled()
      modifies this
      ensures Settled()
      ensures Valid() && State() == WriteDone(old(State()), !error) && recv == old(recv)
      ensures error ==> life == Closed && op == Idle && outstanding == 0
    {
      outstanding := outstanding - 1;
      if !error {
        op := Reading(0, HEADER_BYTES);
        outstanding := outstanding + 1;
      } else {
        Close();
      }
    }
  }

  /** Sizing, the body size entry and encoding, into a zeroed buffer of the predicted size. */
  method EncodeMessage(env: Env, fields: array<Desc>, ghost used: nat, len: int)
    returns (status: Status, bytes: seq<Byte>)
    requires FIELD_NEXT < used == len && EndsAt(fields[..], used)
    modifies fields
    ensures match old(SendBuffer(env, Views(fields[..used]))) {
      case EncodeFailed(s) => status == s != Ok
      case Encoded(_, out) => status == Ok && bytes == out
    }
    ensures SameDescs(old(fields[..]), fields[..])
  {
    hide FieldSize, EncodeFrom, SizeSum;
    ghost var fs, was := Views(fields[..used]), fields[..];
    var total, head, body, bodyCount := FieldsSize(fields, used, 0);
    SizeSumSplit(fs, 0, FIELD_BMARK, used);
    fields[FIELD_BSIZE] := fields[FIELD_BSIZE].(ivalue := body);
    bytes := [];
    if total < 0 {
      return Outside, [];
    }
    var buffer := new Byte[total](_ => 0);
    var out := new OutputStream(env.little, buffer);
    BodySizeSet(fs, was[..used], fields[..used], body);
    status := SerializeFresh(env, out, fields, len, used, WithBodySize(fs));
    if status == Ok {
      bytes := buffer[..];
      assert bytes == out.Written() + Zeros(total - |out.Written()|);
    }
  }

  lemma {:induction false} BodySizeSet(fs: seq<Field>, ds: seq<Desc>, es: seq<Desc>, body: int)
    requires |fs| == |ds| == |es| && |ds| > FIELD_NEXT && fs == Views(ds)
    requires body == SizeSum(fs, FIELD_BMARK, |fs|)
    requires es == ds[FIELD_BSIZE := ds[FIELD_BSIZE].(ivalue := body)]
    ensures Views(es) == WithBodySize(fs)
  {
    assert forall i :: 0 <= i < |fs| ==> Views(es)[i] == WithBodySize(fs)[i];
  }

  /** Serializing into a new zeroed buffer from its start. */
  method SerializeFresh(env: Env, out: OutputStream, fields: array<Desc>, len: int, ghost used: nat,
                        ghost fs: seq<Field>)
    returns (status: Status)
    requires out.Valid() && !out.aborted && out.little == env.little && out.pos == 0
    requires FIELD_COUNT < used && EndsAt(fields[..], used) && NoneIs(fields[..used], out.buf)
    requires fs == Views(fields[..used])
    modifies out, out.buf, fields
    ensures out.Valid() && out.RestKept() && SameDescs(old(fields[..]), fields[..])
    ensures match Encode(env, fs, len, out.buf.Length) {
      case EncodeFailed(s) => status == s != Ok
      case Encoded(_, bytes) => status == Ok && out.Written() == bytes
    }
  {
    assert out.Written() == [];
    status := SerializePacket(env, out, fields, len, used);
  }
}
