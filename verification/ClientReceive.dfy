/** send_packet and recv_packet of the client (src/api/rtdb_client_impl.cpp), between the caller's
    fields and the socket. */
module ClientReceive {
  import opened Bytes
  import opened Streams
  import opened Packet
  import opened PacketSizes
  import opened PacketCodec
  import opened SessionHandlers
  import opened SessionSpec
  import opened Reassembly
  import opened Client

  // ---------------------------------------------------------------- sending

  datatype Sent = AllSent | SendError | NotEncoded(status: Status)

  /** The packet is handed to the socket in a single write, and anything short of all of it is an
      error; a message that cannot be encoded leaves nothing on the stream. */
  method SendPacket(env: Env, socket: Socket, fields: array<Desc>, len: int, ghost used: nat) returns (ret: Sent)
    requires FIELD_NEXT < used == len && EndsAt(fields[..], used)
    modifies socket`outgoing, fields
    ensures match old(SendBuffer(env, Views(fields[..used]))) {
      case EncodeFailed(s) => ret == NotEncoded(s) && socket.outgoing == old(socket.outgoing)
      case Encoded(_, bytes) =>
        && !ret.NotEncoded? && old(socket.outgoing) <= socket.outgoing <= old(socket.outgoing) + bytes
        && (ret == AllSent ==> socket.outgoing == old(socket.outgoing) + bytes)
        && (socket.outgoing != old(socket.outgoing) + bytes ==> ret == SendError)
    }
  {
    hide SendBuffer;
    var status, bytes := EncodeMessage(env, fields, used, len);
    if status != Ok {
      return NotEncoded(status);
    }
    var written, failed := socket.WriteSome(bytes);
    ret := if written < |bytes| || failed then SendError else AllSent;
  }

  // ---------------------------------------------------------------- receiving

  /** What recv_packet returns; Ended stands for the exception of a read on a finished stream. */
  datatype Return = Ended | Good | Code(code: int) | Unasked | Failed(status: Status)

  function ReturnOf(o: Outcome): Return {
    match o
    case Accepted(_) => Good
    case Returned(code) => Code(code)
    case Unexpected => Unasked
    case Rejected(status) => Failed(status)
  }

  /** The header loop and the header's decoding into a common message. */
  method RecvHeader(env: Env, socket: Socket, now: int)
    returns (ended: bool, status: Status, robj: array<Desc>, mark: nat,
             ghost head: seq<Byte>, ghost chunks: seq<seq<Byte>>)
    modifies socket`incoming
    ensures ended == (HEADER_BYTES > |old(socket.incoming)|)
    ensures fresh(robj) && robj.Length == 10 && (forall i :: 0 <= i < 9 ==> robj[i].data == null)
    ensures NoneEmpty(chunks) && old(socket.incoming) == Concat(chunks) + socket.incoming
    ensures ended ==> socket.incoming == []
    ensures !ended ==>
      && |Concat(chunks)| == HEADER_BYTES
      && head == DeliverFront(Zeros(HEADER_BYTES), chunks) && mark == MemValue(env.little, head[..4])
      && match DecodeHeader(env, CommonMessage(now), true, head) {
           case DecodeFailed(s) => status == s != Ok
           case Decoded(h, _) =>
             status == Ok && Views(robj[..9]) == h && forall i :: 0 <= i < FIELD_BMARK ==> robj[i].ty > 0
         }
  {
    hide DeliverFront, DecodeHeaderFrom, MemValue;
    robj := ScalarFields(CommonMessage(now));
    var buf := new Byte[HEADER_BYTES](_ => 0);
    assert buf[..] == Zeros(HEADER_BYTES);
    mark, status, head := 0, Ok, [];
    ended, chunks := RecvPart(socket, buf, HEADER_BYTES);
    if ended {
      return;
    }
    head := buf[..];
    mark := MemValue(env.little, buf[..4]);
    assert buf[..4] == head[..4];
    ghost var was := robj[..];
    assert forall i :: 0 <= i < 9 ==> was[..9][i] == was[i];
    assert forall i :: 0 <= i < FIELD_BMARK ==> was[i].ty == CommonMessage(now)[i].ty > 0;
    var input := new InputStream(env.little, buf, HEADER_BYTES);
    assert buf[..input.end] == head;
    status := UnserializeHeaderPacket(env, input, robj, true, 9);
    assert forall i :: 0 <= i < 9 ==> robj[..][i].ty == was[i].ty && robj[..][i].data == was[i].data;
  }

  /** The body loop, into a vector of the announced size; `behind` is the memory that follows it. */
  method RecvBody(socket: Socket, size: nat, behind: seq<Byte>)
    returns (ended: bool, buf: array<Byte>, ghost chunks: seq<seq<Byte>>)
    modifies socket`incoming
    ensures ended == (size > |old(socket.incoming)|) && fresh(buf)
    ensures NoneEmpty(chunks) && old(socket.incoming) == Concat(chunks) + socket.incoming
    ensures ended ==> socket.incoming == []
    ensures !ended ==>
      && |Concat(chunks)| == size
      && buf[..] == DeliverFront(Zeros(size), chunks) + behind
  {
    ghost var memory := Zeros(size) + behind;
    buf := new Byte[size + |behind|](i requires 0 <= i < size + |behind| => if i < size then 0 else behind[i - size]);
    assert buf[..] == memory;
    ended, chunks := RecvPart(socket, buf, size);
    if !ended {
      FrontOfMemory(Zeros(size), behind, chunks);
    }
  }

  lemma {:induction false} FrontOfMemory(front: seq<Byte>, behind: seq<Byte>, chunks: seq<seq<Byte>>)
    requires |Concat(chunks)| <= |front|
    ensures DeliverFront(front + behind, chunks) == DeliverFront(front, chunks) + behind
    decreases |chunks|
  {
    if chunks != [] {
      var next := Overwrite(front, 0, chunks[0]);
      assert Overwrite(front + behind, 0, chunks[0]) == next + behind;
      FrontOfMemory(next, behind, chunks[1..]);
    }
  }

  /** copy_fields(fields, robj, true). */
  method TakeOverHeader(fields: array<Desc>, robj: array<Desc>, ghost used: nat)
    requires fields != robj && FIELD_BMARK < used <= fields.Length && robj.Length == 10
    requires forall i :: 0 <= i < FIELD_BMARK ==> robj[i].ty > 0 && robj[i].data == null
    modifies fields
    ensures Views(fields[..used]) == WithHeader(old(Views(fields[..used])), Views(robj[..9]))
    ensures forall i :: FIELD_BMARK <= i < fields.Length ==> fields[i] == old(fields[i])
    ensures forall i :: 0 <= i < FIELD_BMARK ==> fields[i].data == null && fields[i].ty > 0
  {
    ghost var was := fields[..];
    var n := CopyFields(fields, robj, true, FIELD_BMARK);
    assert forall i :: 0 <= i < fields.Length ==> fields[..][i] == if i < FIELD_BMARK then robj[..][i] else was[i];
    assert forall i :: 0 <= i < FIELD_BMARK ==> fields[i] == robj[i] == robj[..9][i];
    assert forall i :: FIELD_BMARK <= i < used ==> was[..used][i] == fields[..used][i];
  }

  /** What a client may receive into: arrays of its own, all different. */
  ghost predicate Receives(ds: seq<Desc>, used: nat, held: set<array<Byte>>) {
    && FIELD_BMARK < used && EndsAt(ds, used) && Holds(ds[FIELD_BMARK..used], held)
    && forall i, j :: FIELD_BMARK <= i < j < used && ds[i].data != null ==> ds[i].data != ds[j].data
  }

  /** The body, read through a window of the header's size. */
  method ParseBody(env: Env, fields: array<Desc>, len: int, buf: array<Byte>, size: nat,
                   ghost used: nat, ghost held: set<array<Byte>>, ghost body: seq<Byte>, ghost behind: seq<Byte>)
    returns (status: Status)
    requires Receives(fields[..], used, held) && used == len && buf !in held
    requires forall i :: 0 <= i < FIELD_BMARK ==> fields[i].data == null
    requires forall i :: 0 <= i < used ==> fields[i].data != buf
    requires buf[..] == body + behind && |body| == size && |body + behind| >= HEADER_BYTES
    modifies fields, held
    ensures match old(BodyOutcome(env, Views(fields[..used]), body, behind)) {
      case Rejected(s) => status == s != Ok
      case Accepted(fs) => status == Ok && Views(fields[..used]) == fs
      case _ => false
    }
  {
    if size < 4 {
      return Outside;
    }
    assert buf[..4] == body[..4];
    var mark := MemValue(env.little, buf[..4]);
    if mark != BODY_MARK {
      return DecodeError;
    }
    ghost var ds := fields[..used];
    assert Separate(ds, buf) && Holds(ds, held) by {
      assert forall i :: FIELD_BMARK <= i < used ==>
        fields[..][FIELD_BMARK..used][i - FIELD_BMARK] == ds[i] == fields[i];
    }
    ghost var wire := (body + behind)[..HEADER_BYTES];
    status := DecodeFromBuffer(env, buf, HEADER_BYTES, fields, len, used, held, wire);
  }

  /** recv_packet once the header is accepted: copied over the caller's if it answers the method
      asked, before the body is received, which is then parsed or not. */
  method RecvAnswer(env: Env, socket: Socket, fields: array<Desc>, len: int, robj: array<Desc>, size: nat,
                    behind: seq<Byte>, ghost used: nat, ghost held: set<array<Byte>>)
    returns (ret: Return, ghost bodies: seq<seq<Byte>>)
    requires Receives(fields[..], used, held) && used == len && |behind| >= HEADER_BYTES
    requires fields != robj && robj.Length == 10
    requires forall i :: 0 <= i < FIELD_BMARK ==> robj[i].ty > 0 && robj[i].data == null
    modifies socket`incoming, fields, held
    ensures ret.Ended? <==> |old(socket.incoming)| < size
    ensures NoneEmpty(bodies) && old(socket.incoming) == Concat(bodies) + socket.incoming
    ensures ret.Ended? ==> socket.incoming == []
    ensures !ret.Ended? ==>
      && |Concat(bodies)| == size
      && var o := old(AnswerTo(env, Views(fields[..used]), Views(robj[..9]),
                               DeliverFront(Zeros(size), bodies), behind));
         ret == ReturnOf(o) && (o.Accepted? ==> Views(fields[..used]) == o.fields)
  {
    hide DeliverFront, BodyOutcome;
    ghost var was, h := Views(fields[..used]), Views(robj[..9]);
    assert h[FIELD_METHOD].ivalue == robj[FIELD_METHOD].ivalue && h[FIELD_RETURN].ivalue == robj[FIELD_RETURN].ivalue;
    assert was[FIELD_METHOD].ivalue == fields[FIELD_METHOD].ivalue;
    var sent, expected := Int32(robj[FIELD_METHOD].ivalue), Int32(fields[FIELD_METHOD].ivalue);
    var code := Int32(robj[FIELD_RETURN].ivalue);
    if sent == expected {
      TakeOverHeader(fields, robj, used);
    }
    var ended, buf;
    ended, buf, bodies := RecvBody(socket, size, behind);
    if ended {
      return Ended, bodies;
    }
    if sent == expected {
      var status := ParseBody(env, fields, len, buf, size, used, held, DeliverFront(Zeros(size), bodies), behind);
      ret := if status == Ok then Good else Failed(status);
    } else if sent == MSG_COMMON {
      ret := Code(code);
    } else {
      ret := Unasked;
    }
  }

  /** The whole of recv_packet. Once the header is accepted exactly header and body leave the stream,
      whichever way the method is answered; before that, exactly the header. The call ends without
      an answer if and only if the stream holds less than that, all of which it has then used up. */
  method RecvPacket(env: Env, socket: Socket, fields: array<Desc>, len: int, now: int, behind: seq<Byte>,
                    ghost used: nat, ghost held: set<array<Byte>>)
    returns (ret: Return, ghost heads: seq<seq<Byte>>, ghost bodies: seq<seq<Byte>>)
    requires Receives(fields[..], used, held) && used == len && |behind| >= HEADER_BYTES
    modifies socket`incoming, fields, held
    ensures NoneEmpty(heads) && NoneEmpty(bodies)
    ensures old(socket.incoming) == Concat(heads) + (Concat(bodies) + socket.incoming)
    ensures ret.Ended? ==> socket.incoming == []
    ensures |old(socket.incoming)| < HEADER_BYTES ==> ret.Ended?
    ensures |old(socket.incoming)| >= HEADER_BYTES ==> |Concat(heads)| == HEADER_BYTES
    ensures |old(socket.incoming)| >= HEADER_BYTES ==>
      var head := DeliverFront(Zeros(HEADER_BYTES), heads);
      match HeadDecoded(env, now, head) {
        case DecodeFailed(s) => ret == Failed(s) && bodies == []
        case Decoded(h, _) =>
          var size := Int32(h[FIELD_BSIZE].ivalue);
          if size < 0 then ret == Failed(Outside) && bodies == []
          else if |old(socket.incoming)| < HEADER_BYTES + size then ret.Ended?
          else
            && |Concat(bodies)| == size
            && var o := Receive(env, now, old(Views(fields[..used])), head, DeliverFront(Zeros(size), bodies), behind);
               ret == ReturnOf(o) && (o.Accepted? ==> Views(fields[..used]) == o.fields)
      }
  {
    hide DeliverFront, DecodeHeader, AnswerTo, CommonMessage, MemValue;
    bodies := [];
    var ended, status, robj, mark;
    ghost var head;
    ended, status, robj, mark, head, heads := RecvHeader(env, socket, now);
    if ended {
      return Ended, heads, bodies;
    }
    if mark != HEAD_MARK {
      return Failed(DecodeError), heads, bodies;
    }
    if status != Ok {
      return Failed(status), heads, bodies;
    }
    assert Views(robj[..9])[FIELD_BSIZE].ivalue == robj[FIELD_BSIZE].ivalue;
    var size := Int32(robj[FIELD_BSIZE].ivalue);
    if size < 0 {
      return Failed(Outside), heads, bodies;
    }
    ret, bodies := RecvAnswer(env, socket, fields, len, robj, size, behind, used, held);
  }
}
