/** One server session as a state machine over its completed asynchronous operations
    (src/core/network/session_handler.cpp, api_network.cpp). */
module SessionSpec {
  import opened Bytes
  import opened Packet
  import opened PacketSizes
  import opened Messages

  /** Crashed stands for behaviour the original leaves undefined: an assertion in its streams, a
      buffer overrun, a vector resized to a negative length, a header used before one was read. */
  datatype Life = Open | Closed | Crashed

  /** The one outstanding asynchronous operation. Reading wants `want` bytes at offset `at`. */
  datatype Op = Idle | Reading(at: nat, want: nat) | Writing(bytes: seq<Byte>)

  /** recv is the whole memory behind m_recv_buffer, header the decoded packet header (empty until
      there is one, and when no operation is left that could use it), seen the client and process
      names logged so far. */
  datatype State = State(recv: seq<Byte>, header: seq<Field>, op: Op, life: Life,
                         seen: seq<(seq<Byte>, seq<Byte>)>)

  predicate Valid(s: State) {
    && (s.life != Open ==> s.op == Idle)
    && (s.op.Reading? ==> s.op.at + s.op.want <= |s.recv|)
    && (s.op != Idle ==> HEADER_BYTES <= |s.recv|)
    && (s.header != [] ==> |s.header| == FIELD_BMARK)
    && (s.op == Idle ==> s.header == [])
  }

  function Zeros(n: nat): (bs: seq<Byte>)
    ensures |bs| == n && forall i :: 0 <= i < n ==> bs[i] == 0
  {
    seq(n, _ => 0)
  }

  /** clear() and resize(n): n zero bytes in front; memory already allocated is not given back. */
  function Resized(buf: seq<Byte>, n: nat): (r: seq<Byte>)
    ensures |r| == if n < |buf| then |buf| else n
  {
    Zeros(n) + if n < |buf| then buf[n..] else []
  }

  function Overwrite(buf: seq<Byte>, at: nat, chunk: seq<Byte>): (r: seq<Byte>)
    requires at + |chunk| <= |buf|
    ensures |r| == |buf|
  {
    buf[..at] + chunk + buf[at + |chunk|..]
  }

  /** No operation is scheduled any more. */
  function Stall(s: State): State {
    s.(op := Idle, header := [])
  }

  function Close(s: State): State {
    Stall(s).(life := Closed)
  }

  function Fail(s: State, status: Status): State {
    if status == Aborted || status == Outside then Stall(s).(life := Crashed) else Stall(s)
  }

  function Start(s: State): State {
    s.(recv := Resized(s.recv, HEADER_BYTES), op := Reading(0, HEADER_BYTES))
  }

  /** A read that failed. */
  function ReadError(s: State): State {
    Close(s)
  }

  /** A read that completed with these bytes. */
  function ReadDone(env: Env, now: int, s: State, chunk: seq<Byte>): (r: State)
    requires Valid(s) && s.op.Reading? && |chunk| <= s.op.want
    ensures Valid(r)
  {
    var s1 := s.(recv := Overwrite(s.recv, s.op.at, chunk));
    if |chunk| == 0 then Close(s1)
    else if |chunk| < s.op.want then s1.(op := Reading(|chunk|, s.op.want - |chunk|))
    else Dispatch(env, now, s1)
  }

  /** A part is complete; the first four bytes, as the host reads an int, say which it is. */
  function Dispatch(env: Env, now: int, s: State): (r: State)
    requires Valid(s) && s.op != Idle
    ensures Valid(r)
  {
    var mark := MemValue(env.little, s.recv[..4]);
    if mark == HEAD_MARK then HandleHeader(env, now, s)
    else if mark == BODY_MARK then HandleBody(env, now, s)
    else Stall(s)
  }

  function HandleHeader(env: Env, now: int, s: State): (r: State)
    requires Valid(s) && s.op != Idle
    ensures Valid(r)
  {
    match DecodeHeader(env, CommonMessage(now)[..FIELD_BMARK], true, s.recv[..HEADER_BYTES])
    case DecodeFailed(status) => Fail(s, status)
    case Decoded(header, _) =>
      var size := Int32(header[FIELD_BSIZE].ivalue);
      if size < 0 then Fail(s, Outside)
      else s.(recv := Resized(s.recv, size), header := header, op := Reading(0, size))
  }

  function HandleBody(env: Env, now: int, s: State): (r: State)
    requires Valid(s) && s.op != Idle
    ensures Valid(r)
  {
    if s.header == [] then Fail(s, Outside)
    else
      var method_ := Int32(s.header[FIELD_METHOD].ivalue);
      if method_ == MSG_CONNECT then HandleConnect(env, now, s)
      else if method_ == MSG_DISCONNECT then HandleDisconnect(env, now, s)
      else Stall(s)
  }

  /** The body part decoded into a template that took over the packet header. */
  function ReadBody(env: Env, s: State, tmpl: seq<Field>): (d: Decoding)
    requires |s.header| == FIELD_BMARK && |tmpl| > FIELD_BMARK
    ensures d.Decoded? ==> |d.fields| == |tmpl|
  {
    var size := Int32(s.header[FIELD_BSIZE].ivalue);
    if size < 0 || size > |s.recv| then DecodeFailed(Outside)
    else DecodeBody(env, WithHeader(tmpl, s.header), |tmpl|, true, s.recv[..size])
  }

  function NameOf(f: Field): seq<Byte> {
    if f.data.Mem? then CString(f.data.bytes) else []
  }

  function HandleConnect(env: Env, now: int, s: State): (r: State)
    requires Valid(s) && s.op != Idle && s.header != []
    ensures Valid(r)
  {
    match ReadBody(env, s, ConnectMessage(Zeros(NAME_BYTES), Zeros(NAME_BYTES), now))
    case DecodeFailed(status) => Fail(s, status)
    case Decoded(fs, _) =>
      Send(env, s.(seen := s.seen + [(NameOf(fs[9]), NameOf(fs[11]))]), ConnectReply(0, 1, now))
  }

  function HandleDisconnect(env: Env, now: int, s: State): (r: State)
    requires Valid(s) && s.op != Idle && s.header != []
    ensures Valid(r)
  {
    match ReadBody(env, s, DisconnectMessage(now))
    case DecodeFailed(status) => Fail(s, status)
    case Decoded(_, _) => Close(s)
  }

  /** The bytes send_packet hands to the socket: the packet in a buffer of the predicted size. */
  function SendBuffer(env: Env, fields: seq<Field>): (e: Encoding)
    requires |fields| > FIELD_NEXT
  {
    var total := SizeSum(fields, 0, |fields|);
    if total < 0 then EncodeFailed(Outside)
    else
      match Encode(env, WithBodySize(fields), |fields|, total)
      case EncodeFailed(status) => EncodeFailed(status)
      case Encoded(fs, out) => Encoded(fs, if |out| <= total then out + Zeros(total - |out|) else out)
  }

  function Send(env: Env, s: State, fields: seq<Field>): (r: State)
    requires Valid(s) && s.op != Idle && |fields| > FIELD_NEXT
    ensures Valid(r)
  {
    match SendBuffer(env, fields)
    case EncodeFailed(status) => Fail(s, status)
    case Encoded(_, bytes) => s.(op := Writing(bytes))
  }

  /** A write that completed: read the next header into the memory there is, without resizing. */
  function WriteDone(s: State, ok: bool): (r: State)
    requires Valid(s) && s.op.Writing?
    ensures Valid(r)
  {
    if ok then s.(op := Reading(0, HEADER_BYTES)) else Close(s)
  }
}
