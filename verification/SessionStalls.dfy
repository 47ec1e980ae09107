/** When a complete part leaves a session waiting for nothing, neither answered nor closed. */
module SessionStalls {
  import opened Bytes
  import opened Streams
  import opened Packet
  import opened PacketReencode
  import opened PacketRoundTrip
  import opened PacketSizes
  import opened Messages
  import opened SessionSpec
  import opened ConnectExchange

  /** Open, with no operation left that could complete. */
  predicate Stalled(s: State) {
    s.life == Open && s.op == Idle
  }

  /** The eight bytes of a checksum entry are there, and their low half is not the sum of what was
      read before. */
  predicate SumWrong(env: Env, wire: seq<Byte>, at: nat) {
    at + 8 <= |wire| && BeValue(wire[at + 4..at + 8]) != SumOf(env, wire[..at])
  }

  /** Where a name and its length end, or -1 if they run past the input or the name's array. */
  function NameEnd(wire: seq<Byte>, at: nat): int {
    if at + 2 > |wire| then -1
    else
      var n := ToSigned(BeValue(wire[at..at + 2]), 2);
      if n <= 0 then at + 2
      else if n > NAME_BYTES || at + 2 + n > |wire| then -1
      else at + 2 + n
  }

  /** Where the entries of a body end, before the checksum. */
  function BodyEnd(method_: int, wire: seq<Byte>): (end: int)
    ensures end <= |wire|
  {
    if |wire| < 4 then -1
    else if method_ == MSG_CONNECT then
      if NameEnd(wire, 4) < 0 then -1 else NameEnd(wire, NameEnd(wire, 4))
    else 4
  }

  lemma {:induction false} SumRead(wire: seq<Byte>, at: nat)
    requires at + 8 <= |wire|
    ensures Low32(ToSigned(BeValue(wire[at..at + 8]), 8)) == BeValue(wire[at + 4..at + 8])
  {
    Pow256Values();
    var bs := wire[at..at + 8];
    var u := BeValue(bs);
    UnsignedRoundTrip(u, 8);
    Low32Of64(ToSigned(u, 8));
    BeBytesOfValue(bs);
    LowHalfValue(u);
    assert bs[4..] == wire[at + 4..at + 8];
  }

  // The header.

  /** Behind the mark a header of 32 bytes is accepted exactly if its checksum is right. */
  lemma {:induction false} HeaderOutcome(env: Env, fs: seq<Field>, n: nat, compare: bool, wire: seq<Byte>)
    requires HeaderTemplate(fs) && 1 <= n <= FIELD_HCRC && |wire| == HEADER_BYTES
    ensures var d := DecodeHeaderFrom(env, fs, n, compare, wire, 4 * n);
      if compare && SumWrong(env, wire, 24) then d == DecodeFailed(CrcError)
      else d.Decoded? && |d.fields| == |fs| && forall i | 0 <= i < 6 ::
             d.fields[i].ivalue == if i < n then fs[i].ivalue else HeaderValue(wire, i)
    decreases FIELD_HCRC - n
  {
    if n == FIELD_HCRC {
      SumRead(wire, 24);
      assert wire[24..][..8] == wire[24..32];
    } else {
      var turn := HeaderTurn(env, fs, n, compare, wire, 4 * n);
      assert wire[4 * n..][..4] == wire[4 * n..4 * n + 4];
      assert turn == Decoded(fs[n := fs[n].(ivalue := HeaderValue(wire, n))], 4 * (n + 1));
      HeaderOutcome(env, turn.fields, n + 1, compare, wire);
    }
  }

  /** The six numbers of a header in front of its checksum: mark, method, body size, return value, time
      and count, four bytes each, most significant first. */
  function HeaderValue(wire: seq<Byte>, i: nat): int
    requires |wire| == 32 && i < 6
  {
    ToSigned(BeValue(wire[4 * i..4 * i + 4]), 4)
  }

  lemma {:induction false} MarkMatches(little: bool, p: seq<Byte>)
    requires |p| == 4
    ensures MemValue(little, p) == HEAD_MARK <==> BeValue(p) == HEAD_MARK
  {
    MarkReads(little, HEAD_MARK);
    Pow256Values();
    BeBytesOfValue(p);
    BeBytesOfValue(Flip(little, p));
    FlipTwice(little, p);
  }

  /** Any 32 bytes as a header: refused for a wrong mark, then for a wrong checksum if that is compared,
      else accepted with the numbers they hold. */
  lemma {:induction false} HeaderAccepted(env: Env, fs: seq<Field>, compare: bool, wire: seq<Byte>)
    requires HeaderTemplate(fs) && |wire| == HEADER_BYTES
    ensures var d := DecodeHeader(env, fs, compare, wire);
      if BeValue(wire[..4]) != 0x1111_1111 then d == DecodeFailed(DecodeError)
      else if compare && SumWrong(env, wire, 24) then d == DecodeFailed(CrcError)
      else d.Decoded? && |d.fields| == |fs| && forall i | 0 <= i < 6 :: d.fields[i].ivalue == HeaderValue(wire, i)
  {
    Pow256Values();
    UnsignedRoundTrip(BeValue(wire[..4]), 4);
    assert wire[0..][..4] == wire[..4];
    var turn := HeaderTurn(env, fs, 0, compare, wire, 0);
    if BeValue(wire[..4]) == HEAD_MARK {
      assert turn == Decoded(fs[0 := fs[0].(ivalue := HeaderValue(wire, 0))], 4);
      HeaderOutcome(env, turn.fields, 1, compare, wire);
    }
  }

  // The body.

  /** Statuses that end in undefined behaviour rather than in a stall. */
  predicate Crashes(status: Status) {
    status == Aborted || status == Outside
  }

  /** The checksum entry at the end. */
  lemma {:induction false} LastEntry(env: Env, fs: seq<Field>, compare: bool, wire: seq<Byte>, pos: nat)
    requires |fs| > FIELD_NEXT && fs[|fs| - 1].data.Null? && fs[|fs| - 1].ty == TYPE_LONGLONG && pos <= |wire|
    ensures var d := DecodeBodyFrom(env, fs, |fs| - 1, |fs|, compare, wire, pos);
      && (d.DecodeFailed? && !Crashes(d.status) <==> compare && SumWrong(env, wire, pos))
      && (compare && SumWrong(env, wire, pos) ==> d == DecodeFailed(CrcError))
  {
    if pos + 8 <= |wire| {
      SumRead(wire, pos);
      assert wire[pos..][..8] == wire[pos..pos + 8];
    }
  }

  /** A short entry and the character array whose length it is. */
  predicate NameEntries(fs: seq<Field>, n: nat) {
    && FIELD_BMARK < n && n + 2 < |fs| && fs[n].data.Null? && fs[n].ty == TYPE_SHORT
    && fs[n + 1].ty == TYPE_CHAR && fs[n + 1].count == -1
    && fs[n + 1].data.Mem? && |fs[n + 1].data.bytes| == NAME_BYTES
  }

  lemma {:induction false} NameTurns(env: Env, fs: seq<Field>, n: nat, wire: seq<Byte>, pos: nat)
    returns (gs: seq<Field>)
    requires NameEntries(fs, n) && pos <= |wire|
    ensures var d := DecodeBodyFrom(env, fs, n, |fs|, true, wire, pos);
      if NameEnd(wire, pos) < 0 then d.DecodeFailed? && Crashes(d.status) else
        && pos <= NameEnd(wire, pos) <= |wire| && |gs| == |fs|
        && d == DecodeBodyFrom(env, gs, n + 2, |fs|, true, wire, NameEnd(wire, pos))
    ensures |gs| == |fs| && forall j :: 0 <= j < |fs| && j != n && j != n + 1 ==> gs[j] == fs[j]
  {
    hide ArrayWire, BeValue;
    Pow256Values();
    gs := fs;
    if pos + 2 <= |wire| {
      assert wire[pos..][..2] == wire[pos..pos + 2];
      var length := ToSigned(BeValue(wire[pos..pos + 2]), 2);
      UnsignedRoundTrip(BeValue(wire[pos..pos + 2]), 2);
      assert Int32(length) == length;
      var turn := BodyTurn(env, fs, n, |fs|, true, wire, pos);
      assert turn == Decoded(fs[n := fs[n].(ivalue := length)], pos + 2);
      var next := BodyTurn(env, turn.fields, n + 1, |fs|, true, wire, pos + 2);
      if length > 0 {
        SpanIsProduct(1, length);
      }
      if NameEnd(wire, pos) >= 0 {
        gs := next.fields;
      }
    }
  }

  lemma {:induction false} BodyMarkTurn(env: Env, fs: seq<Field>, wire: seq<Byte>) returns (gs: seq<Field>)
    requires |fs| > FIELD_NEXT && fs[FIELD_BMARK].data.Null? && fs[FIELD_BMARK].ty == TYPE_LONG
    ensures |gs| == |fs| && forall j :: 0 <= j < |fs| && j != FIELD_BMARK ==> gs[j] == fs[j]
    ensures DecodeBody(env, fs, |fs|, true, wire)
         == if |wire| < 4 then DecodeFailed(Aborted) else DecodeBodyFrom(env, gs, FIELD_NEXT, |fs|, true, wire, 4)
  {
    gs := fs;
    if |wire| >= 4 {
      assert wire[0..][..4] == wire[..4];
      gs := BodyTurn(env, fs, FIELD_BMARK, |fs|, true, wire, 0).fields;
    }
  }

  /** A decoding that fails without crashing. */
  predicate Refused(d: Decoding) {
    d.DecodeFailed? && !Crashes(d.status)
  }

  lemma {:induction false} DisconnectRefused(env: Env, header: seq<Field>, now: int, wire: seq<Byte>)
    requires |header| == FIELD_BMARK
    ensures var (t, end) := (WithHeader(DisconnectMessage(now), header), BodyEnd(MSG_DISCONNECT, wire));
      Refused(DecodeBody(env, t, |t|, true, wire)) <==> end >= 0 && SumWrong(env, wire, end)
  {
    var t := WithHeader(DisconnectMessage(now), header);
    var gs := BodyMarkTurn(env, t, wire);
    if |wire| >= 4 {
      LastEntry(env, gs, true, wire, 4);
    }
  }

  lemma {:induction false} ConnectRefused(env: Env, header: seq<Field>, now: int, wire: seq<Byte>)
    requires |header| == FIELD_BMARK
    ensures var t := WithHeader(ConnectMessage(Zeros(NAME_BYTES), Zeros(NAME_BYTES), now), header);
      var end := BodyEnd(MSG_CONNECT, wire);
      Refused(DecodeBody(env, t, |t|, true, wire)) <==> end >= 0 && SumWrong(env, wire, end)
  {
    hide DecodeBody, DecodeBodyFrom, NameEnd, SumWrong, CString, BodyTurn;
    var t := WithHeader(ConnectMessage(Zeros(NAME_BYTES), Zeros(NAME_BYTES), now), header);
    var gs := BodyMarkTurn(env, t, wire);
    if |wire| >= 4 {
      var one := NameTurns(env, gs, 8, wire, 4);
      if NameEnd(wire, 4) >= 0 {
        var two := NameTurns(env, one, 10, wire, NameEnd(wire, 4));
        if NameEnd(wire, NameEnd(wire, 4)) >= 0 {
          LastEntry(env, two, true, wire, NameEnd(wire, NameEnd(wire, 4)));
        }
      }
    }
  }

  // The reply can always be encoded.

  predicate Scalars(fs: seq<Field>) {
    |fs| > FIELD_NEXT &&
    forall i :: 0 <= i < |fs| ==> fs[i].data.Null? && ScalarSize(fs[i].ty) > 0
  }

  lemma {:induction false} ScalarTurn(env: Env, fs: seq<Field>, n: nat, len: int, out: seq<Byte>, base: int, room: nat)
    requires Scalars(fs) && n < |fs| && base <= |out| && |out| + ScalarSize(fs[n].ty) <= room
    ensures var e := EncodeTurn(env, fs, n, len, out, base, room);
      && e.Encoded? && Scalars(e.fields) && |e.fields| == |fs| && |e.out| == |out| + ScalarSize(fs[n].ty)
      && forall i :: 0 <= i < |fs| ==> e.fields[i].ty == fs[i].ty
  {
  }

  lemma {:induction false} ScalarSizesAdd(fs: seq<Field>, a: nat, b: nat)
    requires Scalars(fs) && a <= b <= |fs|
    ensures SizeSum(fs, a, b) >= 0
    decreases b
  {
    if a < b {
      ScalarSizesAdd(fs, a, b - 1);
    }
  }

  lemma {:induction false} ScalarsEncode(env: Env, fs: seq<Field>, n: nat, len: int, out: seq<Byte>, base: int,
                                         room: nat)
    requires Scalars(fs) && n <= |fs| && base <= |out|
    requires |out| + SizeSum(fs, n, |fs|) <= room
    ensures EncodeFrom(env, fs, n, len, out, base, room).Encoded?
    decreases |fs| - n
  {
    hide EncodeTurn;
    if n < |fs| {
      SizeSumSplit(fs, n, n + 1, |fs|);
      assert SizeSum(fs, n, n + 1) == SizeSum(fs, n, n) + FieldSize(fs, n);
      ScalarSizesAdd(fs, n + 1, |fs|);
      ScalarTurn(env, fs, n, len, out, base, room);
      var turn := EncodeTurn(env, fs, n, len, out, base, room);
      assert forall i :: 0 <= i < |fs| ==> FieldSize(turn.fields, i) == FieldSize(fs, i);
      SizeSumSame(fs, turn.fields, n + 1, |fs|);
      ScalarsEncode(env, turn.fields, n + 1, len, turn.out, NextBase(n, base, turn.out), room);
    }
  }

  lemma {:induction false} ReplyAlwaysSends(env: Env, now: int)
    ensures SendBuffer(env, ConnectReply(0, 1, now)).Encoded?
  {
    hide EncodeFrom, SizeSum;
    var fs := ConnectReply(0, 1, now);
    var gs := WithBodySize(fs);
    assert Scalars(fs) && Scalars(gs);
    ScalarSizesAdd(fs, 0, |fs|);
    assert forall i :: 0 <= i < |fs| ==> FieldSize(gs, i) == FieldSize(fs, i);
    SizeSumSame(fs, gs, 0, |fs|);
    ScalarsEncode(env, gs, 0, |gs|, [], -1, SizeSum(fs, 0, |fs|));
  }

  // A complete part.

  /** The guards on the bytes received, in the order the session tests them. */
  predicate Unanswered(env: Env, s: State)
    requires Valid(s) && s.op != Idle
  {
    var mark := MemValue(env.little, s.recv[..4]);
    if mark == HEAD_MARK then SumWrong(env, s.recv[..HEADER_BYTES], 24)
    else if mark == BODY_MARK then
      s.header != [] &&
      (var (method_, size) := (Int32(s.header[FIELD_METHOD].ivalue), Int32(s.header[FIELD_BSIZE].ivalue));
       (method_ != MSG_CONNECT && method_ != MSG_DISCONNECT)
       || (0 <= size <= |s.recv| && BodyEnd(method_, s.recv[..size]) >= 0
           && SumWrong(env, s.recv[..size], BodyEnd(method_, s.recv[..size]))))
    else true
  }

  /** A complete part stalls the session if and only if it has neither mark, or is a header with a
      wrong checksum, or a body of an unknown method, or one of a known method whose entries and
      checksum lie inside the announced size and whose checksum is wrong. */
  lemma {:induction false} StallsIff(env: Env, now: int, s: State)
    requires Valid(s) && s.life == Open && s.op != Idle
    ensures Stalled(Dispatch(env, now, s)) <==> Unanswered(env, s)
  {
    hide DecodeHeader, DecodeBody, SumWrong, BodyEnd, MemValue, SendBuffer, ConnectMessage, DisconnectMessage;
    var mark := MemValue(env.little, s.recv[..4]);
    if mark == HEAD_MARK {
      MarkMatches(env.little, s.recv[..4]);
      assert s.recv[..HEADER_BYTES][..4] == s.recv[..4];
      CommonPrefix(now);
      HeaderAccepted(env, CommonMessage(now)[..FIELD_BMARK], true, s.recv[..HEADER_BYTES]);
    } else if mark == BODY_MARK && s.header != [] {
      var size := Int32(s.header[FIELD_BSIZE].ivalue);
      if 0 <= size <= |s.recv| {
        ConnectRefused(env, s.header, now, s.recv[..size]);
        DisconnectRefused(env, s.header, now, s.recv[..size]);
      }
      ReplyAlwaysSends(env, now);
    }
  }

  lemma {:induction false} CommonPrefix(now: int)
    ensures HeaderTemplate(CommonMessage(now)[..FIELD_BMARK])
  {
  }

  /** The read that completes a part decides, by the same guards. */
  lemma {:induction false} CompletingReadStallsIff(env: Env, now: int, s: State, chunk: seq<Byte>)
    requires Valid(s) && s.life == Open && s.op.Reading? && 0 < |chunk| == s.op.want
    ensures var full := s.(recv := Overwrite(s.recv, s.op.at, chunk));
      Valid(full) && (Stalled(ReadDone(env, now, s, chunk)) <==> Unanswered(env, full))
  {
    StallsIff(env, now, s.(recv := Overwrite(s.recv, s.op.at, chunk)));
  }

  /** No other completion stalls a session: a short read waits for more, an empty or failed one
      closes, a finished write reads on. */
  lemma {:induction false} OthersNeverStall(env: Env, now: int, s: State, chunk: seq<Byte>, ok: bool)
    requires Valid(s)
    ensures s.op.Reading? && |chunk| <= s.op.want && (|chunk| == 0 || |chunk| < s.op.want)
            ==> !Stalled(ReadDone(env, now, s, chunk))
    ensures !Stalled(ReadError(s)) && !Stalled(SessionSpec.Start(s)) && (s.op.Writing? ==> !Stalled(WriteDone(s, ok)))
  {
  }

  /** A header part with the right mark and checksum makes the session wait for as many bytes as the
      header says, in front of its buffer and over zeros, or crash if it says less than none. */
  lemma {:induction false} HeaderTaken(env: Env, now: int, s: State)
    requires Valid(s) && s.op != Idle && !SumWrong(env, s.recv[..32], 24)
    requires MemValue(env.little, s.recv[..4]) == 0x1111_1111
    ensures var (r, size) := (Dispatch(env, now, s), HeaderValue(s.recv[..32], 2));
      if size < 0 then r.life == Crashed && r.op == Idle
      else
        && r.life == s.life && r.seen == s.seen && r.op == Reading(0, size)
        && |r.recv| == (if size < |s.recv| then |s.recv| else size)
        && (forall i | 0 <= i < |r.recv| :: r.recv[i] == if i < size then 0 else s.recv[i])
        && r.header != [] && forall i | 0 <= i < 6 :: r.header[i].ivalue == HeaderValue(s.recv[..32], i)
  {
    hide DecodeHeader, HandleBody, SumWrong;
    var wire := s.recv[..32];
    MarkMatches(env.little, s.recv[..4]);
    assert wire[..4] == s.recv[..4];
    CommonPrefix(now);
    HeaderAccepted(env, CommonMessage(now)[..FIELD_BMARK], true, wire);
    HeaderValueFits(wire, 2);
  }

  lemma {:induction false} HeaderValueFits(wire: seq<Byte>, i: nat)
    requires |wire| == 32 && i < 6
    ensures Int32(HeaderValue(wire, i)) == HeaderValue(wire, i)
  {
    Pow256Values();
    UnsignedRoundTrip(BeValue(wire[4 * i..4 * i + 4]), 4);
  }

  // The end of a session.

  /** A complete part is the body of a DISCONNECT, of 12 bytes or more, whose checksum is right. */
  predicate Farewell(env: Env, s: State)
    requires Valid(s) && s.op != Idle
  {
    && MemValue(env.little, s.recv[..4]) == BODY_MARK && s.header != []
    && Int32(s.header[FIELD_METHOD].ivalue) == MSG_DISCONNECT
    && 12 <= Int32(s.header[FIELD_BSIZE].ivalue) <= |s.recv|
    && BeValue(s.recv[8..12]) == SumOf(env, s.recv[..4])
  }

  lemma {:induction false} DisconnectAccepted(env: Env, header: seq<Field>, now: int, wire: seq<Byte>)
    requires |header| == FIELD_BMARK
    ensures var t := WithHeader(DisconnectMessage(now), header);
      DecodeBody(env, t, |t|, true, wire).Decoded? <==> |wire| >= 12 && BeValue(wire[8..12]) == SumOf(env, wire[..4])
  {
    hide BeValue, SumOf;
    var t := WithHeader(DisconnectMessage(now), header);
    var gs := BodyMarkTurn(env, t, wire);
    if |wire| >= 12 {
      SumRead(wire, 4);
      assert wire[4..][..8] == wire[4..12];
    }
  }

  /** A complete part closes the session if and only if it is such a body. */
  lemma {:induction false} ClosesIffFarewell(env: Env, now: int, s: State)
    requires Valid(s) && s.life == Open && s.op != Idle
    ensures Dispatch(env, now, s).life == Closed <==> Farewell(env, s)
  {
    hide DecodeHeader, DecodeBody, MemValue, SendBuffer, ConnectMessage, DisconnectMessage, BeValue;
    if s.header != [] {
      var size := Int32(s.header[FIELD_BSIZE].ivalue);
      if 0 <= size <= |s.recv| {
        DisconnectAccepted(env, s.header, now, s.recv[..size]);
        if size >= 12 {
          assert s.recv[..size][8..12] == s.recv[8..12] && s.recv[..size][..4] == s.recv[..4];
        }
      }
    }
  }
}
