/** The client's side (src/api/rtdb_client_impl.cpp): its receive loop, and when it accepts the
    server's answer. */
module Client {
  import opened Bytes
  import opened Packet
  import opened PacketProofs
  import opened PacketRoundTrip
  import opened PacketSizes
  import opened Messages
  import opened SessionSpec
  import opened Reassembly
  import opened ConnectExchange
  import opened SessionStalls

  // ---------------------------------------------------------------- the receive loop

  /** The client's writes: every chunk goes to the front of the buffer. */
  function DeliverFront(buf: seq<Byte>, chunks: seq<seq<Byte>>): (r: seq<Byte>)
    requires |Concat(chunks)| <= |buf|
    ensures |r| == |buf|
    decreases |chunks|
  {
    if chunks == [] then buf else DeliverFront(Overwrite(buf, 0, chunks[0]), chunks[1..])
  }

  /** A connected socket: what the peer has sent and will send, and what was sent to it. A read takes
      some, at least a byte unless none was asked for; it fails when the stream is over. A write
      takes some, or fails. */
  class Socket {
    var incoming: seq<Byte>
    var outgoing: seq<Byte>

    method WriteSome(bs: seq<Byte>) returns (written: nat, failed: bool)
      modifies this`outgoing
      ensures written <= |bs| && outgoing == old(outgoing) + bs[..written]
    {
      written :| written <= |bs|;
      failed :| failed || !failed;
      outgoing := outgoing + bs[..written];
    }

    method ReadSome(n: nat) returns (chunk: seq<Byte>, failed: bool)
      modifies this`incoming
      ensures failed == (n > 0 && old(incoming) == [])
      ensures failed ==> chunk == [] && incoming == old(incoming)
      ensures !failed ==> old(incoming) == chunk + incoming && |chunk| <= n && (n > 0 ==> |chunk| > 0)
    {
      if n == 0 || incoming == [] {
        return [], n > 0;
      }
      var k :| 1 <= k <= n && k <= |incoming|;
      chunk, incoming, failed := incoming[..k], incoming[k..], false;
    }
  }

  lemma {:induction false} DeliverFrontSnoc(buf: seq<Byte>, chunks: seq<seq<Byte>>, last: seq<Byte>)
    requires |Concat(chunks)| + |last| <= |buf|
    ensures |Concat(chunks + [last])| == |Concat(chunks)| + |last|
    ensures DeliverFront(buf, chunks + [last]) == Overwrite(DeliverFront(buf, chunks), 0, last)
    decreases |chunks|
  {
    ConcatSnoc(chunks, last);
    if chunks == [] {
      assert chunks + [last] == [last];
      var none: seq<seq<Byte>> := [last][1..];
      assert none == [];
    } else {
      assert (chunks + [last])[1..] == chunks[1..] + [last];
      ConcatSnoc(chunks[1..], last);
      DeliverFrontSnoc(Overwrite(buf, 0, chunks[0]), chunks[1..], last);
    }
  }

  /** One of the two receive loops (a do-while in the original, whose extra turn for an empty part
      reads nothing): whatever the cuts, exactly n bytes leave the stream, and the
      buffer is what writing each chunk to its front makes of it. */
  method RecvPart(socket: Socket, buf: array<Byte>, n: nat) returns (failed: bool, ghost chunks: seq<seq<Byte>>)
    requires n <= buf.Length
    modifies socket`incoming, buf
    ensures failed == (n > |old(socket.incoming)|)
    ensures NoneEmpty(chunks) && old(socket.incoming) == Concat(chunks) + socket.incoming
    ensures if failed then socket.incoming == [] else
      |Concat(chunks)| == n && buf[..] == DeliverFront(old(buf[..]), chunks)
  {
    var next := n;
    chunks := [];
    failed := false;
    ghost var start := buf[..];
    while next > 0
      invariant 0 <= next && next + |Concat(chunks)| == n && NoneEmpty(chunks)
      invariant old(socket.incoming) == Concat(chunks) + socket.incoming
      invariant buf[..] == DeliverFront(start, chunks)
    {
      var chunk;
      chunk, failed := socket.ReadSome(next);
      if failed {
        return;
      }
      ConcatSnoc(chunks, chunk);
      DeliverFrontSnoc(start, chunks, chunk);
      ConcatAssociates(Concat(chunks), chunk, socket.incoming);
      ToFront(buf, chunk);
      chunks := chunks + [chunk];
      next := next - |chunk|;
    }
  }

  method ToFront(buf: array<Byte>, chunk: seq<Byte>)
    requires |chunk| <= buf.Length
    modifies buf
    ensures buf[..] == Overwrite(old(buf[..]), 0, chunk)
  {
    forall i | 0 <= i < |chunk| {
      buf[i] := chunk[i];
    }
  }

  ghost predicate FrontIntact(ls: seq<nat>) {
    forall buf: seq<Byte>, chunks: seq<seq<Byte>> ::
      Lengths(chunks) == ls && |Concat(chunks)| <= |buf| ==>
        DeliverFront(buf, chunks)[..|Concat(chunks)|] == Concat(chunks)
  }

  lemma {:induction false} FrontReach(buf: seq<Byte>, chunks: seq<seq<Byte>>, i: nat)
    requires |Concat(chunks)| <= |buf| && i < |buf|
    requires forall j :: 0 <= j < |chunks| ==> |chunks[j]| <= i
    ensures DeliverFront(buf, chunks)[i] == buf[i]
    decreases |chunks|
  {
    if chunks != [] {
      FrontReach(Overwrite(buf, 0, chunks[0]), chunks[1..], i);
    }
  }

  lemma {:induction false} OneBelowTotal(chunks: seq<seq<Byte>>, j: nat)
    requires NoneEmpty(chunks) && |chunks| >= 2 && j < |chunks|
    ensures |chunks[j]| < |Concat(chunks)|
    decreases |chunks|
  {
    var rest: seq<seq<Byte>> := chunks[1..];
    assert NoneEmpty(rest) && rest[0] == chunks[1];
    if j > 0 && |chunks| > 2 {
      assert rest[j - 1] == chunks[j];
      OneBelowTotal(rest, j - 1);
    } else {
      assert |Concat(rest)| >= |rest[0]| > 0;
    }
  }

  /** The client reassembles every part correctly if and only if the part comes in one piece. */
  lemma {:induction false} IntactIffOneChunk(ls: seq<nat>)
    requires forall i :: 0 <= i < |ls| ==> ls[i] > 0
    ensures FrontIntact(ls) <==> |ls| <= 1
  {
    if |ls| <= 1 {
      forall buf: seq<Byte>, chunks: seq<seq<Byte>> | Lengths(chunks) == ls && |Concat(chunks)| <= |buf|
        ensures DeliverFront(buf, chunks)[..|Concat(chunks)|] == Concat(chunks)
      {
        if |chunks| == 1 {
          assert chunks == [chunks[0]];
          OneChunk(buf, 0, chunks[0]);
        }
      }
    } else {
      var chunks := Ones(ls);
      assert Lengths(chunks) == ls;
      var total := |Concat(chunks)|;
      forall j | 0 <= j < |chunks|
        ensures |chunks[j]| <= total - 1
      {
        OneBelowTotal(chunks, j);
      }
      assert |chunks[0]| <= total - 1;
      FrontReach(Zeros(total), chunks, total - 1);
      ConcatOfOnes(chunks);
      assert Concat(chunks)[total - 1] in Concat(chunks);
      assert DeliverFront(Zeros(total), chunks)[..total][total - 1] == 0;
    }
  }

  // ---------------------------------------------------------------- what the client makes of a reply

  datatype Outcome = Accepted(fields: seq<Field>) | Returned(code: int) | Unexpected | Rejected(status: Status)

  /** The header as the client decodes it. */
  function HeadDecoded(env: Env, now: int, head: seq<Byte>): Decoding
    requires |head| == HEADER_BYTES
  {
    if MemValue(env.little, head[..4]) != HEAD_MARK then DecodeFailed(DecodeError)
    else DecodeHeader(env, CommonMessage(now), true, head)
  }

  /** A body of the expected method, under fields that took over the header. The stream is opened on
      HEADER_BYTES bytes, not on the body's length, so `behind` is the memory that follows a shorter
      body. */
  function BodyOutcome(env: Env, fields: seq<Field>, body: seq<Byte>, behind: seq<Byte>): Outcome
    requires |fields| > FIELD_BMARK && |body + behind| >= HEADER_BYTES
  {
    if |body| < 4 then Rejected(Outside)
    else if MemValue(env.little, body[..4]) != BODY_MARK then Rejected(DecodeError)
    else
      match DecodeBody(env, fields, |fields|, true, (body + behind)[..HEADER_BYTES])
      case DecodeFailed(status) => Rejected(status)
      case Decoded(fs, _) => Accepted(fs)
  }

  /** What an accepted header makes of the body: parsed only if it answers the method asked. */
  function AnswerTo(env: Env, fields: seq<Field>, h: seq<Field>, body: seq<Byte>, behind: seq<Byte>): Outcome
    requires |h| >= FIELD_BMARK && |fields| > FIELD_BMARK && |body + behind| >= HEADER_BYTES
  {
    if Int32(h[FIELD_METHOD].ivalue) == Int32(fields[FIELD_METHOD].ivalue) then
      BodyOutcome(env, WithHeader(fields, h), body, behind)
    else if Int32(h[FIELD_METHOD].ivalue) == MSG_COMMON then Returned(Int32(h[FIELD_RETURN].ivalue))
    else Unexpected
  }

  /** recv_packet once both parts have been received. */
  function Receive(env: Env, now: int, fields: seq<Field>, head: seq<Byte>, body: seq<Byte>,
                   behind: seq<Byte>): (o: Outcome)
    requires |head| == HEADER_BYTES && |fields| > FIELD_BMARK && |body + behind| >= HEADER_BYTES
  {
    match HeadDecoded(env, now, head)
    case DecodeFailed(status) => Rejected(status)
    case Decoded(h, _) => AnswerTo(env, fields, h, body, behind)
  }

  /** A body decoded from a prefix of it only: the stream runs dry, exactly if the prefix is short. */
  lemma {:induction false} CutBody(a: Env, b: Env, s: seq<Field>, tmpl: seq<Field>, n: nat, wire: seq<Byte>)
    requires a.crc == b.crc && Sealed(a, s) && FIELD_BMARK <= n <= |s| && Ready(s, tmpl)
    requires wire <= Wire(a, s, FIELD_BMARK, |s|) && wire != Wire(a, s, FIELD_BMARK, |s|)
    requires |Wire(a, s, FIELD_BMARK, n)| <= |wire|
    ensures DecodeBodyFrom(b, Restored(a, b, s, tmpl, n), n, |s|, true, wire, |Wire(a, s, FIELD_BMARK, n)|)
         == DecodeFailed(Aborted)
    decreases |s| - n
  {
    if n == |s| {
      assert false;
    } else if |Wire(a, s, FIELD_BMARK, n)| + |FieldBytes(a, s, n)| <= |wire| {
      CutStep(a, b, s, tmpl, n, wire);
      CutBody(a, b, s, tmpl, n + 1, wire);
    } else {
      FieldRunsDry(a, b, s, tmpl, n, wire[|Wire(a, s, FIELD_BMARK, n)|..]);
    }
  }

  /** A field that is wholly inside the prefix is read as usual, and it is not the last one. */
  lemma {:induction false} CutStep(a: Env, b: Env, s: seq<Field>, tmpl: seq<Field>, n: nat, wire: seq<Byte>)
    requires a.crc == b.crc && Sealed(a, s) && FIELD_BMARK <= n < |s| && Ready(s, tmpl)
    requires wire <= Wire(a, s, FIELD_BMARK, |s|) && wire != Wire(a, s, FIELD_BMARK, |s|)
    requires |Wire(a, s, FIELD_BMARK, n)| + |FieldBytes(a, s, n)| <= |wire|
    ensures |Wire(a, s, FIELD_BMARK, n + 1)| <= |wire|
    ensures BodyTurn(b, Restored(a, b, s, tmpl, n), n, |s|, true, wire, |Wire(a, s, FIELD_BMARK, n)|)
         == Decoded(Restored(a, b, s, tmpl, n + 1), |Wire(a, s, FIELD_BMARK, n + 1)|)
  {
    hide FieldIn;
    var pos := |Wire(a, s, FIELD_BMARK, n)|;
    var whole := Wire(a, s, FIELD_BMARK, |s|);
    var tail := WireAt(a, s, FIELD_BMARK, n, |s|, whole);
    SumsInRange(a, s);
    var bytes := FieldBytes(a, s, n);
    CutInside(wire, whole, pos, bytes, tail);
    FieldRoundTrip(a, b, s, tmpl, n, wire[pos + |bytes|..]);
    RestoredStep(a, b, s, tmpl, n);
    LastIsLast(a, s, n, |wire|);
    TurnOf(b, Restored(a, b, s, tmpl, n), n, |s|, wire, pos, RestoredField(a, b, s, tmpl, n), |bytes|);
  }

  lemma {:induction false} TurnOf(env: Env, cur: seq<Field>, n: nat, len: int, wire: seq<Byte>, pos: nat, f: Field,
                                  used: nat)
    requires FIELD_COUNT < n < |cur| && pos <= |wire| && n != len - 1
    requires FieldIn(env, cur, n, wire[pos..]) == Got(f, used)
    ensures BodyTurn(env, cur, n, len, true, wire, pos) == Decoded(cur[n := f], pos + used)
  {
  }

  lemma {:induction false} CutInside(wire: seq<Byte>, whole: seq<Byte>, pos: nat, bytes: seq<Byte>, tail: seq<Byte>)
    requires wire <= whole && pos + |bytes| <= |wire| && whole[pos..] == bytes + tail
    ensures wire[pos..] == bytes + wire[pos + |bytes|..]
  {
    assert wire[pos..] == whole[pos..][..|wire| - pos];
  }

  lemma {:induction false} LastIsLast(a: Env, s: seq<Field>, n: nat, length: nat)
    requires WellFormed(s) && FIELD_BMARK <= n < |s| && length < |Wire(a, s, FIELD_BMARK, |s|)|
    requires |Wire(a, s, FIELD_BMARK, n)| + |FieldBytes(a, s, n)| <= length
    ensures n < |s| - 1
  {
    WireSnoc(a, s, FIELD_BMARK, n);
  }

  /** Reading a field from fewer bytes than it takes trips the stream's assertion. */
  lemma {:induction false} FieldRunsDry(a: Env, b: Env, s: seq<Field>, tmpl: seq<Field>, n: nat, rest: seq<Byte>)
    requires WellFormed(s) && SameShape(s, tmpl) && HasCapacity(s, tmpl) && FIELD_BMARK <= n < |s|
    requires tmpl[FIELD_COUNT].ivalue == s[FIELD_COUNT].ivalue && |rest| < |FieldBytes(a, s, n)|
    ensures FieldIn(b, Restored(a, b, s, tmpl, n), n, rest) == Halt(Aborted)
  {
    assert SameEntry(s[n], tmpl[n]) && SameEntry(s[n - 1], tmpl[n - 1]);
    assert FilledAt(s, n) && ShapedAt(s, n);
    FieldOutDefined(a, s, n);
    if s[n].data.Mem? {
      assert RoomAt(s, tmpl, n);
      var cur := Restored(a, b, s, tmpl, n);
      assert cur[FIELD_COUNT] == tmpl[FIELD_COUNT] && cur[n] == tmpl[n];
      CountDecoded(s, tmpl, n);
      if s[n].count < 0 && n - 1 >= FIELD_BMARK {
        assert cur[n - 1] == RestoredField(a, b, s, tmpl, n - 1);
      }
    }
  }

  /** For every well-formed answer of the expected method, received in one piece each for header and
      body: the client accepts it, with every scalar restored and of every array what travels,
      exactly when its body is no longer than a header; a longer body trips the stream's assertion. */
  lemma {:induction false} AcceptsShortBodies(a: Env, b: Env, now: int, fs: seq<Field>, fields: seq<Field>,
                                              behind: seq<Byte>)
    requires a.crc == b.crc && WellFormed(fs) && fs[FIELD_BMARK].ivalue == BODY_MARK
    requires SameShape(fs, fields) && HasCapacity(fs, fields)
    requires forall i :: 0 <= i < FIELD_BMARK ==> SameEntry(CommonMessage(now)[i], fields[i])
    requires Int32(fields[FIELD_METHOD].ivalue) == fs[FIELD_METHOD].ivalue
    requires |PacketBytes(a, fs)| + |behind| >= 2 * HEADER_BYTES
    ensures |PacketBytes(a, fs)| >= HEADER_BYTES
    ensures WellFormed(Seal(a, fs)) && SameShape(Seal(a, fs), fields) && HasCapacity(Seal(a, fs), fields)
    ensures var head, body := PacketBytes(a, fs)[..HEADER_BYTES], PacketBytes(a, fs)[HEADER_BYTES..];
      var o := Receive(b, now, fields, head, body, behind);
      && (|body| <= HEADER_BYTES ==> o.Accepted? && Restores(a, b, Seal(a, fs), fields, o.fields))
      && (|body| > HEADER_BYTES ==> o == Rejected(Aborted))
  {
    hide DecodeHeaderFrom, DecodeBodyFrom, CommonMessage, Seal;
    var s := Seal(a, fs);
    var htmpl := CommonMessage(now);
    SealSeals(a, fs);
    PacketParts(a, fs);
    ReadyForSealed(a, fs, fields);
    var head, body := Wire(a, s, 0, FIELD_BMARK), Wire(a, s, FIELD_BMARK, |s|);
    ReplyMarks(a, b, fs);
    CommonIsTemplate(now);
    HeaderTrip(a, b, s, htmpl, 0, head);
    assert HeaderRead(s, htmpl, 0) == htmpl;
    var h := HeaderRead(s, htmpl, FIELD_BMARK);
    MethodRead(a, fs, h);
    var t := WithHeader(fields, h);
    HeadedReady(s, htmpl, fields);
    assert Restored(a, b, s, t, FIELD_BMARK) == t;
    BodyUnderWindow(a, b, s, t, (body + behind)[..HEADER_BYTES]);
    RestoredRestores(a, b, s, h, fields);
  }

  /** A well-formed packet of another method, whatever its body: a common message tells the client its
      return value, any other is not expected. */
  lemma {:induction false} OtherAnswers(a: Env, b: Env, now: int, fs: seq<Field>, fields: seq<Field>, behind: seq<Byte>)
    requires a.crc == b.crc && WellFormed(fs) && |fields| > FIELD_BMARK
    requires Int32(fields[FIELD_METHOD].ivalue) != fs[FIELD_METHOD].ivalue
    requires |PacketBytes(a, fs)| + |behind| >= 2 * HEADER_BYTES
    ensures |PacketBytes(a, fs)| >= HEADER_BYTES
    ensures Receive(b, now, fields, PacketBytes(a, fs)[..HEADER_BYTES], PacketBytes(a, fs)[HEADER_BYTES..], behind)
         == if fs[FIELD_METHOD].ivalue == 1 then Returned(fs[FIELD_RETURN].ivalue) else Unexpected
  {
    hide DecodeHeaderFrom, CommonMessage, Seal, BodyOutcome;
    var s := Seal(a, fs);
    var htmpl := CommonMessage(now);
    SealSeals(a, fs);
    PacketParts(a, fs);
    var head := Wire(a, s, 0, FIELD_BMARK);
    HeadMarkFirst(a, s);
    MarkReads(b.little, HEAD_MARK);
    CommonIsTemplate(now);
    HeaderTrip(a, b, s, htmpl, 0, head);
    assert HeaderRead(s, htmpl, 0) == htmpl;
    var h := HeaderRead(s, htmpl, FIELD_BMARK);
    MethodRead(a, fs, h);
    SealedFields(a, fs);
    assert ShapedAt(fs, FIELD_RETURN) && FilledAt(fs, FIELD_RETURN);
    SignedRoundTrip(fs[FIELD_RETURN].ivalue, 4);
  }

  /** The eight bytes of a checksum entry are there and right. */
  predicate SumRight(env: Env, wire: seq<Byte>, at: nat) {
    at + 8 <= |wire| && !SumWrong(env, wire, at)
  }

  predicate EndsInSum(fs: seq<Field>) {
    |fs| > FIELD_NEXT && fs[|fs| - 1].data.Null? && fs[|fs| - 1].ty == TYPE_LONGLONG
  }

  /** A body decoded to its end has a right checksum where its other entries end. */
  lemma {:induction false} LastChecked(env: Env, fs: seq<Field>, n: nat, wire: seq<Byte>, pos: nat) returns (at: nat)
    requires EndsInSum(fs) && FIELD_BMARK <= n < |fs| && pos <= |wire|
    requires DecodeBodyFrom(env, fs, n, |fs|, true, wire, pos).Decoded?
    ensures at >= pos && SumRight(env, wire, at)
    decreases |fs| - n
  {
    var turn := BodyTurn(env, fs, n, |fs|, true, wire, pos);
    if n == |fs| - 1 {
      at := pos;
      LastEntry(env, fs, true, wire, pos);
    } else {
      at := LastChecked(env, turn.fields, n + 1, wire, turn.pos);
    }
  }

  /** What any 32 bytes of header and any body come to: a wrong mark or checksum is refused; another
      method than the one asked gives the return value of a common message, or is not expected; and a
      body is accepted only under its mark and with a right checksum inside the window. */
  lemma {:induction false} AnswersAre(env: Env, now: int, fields: seq<Field>, head: seq<Byte>, body: seq<Byte>,
                                      behind: seq<Byte>)
    requires |head| == HEADER_BYTES && EndsInSum(fields) && |body + behind| >= HEADER_BYTES
    ensures var (o, asked) := (Receive(env, now, fields, head, body, behind), Int32(fields[FIELD_METHOD].ivalue));
      if MemValue(env.little, head[..4]) != 0x1111_1111 then o == Rejected(DecodeError)
      else if SumWrong(env, head, 24) then o == Rejected(CrcError)
      else if HeaderValue(head, 1) != asked then
        o == if HeaderValue(head, 1) == 1 then Returned(HeaderValue(head, 3)) else Unexpected
      else if |body| < 4 then o == Rejected(Outside)
      else if MemValue(env.little, body[..4]) != 0x2222_2222 then o == Rejected(DecodeError)
      else o.Accepted? || o.Rejected?
    ensures Receive(env, now, fields, head, body, behind).Accepted? ==>
      exists at: nat :: SumRight(env, (body + behind)[..HEADER_BYTES], at)
  {
    hide DecodeHeader, SumWrong, CommonMessage, SumRight;
    MarkMatches(env.little, head[..4]);
    CommonIsTemplate(now);
    HeaderAccepted(env, CommonMessage(now), true, head);
    HeaderValueFits(head, 1);
    HeaderValueFits(head, 3);
    var o := Receive(env, now, fields, head, body, behind);
    if o.Accepted? {
      var h := DecodeHeader(env, CommonMessage(now), true, head).fields;
      var at := LastChecked(env, WithHeader(fields, h), FIELD_BMARK, (body + behind)[..HEADER_BYTES], 0);
    }
  }

  /** What decoding makes of the part of a body the stream was opened on. */
  lemma {:induction false} BodyUnderWindow(a: Env, b: Env, s: seq<Field>, t: seq<Field>, wire: seq<Byte>)
    requires a.crc == b.crc && Sealed(a, s) && Ready(s, t) && Restored(a, b, s, t, FIELD_BMARK) == t
    requires var body := Wire(a, s, FIELD_BMARK, |s|);
      |wire| == HEADER_BYTES && (if |body| <= HEADER_BYTES then body <= wire else wire <= body)
    ensures DecodeBody(b, t, |s|, true, wire)
         == var body := Wire(a, s, FIELD_BMARK, |s|);
            if |body| <= HEADER_BYTES then Decoded(Restored(a, b, s, t, |s|), |body|) else DecodeFailed(Aborted)
  {
    if |Wire(a, s, FIELD_BMARK, |s|)| <= HEADER_BYTES {
      BodyTrip(a, b, s, t, FIELD_BMARK, wire);
    } else {
      CutBody(a, b, s, t, FIELD_BMARK, wire);
    }
  }

  lemma {:induction false} ReplyMarks(a: Env, b: Env, fs: seq<Field>)
    requires WellFormed(fs) && fs[FIELD_BMARK].ivalue == BODY_MARK
    ensures var s := Seal(a, fs);
      var head, body := Wire(a, s, 0, FIELD_BMARK), Wire(a, s, FIELD_BMARK, |s|);
      && |head| >= 4 && |body| >= 4
      && MemValue(b.little, head[..4]) == HEAD_MARK && MemValue(b.little, body[..4]) == BODY_MARK
  {
    var s := Seal(a, fs);
    SealedFields(a, fs);
    SealedFilled(a, fs);
    HeadMarkFirst(a, s);
    BodyMarkFirst(a, s, |s|);
    MarkReads(b.little, HEAD_MARK);
    MarkReads(b.little, BODY_MARK);
  }

  lemma {:induction false} MethodRead(a: Env, fs: seq<Field>, h: seq<Field>)
    requires WellFormed(fs) && |h| >= FIELD_BMARK
    requires h[FIELD_METHOD].ivalue == Seal(a, fs)[FIELD_METHOD].ivalue
    ensures Int32(h[FIELD_METHOD].ivalue) == fs[FIELD_METHOD].ivalue
  {
    SealedFields(a, fs);
    assert ShapedAt(fs, FIELD_METHOD) && FilledAt(fs, FIELD_METHOD);
    SignedRoundTrip(fs[FIELD_METHOD].ivalue, 4);
  }

  /** So the server's connect reply, 14 bytes of body, is always accepted, and tells the client
      success and permission 1. */
  lemma {:induction false} ConnectSucceeds(a: Env, b: Env, now: int, then_: int, behind: seq<Byte>)
    requires a.crc == b.crc && ClockFits(then_) && |behind| >= HEADER_BYTES
    ensures |ReplyBytes(a, then_)| == HEADER_BYTES + 14
    ensures var packet := ReplyBytes(a, then_);
      var o := Receive(b, now, ConnectReply(0, 0, now), packet[..HEADER_BYTES], packet[HEADER_BYTES..], behind);
      o.Accepted? && |o.fields| == 10 && o.fields[FIELD_RETURN].ivalue == 0 && o.fields[FIELD_NEXT].ivalue == 1
  {
    hide Receive, Wire, PacketBytes;
    var plain := ConnectReply(0, 1, then_);
    var fs := WithBodySize(plain);
    var fields := ConnectReply(0, 0, now);
    Pow256Values();
    ReplyForm(0, 1, then_);
    ReplySize(0, 1, then_);
    ReplySends(a, then_);
    SendFillsBuffer(a, plain);
    forall n | 0 <= n < |plain|
      ensures !LongLongArray(plain, n)
    {
    }
    assert NoLongLongArrays(plain, 0, |plain|);
    BodySizeKeepsForm(plain);
    forall i | 0 <= i < |fs|
      ensures SameEntry(fs[i], fields[i])
    {
    }
    assert SameShape(fs, fields);
    Int32InRange(MSG_CONNECT);
    AcceptsShortBodies(a, b, now, fs, fields, behind);
    SealedFields(a, fs);
  }
}
