/** Whole sessions with the real messages: a client sends CONNECT packets and a DISCONNECT, and the
    server session answers every CONNECT and closes at the DISCONNECT. */
module ConnectExchange {
  import opened Bytes
  import opened Streams
  import opened Packet
  import opened PacketProofs
  import opened PacketRoundTrip
  import opened PacketSizes
  import opened Messages
  import opened SessionSpec
  import opened SessionRuns

  datatype Account = Account(client: seq<Byte>, process: seq<Byte>, time: int)

  /** What one client sends: any number of CONNECTs, then a DISCONNECT. */
  datatype Script = Script(logins: seq<Account>, bye: int)

  predicate GoodLogin(l: Account) {
    IsName(l.client) && IsName(l.process) && ClockFits(l.time)
  }

  predicate GoodScript(sc: Script) {
    ClockFits(sc.bye) && forall i :: 0 <= i < |sc.logins| ==> GoodLogin(sc.logins[i])
  }

  function PlainFields(sc: Script, i: nat): (fs: seq<Field>)
    requires i <= |sc.logins|
    ensures |fs| > FIELD_NEXT
  {
    if i < |sc.logins| then ConnectMessage(sc.logins[i].client, sc.logins[i].process, sc.logins[i].time)
    else DisconnectMessage(sc.bye)
  }

  /** Message i as send_packet prepares it, and its two parts on the wire. */
  function Fields(sc: Script, i: nat): (fs: seq<Field>)
    requires i <= |sc.logins|
    ensures |fs| > FIELD_NEXT
  {
    WithBodySize(PlainFields(sc, i))
  }

  function Head(a: Env, sc: Script, i: nat): seq<Byte>
    requires i <= |sc.logins|
  {
    Wire(a, Seal(a, Fields(sc, i)), 0, FIELD_BMARK)
  }

  function Body(a: Env, sc: Script, i: nat): seq<Byte>
    requires i <= |sc.logins|
  {
    var fs := Fields(sc, i);
    Wire(a, Seal(a, fs), FIELD_BMARK, |fs|)
  }

  function NamesSent(sc: Script, n: nat): seq<(seq<Byte>, seq<Byte>)>
    requires n <= |sc.logins|
  {
    seq(n, i requires 0 <= i < n => (CString(sc.logins[i].client), CString(sc.logins[i].process)))
  }

  function HeaderOf(a: Env, sc: Script, i: nat): (h: seq<Field>)
    requires i <= |sc.logins|
    ensures |h| == FIELD_BMARK
  {
    Seal(a, Fields(sc, i))[..FIELD_BMARK]
  }

  function ReplyBytes(b: Env, now: int): seq<Byte> {
    PacketBytes(b, WithBodySize(ConnectReply(0, 1, now)))
  }

  // ---------------------------------------------------------------- facts about the messages

  lemma {:induction false} FieldsForm(sc: Script, i: nat)
    requires GoodScript(sc) && i <= |sc.logins|
    ensures Sendable(PlainFields(sc, i)) && WellFormed(Fields(sc, i))
    ensures NoLongLongArrays(PlainFields(sc, i), 0, |PlainFields(sc, i)|)
  {
    if i < |sc.logins| {
      var l := sc.logins[i];
      assert GoodLogin(l);
      ConnectForm(l.client, l.process, l.time);
      ConnectSize(l);
    } else {
      DisconnectForm(sc.bye);
      DisconnectSize(sc.bye);
    }
    BodySizeKeepsForm(PlainFields(sc, i));
  }

  /** Sizes of the three messages, by adding up their entries. */
  lemma {:induction false} ConnectSize(l: Account)
    requires GoodLogin(l)
    ensures SizeSum(ConnectMessage(l.client, l.process, l.time), FIELD_BMARK, 13)
         == 18 + |CString(l.client)| + |CString(l.process)|
  {
    var fs := ConnectMessage(l.client, l.process, l.time);
    assert SizeSum(fs, 7, 7) == 0 && SizeSum(fs, 7, 8) == 4 && SizeSum(fs, 7, 9) == 6;
    assert SizeSum(fs, 7, 10) == 7 + |CString(l.client)| && SizeSum(fs, 7, 11) == 9 + |CString(l.client)|;
    assert SizeSum(fs, 7, 12) == 10 + |CString(l.client)| + |CString(l.process)|;
  }

  lemma {:induction false} DisconnectSize(time: int)
    ensures SizeSum(DisconnectMessage(time), FIELD_BMARK, 9) == 12
  {
    var fs := DisconnectMessage(time);
    assert SizeSum(fs, 7, 7) == 0 && SizeSum(fs, 7, 8) == 4;
  }

  lemma {:induction false} ReplySize(ret: int, priv: int, time: int)
    ensures SizeSum(ConnectReply(ret, priv, time), FIELD_BMARK, 10) == 14
  {
    var fs := ConnectReply(ret, priv, time);
    assert SizeSum(fs, 7, 7) == 0 && SizeSum(fs, 7, 8) == 4 && SizeSum(fs, 7, 9) == 6;
  }

  lemma {:induction false} FourEqualBytes(c: Byte)
    ensures BeValue([c, c, c, c]) == c * 0x101_0101
  {
    assert [c, c, c, c][..3] == [c, c, c] && [c, c, c][..2] == [c, c] && [c, c][..1] == [c] && [c][..0] == [];
    assert BeValue([c]) == c && BeValue([c, c]) == c * 0x101 && BeValue([c, c, c]) == c * 0x1_0101;
  }

  /** On either kind of host the mark reads as itself: all its bytes are equal. */
  lemma {:induction false} MarkReads(little: bool, mark: nat)
    requires mark == HEAD_MARK || mark == BODY_MARK
    ensures MemValue(little, BeBytes(ToUnsigned(mark, 4), 4)) == mark
  {
    Pow256Values();
    var c: Byte := if mark == HEAD_MARK then 0x11 else 0x22;
    FourEqualBytes(c);
    BeBytesOfValue([c, c, c, c]);
    assert Reverse([c, c, c, c]) == [c, c, c, c];
  }

  lemma {:induction false} PartSizes(a: Env, sc: Script, i: nat)
    requires GoodScript(sc) && i <= |sc.logins|
    ensures |Head(a, sc, i)| == HEADER_BYTES
    ensures |Body(a, sc, i)| == Fields(sc, i)[FIELD_BSIZE].ivalue >= 4
    ensures |Body(a, sc, i)| < 0x8000_0000
  {
    FieldsForm(sc, i);
    var fs := Fields(sc, i);
    SendFillsBuffer(a, PlainFields(sc, i));
    PacketParts(a, fs);
    SealedFilled(a, fs);
    HeaderIs32(a, Seal(a, fs));
    BodyMarkFirst(a, Seal(a, fs), |fs|);
  }

  lemma {:induction false} PartMarks(a: Env, b: Env, sc: Script, i: nat)
    requires GoodScript(sc) && i <= |sc.logins|
    ensures |Head(a, sc, i)| == HEADER_BYTES && |Body(a, sc, i)| >= 4
    ensures MemValue(b.little, Head(a, sc, i)[..4]) == HEAD_MARK
    ensures MemValue(b.little, Body(a, sc, i)[..4]) == BODY_MARK
  {
    hide Seal;
    FieldsForm(sc, i);
    var fs := Fields(sc, i);
    var s := Seal(a, fs);
    PartSizes(a, sc, i);
    SealedFields(a, fs);
    SealedFilled(a, fs);
    BodyMarkFirst(a, s, |fs|);
    HeadMarkFirst(a, s);
    assert s[FIELD_BMARK] == fs[FIELD_BMARK] && fs[FIELD_BMARK].ivalue == BODY_MARK;
    MarkReads(b.little, HEAD_MARK);
    MarkReads(b.little, BODY_MARK);
  }

  lemma {:induction false} HeadMarkFirst(env: Env, s: seq<Field>)
    requires WellFormed(s)
    ensures |Wire(env, s, 0, FIELD_BMARK)| >= 4
    ensures Wire(env, s, 0, FIELD_BMARK)[..4] == BeBytes(ToUnsigned(HEAD_MARK, 4), 4)
  {
    assert ShapedAt(s, 0);
    FieldOutDefined(env, s, 0);
  }

  /** The header a session decodes is the sealed header of the message, whatever its clock says. */
  lemma {:induction false} HeaderDecodes(a: Env, b: Env, sc: Script, i: nat, now: int)
    requires a.crc == b.crc && GoodScript(sc) && i <= |sc.logins|
    ensures DecodeHeader(b, CommonMessage(now)[..FIELD_BMARK], true, Head(a, sc, i))
         == Decoded(HeaderOf(a, sc, i), HEADER_BYTES)
  {
    FieldsForm(sc, i);
    var fs := Fields(sc, i);
    var s := Seal(a, fs);
    var tmpl := CommonMessage(now)[..FIELD_BMARK];
    SealSeals(a, fs);
    CommonIsTemplate(now);
    HeaderTrip(a, b, s, tmpl, 0, Head(a, sc, i));
    assert HeaderRead(s, tmpl, 0) == tmpl;
    HeaderReadIs(a, sc, i, now);
  }

  lemma {:induction false} HeaderReadIs(a: Env, sc: Script, i: nat, now: int)
    requires GoodScript(sc) && i <= |sc.logins| && WellFormed(Fields(sc, i))
    ensures HeaderRead(Seal(a, Fields(sc, i)), CommonMessage(now)[..FIELD_BMARK], FIELD_BMARK) == HeaderOf(a, sc, i)
  {
    PlainHeader(sc, i);
    SealedPlain(a, Fields(sc, i));
    CommonPlain(now);
    PlainHeaderRead(Seal(a, Fields(sc, i)), CommonMessage(now)[..FIELD_BMARK]);
  }

  predicate PlainEntries(fs: seq<Field>) {
    |fs| >= FIELD_BMARK &&
    forall n :: 0 <= n < FIELD_BMARK ==>
      fs[n] == Entry(if n == FIELD_HCRC then TYPE_LONGLONG else TYPE_LONG, fs[n].ivalue)
  }

  lemma {:induction false} SealedPlain(env: Env, fs: seq<Field>)
    requires Shaped(fs) && PlainEntries(fs)
    ensures PlainEntries(Seal(env, fs))
  {
    SealedFields(env, fs);
  }

  lemma {:induction false} CommonPlain(now: int)
    ensures PlainEntries(CommonMessage(now)[..FIELD_BMARK])
  {
  }

  lemma {:induction false} PlainHeaderRead(s: seq<Field>, tmpl: seq<Field>)
    requires PlainEntries(s) && PlainEntries(tmpl) && |tmpl| == FIELD_BMARK
    ensures HeaderRead(s, tmpl, FIELD_BMARK) == s[..FIELD_BMARK]
  {
  }

  lemma {:induction false} PlainHeader(sc: Script, i: nat)
    requires i <= |sc.logins|
    ensures PlainEntries(Fields(sc, i))
    ensures Fields(sc, i)[FIELD_METHOD].ivalue == if i < |sc.logins| then MSG_CONNECT else MSG_DISCONNECT
  {
  }

  /** Method and body size in the decoded header. */
  lemma {:induction false} HeaderSays(a: Env, sc: Script, i: nat)
    requires GoodScript(sc) && i <= |sc.logins|
    ensures var h := HeaderOf(a, sc, i);
      && Int32(h[FIELD_METHOD].ivalue) == (if i < |sc.logins| then MSG_CONNECT else MSG_DISCONNECT)
      && Int32(h[FIELD_BSIZE].ivalue) == |Body(a, sc, i)|
  {
    FieldsForm(sc, i);
    SealedFields(a, Fields(sc, i));
    PartSizes(a, sc, i);
    PlainHeader(sc, i);
    Int32InRange(|Body(a, sc, i)|);
    Int32InRange(if i < |sc.logins| then MSG_CONNECT else MSG_DISCONNECT);
  }

  /** A body decodes into any template of its shape with room for its arrays. */
  lemma {:induction false} BodyDecodes(a: Env, b: Env, fs: seq<Field>, tmpl: seq<Field>, h: seq<Field>)
    requires a.crc == b.crc && WellFormed(fs) && SameShape(fs, tmpl) && HasCapacity(fs, tmpl)
    requires h == Seal(a, fs)[..FIELD_BMARK]
    ensures WellFormed(Seal(a, fs)) && SameShape(Seal(a, fs), tmpl) && HasCapacity(Seal(a, fs), tmpl)
    ensures var d := DecodeBody(b, WithHeader(tmpl, h), |fs|, true, Wire(a, Seal(a, fs), FIELD_BMARK, |fs|));
      d.Decoded? && Restores(a, b, Seal(a, fs), tmpl, d.fields)
  {
    var s := Seal(a, fs);
    SealSeals(a, fs);
    SealedFields(a, fs);
    ReadyForSealed(a, fs, tmpl);
    var t := WithHeader(tmpl, h);
    HeaderOverlay(s, tmpl, h);
    BodyTrip(a, b, s, t, FIELD_BMARK, Wire(a, s, FIELD_BMARK, |s|));
    assert Restored(a, b, s, t, FIELD_BMARK) == t;
    RestoredRestores(a, b, s, h, tmpl);
  }

  lemma {:induction false} HeaderOverlay(s: seq<Field>, tmpl: seq<Field>, h: seq<Field>)
    requires WellFormed(s) && SameShape(s, tmpl) && HasCapacity(s, tmpl) && h == s[..FIELD_BMARK]
    ensures Ready(s, WithHeader(tmpl, h))
  {
    var t := WithHeader(tmpl, h);
    forall i | 0 <= i < |s|
      ensures SameEntry(s[i], t[i])
    {
      assert SameEntry(s[i], tmpl[i]);
    }
    assert SameShape(s, t);
    forall i | FIELD_BMARK <= i < |s| && t[i].data.Mem?
      ensures RoomAt(s, t, i)
    {
      assert RoomAt(s, tmpl, i) && ShapedAt(s, i);
    }
  }

  lemma {:induction false} CStringPrefix(mem: seq<Byte>, tail: seq<Byte>)
    requires |CString(mem)| < |mem|
    ensures CString(mem[..|CString(mem)| + 1] + tail) == CString(mem)
    decreases |mem|
  {
    var n := |CString(mem)|;
    var x := mem[..n + 1] + tail;
    if n > 0 {
      CStringPrefix(mem[1..], tail);
      assert x[1..] == mem[1..][..n] + tail;
    }
  }

  /** The names arrive equal to those sent. */
  lemma {:induction false} ConnectArrives(a: Env, b: Env, sc: Script, i: nat, now: int)
    requires a.crc == b.crc && GoodScript(sc) && i < |sc.logins| && ClockFits(now)
    ensures var tmpl := ConnectMessage(Zeros(NAME_BYTES), Zeros(NAME_BYTES), now);
      var d := DecodeBody(b, WithHeader(tmpl, HeaderOf(a, sc, i)), |tmpl|, true, Body(a, sc, i));
      && d.Decoded? && |d.fields| == |tmpl|
      && NameOf(d.fields[9]) == CString(sc.logins[i].client)
      && NameOf(d.fields[11]) == CString(sc.logins[i].process)
  {
    hide PacketBytes, Wire, CString;
    FieldsForm(sc, i);
    var fs := Fields(sc, i);
    var s := Seal(a, fs);
    var tmpl := ConnectMessage(Zeros(NAME_BYTES), Zeros(NAME_BYTES), now);
    ConnectTemplate(sc, i, now);
    BodyDecodes(a, b, fs, tmpl, HeaderOf(a, sc, i));
    SealedFields(a, fs);
    var r := DecodeBody(b, WithHeader(tmpl, HeaderOf(a, sc, i)), |tmpl|, true, Body(a, sc, i)).fields;
    NameArrives(a, b, s, tmpl, r, 9, sc.logins[i].client);
    NameArrives(a, b, s, tmpl, r, 11, sc.logins[i].process);
  }

  lemma {:induction false} ConnectTemplate(sc: Script, i: nat, now: int)
    requires GoodScript(sc) && i < |sc.logins| && WellFormed(Fields(sc, i))
    ensures var tmpl := ConnectMessage(Zeros(NAME_BYTES), Zeros(NAME_BYTES), now);
      SameShape(Fields(sc, i), tmpl) && HasCapacity(Fields(sc, i), tmpl)
  {
    var fs := Fields(sc, i);
    var tmpl := ConnectMessage(Zeros(NAME_BYTES), Zeros(NAME_BYTES), now);
    var l := sc.logins[i];
    assert GoodLogin(l);
    forall n | 0 <= n < |fs|
      ensures SameEntry(fs[n], tmpl[n])
    {
    }
    assert SameShape(fs, tmpl);
    SpanIsProduct(1, |CString(l.client)| + 1);
    SpanIsProduct(1, |CString(l.process)| + 1);
    forall n | FIELD_BMARK <= n < |fs| && tmpl[n].data.Mem?
      ensures RoomAt(fs, tmpl, n)
    {
      assert n == 9 || n == 11;
    }
  }

  lemma {:induction false} NameArrives(a: Env, b: Env, s: seq<Field>, tmpl: seq<Field>, r: seq<Field>, n: nat,
                                       name: seq<Byte>)
    requires WellFormed(s) && SameShape(s, tmpl) && HasCapacity(s, tmpl) && Restores(a, b, s, tmpl, r)
    requires FIELD_BMARK < n < |s| && s[n] == Text(name) && IsName(name)
    requires s[n - 1].ivalue == |CString(name)| + 1
    ensures NameOf(r[n]) == CString(name)
  {
    assert FilledAt(s, n) && ShapedAt(s, n) && SameEntry(s[n], tmpl[n]) && RoomAt(s, tmpl, n);
    SpanIsProduct(1, |CString(name)| + 1);
    var sent := name[..|CString(name)| + 1];
    assert r[n] == RestoredField(a, b, s, tmpl, n);
    UnflippedBytes(a.little, sent);
    UnflippedBytes(b.little, sent);
    CStringPrefix(name, tmpl[n].data.bytes[|sent|..]);
  }

  /** Arrays of single bytes travel as they are. */
  lemma {:induction false} UnflippedBytes(little: bool, mem: seq<Byte>)
    ensures ArrayWire(little, 1, mem) == mem
    decreases |mem|
  {
    if mem != [] {
      UnflippedBytes(little, mem[1..]);
      assert Flip(little, mem[..1]) == mem[..1];
      assert mem == mem[..1] + mem[1..];
    }
  }

  lemma {:induction false} DisconnectArrives(a: Env, b: Env, sc: Script, now: int)
    requires a.crc == b.crc && GoodScript(sc)
    ensures var tmpl := DisconnectMessage(now);
      var i := |sc.logins|;
      DecodeBody(b, WithHeader(tmpl, HeaderOf(a, sc, i)), |tmpl|, true, Body(a, sc, i)).Decoded?
  {
    var i := |sc.logins|;
    FieldsForm(sc, i);
    var fs := Fields(sc, i);
    var tmpl := DisconnectMessage(now);
    forall n | 0 <= n < |fs|
      ensures SameEntry(fs[n], tmpl[n])
    {
    }
    assert SameShape(fs, tmpl);
    BodyDecodes(a, b, fs, tmpl, HeaderOf(a, sc, i));
  }

  /** The reply is encoded, whole, into a buffer of exactly its size. */
  lemma {:induction false} ReplySends(b: Env, now: int)
    requires ClockFits(now)
    ensures SendBuffer(b, ConnectReply(0, 1, now)).Encoded?
    ensures SendBuffer(b, ConnectReply(0, 1, now)).out == ReplyBytes(b, now)
  {
    hide PacketBytes, Wire, SizeSum, EncodeFrom;
    var fs := ConnectReply(0, 1, now);
    Pow256Values();
    ReplyForm(0, 1, now);
    ReplySize(0, 1, now);
    SendFillsBuffer(b, fs);
    forall n | 0 <= n < |fs|
      ensures !LongLongArray(fs, n)
    {
    }
    assert NoLongLongArrays(fs, 0, |fs|);
  }

  // ---------------------------------------------------------------- the exchange

  function PacketOf(a: Env, sc: Script, i: nat): Parcel
    requires i <= |sc.logins|
  {
    if i < |sc.logins| then
      Login(Head(a, sc, i), Body(a, sc, i), HeaderOf(a, sc, i),
            (CString(sc.logins[i].client), CString(sc.logins[i].process)))
    else Bye(Head(a, sc, i), Body(a, sc, i), HeaderOf(a, sc, i))
  }

  function Answer(b: Env): int -> seq<Byte> {
    now => ReplyBytes(b, now)
  }

  function Clock(): int -> bool {
    now => ClockFits(now)
  }

  function PeerOf(a: Env, b: Env, sc: Script): Peer {
    Peer(seq(|sc.logins| + 1, i requires 0 <= i <= |sc.logins| => PacketOf(a, sc, i)), Answer(b), Clock())
  }

  lemma {:induction false} DispatchHead(b: Env, now: int, s: State, head: seq<Byte>, header: seq<Field>, size: nat)
    requires Valid(s) && s.op != Idle && |head| == HEADER_BYTES && head <= s.recv
    requires MemValue(b.little, head[..4]) == HEAD_MARK
    requires DecodeHeader(b, CommonMessage(now)[..FIELD_BMARK], true, head) == Decoded(header, HEADER_BYTES)
    requires Int32(header[FIELD_BSIZE].ivalue) == size
    ensures Dispatch(b, now, s) == s.(recv := Resized(s.recv, size), header := header, op := Reading(0, size))
  {
    assert s.recv[..4] == head[..4] && s.recv[..HEADER_BYTES] == head;
  }

  lemma {:induction false} DispatchLogin(b: Env, now: int, s: State, body: seq<Byte>, names: (seq<Byte>, seq<Byte>),
                                         reply: seq<Byte>)
    requires Valid(s) && s.op != Idle && 4 <= |body| && body <= s.recv && s.header != []
    requires MemValue(b.little, body[..4]) == BODY_MARK
    requires Int32(s.header[FIELD_METHOD].ivalue) == MSG_CONNECT && Int32(s.header[FIELD_BSIZE].ivalue) == |body|
    requires var tmpl := ConnectMessage(Zeros(NAME_BYTES), Zeros(NAME_BYTES), now);
      var d := DecodeBody(b, WithHeader(tmpl, s.header), |tmpl|, true, body);
      d.Decoded? && |d.fields| == |tmpl| && NameOf(d.fields[9]) == names.0 && NameOf(d.fields[11]) == names.1
    requires SendBuffer(b, ConnectReply(0, 1, now)).Encoded? && SendBuffer(b, ConnectReply(0, 1, now)).out == reply
    ensures Dispatch(b, now, s) == s.(op := Writing(reply), seen := s.seen + [names])
  {
    assert s.recv[..4] == body[..4] && s.recv[..|body|] == body;
    assert HandleConnect(b, now, s) == s.(op := Writing(reply), seen := s.seen + [names]);
  }

  lemma {:induction false} DispatchBye(b: Env, now: int, s: State, body: seq<Byte>)
    requires Valid(s) && s.op != Idle && 4 <= |body| && body <= s.recv && s.header != []
    requires MemValue(b.little, body[..4]) == BODY_MARK
    requires Int32(s.header[FIELD_METHOD].ivalue) == MSG_DISCONNECT && Int32(s.header[FIELD_BSIZE].ivalue) == |body|
    requires DecodeBody(b, WithHeader(DisconnectMessage(now), s.header), 9, true, body).Decoded?
    ensures Dispatch(b, now, s) == Close(s)
  {
    assert s.recv[..4] == body[..4] && s.recv[..|body|] == body;
    assert HandleDisconnect(b, now, s) == Close(s);
  }

  lemma {:induction false} HeadsUnderstood(a: Env, b: Env, sc: Script, i: nat)
    requires a.crc == b.crc && GoodScript(sc) && i <= |sc.logins|
    ensures HeadUnderstood(b, PeerOf(a, b, sc), PacketOf(a, sc, i))
  {
    var p, peer := PacketOf(a, sc, i), PeerOf(a, b, sc);
    PartSizes(a, sc, i);
    PartMarks(a, b, sc, i);
    HeaderSays(a, sc, i);
    forall s: State, now: int | Valid(s) && s.op != Idle && p.head <= s.recv && peer.clock(now)
      ensures Dispatch(b, now, s)
           == s.(recv := Resized(s.recv, |p.body|), header := p.header, op := Reading(0, |p.body|))
    {
      HeaderDecodes(a, b, sc, i, now);
      DispatchHead(b, now, s, p.head, p.header, |p.body|);
    }
  }

  lemma {:induction false} LoginUnderstood(a: Env, b: Env, sc: Script, i: nat)
    requires a.crc == b.crc && GoodScript(sc) && i < |sc.logins|
    ensures BodyUnderstood(b, PeerOf(a, b, sc), PacketOf(a, sc, i))
  {
    var p, peer := PacketOf(a, sc, i), PeerOf(a, b, sc);
    PartSizes(a, sc, i);
    PartMarks(a, b, sc, i);
    HeaderSays(a, sc, i);
    forall s: State, now: int |
      Valid(s) && s.op != Idle && p.body <= s.recv && s.header == p.header && peer.clock(now)
      ensures Dispatch(b, now, s) == s.(op := Writing(peer.answer(now)), seen := s.seen + [p.names])
    {
      ConnectArrives(a, b, sc, i, now);
      ReplySends(b, now);
      DispatchLogin(b, now, s, p.body, p.names, ReplyBytes(b, now));
    }
  }

  lemma {:induction false} ByeUnderstood(a: Env, b: Env, sc: Script)
    requires a.crc == b.crc && GoodScript(sc)
    ensures BodyUnderstood(b, PeerOf(a, b, sc), PacketOf(a, sc, |sc.logins|))
  {
    var i := |sc.logins|;
    var p, peer := PacketOf(a, sc, i), PeerOf(a, b, sc);
    PartSizes(a, sc, i);
    PartMarks(a, b, sc, i);
    HeaderSays(a, sc, i);
    forall s: State, now: int |
      Valid(s) && s.op != Idle && p.body <= s.recv && s.header == p.header && peer.clock(now)
      ensures Dispatch(b, now, s) == Close(s)
    {
      DisconnectArrives(a, b, sc, now);
      DispatchBye(b, now, s, p.body);
    }
  }

  /** The real messages make a peer the session understands. */
  lemma {:induction false} ScriptIsUnderstood(a: Env, b: Env, sc: Script)
    requires a.crc == b.crc && GoodScript(sc)
    ensures GoodPeer(b, PeerOf(a, b, sc))
  {
    var peer := PeerOf(a, b, sc);
    forall i | 0 <= i < |peer.packets|
      ensures HeadUnderstood(b, peer, peer.packets[i]) && BodyUnderstood(b, peer, peer.packets[i])
    {
      HeadsUnderstood(a, b, sc, i);
      if i < |sc.logins| {
        LoginUnderstood(a, b, sc, i);
      } else {
        ByeUnderstood(a, b, sc);
      }
    }
    assert peer.clock(0);
  }

  /** The exchange as a whole, for every script of logins, any two hosts and every delivery with at
      most one short read per part: the names arrive equal to those sent and in order, each CONNECT
      gets exactly one reply, which is written in full, nothing crashes or stalls, and a run that
      cannot go on has consumed the stream and closed at the DISCONNECT. */
  lemma {:induction false} ConnectSessions(a: Env, b: Env, sc: Script, cs: seq<Choice>)
    requires a.crc == b.crc && GoodScript(sc)
    requires LegalRun(b, PeerOf(a, b, sc), Connected(PeerOf(a, b, sc)), cs)
    ensures |cs| <= 2 * |From(PeerOf(a, b, sc), 0)|
    ensures Behaves(PeerOf(a, b, sc), Run(b, PeerOf(a, b, sc), Connected(PeerOf(a, b, sc)), cs))
    ensures Names(PeerOf(a, b, sc), |sc.logins|) == NamesSent(sc, |sc.logins|)
  {
    hide Legal, From;
    ScriptIsUnderstood(a, b, sc);
    SessionServes(b, PeerOf(a, b, sc), cs);
  }

  /** And however the delivery has gone so far, it can go on to the end: every login seen and
      answered, the stream used up, the session closed. */
  lemma {:induction false} ConnectSessionsFinish(a: Env, b: Env, sc: Script, cs: seq<Choice>)
    returns (more: seq<Choice>)
    requires a.crc == b.crc && GoodScript(sc)
    requires LegalRun(b, PeerOf(a, b, sc), Connected(PeerOf(a, b, sc)), cs)
    ensures LegalRun(b, PeerOf(a, b, sc), Connected(PeerOf(a, b, sc)), cs + more)
    ensures Served(PeerOf(a, b, sc), Run(b, PeerOf(a, b, sc), Connected(PeerOf(a, b, sc)), cs + more))
  {
    ScriptIsUnderstood(a, b, sc);
    more := EveryRunCanFinish(b, PeerOf(a, b, sc), cs);
  }
}
