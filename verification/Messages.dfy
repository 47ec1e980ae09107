/** The network messages (src/protocol/protocol_network.h) as field lists. */
module Messages {
  import opened Bytes
  import opened Streams
  import opened Packet

  const NAME_BYTES := 1024

  /** The C string at the front of an array: the bytes before its first zero. */
  function CString(mem: seq<Byte>): (s: seq<Byte>)
    ensures |s| <= |mem| && s == mem[..|s|]
    ensures forall i :: 0 <= i < |s| ==> s[i] != 0
    ensures |s| < |mem| ==> mem[|s|] == 0
  {
    if mem == [] || mem[0] == 0 then [] else [mem[0]] + CString(mem[1..])
  }

  function Text(mem: seq<Byte>): Field {
    Field(TYPE_CHAR, 0, Mem(mem), -1)
  }

  /** MSG_CONNECT_FIELDS: two length-prefixed names, terminators included. */
  function ConnectMessage(client: seq<Byte>, process: seq<Byte>, time: int): (fs: seq<Field>)
    ensures |fs| == 13
  {
    Message(MSG_CONNECT, 0, 1, time,
            [ Entry(TYPE_SHORT, |CString(client)| + 1), Text(client),
              Entry(TYPE_SHORT, |CString(process)| + 1), Text(process) ])
  }

  function ConnectReply(ret: int, priv: int, time: int): (fs: seq<Field>)
    ensures |fs| == 10
  {
    Message(MSG_CONNECT, ret, 1, time, [Entry(TYPE_SHORT, priv)])
  }

  function DisconnectMessage(time: int): (fs: seq<Field>)
    ensures |fs| == 9
  {
    Message(MSG_DISCONNECT, 0, 1, time, [])
  }

  /** A name as the client holds it: an array of at most 1024 bytes with a terminator in it. */
  predicate IsName(mem: seq<Byte>) {
    |CString(mem)| < |mem| <= NAME_BYTES
  }

  predicate ClockFits(time: int) {
    -0x8000_0000 <= time < 0x8000_0000
  }

  // ---------------------------------------------------------------- the messages are well-formed

  lemma {:induction false} ScalarMessageForm(fs: seq<Field>)
    requires |fs| > FIELD_NEXT && fs[FIELD_HMARK].ivalue == HEAD_MARK
    requires forall n :: 0 <= n < |fs| ==> fs[n].data.Null? && ScalarSize(fs[n].ty) > 0
    requires forall n :: 0 <= n < |fs| ==> InRange(fs[n].ivalue, ScalarSize(fs[n].ty))
    requires forall n :: 0 <= n < FIELD_NEXT ==> fs[n].ty == if n == FIELD_HCRC then TYPE_LONGLONG else TYPE_LONG
    requires fs[|fs| - 1].ty == TYPE_LONGLONG
    ensures WellFormed(fs)
  {
    assert forall n :: 0 <= n < |fs| ==> ShapedAt(fs, n);
    assert Shaped(fs);
    assert forall n :: 0 <= n < |fs| ==> FilledAt(fs, n);
  }

  lemma {:induction false} ReplyForm(ret: int, priv: int, time: int)
    requires ClockFits(ret) && -0x8000 <= priv < 0x8000 && ClockFits(time)
    ensures WellFormed(ConnectReply(ret, priv, time))
  {
    Pow256Values();
    ScalarMessageForm(ConnectReply(ret, priv, time));
  }

  lemma {:induction false} DisconnectForm(time: int)
    requires ClockFits(time)
    ensures WellFormed(DisconnectMessage(time))
  {
    Pow256Values();
    ScalarMessageForm(DisconnectMessage(time));
  }

  lemma {:induction false} ConnectForm(client: seq<Byte>, process: seq<Byte>, time: int)
    requires IsName(client) && IsName(process) && ClockFits(time)
    ensures WellFormed(ConnectMessage(client, process, time))
  {
    var fs := ConnectMessage(client, process, time);
    Pow256Values();
    SpanIsProduct(1, |CString(client)| + 1);
    SpanIsProduct(1, |CString(process)| + 1);
    forall n | 0 <= n < |fs|
      ensures ShapedAt(fs, n)
    {
    }
    assert Shaped(fs);
    forall n | 0 <= n < |fs|
      ensures FilledAt(fs, n)
    {
    }
  }
}
