/** Exact sizing of packets and unique framing of a byte stream made of packets. */
module PacketSizes {
  import opened Bytes
  import opened Streams
  import opened Packet
  import opened PacketProofs
  import opened PacketRoundTrip

  /** A long long array with at least one element: fields_size counts 8 bytes per element,
      the streams move 4. */
  predicate LongLongArray(fs: seq<Field>, n: nat)
    requires WellFormed(fs) && n < |fs|
  {
    assert ShapedAt(fs, n);
    fs[n].data.Mem? && fs[n].ty == TYPE_LONGLONG && Count(fs, n) > 0
  }

  predicate NoLongLongArrays(fs: seq<Field>, a: nat, b: nat)
    requires WellFormed(fs) && a <= b <= |fs|
  {
    forall n :: a <= n < b ==> !LongLongArray(fs, n)
  }

  /** fields_size predicts a field's bytes exactly unless it is a non-empty long long array, and
      then it predicts too many. */
  lemma {:induction false} FieldSizeExact(env: Env, fs: seq<Field>, n: nat)
    requires WellFormed(fs) && n < |fs|
    ensures |FieldBytes(env, fs, n)| <= FieldSize(fs, n)
    ensures |FieldBytes(env, fs, n)| == FieldSize(fs, n) <==> !LongLongArray(fs, n)
  {
    assert ShapedAt(fs, n) && FilledAt(fs, n);
    FieldOutDefined(env, fs, n);
    if fs[n].data.Mem? {
      CountEntry(fs);
      var count := Count(fs, n);
      SpanIsProduct(MoveSize(fs[n].ty), count);
      ProductGrows(MoveSize(fs[n].ty), SizeOfType(fs[n].ty), count);
    }
  }

  lemma {:induction false} ProductGrows(x: nat, y: nat, n: nat)
    requires x <= y
    ensures x * n <= y * n && (x < y && n > 0 ==> x * n < y * n)
  {
  }

  lemma {:induction false} CountEntry(fs: seq<Field>)
    requires WellFormed(fs)
    ensures Int32(fs[FIELD_COUNT].ivalue) == fs[FIELD_COUNT].ivalue
  {
    assert ShapedAt(fs, FIELD_COUNT) && FilledAt(fs, FIELD_COUNT);
    SignedRoundTrip(fs[FIELD_COUNT].ivalue, 4);
  }

  /** The predicted size of any run of fields is what they write exactly when the run holds no
      non-empty long long array. */
  lemma {:induction false} SizeExact(env: Env, fs: seq<Field>, a: nat, b: nat)
    requires WellFormed(fs) && a <= b <= |fs|
    ensures |Wire(env, fs, a, b)| <= SizeSum(fs, a, b)
    ensures |Wire(env, fs, a, b)| == SizeSum(fs, a, b) <==> NoLongLongArrays(fs, a, b)
    decreases b
  {
    if a < b {
      SizeExact(env, fs, a, b - 1);
      WireSnoc(env, fs, a, b - 1);
      FieldSizeExact(env, fs, b - 1);
      NoLongLongSnoc(fs, a, b - 1);
    }
  }

  lemma {:induction false} NoLongLongSnoc(fs: seq<Field>, a: nat, n: nat)
    requires WellFormed(fs) && a <= n < |fs|
    ensures NoLongLongArrays(fs, a, n + 1) <==> NoLongLongArrays(fs, a, n) && !LongLongArray(fs, n)
  {
  }

  /** Setting the body size entry, as both send_packet functions do before encoding. */
  function WithBodySize(fs: seq<Field>): (r: seq<Field>)
    requires |fs| > FIELD_NEXT
    ensures |r| == |fs|
  {
    fs[FIELD_BSIZE := fs[FIELD_BSIZE].(ivalue := SizeSum(fs, FIELD_BMARK, |fs|))]
  }

  predicate Sendable(fs: seq<Field>) {
    WellFormed(fs) && SizeSum(fs, FIELD_BMARK, |fs|) < 0x8000_0000
  }

  lemma {:induction false} BodySizeKeepsForm(fs: seq<Field>)
    requires Sendable(fs)
    ensures WellFormed(WithBodySize(fs))
    ensures forall n :: 0 <= n < |fs| ==> FieldSize(WithBodySize(fs), n) == FieldSize(fs, n)
    ensures forall n :: 0 <= n < |fs| ==> LongLongArray(WithBodySize(fs), n) == LongLongArray(fs, n)
  {
    var r := WithBodySize(fs);
    Pow256Values();
    SizeNonNegative(fs, FIELD_BMARK, |fs|);
    forall n | 0 <= n < |fs|
      ensures ShapedAt(r, n) && FieldSize(r, n) == FieldSize(fs, n)
    {
      assert ShapedAt(fs, n);
    }
    assert Shaped(r);
    forall n | 0 <= n < |fs|
      ensures FilledAt(r, n)
    {
      assert ShapedAt(fs, n) && FilledAt(fs, n);
    }
    forall n | 0 <= n < |fs|
      ensures LongLongArray(r, n) == LongLongArray(fs, n)
    {
      assert ShapedAt(fs, n) && ShapedAt(fs, FIELD_BSIZE);
    }
  }

  lemma {:induction false} SizeNonNegative(fs: seq<Field>, a: nat, b: nat)
    requires WellFormed(fs) && a <= b <= |fs|
    ensures SizeSum(fs, a, b) >= 0
  {
    SizeExact(Env(_ => 0, true), fs, a, b);
  }

  lemma {:induction false} SizeSumSame(fs: seq<Field>, gs: seq<Field>, a: nat, b: nat)
    requires FIELD_COUNT < |fs| == |gs| && a <= b <= |fs|
    requires forall n :: 0 <= n < |fs| ==> FieldSize(fs, n) == FieldSize(gs, n)
    ensures SizeSum(fs, a, b) == SizeSum(gs, a, b)
    decreases b
  {
    if a < b {
      SizeSumSame(fs, gs, a, b - 1);
    }
  }

  lemma {:induction false} SizeSumSplit(fs: seq<Field>, a: nat, b: nat, c: nat)
    requires FIELD_COUNT < |fs| && a <= b <= c <= |fs|
    ensures SizeSum(fs, a, c) == SizeSum(fs, a, b) + SizeSum(fs, b, c)
    decreases c
  {
    if b < c {
      SizeSumSplit(fs, a, b, c - 1);
    }
  }

  lemma {:induction false} SealedSizes(env: Env, fs: seq<Field>)
    requires WellFormed(fs)
    ensures WellFormed(Seal(env, fs))
    ensures forall n :: 0 <= n < |fs| ==> FieldSize(Seal(env, fs), n) == FieldSize(fs, n)
    ensures forall n :: 0 <= n < |fs| ==> LongLongArray(Seal(env, fs), n) == LongLongArray(fs, n)
  {
    SealedFields(env, fs);
    SealedFilled(env, fs);
    forall n | 0 <= n < |fs|
      ensures FieldSize(Seal(env, fs), n) == FieldSize(fs, n)
      ensures LongLongArray(Seal(env, fs), n) == LongLongArray(fs, n)
    {
      assert ShapedAt(fs, n) && ShapedAt(fs, FIELD_HCRC) && FilledAt(fs, n);
    }
  }

  /** What send_packet relies on: the header is 32 bytes, the predicted total is header plus body,
      and a buffer of the predicted total is filled to its end, with the body size entry telling
      the body's length, exactly when no non-empty long long array is sent. */
  lemma {:induction false} SendFillsBuffer(env: Env, fs: seq<Field>)
    requires Sendable(fs)
    ensures WellFormed(WithBodySize(fs))
    ensures SizeSum(fs, 0, FIELD_BMARK) == HEADER_BYTES
    ensures SizeSum(fs, 0, |fs|) == HEADER_BYTES + SizeSum(fs, FIELD_BMARK, |fs|)
    ensures var packet := PacketBytes(env, WithBodySize(fs));
      && HEADER_BYTES <= |packet| <= SizeSum(fs, 0, |fs|)
      && Encode(env, WithBodySize(fs), |fs|, SizeSum(fs, 0, |fs|))
         == Encoded(Seal(env, WithBodySize(fs)), packet)
      && (|packet| == SizeSum(fs, 0, |fs|) <==> NoLongLongArrays(fs, 0, |fs|))
      && (|packet| == HEADER_BYTES + WithBodySize(fs)[FIELD_BSIZE].ivalue <==> NoLongLongArrays(fs, 0, |fs|))
  {
    var g := WithBodySize(fs);
    BodySizeKeepsForm(fs);
    var s := Seal(env, g);
    SealedSizes(env, g);
    SizeSumSame(fs, s, 0, |fs|);
    SizeSumSame(fs, s, FIELD_BMARK, |fs|);
    SizeSumSame(fs, s, 0, FIELD_BMARK);
    SizeExact(env, s, 0, |fs|);
    SizeExact(env, s, 0, FIELD_BMARK);
    HeaderIs32(env, s);
    WireSplit(env, s, 0, FIELD_BMARK, |fs|);
    SizeSumSplit(fs, 0, FIELD_BMARK, |fs|);
    forall n | 0 <= n < FIELD_BMARK
      ensures !LongLongArray(s, n)
    {
      assert ShapedAt(s, n);
    }
    assert NoLongLongArrays(s, 0, |fs|) == NoLongLongArrays(fs, 0, |fs|);
    SizeNonNegative(fs, FIELD_BMARK, |fs|);
    EncodeWellFormed(env, g, SizeSum(fs, 0, |fs|));
  }

  // ---------------------------------------------------------------- framing

  /** A packet whose size entry tells the length of its body on the wire. */
  predicate Framed(env: Env, fs: seq<Field>) {
    WellFormed(fs) && |PacketBytes(env, fs)| == HEADER_BYTES + fs[FIELD_BSIZE].ivalue
  }

  predicate AllFramed(env: Env, packets: seq<seq<Field>>) {
    forall i :: 0 <= i < |packets| ==> Framed(env, packets[i])
  }

  /** The packets as byte strings, and laid end to end. */
  function PacketsBytes(env: Env, packets: seq<seq<Field>>): (r: seq<seq<Byte>>)
    requires AllFramed(env, packets)
    ensures |r| == |packets|
  {
    if packets == [] then []
    else
      assert Framed(env, packets[0]);
      [PacketBytes(env, packets[0])] + PacketsBytes(env, packets[1..])
  }

  function Concat(parts: seq<seq<Byte>>): seq<Byte> {
    if parts == [] then [] else parts[0] + Concat(parts[1..])
  }

  datatype Frames = Frames(packets: seq<seq<Byte>>) | BadStream

  /** Cutting a stream as the session does: a 32-byte header, then as many bytes as it says. */
  function Deframe(env: Env, htmpl: seq<Field>, stream: seq<Byte>): Frames
    requires |htmpl| >= FIELD_BMARK
    decreases |stream|
  {
    if stream == [] then Frames([])
    else if |stream| < HEADER_BYTES then BadStream
    else
      var header := DecodeHeader(env, htmpl, true, stream[..HEADER_BYTES]);
      if header.DecodeFailed? || |header.fields| <= FIELD_BSIZE then BadStream
      else
        var size := Int32(header.fields[FIELD_BSIZE].ivalue);
        if size < 0 || HEADER_BYTES + size > |stream| then BadStream
        else
          match Deframe(env, htmpl, stream[HEADER_BYTES + size..])
          case BadStream => BadStream
          case Frames(packets) => Frames([stream[..HEADER_BYTES + size]] + packets)
  }

  /** The header at the front of a stream decodes to the sealed header of its packet. */
  lemma {:induction false} HeaderOfPacket(a: Env, b: Env, fs: seq<Field>, htmpl: seq<Field>, rest: seq<Byte>)
    requires a.crc == b.crc && WellFormed(fs) && HeaderTemplate(htmpl)
    ensures |PacketBytes(a, fs)| >= HEADER_BYTES
    ensures DecodeHeader(b, htmpl, true, (PacketBytes(a, fs) + rest)[..HEADER_BYTES])
         == Decoded(HeaderRead(Seal(a, fs), htmpl, FIELD_BMARK), HEADER_BYTES)
  {
    var s := Seal(a, fs);
    SealSeals(a, fs);
    PacketParts(a, fs);
    assert (PacketBytes(a, fs) + rest)[..HEADER_BYTES] == Wire(a, s, 0, FIELD_BMARK);
    HeaderTrip(a, b, s, htmpl, 0, Wire(a, s, 0, FIELD_BMARK));
    assert HeaderRead(s, htmpl, 0) == htmpl;
  }

  /** One cut: the first packet comes off the stream whole. */
  lemma {:induction false} FirstFrame(a: Env, b: Env, htmpl: seq<Field>, p: seq<Field>, rest: seq<Byte>)
    requires a.crc == b.crc && HeaderTemplate(htmpl) && Framed(a, p)
    ensures Deframe(b, htmpl, PacketBytes(a, p) + rest)
         == match Deframe(b, htmpl, rest)
            case BadStream => BadStream
            case Frames(packets) => Frames([PacketBytes(a, p)] + packets)
  {
    var stream := PacketBytes(a, p) + rest;
    HeaderOfPacket(a, b, p, htmpl, rest);
    SealedFields(a, p);
    assert ShapedAt(p, FIELD_BSIZE) && FilledAt(p, FIELD_BSIZE);
    SignedRoundTrip(p[FIELD_BSIZE].ivalue, 4);
    assert stream[|PacketBytes(a, p)|..] == rest && stream[..|PacketBytes(a, p)|] == PacketBytes(a, p);
  }

  /** For any packets laid end to end, cutting the stream recovers exactly those packets. */
  lemma {:induction false} FramingIsUnique(a: Env, b: Env, htmpl: seq<Field>, packets: seq<seq<Field>>)
    requires a.crc == b.crc && HeaderTemplate(htmpl) && AllFramed(a, packets)
    ensures Deframe(b, htmpl, Concat(PacketsBytes(a, packets))) == Frames(PacketsBytes(a, packets))
    decreases |packets|
  {
    if packets != [] {
      var parts := PacketsBytes(a, packets[1..]);
      assert Framed(a, packets[0]);
      assert PacketsBytes(a, packets)[1..] == parts;
      FirstFrame(a, b, htmpl, packets[0], Concat(parts));
      FramingIsUnique(a, b, htmpl, packets[1..]);
    }
  }

  /** So two packet sequences with the same byte stream consist of the same packets. */
  lemma {:induction false} StreamDeterminesPackets(env: Env, ps: seq<seq<Field>>, qs: seq<seq<Field>>)
    requires AllFramed(env, ps) && AllFramed(env, qs)
    requires Concat(PacketsBytes(env, ps)) == Concat(PacketsBytes(env, qs))
    ensures PacketsBytes(env, ps) == PacketsBytes(env, qs)
  {
    CommonIsTemplate(0);
    FramingIsUnique(env, env, CommonMessage(0), ps);
    FramingIsUnique(env, env, CommonMessage(0), qs);
  }
}
