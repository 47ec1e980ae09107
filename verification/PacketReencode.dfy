/** Encoding what was decoded gives back the bytes that were accepted, except the upper halves of
    the two checksum entries, which the decoder does not compare. */
module PacketReencode {
  import opened Bytes
  import opened Streams
  import opened Packet
  import opened PacketProofs
  import opened PacketRoundTrip

  /** A decoded scalar encodes to the bytes it was read from. */
  lemma {:induction false} ScalarBack(f: Field, rest: seq<Byte>)
    requires ScalarSize(f.ty) > 0 && ScalarIn(f, rest).Got?
    ensures var g := ScalarIn(f, rest).field;
      && ScalarSize(f.ty) <= |rest|
      && ScalarOut(g) == Chunk(rest[..ScalarSize(f.ty)])
      && InRange(g.ivalue, ScalarSize(f.ty))
  {
    var size := ScalarSize(f.ty);
    var u := BeValue(rest[..size]);
    UnsignedRoundTrip(u, size);
    BeBytesOfValue(rest[..size]);
    SignedRoundTrip(u, size);
    SignedPattern(u, size);
  }

  lemma {:induction false} SignedPattern(u: nat, n: nat)
    requires n > 0 && u < Pow256(n)
    ensures InRange(ToSigned(u, n), n)
  {
    assert Pow256(n) == 256 * Pow256(n - 1);
  }

  /** Elements read into an array are written as the bytes they were read from. */
  lemma {:induction false} ArrayBack(env: Env, f: Field, rest: seq<Byte>, count: nat)
    requires f.data.Mem? && MoveSize(f.ty) > 0 && ArrayIn(env, f, rest, count).Got?
    ensures var g := ArrayIn(env, f, rest, count).field;
      var bytes := Span(MoveSize(f.ty), count);
      && bytes <= |rest| && g.data.Mem? && bytes <= |g.data.bytes| && g.ty == f.ty && g.count == f.count
      && ArrayOut(env, g.ty, g.data.bytes, count) == Chunk(rest[..bytes])
  {
    var bytes := Span(MoveSize(f.ty), count);
    var g := ArrayIn(env, f, rest, count).field;
    ArrayWireTwice(env.little, MoveSize(f.ty), rest[..bytes]);
    assert g.data.bytes[..bytes] == ArrayWire(env.little, MoveSize(f.ty), rest[..bytes]);
  }

  /** The length entry in front of an array whose count is -1 holds no negative number. */
  predicate LengthGiven(fs: seq<Field>, n: nat)
    requires 0 < n < |fs|
  {
    fs[n].data.Mem? && fs[n].count == -1 ==> fs[n - 1].ivalue >= 0
  }

  /** Every array with a length entry in front of it arrived with a length that is not negative. */
  predicate LengthsGiven(fs: seq<Field>) {
    forall i :: 0 < i < |fs| ==> LengthGiven(fs, i)
  }

  /** One body field back to front: with a length that is not negative, the field just decoded
      encodes to exactly the bytes it used up, and is filled. */
  lemma {:induction false} FieldBack(env: Env, fs: seq<Field>, n: nat, rest: seq<Byte>)
    requires Shaped(fs) && FIELD_BMARK <= n < |fs| && FilledBefore(fs, n)
    requires FieldIn(env, fs, n, rest).Got? && LengthGiven(fs, n)
    ensures var g := FieldIn(env, fs, n, rest).field;
      var r := fs[n := g];
      && FieldIn(env, fs, n, rest).used <= |rest|
      && Shaped(r) && FilledAt(r, n)
      && FieldOut(env, r, n) == Chunk(rest[..FieldIn(env, fs, n, rest).used])
  {
    assert ShapedAt(fs, n) && ShapedAt(fs, n - 1);
    var g := FieldIn(env, fs, n, rest).field;
    var r := fs[n := g];
    assert SameEntry(g, fs[n]);
    ShapeKept(fs, r);
    assert FilledAt(fs, FIELD_COUNT) && ShapedAt(fs, FIELD_COUNT);
    if fs[n].data.Null? {
      ScalarBack(fs[n], rest);
    } else {
      CountBack(env, fs, n, rest);
      ArrayBack(env, fs[n], rest, Count(fs, n));
    }
  }

  /** Everything before n that is not a checksum holds a value of its type. */
  predicate FilledBefore(fs: seq<Field>, n: nat)
    requires Shaped(fs) && n <= |fs|
  {
    forall i :: 0 <= i < n ==> FilledAt(fs, i)
  }

  lemma {:induction false} ShapeKept(fs: seq<Field>, r: seq<Field>)
    requires Shaped(fs) && SameShape(fs, r)
    ensures Shaped(r)
  {
    forall i | 0 <= i < |r|
      ensures ShapedAt(r, i)
    {
      assert ShapedAt(fs, i) && SameEntry(fs[i], r[i]);
      if i > 0 {
        assert SameEntry(fs[i - 1], r[i - 1]);
      }
    }
  }

  /** An accepted array field was read with the count its entries state. */
  lemma {:induction false} CountBack(env: Env, fs: seq<Field>, n: nat, rest: seq<Byte>)
    requires Shaped(fs) && FIELD_BMARK <= n < |fs| && fs[n].data.Mem? && FilledBefore(fs, n)
    requires FieldIn(env, fs, n, rest).Got? && LengthGiven(fs, n)
    ensures n > FIELD_BMARK && 0 <= Count(fs, n) < 0x8000_0000
    ensures FieldIn(env, fs, n, rest) == ArrayIn(env, fs[n], rest, Count(fs, n))
    ensures Int32(Count(fs, n)) == Count(fs, n)
  {
    assert ShapedAt(fs, n);
    if fs[n].count == -1 {
      LengthBack(env, fs, n, rest);
    } else {
      assert ShapedAt(fs, FIELD_COUNT) && FilledAt(fs, FIELD_COUNT);
      ScalarInt32(fs, FIELD_COUNT);
    }
    Int32InRange(Count(fs, n));
  }

  lemma {:induction false} LengthBack(env: Env, fs: seq<Field>, n: nat, rest: seq<Byte>)
    requires Shaped(fs) && FIELD_BMARK < n < |fs| - 1 && fs[n].data.Mem? && fs[n].count == -1
    requires FilledBefore(fs, n) && fs[n - 1].ivalue >= 0
    ensures 0 <= fs[n - 1].ivalue < 0x8000_0000
    ensures FieldIn(env, fs, n, rest) == ArrayIn(env, fs[n], rest, fs[n - 1].ivalue)
  {
    assert ShapedAt(fs, n) && ShapedAt(fs, n - 1) && FilledAt(fs, n - 1);
    ScalarInt32(fs, n - 1);
    EmptyIn(env, fs[n], rest);
  }

  /** A short or long entry that holds a value of its type is its own int value. */
  lemma {:induction false} ScalarInt32(fs: seq<Field>, n: nat)
    requires Shaped(fs) && n < |fs| - 1 && n != FIELD_HCRC && FilledAt(fs, n)
    requires fs[n].data.Null? && CountType(fs[n].ty)
    ensures Int32(fs[n].ivalue) == fs[n].ivalue && -0x8000_0000 <= fs[n].ivalue < 0x8000_0000
  {
    Pow256Values();
    SignedRoundTrip(fs[n].ivalue, 4);
  }

  lemma {:induction false} EmptyIn(env: Env, f: Field, rest: seq<Byte>)
    requires f.data.Mem? && MoveSize(f.ty) > 0
    ensures ArrayIn(env, f, rest, 0) == Got(f, 0)
  {
    assert f.data.bytes[0..] == f.data.bytes;
    assert rest[..0] == [];
  }

  /** Fields a later turn of the body loop leaves alone. */
  lemma {:induction false} DecodedKeeps(env: Env, fs: seq<Field>, n: nat, len: int, wire: seq<Byte>, pos: nat)
    requires FIELD_COUNT < n <= |fs| && pos <= |wire|
    requires DecodeBodyFrom(env, fs, n, len, true, wire, pos).Decoded?
    ensures var d := DecodeBodyFrom(env, fs, n, len, true, wire, pos);
      && |d.fields| == |fs| && pos <= d.pos <= |wire|
      && forall i :: 0 <= i < n ==> d.fields[i] == fs[i]
    decreases |fs| - n
  {
    if n < |fs| {
      var d := BodyTurn(env, fs, n, len, true, wire, pos);
      DecodedKeeps(env, d.fields, n + 1, len, wire, d.pos);
    }
  }

  /** What decoding the fields from n on, from pos to d.pos, has to leave behind. */
  predicate BackFrom(env: Env, d: Decoding, n: nat, wire: seq<Byte>, pos: nat)
    requires d.Decoded?
  {
    && pos <= d.pos <= |wire| && n <= |d.fields|
    && Shaped(d.fields) && FilledBefore(d.fields, |d.fields|)
    && Wire(env, d.fields, n, |d.fields|) == wire[pos..d.pos]
    && (n < |d.fields| ==>
          8 <= d.pos - pos && Low32(d.fields[|d.fields| - 1].ivalue) == SumOf(env, wire[..d.pos - 8]))
  }

  /** The body back to front: the decoded fields, as they stand, encode to the bytes used up. */
  lemma {:induction false} BodyBack(env: Env, fs: seq<Field>, n: nat, wire: seq<Byte>, pos: nat)
    requires Shaped(fs) && FIELD_BMARK <= n <= |fs| && pos <= |wire| && FilledBefore(fs, n)
    requires DecodeBodyFrom(env, fs, n, |fs|, true, wire, pos).Decoded?
    requires LengthsGiven(DecodeBodyFrom(env, fs, n, |fs|, true, wire, pos).fields)
    ensures BackFrom(env, DecodeBodyFrom(env, fs, n, |fs|, true, wire, pos), n, wire, pos)
    decreases |fs| - n
  {
    if n < |fs| {
      var turn := BodyTurn(env, fs, n, |fs|, true, wire, pos);
      var d := DecodeBodyFrom(env, fs, n, |fs|, true, wire, pos);
      DecodedKeeps(env, fs, n, |fs|, wire, pos);
      DecodedKeeps(env, turn.fields, n + 1, |fs|, wire, turn.pos);
      assert d.fields[n - 1] == fs[n - 1] && d.fields[n] == turn.fields[n];
      TurnBack(env, fs, d.fields, n, wire, pos);
      BodyBack(env, turn.fields, n + 1, wire, turn.pos);
      BackStep(env, turn, d, n, wire, pos);
    }
  }

  lemma {:induction false} BackStep(env: Env, turn: Decoding, d: Decoding, n: nat, wire: seq<Byte>, pos: nat)
    requires turn.Decoded? && d.Decoded? && FIELD_BMARK <= n < |turn.fields| == |d.fields|
    requires pos <= turn.pos <= |wire| && BackFrom(env, d, n + 1, wire, turn.pos)
    requires forall i :: 0 <= i <= n ==> d.fields[i] == turn.fields[i]
    requires FieldOut(env, turn.fields, n) == Chunk(wire[pos..turn.pos])
    requires n == |d.fields| - 1 ==>
      turn.pos == pos + 8 && Low32(turn.fields[n].ivalue) == SumOf(env, wire[..pos])
    ensures BackFrom(env, d, n, wire, pos)
  {
    FieldOutLocal(env, turn.fields, d.fields, n);
    Glue(wire, pos, turn.pos, d.pos);
    if n == |d.fields| - 1 {
      assert Wire(env, d.fields, n + 1, |d.fields|) == [];
      assert |wire[turn.pos..d.pos]| == 0;
    }
  }

  lemma {:induction false} Glue(wire: seq<Byte>, x: nat, y: nat, z: nat)
    requires x <= y <= z <= |wire|
    ensures wire[x..y] + wire[y..z] == wire[x..z]
  {
  }

  /** One turn of BodyBack. */
  lemma {:induction false} TurnBack(env: Env, fs: seq<Field>, r: seq<Field>, n: nat, wire: seq<Byte>, pos: nat)
    requires Shaped(fs) && FIELD_BMARK <= n < |fs| && pos <= |wire| && FilledBefore(fs, n)
    requires BodyTurn(env, fs, n, |fs|, true, wire, pos).Decoded?
    requires |r| == |fs| && r[n - 1] == fs[n - 1]
    requires r[n] == BodyTurn(env, fs, n, |fs|, true, wire, pos).fields[n] && LengthGiven(r, n)
    ensures var d := BodyTurn(env, fs, n, |fs|, true, wire, pos);
      && Shaped(d.fields) && FilledBefore(d.fields, n + 1)
      && FieldOut(env, d.fields, n) == Chunk(wire[pos..d.pos])
      && (n == |fs| - 1 ==> d.pos == pos + 8 && Low32(d.fields[n].ivalue) == SumOf(env, wire[..pos]))
  {
    var g := FieldIn(env, fs, n, wire[pos..]);
    assert SameEntry(g.field, fs[n]);
    FieldBack(env, fs, n, wire[pos..]);
    var d := BodyTurn(env, fs, n, |fs|, true, wire, pos);
    assert wire[pos..][..g.used] == wire[pos..d.pos];
    forall i | 0 <= i < n + 1
      ensures FilledAt(d.fields, i)
    {
      if i < n {
        assert FilledAt(fs, i) && ShapedAt(fs, i);
      }
    }
    if n == |fs| - 1 {
      assert ShapedAt(fs, n);
    }
  }

  // ---------------------------------------------------------------- header and whole packets

  /** Header field i holds the four bytes it was read from. */
  predicate HeadField(h: seq<Field>, i: nat, head: seq<Byte>)
    requires i < FIELD_HCRC && |h| >= FIELD_BMARK && |head| == HEADER_BYTES
  {
    ScalarOut(h[i]) == Chunk(head[4 * i..4 * i + 4]) && InRange(h[i].ivalue, 4)
  }

  /** What decoding the header fields from n on has to leave behind. */
  predicate HeadFrom(env: Env, h: seq<Field>, n: nat, head: seq<Byte>) {
    && |h| >= FIELD_BMARK && |head| == HEADER_BYTES
    && (forall i :: n <= i < FIELD_HCRC ==> HeadField(h, i, head))
    && (n <= FIELD_HMARK ==> Low32(h[FIELD_HMARK].ivalue) == HEAD_MARK)
    && (n <= FIELD_HCRC ==>
          ScalarOut(h[FIELD_HCRC]) == Chunk(head[24..32]) && Low32(h[FIELD_HCRC].ivalue) == SumOf(env, head[..24]))
  }

  lemma {:induction false} HeaderTurnBack(env: Env, fs: seq<Field>, n: nat, head: seq<Byte>)
    requires HeaderTemplate(fs) && n < FIELD_BMARK && |head| == HEADER_BYTES
    requires HeaderTurn(env, fs, n, true, head, 4 * n).Decoded?
    ensures var d := HeaderTurn(env, fs, n, true, head, 4 * n);
      && d.pos == (if n == FIELD_HCRC then HEADER_BYTES else 4 * (n + 1))
      && HeaderTemplate(d.fields) && SameShape(fs, d.fields)
      && (forall i :: 0 <= i < |fs| && i != n ==> d.fields[i] == fs[i])
      && (n < FIELD_HCRC ==> HeadField(d.fields, n, head))
      && (n == FIELD_HMARK ==> Low32(d.fields[n].ivalue) == HEAD_MARK)
      && (n == FIELD_HCRC ==>
            ScalarOut(d.fields[n]) == Chunk(head[24..32]) && Low32(d.fields[n].ivalue) == SumOf(env, head[..24]))
  {
    ScalarBack(fs[n], head[4 * n..]);
    var size := ScalarSize(fs[n].ty);
    assert head[4 * n..][..size] == head[4 * n..4 * n + size];
  }

  lemma {:induction false} HeaderBack(env: Env, fs: seq<Field>, n: nat, head: seq<Byte>, pos: nat)
    requires HeaderTemplate(fs) && n <= FIELD_BMARK && |head| == HEADER_BYTES
    requires pos == if n == FIELD_BMARK then HEADER_BYTES else 4 * n
    requires DecodeHeaderFrom(env, fs, n, true, head, pos).Decoded?
    ensures var d := DecodeHeaderFrom(env, fs, n, true, head, pos);
      && SameShape(fs, d.fields) && HeadFrom(env, d.fields, n, head)
      && forall i :: 0 <= i < n ==> d.fields[i] == fs[i]
    decreases FIELD_BMARK - n
  {
    hide ScalarIn, HeaderTurn;
    if n < FIELD_BMARK {
      HeaderTurnBack(env, fs, n, head);
      var turn := HeaderTurn(env, fs, n, true, head, pos);
      HeaderBack(env, turn.fields, n + 1, head, turn.pos);
      var d := DecodeHeaderFrom(env, fs, n, true, head, pos);
      ShapeTransitive(fs, turn.fields, d.fields);
      assert d.fields[n] == turn.fields[n];
    }
  }

  lemma {:induction false} ShapeTransitive(x: seq<Field>, y: seq<Field>, z: seq<Field>)
    requires SameShape(x, y) && SameShape(y, z)
    ensures SameShape(x, z)
  {
    forall i | 0 <= i < |x|
      ensures SameEntry(x[i], z[i])
    {
      assert SameEntry(x[i], y[i]) && SameEntry(y[i], z[i]);
    }
  }

  lemma {:induction false} SameValueSameBytes(x: seq<Byte>, y: seq<Byte>)
    requires |x| == |y| && BeValue(x) == BeValue(y)
    ensures x == y
  {
    BeBytesOfValue(x);
    BeBytesOfValue(y);
  }

  lemma {:induction false} Low32Of64(v: int)
    ensures Low32(v) == ToUnsigned(v, 8) % 0x1_0000_0000
  {
    Pow256Values();
  }

  lemma {:induction false} LowHalfValue(u: nat)
    requires u < Pow256(8)
    ensures BeValue(BeBytes(u, 8)[4..]) == u % 0x1_0000_0000
  {
    Pow256Values();
    var bs := BeBytes(u, 8);
    assert bs == bs[..4] + bs[4..];
    BeValueOfBytes(u, 8);
    BeValueConcat(bs[..4], bs[4..]);
  }

  /** The low four of the eight bytes of a checksum entry. */
  function LowBytes(v: int): seq<Byte> {
    BeBytes(ToUnsigned(v, 8), 8)[4..]
  }

  /** They are fixed by the 32 bits the decoder compares. */
  lemma {:induction false} LowHalf(v: int, c: nat)
    requires Low32(v) == c
    ensures LowBytes(v) == LowBytes(c)
  {
    Low32Of64(v);
    Low32Of64(c);
    Low32Twice(v);
    LowHalfValue(ToUnsigned(v, 8));
    LowHalfValue(ToUnsigned(c, 8));
    SameValueSameBytes(LowBytes(v), LowBytes(c));
  }

  lemma {:induction false} Low32Twice(v: int)
    ensures Low32(Low32(v)) == Low32(v)
  {
    Pow256Values();
  }

  /** Where a re-encoded packet may differ from the accepted one: the upper halves of the header
      checksum and of the body checksum, which ends the packet. */
  predicate UpperHalfOfSum(i: nat, length: nat) {
    24 <= i < 28 || length - 8 <= i < length - 4
  }

  /** Decode, then encode: for every accepted packet, provided no -1 array arrived with a negative
      length, the decoded list is well-formed and encoding it writes as many bytes as were read,
      equal to them everywhere but in the upper halves of the two checksums. */
  lemma {:induction false} DecodeThenEncode(env: Env, htmpl: seq<Field>, tmpl: seq<Field>, packet: seq<Byte>)
    requires HeaderTemplate(htmpl) && Shaped(tmpl) && |packet| >= HEADER_BYTES
    requires forall i :: 0 <= i < FIELD_BMARK ==> SameEntry(htmpl[i], tmpl[i])
    requires DecodePacket(env, htmpl, tmpl, packet).Decoded?
    requires LengthsGiven(DecodePacket(env, htmpl, tmpl, packet).fields)
    ensures var d := DecodePacket(env, htmpl, tmpl, packet);
      && WellFormed(d.fields) && |PacketBytes(env, d.fields)| == d.pos <= |packet|
      && Encode(env, d.fields, |tmpl|, d.pos) == Encoded(Seal(env, d.fields), PacketBytes(env, d.fields))
      && forall i :: 0 <= i < d.pos && !UpperHalfOfSum(i, d.pos) ==> PacketBytes(env, d.fields)[i] == packet[i]
  {
    var head, rest := packet[..HEADER_BYTES], packet[HEADER_BYTES..];
    var header := DecodeHeader(env, htmpl, true, head);
    HeaderBack(env, htmpl, 0, head, 0);
    var t := WithHeader(tmpl, header.fields);
    HeadedShape(env, htmpl, tmpl, header.fields, t, head);
    var body := DecodeBody(env, t, |t|, true, rest);
    assert HeadFrom(env, t, 0, head) by { HeadCopied(env, header.fields, t, head); }
    PartsBack(env, t, head, rest);
    EncodeWellFormed(env, body.fields, HEADER_BYTES + body.pos);
    SamePacket(PacketBytes(env, body.fields), packet, body.pos);
  }

  lemma {:induction false} SamePacket(p: seq<Byte>, packet: seq<Byte>, end: nat)
    requires 8 <= end && |p| == HEADER_BYTES + end <= |packet|
    requires p[..24] == packet[..HEADER_BYTES][..24] && p[28..32] == packet[..HEADER_BYTES][28..]
    requires p[32..24 + end] == packet[HEADER_BYTES..][..end - 8]
    requires p[28 + end..] == packet[HEADER_BYTES..][end - 4..end]
    ensures forall i :: 0 <= i < |p| && !UpperHalfOfSum(i, |p|) ==> p[i] == packet[i]
  {
    forall i | 0 <= i < |p| && !UpperHalfOfSum(i, |p|)
      ensures p[i] == packet[i]
    {
      if i < 24 {
        assert p[i] == p[..24][i] == packet[..HEADER_BYTES][..24][i];
      } else if i < 32 {
        assert p[i] == p[28..32][i - 28] == packet[..HEADER_BYTES][28..][i - 28];
      } else if i < 24 + end {
        assert p[i] == p[32..24 + end][i - 32] == packet[HEADER_BYTES..][..end - 8][i - 32];
      } else {
        assert p[i] == p[28 + end..][i - 28 - end] == packet[HEADER_BYTES..][end - 4..end][i - 28 - end];
      }
    }
  }

  lemma {:induction false} HeadCopied(env: Env, h: seq<Field>, t: seq<Field>, head: seq<Byte>)
    requires HeadFrom(env, h, 0, head) && |t| >= FIELD_BMARK
    requires forall i :: 0 <= i < FIELD_BMARK ==> t[i] == h[i]
    ensures HeadFrom(env, t, 0, head)
  {
    forall i | 0 <= i < FIELD_HCRC
      ensures HeadField(t, i, head)
    {
      assert HeadField(h, i, head);
    }
  }

  /** Header and body of an accepted packet, decoded and re-encoded. */
  lemma {:induction false} PartsBack(env: Env, t: seq<Field>, head: seq<Byte>, rest: seq<Byte>)
    requires Shaped(t) && FilledBefore(t, FIELD_BMARK) && HeadFrom(env, t, 0, head)
    requires DecodeBody(env, t, |t|, true, rest).Decoded?
    requires LengthsGiven(DecodeBody(env, t, |t|, true, rest).fields)
    ensures var d := DecodeBody(env, t, |t|, true, rest);
      && WellFormed(d.fields) && 8 <= d.pos
      && var p := PacketBytes(env, d.fields);
      && |p| == HEADER_BYTES + d.pos
      && p[..24] == head[..24] && p[28..32] == head[28..]
      && p[32..24 + d.pos] == rest[..d.pos - 8] && p[28 + d.pos..] == rest[d.pos - 4..d.pos]
  {
    hide Wire;
    BodyBack(env, t, FIELD_BMARK, rest, 0);
    DecodedKeeps(env, t, FIELD_BMARK, |t|, rest, 0);
    var d := DecodeBody(env, t, |t|, true, rest);
    assert HeadFrom(env, d.fields, 0, head) by { HeadCopied(env, t, d.fields, head); }
    assert HeadField(d.fields, FIELD_HMARK, head);
    MarkBack(d.fields[FIELD_HMARK].ivalue);
    HeaderWire(env, d.fields, head, FIELD_HCRC);
    SealedParts(env, d.fields, head, rest, d.pos);
  }

  lemma {:induction false} MarkBack(v: int)
    requires Low32(v) == HEAD_MARK && InRange(v, 4)
    ensures v == HEAD_MARK
  {
    Pow256Values();
    SignedRoundTrip(v, 4);
  }

  lemma {:induction false} HeadedShape(env: Env, htmpl: seq<Field>, tmpl: seq<Field>, h: seq<Field>, t: seq<Field>,
                                       head: seq<Byte>)
    requires HeaderTemplate(htmpl) && Shaped(tmpl) && |h| == |htmpl| && t == WithHeader(tmpl, h)
    requires forall i :: 0 <= i < FIELD_BMARK ==> SameEntry(htmpl[i], tmpl[i])
    requires SameShape(htmpl, h) && HeadFrom(env, h, 0, head)
    ensures Shaped(t) && FilledBefore(t, FIELD_BMARK)
  {
    forall i | 0 <= i < |t|
      ensures SameEntry(tmpl[i], t[i])
    {
      if i < FIELD_BMARK {
        assert SameEntry(htmpl[i], tmpl[i]) && SameEntry(htmpl[i], h[i]);
      }
    }
    ShapeKept(tmpl, t);
    forall i | 0 <= i < FIELD_BMARK
      ensures FilledAt(t, i)
    {
      assert ShapedAt(t, i);
      if i < FIELD_HCRC {
        assert HeadField(h, i, head);
      }
    }
  }

  /** The first n header fields, each the four bytes it was read from. */
  lemma {:induction false} HeaderWire(env: Env, fs: seq<Field>, head: seq<Byte>, n: nat)
    requires Shaped(fs) && n <= FIELD_HCRC && HeadFrom(env, fs, 0, head)
    ensures Wire(env, fs, 0, n) == head[..4 * n]
  {
    if n > 0 {
      HeaderWire(env, fs, head, n - 1);
      WireSnoc(env, fs, 0, n - 1);
      assert ShapedAt(fs, n - 1) && HeadField(fs, n - 1, head);
      Glue(head, 0, 4 * (n - 1), 4 * n);
    }
  }

  /** A checksum entry is written as its eight bytes. */
  lemma {:induction false} SumBytes(env: Env, fs: seq<Field>, n: nat)
    requires Shaped(fs) && n < |fs| && (n == FIELD_HCRC || n == |fs| - 1)
    ensures FieldOut(env, fs, n) == ScalarOut(fs[n]) == Chunk(BeBytes(ToUnsigned(fs[n].ivalue, 8), 8))
  {
    assert ShapedAt(fs, n);
  }

  /** Re-sealing an accepted list writes both parts as they were read, but for the upper halves. */
  lemma {:induction false} SealedParts(env: Env, r: seq<Field>, head: seq<Byte>, rest: seq<Byte>, end: nat)
    requires WellFormed(r) && |head| == HEADER_BYTES && 8 <= end <= |rest|
    requires Wire(env, r, 0, FIELD_HCRC) == head[..24] && ScalarOut(r[FIELD_HCRC]) == Chunk(head[24..32])
    requires Low32(r[FIELD_HCRC].ivalue) == SumOf(env, head[..24])
    requires Wire(env, r, FIELD_BMARK, |r|) == rest[..end]
    requires Low32(r[|r| - 1].ivalue) == SumOf(env, rest[..end - 8])
    ensures var p := PacketBytes(env, r);
      && |p| == HEADER_BYTES + end
      && p[..24] == head[..24] && p[28..32] == head[28..]
      && p[32..24 + end] == rest[..end - 8] && p[28 + end..] == rest[end - 4..end]
  {
    var p := PacketBytes(env, r);
    SealedHead(env, r, head);
    SealedTail(env, r, rest, end);
    PacketParts(env, r);
    assert p[..24] == p[..32][..24] && p[28..32] == p[..32][28..];
    assert p[32..24 + end] == p[32..][..end - 8] && p[28 + end..] == p[32..][end - 4..];
  }

  lemma {:induction false} SealedHead(env: Env, r: seq<Field>, head: seq<Byte>)
    requires WellFormed(r) && |head| == HEADER_BYTES
    requires Wire(env, r, 0, FIELD_HCRC) == head[..24] && ScalarOut(r[FIELD_HCRC]) == Chunk(head[24..32])
    requires Low32(r[FIELD_HCRC].ivalue) == SumOf(env, head[..24])
    ensures var part := Wire(env, Seal(env, r), 0, FIELD_BMARK);
      |part| == HEADER_BYTES && part[..24] == head[..24] && part[28..] == head[28..]
  {
    var s := Seal(env, r);
    SealedFields(env, r);
    WireLocal(env, r, s, 0, FIELD_HCRC);
    WireSnoc(env, s, 0, FIELD_HCRC);
    SumBytes(env, r, FIELD_HCRC);
    SumBytes(env, s, FIELD_HCRC);
    LowHalf(r[FIELD_HCRC].ivalue, s[FIELD_HCRC].ivalue);
    assert head[24..32][4..] == head[28..];
    var part := Wire(env, s, 0, FIELD_BMARK);
    assert part[24..] == FieldBytes(env, s, FIELD_HCRC) && part[28..] == part[24..][4..];
  }

  lemma {:induction false} SealedTail(env: Env, r: seq<Field>, rest: seq<Byte>, end: nat)
    requires WellFormed(r) && 8 <= end <= |rest|
    requires Wire(env, r, FIELD_BMARK, |r|) == rest[..end]
    requires Low32(r[|r| - 1].ivalue) == SumOf(env, rest[..end - 8])
    ensures var part := Wire(env, Seal(env, r), FIELD_BMARK, |r|);
      |part| == end && part[..end - 8] == rest[..end - 8] && part[end - 4..] == rest[end - 4..end]
  {
    hide Wire;
    var s := Seal(env, r);
    var last := |r| - 1;
    SealedFields(env, r);
    WireSnoc(env, r, FIELD_BMARK, last);
    WireSnoc(env, s, FIELD_BMARK, last);
    assert ShapedAt(r, FIELD_BMARK);
    WireLocal(env, r, s, FIELD_BMARK, last);
    BodyMarkFirst(env, r, last);
    SumBytes(env, r, last);
    SumBytes(env, s, last);
    TailOf(Wire(env, r, FIELD_BMARK, last), FieldBytes(env, r, last), rest, end);
    LowHalf(r[last].ivalue, s[last].ivalue);
    TailOf(Wire(env, s, FIELD_BMARK, last), FieldBytes(env, s, last), Wire(env, s, FIELD_BMARK, |r|), end);
  }

  lemma {:induction false} TailOf(x: seq<Byte>, y: seq<Byte>, rest: seq<Byte>, end: nat)
    requires |y| == 8 && end <= |rest| && x + y == rest[..end]
    ensures x == rest[..end - 8] && y[4..] == rest[end - 4..end]
  {
    assert x == (x + y)[..end - 8] && y[4..] == (x + y)[end - 4..];
    assert rest[..end][..end - 8] == rest[..end - 8] && rest[..end][end - 4..] == rest[end - 4..end];
  }
}
