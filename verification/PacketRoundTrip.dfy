/** Decoding what was encoded gives back every value and every array element. */
module PacketRoundTrip {
  import opened Bytes
  import opened Streams
  import opened Packet
  import opened PacketProofs

  predicate SameEntry(f: Field, g: Field) {
    f.ty == g.ty && f.count == g.count && f.data.Mem? == g.data.Mem?
  }

  predicate SameShape(fs: seq<Field>, gs: seq<Field>) {
    |fs| == |gs| && forall i :: 0 <= i < |fs| ==> SameEntry(fs[i], gs[i])
  }

  /** The template's arrays are large enough for the elements that will arrive. */
  predicate HasCapacity(fs: seq<Field>, tmpl: seq<Field>)
    requires WellFormed(fs) && SameShape(fs, tmpl)
  {
    forall i :: FIELD_BMARK <= i < |fs| && tmpl[i].data.Mem? ==> RoomAt(fs, tmpl, i)
  }

  predicate RoomAt(fs: seq<Field>, tmpl: seq<Field>, i: nat)
    requires WellFormed(fs) && SameShape(fs, tmpl) && i < |fs| && tmpl[i].data.Mem?
  {
    assert SameEntry(fs[i], tmpl[i]) && FilledAt(fs, i);
    Extent(fs, i) <= |tmpl[i].data.bytes|
  }

  lemma {:induction false} ScalarRoundTrip(f: Field, g: Field, tail: seq<Byte>)
    requires f.ty == g.ty && ScalarSize(f.ty) > 0 && InRange(f.ivalue, ScalarSize(f.ty))
    ensures ScalarOut(f).Chunk? && |ScalarOut(f).bytes| == ScalarSize(f.ty)
    ensures ScalarIn(g, ScalarOut(f).bytes + tail) == Got(g.(ivalue := f.ivalue), ScalarSize(f.ty))
  {
    var size := ScalarSize(f.ty);
    var bytes := ScalarOut(f).bytes;
    assert (bytes + tail)[..size] == bytes;
    BeValueOfBytes(ToUnsigned(f.ivalue, size), size);
    SignedRoundTrip(f.ivalue, size);
  }

  /** What array field n of the template holds after decoding what host a sent on host b: the
      elements that travelled, then its own old bytes. */
  function Arrived(a: Env, b: Env, ty: int, sent: seq<Byte>, held: seq<Byte>): seq<Byte>
    requires MoveSize(ty) > 0 && |sent| <= |held|
  {
    ArrayWire(b.little, MoveSize(ty), ArrayWire(a.little, MoveSize(ty), sent)) + held[|sent|..]
  }

  /** On hosts of one kind the bytes come back as they were sent. */
  lemma {:induction false} ArrivedSameHost(a: Env, b: Env, ty: int, sent: seq<Byte>, held: seq<Byte>)
    requires MoveSize(ty) > 0 && |sent| <= |held| && a.little == b.little
    ensures Arrived(a, b, ty, sent, held) == sent + held[|sent|..]
  {
    ArrayWireTwice(a.little, MoveSize(ty), sent);
  }

  function RestoredField(a: Env, b: Env, fs: seq<Field>, tmpl: seq<Field>, i: nat): Field
    requires WellFormed(fs) && SameShape(fs, tmpl) && HasCapacity(fs, tmpl) && FIELD_BMARK <= i < |fs|
  {
    assert SameEntry(fs[i], tmpl[i]) && FilledAt(fs, i) && ShapedAt(fs, i);
    if fs[i].data.Null? then tmpl[i].(ivalue := fs[i].ivalue)
    else
      assert RoomAt(fs, tmpl, i);
      tmpl[i].(data := Mem(Arrived(a, b, fs[i].ty, fs[i].data.bytes[..Extent(fs, i)], tmpl[i].data.bytes)))
  }

  /** The template after fields FIELD_BMARK to n have been decoded. */
  function Restored(a: Env, b: Env, fs: seq<Field>, tmpl: seq<Field>, n: nat): (r: seq<Field>)
    requires WellFormed(fs) && SameShape(fs, tmpl) && HasCapacity(fs, tmpl) && n <= |fs|
    ensures |r| == |fs|
  {
    seq(|fs|, i requires 0 <= i < |fs| => if FIELD_BMARK <= i < n then RestoredField(a, b, fs, tmpl, i) else tmpl[i])
  }

  /** Array elements between any two hosts, at the size in which they travel: element k decoded on b
      is element k encoded on a. For every type but long long that is the type's own size. */
  lemma {:induction false} ElementRestored(a: Env, b: Env, fs: seq<Field>, tmpl: seq<Field>, i: nat, k: nat)
    requires WellFormed(fs) && SameShape(fs, tmpl) && HasCapacity(fs, tmpl)
    requires FIELD_BMARK <= i < |fs| && fs[i].data.Mem? && FilledAt(fs, i) && k < Count(fs, i)
    ensures RestoredField(a, b, fs, tmpl, i).data.Mem?
    ensures var size := MoveSize(fs[i].ty);
      var got := RestoredField(a, b, fs, tmpl, i).data.bytes;
      size > 0 && Span(size, k + 1) <= |got| && Span(size, k + 1) <= |fs[i].data.bytes|
      && Element(b.little, size, got, k) == Element(a.little, size, fs[i].data.bytes, k)
  {
    assert SameEntry(fs[i], tmpl[i]) && ShapedAt(fs, i) && RoomAt(fs, tmpl, i);
    var size := MoveSize(fs[i].ty);
    var sent := fs[i].data.bytes[..Extent(fs, i)];
    SpanMonotone(size, k + 1, Count(fs, i));
    var back := ArrayWire(b.little, size, ArrayWire(a.little, size, sent));
    ArrayValuesCross(a.little, b.little, size, sent, k);
    ElementPrefix(b.little, size, back, tmpl[i].data.bytes[|sent|..], k);
    assert fs[i].data.bytes == sent + fs[i].data.bytes[|sent|..];
    ElementPrefix(a.little, size, sent, fs[i].data.bytes[|sent|..], k);
  }

  lemma {:induction false} ElementPrefix(little: bool, size: nat, mem: seq<Byte>, tail: seq<Byte>, k: nat)
    requires size > 0 && Span(size, k + 1) <= |mem|
    ensures Element(little, size, mem + tail, k) == Element(little, size, mem, k)
    decreases k
  {
    SpanPositive(size, k);
    if k == 0 {
      assert (mem + tail)[..size] == mem[..size];
    } else {
      assert (mem + tail)[size..] == mem[size..] + tail;
      ElementPrefix(little, size, mem[size..], tail, k - 1);
    }
  }

  /** One body field: what b reads from what a wrote. */
  lemma {:induction false} FieldRoundTrip(a: Env, b: Env, fs: seq<Field>, tmpl: seq<Field>, n: nat, tail: seq<Byte>)
    requires WellFormed(fs) && SameShape(fs, tmpl) && HasCapacity(fs, tmpl)
    requires FIELD_BMARK <= n < |fs| && InRange(fs[|fs| - 1].ivalue, 8)
    requires tmpl[FIELD_COUNT].ivalue == fs[FIELD_COUNT].ivalue
    ensures FieldIn(b, Restored(a, b, fs, tmpl, n), n, FieldBytes(a, fs, n) + tail)
         == Got(RestoredField(a, b, fs, tmpl, n), |FieldBytes(a, fs, n)|)
  {
    assert SameEntry(fs[n], tmpl[n]) && SameEntry(fs[n - 1], tmpl[n - 1]);
    assert FilledAt(fs, n) && ShapedAt(fs, n);
    FieldOutDefined(a, fs, n);
    var cur := Restored(a, b, fs, tmpl, n);
    if fs[n].data.Null? {
      ScalarRoundTrip(fs[n], tmpl[n], tail);
    } else {
      ArrayRoundTrip(a, b, fs, tmpl, n, tail);
    }
  }

  /** Reading back the elements that were written, into memory large enough for them. */
  lemma {:induction false} ArrayInOut(a: Env, b: Env, t: Field, mem: seq<Byte>, count: nat, tail: seq<Byte>)
    requires t.data.Mem? && MoveSize(t.ty) > 0
    requires Span(MoveSize(t.ty), count) <= |mem| && Span(MoveSize(t.ty), count) <= |t.data.bytes|
    ensures ArrayOut(a, t.ty, mem, count).Chunk?
    ensures var wire := ArrayOut(a, t.ty, mem, count).bytes;
      var sent := mem[..Span(MoveSize(t.ty), count)];
      && |wire| == |sent|
      && ArrayIn(b, t, wire + tail, count)
         == Got(t.(data := Mem(Arrived(a, b, t.ty, sent, t.data.bytes))), |wire|)
  {
    var wire := ArrayOut(a, t.ty, mem, count).bytes;
    assert (wire + tail)[..|wire|] == wire;
  }

  /** The decoder computes the count the encoder used: from the count entry or the field before. */
  lemma {:induction false} CountDecoded(fs: seq<Field>, tmpl: seq<Field>, n: nat)
    requires WellFormed(fs) && SameShape(fs, tmpl)
    requires FIELD_BMARK < n < |fs| - 1 && fs[n].data.Mem? && FilledAt(fs, n)
    requires tmpl[FIELD_COUNT].ivalue == fs[FIELD_COUNT].ivalue
    ensures fs[n].count >= 0 ==> tmpl[n].count * Int32(tmpl[FIELD_COUNT].ivalue) == Count(fs, n)
    ensures fs[n].count < 0 ==>
      && CountType(tmpl[n - 1].ty) && tmpl[n - 1].data.Null?
      && Int32(fs[n - 1].ivalue) == Count(fs, n)
    ensures fs[n].count > 0 ==> Int32(fs[n].count * fs[FIELD_COUNT].ivalue) == Count(fs, n)
  {
    assert SameEntry(fs[n], tmpl[n]) && SameEntry(fs[n - 1], tmpl[n - 1]);
    assert ShapedAt(fs, n) && ShapedAt(fs, FIELD_COUNT) && FilledAt(fs, FIELD_COUNT);
    Int32InRange(Count(fs, n));
    Pow256Values();
    SignedRoundTrip(fs[FIELD_COUNT].ivalue, 4);
  }

  lemma {:induction false} ArrayRoundTrip(a: Env, b: Env, fs: seq<Field>, tmpl: seq<Field>, n: nat, tail: seq<Byte>)
    requires WellFormed(fs) && SameShape(fs, tmpl) && HasCapacity(fs, tmpl)
    requires FIELD_BMARK < n < |fs| - 1 && fs[n].data.Mem?
    requires tmpl[FIELD_COUNT].ivalue == fs[FIELD_COUNT].ivalue
    ensures FieldIn(b, Restored(a, b, fs, tmpl, n), n, FieldBytes(a, fs, n) + tail)
         == Got(RestoredField(a, b, fs, tmpl, n), |FieldBytes(a, fs, n)|)
  {
    assert SameEntry(fs[n], tmpl[n]) && SameEntry(fs[n - 1], tmpl[n - 1]);
    assert FilledAt(fs, n) && ShapedAt(fs, n);
    assert RoomAt(fs, tmpl, n);
    var cur := Restored(a, b, fs, tmpl, n);
    assert cur[FIELD_COUNT] == tmpl[FIELD_COUNT] && cur[n] == tmpl[n];
    var count := Count(fs, n);
    CountDecoded(fs, tmpl, n);
    ArrayInOut(a, b, tmpl[n], fs[n].data.bytes, count, tail);
    if fs[n].count == 0 || count == 0 {
      EmptyArray(a, b, tmpl[n], fs[n].data.bytes);
    }
    if fs[n].count < 0 && n - 1 >= FIELD_BMARK {
      assert cur[n - 1] == RestoredField(a, b, fs, tmpl, n - 1);
    }
  }

  lemma {:induction false} EmptyArray(a: Env, b: Env, t: Field, mem: seq<Byte>)
    requires t.data.Mem? && MoveSize(t.ty) > 0
    ensures ArrayOut(a, t.ty, mem, 0) == Chunk([])
    ensures Arrived(a, b, t.ty, mem[..0], t.data.bytes) == t.data.bytes
  {
    assert mem[..0] == [];
  }

  // ---------------------------------------------------------------- whole packets

  /** A decoded header: the template's entries with the sealed values. */
  function HeaderRead(fs: seq<Field>, tmpl: seq<Field>, n: nat): (r: seq<Field>)
    requires |fs| >= FIELD_BMARK && |tmpl| >= FIELD_BMARK && n <= FIELD_BMARK
    ensures |r| == |tmpl|
  {
    seq(|tmpl|, i requires 0 <= i < |tmpl| => if i < n then tmpl[i].(ivalue := fs[i].ivalue) else tmpl[i])
  }

  predicate HeaderTemplate(tmpl: seq<Field>) {
    |tmpl| >= FIELD_BMARK &&
    forall i :: 0 <= i < FIELD_BMARK ==>
      tmpl[i].data.Null? && tmpl[i].ty == if i == FIELD_HCRC then TYPE_LONGLONG else TYPE_LONG
  }

  /** A well-formed list whose two checksums are in place. */
  predicate Sealed(env: Env, s: seq<Field>) {
    && WellFormed(s)
    && s[FIELD_HCRC].ivalue == env.crc(Wire(env, s, 0, FIELD_HCRC))
    && s[|s| - 1].ivalue == env.crc(Wire(env, s, FIELD_BMARK, |s| - 1))
  }

  lemma {:induction false} SealSeals(env: Env, fs: seq<Field>)
    requires WellFormed(fs)
    ensures Sealed(env, Seal(env, fs))
  {
    SealedFields(env, fs);
    SealedFilled(env, fs);
  }

  lemma {:induction false} SumsInRange(env: Env, s: seq<Field>)
    requires Sealed(env, s)
    ensures InRange(s[FIELD_HCRC].ivalue, 8) && ToUnsigned(s[FIELD_HCRC].ivalue, 4) == s[FIELD_HCRC].ivalue
    ensures InRange(s[|s| - 1].ivalue, 8) && ToUnsigned(s[|s| - 1].ivalue, 4) == s[|s| - 1].ivalue
  {
    Pow256Values();
  }

  lemma {:induction false} HeaderFieldTrip(a: Env, s: seq<Field>, tmpl: seq<Field>, n: nat, tail: seq<Byte>)
    requires Sealed(a, s) && HeaderTemplate(tmpl) && n < FIELD_BMARK
    ensures tmpl[n].data.Null?
    ensures ScalarIn(tmpl[n], FieldBytes(a, s, n) + tail)
         == Got(tmpl[n].(ivalue := s[n].ivalue), |FieldBytes(a, s, n)|)
  {
    assert ShapedAt(s, n) && FilledAt(s, n);
    SumsInRange(a, s);
    ScalarRoundTrip(s[n], tmpl[n], tail);
  }

  /** Where field n starts in the part that begins with field `a`, and what is left from there. */
  lemma {:induction false} WireAt(env: Env, s: seq<Field>, a: nat, n: nat, b: nat, wire: seq<Byte>)
    returns (tail: seq<Byte>)
    requires FIELD_COUNT < |s| && a <= n < b <= |s| && Wire(env, s, a, b) <= wire
    ensures var pos := |Wire(env, s, a, n)|;
      && |Wire(env, s, a, n + 1)| == pos + |FieldBytes(env, s, n)| <= |wire|
      && wire[pos..] == FieldBytes(env, s, n) + tail
      && wire[..pos] == Wire(env, s, a, n)
  {
    WireSplit(env, s, a, n, b);
    WireSnoc(env, s, a, n);
    WireSplit(env, s, a, n + 1, b);
    tail := MiddleOf(wire, Wire(env, s, a, n), FieldBytes(env, s, n), Wire(env, s, n + 1, b));
  }

  lemma {:induction false} MiddleOf(wire: seq<Byte>, x: seq<Byte>, y: seq<Byte>, z: seq<Byte>) returns (tail: seq<Byte>)
    requires x + (y + z) <= wire
    ensures |x| + |y| <= |wire| && wire[|x|..] == y + tail && wire[..|x|] == x
  {
    tail := wire[|x| + |y|..];
  }

  /** The header checksum that arrived is the one computed over what was read before it. */
  lemma {:induction false} HeaderSumChecks(a: Env, b: Env, s: seq<Field>, wire: seq<Byte>)
    requires a.crc == b.crc && Sealed(a, s) && Wire(a, s, 0, FIELD_BMARK) <= wire
    ensures |Wire(a, s, 0, FIELD_HCRC)| <= |wire|
    ensures Low32(s[FIELD_HCRC].ivalue) == SumOf(b, wire[..|Wire(a, s, 0, FIELD_HCRC)|])
  {
    var tail := WireAt(a, s, 0, FIELD_HCRC, FIELD_BMARK, wire);
    SumsInRange(a, s);
    HeaderIs32(a, s);
  }

  lemma {:induction false} HeaderReadStep(s: seq<Field>, tmpl: seq<Field>, n: nat)
    requires |s| >= FIELD_BMARK && |tmpl| >= FIELD_BMARK && n < FIELD_BMARK
    ensures HeaderRead(s, tmpl, n)[n] == tmpl[n]
    ensures HeaderRead(s, tmpl, n)[n := tmpl[n].(ivalue := s[n].ivalue)] == HeaderRead(s, tmpl, n + 1)
  {
  }

  lemma {:induction false} MarkChecks(s: seq<Field>)
    requires WellFormed(s)
    ensures Low32(s[FIELD_HMARK].ivalue) == HEAD_MARK
  {
    Pow256Values();
  }

  lemma {:induction false} HeaderStep(a: Env, b: Env, s: seq<Field>, tmpl: seq<Field>, n: nat, wire: seq<Byte>)
    requires a.crc == b.crc && Sealed(a, s) && HeaderTemplate(tmpl) && n <= FIELD_HCRC
    requires Wire(a, s, 0, FIELD_BMARK) <= wire
    ensures |Wire(a, s, 0, n)| <= |Wire(a, s, 0, n + 1)| <= |wire|
    ensures HeaderTurn(b, HeaderRead(s, tmpl, n), n, true, wire, |Wire(a, s, 0, n)|)
         == Decoded(HeaderRead(s, tmpl, n + 1), |Wire(a, s, 0, n + 1)|)
  {
    var tail := WireAt(a, s, 0, n, FIELD_BMARK, wire);
    HeaderFieldTrip(a, s, tmpl, n, tail);
    HeaderReadStep(s, tmpl, n);
    MarkChecks(s);
    HeaderSumChecks(a, b, s, wire);
  }

  lemma {:induction false} HeaderTrip(a: Env, b: Env, s: seq<Field>, tmpl: seq<Field>, n: nat, wire: seq<Byte>)
    requires a.crc == b.crc && Sealed(a, s) && HeaderTemplate(tmpl) && n <= FIELD_BMARK
    requires Wire(a, s, 0, FIELD_BMARK) <= wire
    ensures |Wire(a, s, 0, n)| <= |wire|
    ensures DecodeHeaderFrom(b, HeaderRead(s, tmpl, n), n, true, wire, |Wire(a, s, 0, n)|)
         == Decoded(HeaderRead(s, tmpl, FIELD_BMARK), HEADER_BYTES)
    decreases FIELD_BMARK - n
  {
    if n == FIELD_BMARK {
      HeaderIs32(a, s);
    } else {
      HeaderStep(a, b, s, tmpl, n, wire);
      HeaderTrip(a, b, s, tmpl, n + 1, wire);
    }
  }

  /** The template matches the sealed list, has room, and already holds its element count. */
  predicate Ready(s: seq<Field>, tmpl: seq<Field>)
    requires WellFormed(s)
  {
    SameShape(s, tmpl) && HasCapacity(s, tmpl) && tmpl[FIELD_COUNT].ivalue == s[FIELD_COUNT].ivalue
  }

  lemma {:induction false} BodyMarkFirst(env: Env, s: seq<Field>, n: nat)
    requires WellFormed(s) && FIELD_BMARK < n <= |s|
    ensures |Wire(env, s, FIELD_BMARK, n)| >= 4
    ensures Wire(env, s, FIELD_BMARK, n)[..4] == BeBytes(ToUnsigned(s[FIELD_BMARK].ivalue, 4), 4)
  {
    assert ShapedAt(s, FIELD_BMARK);
    FieldOutDefined(env, s, FIELD_BMARK);
  }

  /** The body checksum that arrived is the one computed over what was read before it. */
  lemma {:induction false} BodySumChecks(a: Env, b: Env, s: seq<Field>, tmpl: seq<Field>, wire: seq<Byte>)
    requires a.crc == b.crc && Sealed(a, s) && Ready(s, tmpl)
    requires Wire(a, s, FIELD_BMARK, |s|) <= wire
    ensures var pos := |Wire(a, s, FIELD_BMARK, |s| - 1)|;
      && pos <= |wire|
      && Low32(RestoredField(a, b, s, tmpl, |s| - 1).ivalue) == SumOf(b, wire[..pos])
  {
    var tail := WireAt(a, s, FIELD_BMARK, |s| - 1, |s|, wire);
    assert ShapedAt(s, |s| - 1);
    SumsInRange(a, s);
    BodyMarkFirst(a, s, |s| - 1);
  }

  lemma {:induction false} RestoredStep(a: Env, b: Env, s: seq<Field>, tmpl: seq<Field>, n: nat)
    requires WellFormed(s) && SameShape(s, tmpl) && HasCapacity(s, tmpl) && FIELD_BMARK <= n < |s|
    ensures Restored(a, b, s, tmpl, n)[n := RestoredField(a, b, s, tmpl, n)] == Restored(a, b, s, tmpl, n + 1)
  {
  }

  lemma {:induction false} BodyStep(a: Env, b: Env, s: seq<Field>, tmpl: seq<Field>, n: nat, wire: seq<Byte>)
    requires a.crc == b.crc && Sealed(a, s) && FIELD_BMARK <= n < |s| && Ready(s, tmpl)
    requires Wire(a, s, FIELD_BMARK, |s|) <= wire
    ensures |Wire(a, s, FIELD_BMARK, n)| <= |Wire(a, s, FIELD_BMARK, n + 1)| <= |wire|
    ensures BodyTurn(b, Restored(a, b, s, tmpl, n), n, |s|, true, wire, |Wire(a, s, FIELD_BMARK, n)|)
         == Decoded(Restored(a, b, s, tmpl, n + 1), |Wire(a, s, FIELD_BMARK, n + 1)|)
  {
    var tail := WireAt(a, s, FIELD_BMARK, n, |s|, wire);
    SumsInRange(a, s);
    FieldRoundTrip(a, b, s, tmpl, n, tail);
    RestoredStep(a, b, s, tmpl, n);
    BodySumChecks(a, b, s, tmpl, wire);
  }

  lemma {:induction false} BodyTrip(a: Env, b: Env, s: seq<Field>, tmpl: seq<Field>, n: nat, wire: seq<Byte>)
    requires a.crc == b.crc && Sealed(a, s) && FIELD_BMARK <= n <= |s| && Ready(s, tmpl)
    requires Wire(a, s, FIELD_BMARK, |s|) <= wire
    ensures |Wire(a, s, FIELD_BMARK, n)| <= |wire|
    ensures DecodeBodyFrom(b, Restored(a, b, s, tmpl, n), n, |s|, true, wire, |Wire(a, s, FIELD_BMARK, n)|)
         == Decoded(Restored(a, b, s, tmpl, |s|), |Wire(a, s, FIELD_BMARK, |s|)|)
    decreases |s| - n
  {
    if n < |s| {
      BodyStep(a, b, s, tmpl, n, wire);
      BodyTrip(a, b, s, tmpl, n + 1, wire);
    }
  }

  /** The first message template is one a header can be decoded into. */
  lemma {:induction false} CommonIsTemplate(time: int)
    ensures HeaderTemplate(CommonMessage(time))
  {
  }

  /** What decoding leaves in a template that starts as `tmpl`. */
  predicate Restores(a: Env, b: Env, s: seq<Field>, tmpl: seq<Field>, r: seq<Field>)
    requires WellFormed(s) && SameShape(s, tmpl) && HasCapacity(s, tmpl)
  {
    && SameShape(s, r)
    && (forall i :: 0 <= i < |s| && s[i].data.Null? ==> r[i].ivalue == s[i].ivalue)
    && (forall i :: FIELD_BMARK <= i < |s| && s[i].data.Mem? ==> r[i] == RestoredField(a, b, s, tmpl, i))
  }

  /** The codec's central law, for every well-formed list and any two hosts: the packet decodes
      into any templates of its shape with room for its arrays, uses up every byte, and restores
      every scalar, checksums included, and of every array what travels; PacketElements says when
      that is all of it. */
  lemma {:induction false} PacketRoundTrips(a: Env, b: Env, fs: seq<Field>, htmpl: seq<Field>, tmpl: seq<Field>)
    requires a.crc == b.crc && WellFormed(fs)
    requires SameShape(fs, tmpl) && HasCapacity(fs, tmpl)
    requires HeaderTemplate(htmpl) && forall i :: 0 <= i < FIELD_BMARK ==> SameEntry(htmpl[i], tmpl[i])
    ensures WellFormed(Seal(a, fs)) && SameShape(Seal(a, fs), tmpl) && HasCapacity(Seal(a, fs), tmpl)
    ensures |PacketBytes(a, fs)| >= HEADER_BYTES
    ensures var d := DecodePacket(b, htmpl, tmpl, PacketBytes(a, fs));
      d.Decoded? && d.pos == |PacketBytes(a, fs)| && Restores(a, b, Seal(a, fs), tmpl, d.fields)
  {
    var s := Seal(a, fs);
    SealSeals(a, fs);
    ReadyForSealed(a, fs, tmpl);
    var packet := PacketBytes(a, fs);
    PacketParts(a, fs);
    HeaderTrip(a, b, s, htmpl, 0, packet[..HEADER_BYTES]);
    assert HeaderRead(s, htmpl, 0) == htmpl;
    var h := HeaderRead(s, htmpl, FIELD_BMARK);
    var t := WithHeader(tmpl, h);
    HeadedReady(s, htmpl, tmpl);
    BodyTrip(a, b, s, t, FIELD_BMARK, packet[HEADER_BYTES..]);
    assert Restored(a, b, s, t, FIELD_BMARK) == t;
    RestoredRestores(a, b, s, h, tmpl);
  }

  /** The header and the body of a packet on the wire. */
  lemma {:induction false} PacketParts(env: Env, fs: seq<Field>)
    requires WellFormed(fs)
    ensures |PacketBytes(env, fs)| >= HEADER_BYTES
    ensures PacketBytes(env, fs)[..HEADER_BYTES] == Wire(env, Seal(env, fs), 0, FIELD_BMARK)
    ensures PacketBytes(env, fs)[HEADER_BYTES..] == Wire(env, Seal(env, fs), FIELD_BMARK, |fs|)
  {
    var s := Seal(env, fs);
    SealedFilled(env, fs);
    WireSplit(env, s, 0, FIELD_BMARK, |s|);
    HeaderIs32(env, s);
  }

  lemma {:induction false} ReadyForSealed(env: Env, fs: seq<Field>, tmpl: seq<Field>)
    requires WellFormed(fs) && SameShape(fs, tmpl) && HasCapacity(fs, tmpl)
    ensures WellFormed(Seal(env, fs)) && SameShape(Seal(env, fs), tmpl) && HasCapacity(Seal(env, fs), tmpl)
  {
    var s := Seal(env, fs);
    SealedFields(env, fs);
    SealedFilled(env, fs);
    assert SameShape(s, tmpl) by {
      forall i | 0 <= i < |s|
        ensures SameEntry(s[i], tmpl[i])
      {
        assert SameEntry(fs[i], tmpl[i]);
      }
    }
    forall i | FIELD_BMARK <= i < |s| && tmpl[i].data.Mem?
      ensures RoomAt(s, tmpl, i)
    {
      assert RoomAt(fs, tmpl, i) && SameEntry(fs[i], tmpl[i]);
      assert ShapedAt(fs, i) && FilledAt(fs, i) && FilledAt(s, i) && ShapedAt(fs, |fs| - 1);
    }
  }

  lemma {:induction false} HeadedReady(s: seq<Field>, htmpl: seq<Field>, tmpl: seq<Field>)
    requires WellFormed(s) && SameShape(s, tmpl) && HasCapacity(s, tmpl)
    requires HeaderTemplate(htmpl) && forall i :: 0 <= i < FIELD_BMARK ==> SameEntry(htmpl[i], tmpl[i])
    ensures Ready(s, WithHeader(tmpl, HeaderRead(s, htmpl, FIELD_BMARK)))
  {
    var t := WithHeader(tmpl, HeaderRead(s, htmpl, FIELD_BMARK));
    forall i | 0 <= i < |s|
      ensures SameEntry(s[i], t[i])
    {
      assert SameEntry(s[i], tmpl[i]);
      if i < FIELD_BMARK {
        assert SameEntry(htmpl[i], tmpl[i]);
      }
    }
    assert SameShape(s, t);
    forall i | FIELD_BMARK <= i < |s| && t[i].data.Mem?
      ensures RoomAt(s, t, i)
    {
      assert RoomAt(s, tmpl, i);
    }
  }

  lemma {:induction false} RestoredRestores(a: Env, b: Env, s: seq<Field>, h: seq<Field>, tmpl: seq<Field>)
    requires WellFormed(s) && SameShape(s, tmpl) && HasCapacity(s, tmpl)
    requires |h| >= FIELD_BMARK && SameShape(s, WithHeader(tmpl, h)) && HasCapacity(s, WithHeader(tmpl, h))
    requires forall i :: 0 <= i < FIELD_BMARK ==> h[i].ivalue == s[i].ivalue
    ensures Restores(a, b, s, tmpl, Restored(a, b, s, WithHeader(tmpl, h), |s|))
  {
    var t := WithHeader(tmpl, h);
    var r := Restored(a, b, s, t, |s|);
    forall i | 0 <= i < |s|
      ensures SameEntry(s[i], r[i])
      ensures s[i].data.Null? ==> r[i].ivalue == s[i].ivalue
      ensures i >= FIELD_BMARK ==> r[i] == RestoredField(a, b, s, tmpl, i)
    {
      assert SameEntry(s[i], t[i]);
    }
  }
}
