/** What a round trip restores of an array, element by element at the size of the array's type. */
module PacketElements {
  import opened Bytes
  import opened Streams
  import opened Packet
  import opened PacketProofs
  import opened PacketRoundTrip
  import opened PacketSizes

  /** The first n elements of an array sent by a and of the array received on b are equal. */
  predicate SameElements(a: Env, b: Env, sent: Field, got: Field, n: nat) {
    && sent.data.Mem? && got.data.Mem? && SizeOfType(sent.ty) > 0
    && Span(SizeOfType(sent.ty), n) <= |sent.data.bytes| && Span(SizeOfType(sent.ty), n) <= |got.data.bytes|
    && forall k: nat | k < n :: SameElement(a, b, SizeOfType(sent.ty), sent.data.bytes, got.data.bytes, n, k)
  }

  predicate SameElement(a: Env, b: Env, size: nat, sent: seq<Byte>, got: seq<Byte>, n: nat, k: nat)
    requires k < n && size > 0 && Span(size, n) <= |sent| && Span(size, n) <= |got|
  {
    SpanMonotone(size, k + 1, n);
    Element(b.little, size, got, k) == Element(a.little, size, sent, k)
  }

  /** How many elements an array of a well-formed list holds. */
  function Elements(fs: seq<Field>, i: nat): nat
    requires WellFormed(fs) && FIELD_BMARK <= i < |fs| && fs[i].data.Mem?
  {
    assert FilledAt(fs, i) && ShapedAt(fs, i);
    Count(fs, i)
  }

  /** The memory an array takes at the size of its type, as the caller declares it. */
  predicate Declared(fs: seq<Field>, f: Field, i: nat)
    requires WellFormed(fs) && FIELD_BMARK <= i < |fs| && fs[i].data.Mem?
  {
    f.data.Mem? && Span(SizeOfType(fs[i].ty), Elements(fs, i)) <= |f.data.bytes|
  }

  /** A list a sends and the templates b receives it into, array i declared in full on both sides. */
  ghost predicate Transfer(a: Env, b: Env, fs: seq<Field>, htmpl: seq<Field>, tmpl: seq<Field>, i: nat) {
    && a.crc == b.crc && WellFormed(fs) && SameShape(fs, tmpl) && HasCapacity(fs, tmpl)
    && HeaderTemplate(htmpl) && (forall j :: 0 <= j < FIELD_BMARK ==> SameEntry(htmpl[j], tmpl[j]))
    && FIELD_BMARK <= i < |fs| && fs[i].data.Mem? && Declared(fs, fs[i], i) && Declared(fs, tmpl[i], i)
  }

  /** Array i of the list, sent by a in its packet, decodes on b to this field. */
  predicate Arrives(a: Env, b: Env, fs: seq<Field>, htmpl: seq<Field>, tmpl: seq<Field>, i: nat, got: Field) {
    && WellFormed(fs) && |htmpl| >= FIELD_BMARK && |tmpl| > FIELD_BMARK && i < |tmpl|
    && |PacketBytes(a, fs)| >= HEADER_BYTES
    && var d := DecodePacket(b, htmpl, tmpl, PacketBytes(a, fs)); d.Decoded? && d.fields[i] == got
  }

  lemma {:induction false} ArrayCount(fs: seq<Field>, i: nat)
    requires WellFormed(fs) && FIELD_BMARK <= i < |fs| && fs[i].data.Mem?
    ensures Elements(fs, i) == Count(fs, i) && MoveSize(fs[i].ty) > 0 && i != |fs| - 1 && i != FIELD_BMARK
    ensures Extent(fs, i) == Span(MoveSize(fs[i].ty), Elements(fs, i))
  {
    assert ShapedAt(fs, i) && FilledAt(fs, i);
  }

  /** What the packet's decoding leaves in array i. */
  lemma {:induction false} ArrayDecoded(a: Env, b: Env, fs: seq<Field>, htmpl: seq<Field>, tmpl: seq<Field>, i: nat)
    requires Transfer(a, b, fs, htmpl, tmpl, i)
    ensures Arrives(a, b, fs, htmpl, tmpl, i, RestoredField(a, b, fs, tmpl, i))
  {
    hide DecodePacket, PacketBytes, Wire;
    PacketRoundTrips(a, b, fs, htmpl, tmpl);
    SealedFields(a, fs);
    ArrayCount(fs, i);
    ArrayCount(Seal(a, fs), i);
  }

  /** An array of any other type, and an empty one, is restored in full: every element of its type
      between any two hosts, and byte for byte between hosts of one kind. */
  lemma {:induction false} ArrayRestored(a: Env, b: Env, fs: seq<Field>, htmpl: seq<Field>, tmpl: seq<Field>, i: nat)
    returns (got: Field)
    requires Transfer(a, b, fs, htmpl, tmpl, i) && !LongLongArray(fs, i)
    ensures Arrives(a, b, fs, htmpl, tmpl, i, got) && SameElements(a, b, fs[i], got, Elements(fs, i))
    ensures a.little == b.little ==>
      var n := Span(SizeOfType(fs[i].ty), Elements(fs, i));
      got.data.bytes == fs[i].data.bytes[..n] + tmpl[i].data.bytes[n..]
  {
    hide Arrives;
    ArrayDecoded(a, b, fs, htmpl, tmpl, i);
    ArrayCount(fs, i);
    got := RestoredField(a, b, fs, tmpl, i);
    var n, size := Elements(fs, i), SizeOfType(fs[i].ty);
    assert RoomAt(fs, tmpl, i);
    var sent := fs[i].data.bytes[..Extent(fs, i)];
    EmptySpan(size, MoveSize(fs[i].ty), n);
    if a.little == b.little {
      ArrivedSameHost(a, b, fs[i].ty, sent, tmpl[i].data.bytes);
    }
    forall k: nat | k < n ensures SameElement(a, b, size, fs[i].data.bytes, got.data.bytes, n, k) {
      ElementRestored(a, b, fs, tmpl, i, k);
    }
  }

  lemma {:induction false} EmptySpan(x: nat, y: nat, n: nat)
    requires x == y || n == 0
    ensures Span(x, n) == Span(y, n)
  {
  }

  // A long long array: the bytes behind half of it stay what they were.

  /** Where element k of an array lies. */
  lemma {:induction false} ElementAt(little: bool, size: nat, mem: seq<Byte>, k: nat)
    requires size > 0 && Span(size, k + 1) <= |mem|
    ensures Span(size, k) + size == Span(size, k + 1)
    ensures Element(little, size, mem, k) == MemValue(little, mem[Span(size, k)..Span(size, k) + size])
    decreases k
  {
    SpanPositive(size, k);
    if k > 0 {
      var rest := mem[size..];
      ElementAt(little, size, rest, k - 1);
      assert rest[Span(size, k - 1)..Span(size, k - 1) + size] == mem[Span(size, k)..Span(size, k) + size];
    }
  }

  lemma {:induction false} DifferentMemory(little: bool, x: seq<Byte>, y: seq<Byte>)
    requires |x| == |y| && x != y
    ensures MemValue(little, x) != MemValue(little, y)
  {
    BeBytesOfValue(Flip(little, x));
    BeBytesOfValue(Flip(little, y));
    FlipTwice(little, x);
    FlipTwice(little, y);
  }

  lemma {:induction false} LastElementDiffers(a: Env, b: Env, size: nat, sent: seq<Byte>, got: seq<Byte>, n: nat)
    requires a.little == b.little && n > 0 && size > 0 && 0 < Span(size, n) <= |sent| && Span(size, n) <= |got|
    requires sent[Span(size, n) - 1] != got[Span(size, n) - 1]
    ensures !SameElement(a, b, size, sent, got, n, n - 1)
  {
    hide MemValue, Element, Span;
    var end := Span(size, n);
    ElementAt(a.little, size, sent, n - 1);
    ElementAt(a.little, size, got, n - 1);
    var x, y := sent[end - size..end], got[end - size..end];
    assert x[size - 1] != y[size - 1];
    DifferentMemory(a.little, x, y);
  }

  /** What arrives of a long long array between hosts of one kind: half of it, then the receiver's
      own bytes. */
  lemma {:induction false} HalfArrives(a: Env, fs: seq<Field>, htmpl: seq<Field>, tmpl: seq<Field>, i: nat)
    requires Transfer(a, a, fs, htmpl, tmpl, i) && LongLongArray(fs, i)
    ensures var (n, got) := (Elements(fs, i), RestoredField(a, a, fs, tmpl, i));
      && n > 0 && SizeOfType(fs[i].ty) == 8 && Span(8, n) == 2 * Span(4, n) > 0 && got.data.Mem?
      && Span(8, n) <= |fs[i].data.bytes| && Span(8, n) <= |tmpl[i].data.bytes|
      && got.data.bytes == fs[i].data.bytes[..Span(4, n)] + tmpl[i].data.bytes[Span(4, n)..]
  {
    ArrayCount(fs, i);
    var n := Elements(fs, i);
    SpanIsProduct(4, n);
    SpanIsProduct(8, n);
    assert RoomAt(fs, tmpl, i);
    ArrivedSameHost(a, a, fs[i].ty, fs[i].data.bytes[..Span(4, n)], tmpl[i].data.bytes);
  }

  /** So the last element is not the one sent if the two memories differ in their last byte. */
  lemma {:induction false} LastLongLongLost(a: Env, fs: seq<Field>, htmpl: seq<Field>, tmpl: seq<Field>, i: nat)
    returns (got: Field)
    requires Transfer(a, a, fs, htmpl, tmpl, i) && LongLongArray(fs, i)
    requires forall k :: 0 <= k < |fs[i].data.bytes| ==> fs[i].data.bytes[k] == 1
    requires tmpl[i].data.Mem? && forall k :: 0 <= k < |tmpl[i].data.bytes| ==> tmpl[i].data.bytes[k] == 0
    ensures Arrives(a, a, fs, htmpl, tmpl, i, got) && !SameElements(a, a, fs[i], got, Elements(fs, i))
  {
    hide Arrives, RestoredField;
    ArrayDecoded(a, a, fs, htmpl, tmpl, i);
    HalfArrives(a, fs, htmpl, tmpl, i);
    got := RestoredField(a, a, fs, tmpl, i);
    var n := Elements(fs, i);
    LastElementDiffers(a, a, 8, fs[i].data.bytes, got.data.bytes, n);
  }

  // The exact condition.

  /** A list that differs from another in the memory behind array i only. */
  function WithMemory(fs: seq<Field>, i: nat, bytes: seq<Byte>): (gs: seq<Field>)
    requires i < |fs|
  {
    fs[i := fs[i].(data := Mem(bytes))]
  }

  /** Whatever array i holds, on whichever hosts, and whatever the receiver's memory held: all its
      elements are restored. */
  ghost predicate AlwaysRestored(fs: seq<Field>, i: nat)
    requires WellFormed(fs) && FIELD_BMARK <= i < |fs| && fs[i].data.Mem?
  {
    forall a: Env, b: Env, sent: seq<Byte>, htmpl: seq<Field>, tmpl: seq<Field>, got: Field ::
      && Transfer(a, b, WithMemory(fs, i, sent), htmpl, tmpl, i)
      && Arrives(a, b, WithMemory(fs, i, sent), htmpl, tmpl, i, got)
      ==> SameElements(a, b, WithMemory(fs, i, sent)[i], got, Elements(fs, i))
  }

  lemma {:induction false} MemoryReplaced(fs: seq<Field>, i: nat, bytes: seq<Byte>)
    requires WellFormed(fs) && FIELD_BMARK <= i < |fs| && fs[i].data.Mem?
    requires Span(SizeOfType(fs[i].ty), Elements(fs, i)) <= |bytes|
    ensures var gs := WithMemory(fs, i, bytes);
      && WellFormed(gs) && SameShape(fs, gs) && Elements(gs, i) == Elements(fs, i)
      && LongLongArray(gs, i) == LongLongArray(fs, i)
  {
    ArrayCount(fs, i);
    var gs := WithMemory(fs, i, bytes);
    SpanIsProduct(MoveSize(fs[i].ty), Elements(fs, i));
    SpanIsProduct(SizeOfType(fs[i].ty), Elements(fs, i));
    ProductGrows(MoveSize(fs[i].ty), SizeOfType(fs[i].ty), Elements(fs, i));
    forall n | 0 <= n < |fs| ensures ShapedAt(gs, n) {
      assert ShapedAt(fs, n);
    }
    forall n | 0 <= n < |fs| ensures FilledAt(gs, n) {
      assert FilledAt(fs, n) && ShapedAt(fs, n);
    }
  }

  lemma {:induction false} OtherTypesAlwaysRestored(fs: seq<Field>, i: nat)
    requires WellFormed(fs) && FIELD_BMARK <= i < |fs| && fs[i].data.Mem? && !LongLongArray(fs, i)
    ensures AlwaysRestored(fs, i)
  {
    hide Arrives;
    forall a: Env, b: Env, sent: seq<Byte>, htmpl: seq<Field>, tmpl: seq<Field>, got: Field |
      && Transfer(a, b, WithMemory(fs, i, sent), htmpl, tmpl, i)
      && Arrives(a, b, WithMemory(fs, i, sent), htmpl, tmpl, i, got)
      ensures SameElements(a, b, WithMemory(fs, i, sent)[i], got, Elements(fs, i))
    {
      var gs := WithMemory(fs, i, sent);
      ArrayCount(fs, i);
      ArrayCount(gs, i);
      var back := ArrayRestored(a, b, gs, htmpl, tmpl, i);
      ArrivesOnce(a, b, gs, htmpl, tmpl, i, got, back);
    }
  }

  lemma {:induction false} ArrivesOnce(a: Env, b: Env, fs: seq<Field>, htmpl: seq<Field>, tmpl: seq<Field>, i: nat,
                                       f: Field, g: Field)
    requires Arrives(a, b, fs, htmpl, tmpl, i, f) && Arrives(a, b, fs, htmpl, tmpl, i, g)
    ensures f == g
  {
  }

  lemma {:induction false} LongLongNotRestored(fs: seq<Field>, i: nat)
    requires WellFormed(fs) && FIELD_BMARK <= i < |fs| && fs[i].data.Mem? && LongLongArray(fs, i)
    ensures !AlwaysRestored(fs, i)
  {
    hide Arrives, SameElements;
    var a := Env(_ => 0, true);
    var size := Span(SizeOfType(fs[i].ty), Elements(fs, i));
    var ones, zeros: seq<Byte> := seq(size, _ => 1), seq(size, _ => 0);
    var gs, tmpl := WithMemory(fs, i, ones), WithMemory(fs, i, zeros);
    MemoryReplaced(fs, i, ones);
    MemoryReplaced(fs, i, zeros);
    OwnTemplate(a, gs, tmpl, i);
    var got := LastLongLongLost(a, gs, tmpl, tmpl, i);
  }

  lemma {:induction false} OwnTemplate(a: Env, fs: seq<Field>, tmpl: seq<Field>, i: nat)
    requires WellFormed(fs) && WellFormed(tmpl) && FIELD_BMARK <= i < |fs| == |tmpl|
    requires fs[i].data.Mem? && tmpl[i].data.Mem?
    requires tmpl == WithMemory(fs, i, tmpl[i].data.bytes) && Declared(fs, fs[i], i) && Declared(fs, tmpl[i], i)
    ensures Transfer(a, a, fs, tmpl, tmpl, i)
  {
    assert forall j :: 0 <= j < |fs| ==> ShapedAt(tmpl, j) && SameEntry(fs[j], tmpl[j]);
    forall j | FIELD_BMARK <= j < |fs| && tmpl[j].data.Mem? ensures RoomAt(fs, tmpl, j) {
      assert FilledAt(tmpl, j) && FilledAt(fs, j) && ShapedAt(fs, j);
    }
  }

  /** An array is restored, for all memories and any two hosts, if and only if it is not a long long
      array with an element in it. */
  lemma {:induction false} RestoredIff(fs: seq<Field>, i: nat)
    requires WellFormed(fs) && FIELD_BMARK <= i < |fs| && fs[i].data.Mem?
    ensures AlwaysRestored(fs, i) <==> !LongLongArray(fs, i)
  {
    if LongLongArray(fs, i) {
      LongLongNotRestored(fs, i);
    } else {
      OtherTypesAlwaysRestored(fs, i);
    }
  }

  /** A message with one long long array of one element. */
  function OneLongLong(bytes: seq<Byte>): seq<Field> {
    Message(MSG_COMMON, 0, 1, 0, [Field(TYPE_LONGLONG, 0, Mem(bytes), 1)])
  }

  /** Eight bytes sent into eight zeros: four arrive. */
  lemma {:induction false} LongLongWitness(crc: seq<Byte> -> Word32, little: bool)
    ensures var (a, fs) := (Env(crc, little), OneLongLong([1, 2, 3, 4, 5, 6, 7, 8]));
      var tmpl := OneLongLong([0, 0, 0, 0, 0, 0, 0, 0]);
      && WellFormed(fs) && LongLongArray(fs, FIELD_NEXT)
      && Arrives(a, a, fs, tmpl, tmpl, FIELD_NEXT, tmpl[FIELD_NEXT].(data := Mem([1, 2, 3, 4, 0, 0, 0, 0])))
  {
    hide Arrives;
    var a := Env(crc, little);
    var sent, held: seq<Byte> := [1, 2, 3, 4, 5, 6, 7, 8], [0, 0, 0, 0, 0, 0, 0, 0];
    var fs, tmpl := OneLongLong(sent), OneLongLong(held);
    LongLongForm(sent);
    LongLongForm(held);
    assert tmpl == WithMemory(fs, FIELD_NEXT, held);
    OwnTemplate(a, fs, tmpl, FIELD_NEXT);
    ArrayDecoded(a, a, fs, tmpl, tmpl, FIELD_NEXT);
    HalfArrives(a, fs, tmpl, tmpl, FIELD_NEXT);
    assert Span(4, 1) == 4;
    assert sent[..4] + held[4..] == [1, 2, 3, 4, 0, 0, 0, 0];
  }

  lemma {:induction false} LongLongForm(bytes: seq<Byte>)
    requires |bytes| == 8
    ensures var fs := OneLongLong(bytes);
      && |fs| == 10 && WellFormed(fs) && fs[FIELD_NEXT] == Field(TYPE_LONGLONG, 0, Mem(bytes), 1)
      && LongLongArray(fs, FIELD_NEXT) && Elements(fs, FIELD_NEXT) == 1 && Span(8, 1) == 8
  {
    Pow256Values();
    var fs := OneLongLong(bytes);
    assert Span(4, 1) == Span(4, 0) + 4 && Span(8, 1) == Span(8, 0) + 8;
    assert forall n :: 0 <= n < 10 ==> ShapedAt(fs, n);
    assert forall n :: 0 <= n < 10 ==> FilledAt(fs, n);
  }
}
