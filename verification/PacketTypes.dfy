/** The type codes in numbers: how wide each type's elements are on the wire, how wide the sizing takes
    them to be, and which types can tell an array's length. */
module PacketTypes {
  import opened Bytes
  import opened Streams
  import opened Packet
  import opened PacketProofs
  import opened PacketSizes

  /** Bytes that an element of an array travels in, by type code: char, byte, short, long, long long,
      float, double. */
  const MOVED: seq<nat> := [1, 1, 2, 4, 4, 4, 8]

  /** Bytes that the sizing counts for it. */
  const COUNTED: seq<nat> := [1, 1, 2, 4, 8, 4, 8]

  /** A message with a length of one type and an array of another. */
  function ArrayMessage(lengthTy: int, ty: int, k: nat, mem: seq<Byte>): (fs: seq<Field>)
    ensures |fs| == 11
  {
    Message(MSG_COMMON, 0, 1, 0, [Field(lengthTy, k, Null, 1), Field(ty, 0, Mem(mem), -1)])
  }

  lemma {:induction false} WidthsAre(ty: nat)
    requires ty < 7
    ensures MoveSize(ty) == MOVED[ty] && SizeOfType(ty) == COUNTED[ty]
  {
  }

  /** Of all types only short, of two bytes, and long, of four, can tell the length of an array. Then the
      packet is well formed and has 44 bytes, the length and k elements of the type's width, each in
      network order; the sizing counts as much unless the elements are long longs. */
  lemma {:induction false} ArrayTravels(env: Env, lengthTy: int, ty: nat, k: nat, mem: seq<Byte>)
    requires ty < 7 && k < 0x8000 && |mem| == MOVED[ty] * k
    ensures var fs := ArrayMessage(lengthTy, ty, k, mem);
      if lengthTy == 2 || lengthTy == 3 then
        && WellFormed(fs) && FieldBytes(env, fs, 9) == ArrayWire(env.little, MOVED[ty], mem)
        && |PacketBytes(env, fs)| == 44 + (if lengthTy == 2 then 2 else 4) + MOVED[ty] * k
        && SizeSum(fs, 0, 11) == 44 + (if lengthTy == 2 then 2 else 4) + COUNTED[ty] * k
      else
        !Shaped(fs)
  {
    hide Wire, ArrayWire, Seal;
    var fs := ArrayMessage(lengthTy, ty, k, mem);
    assert fs[9] == Field(ty, 0, Mem(mem), -1) && fs[8] == Field(lengthTy, k, Null, 1);
    if lengthTy == 2 || lengthTy == 3 {
      WidthsAre(ty);
      ArrayForm(lengthTy, ty, k, mem);
      ArrayBytes(env, lengthTy, ty, k, mem);
      ArrayLength(env, lengthTy, ty, k, mem);
    } else {
      assert !ShapedAt(fs, 9);
    }
  }

  lemma {:induction false} ArrayForm(lengthTy: int, ty: nat, k: nat, mem: seq<Byte>)
    requires ty < 7 && k < 0x8000 && |mem| == MOVED[ty] * k && (lengthTy == 2 || lengthTy == 3)
    ensures WellFormed(ArrayMessage(lengthTy, ty, k, mem))
  {
    var fs := ArrayMessage(lengthTy, ty, k, mem);
    Pow256Values();
    WidthsAre(ty);
    SpanIsProduct(MOVED[ty], k);
    forall n | 0 <= n < |fs|
      ensures ShapedAt(fs, n)
    {
    }
    assert Shaped(fs);
    forall n | 0 <= n < |fs|
      ensures FilledAt(fs, n)
    {
    }
  }

  lemma {:induction false} ArrayBytes(env: Env, lengthTy: int, ty: nat, k: nat, mem: seq<Byte>)
    requires ty < 7 && k < 0x8000 && |mem| == MOVED[ty] * k && (lengthTy == 2 || lengthTy == 3)
    ensures FieldBytes(env, ArrayMessage(lengthTy, ty, k, mem), 9) == ArrayWire(env.little, MOVED[ty], mem)
  {
    hide ArrayWire;
    WidthsAre(ty);
    SpanIsProduct(MOVED[ty], k);
    Int32InRange(k);
    assert mem[..|mem|] == mem;
  }

  lemma {:induction false} ArrayLength(env: Env, lengthTy: int, ty: nat, k: nat, mem: seq<Byte>)
    requires ty < 7 && k < 0x8000 && |mem| == MOVED[ty] * k && (lengthTy == 2 || lengthTy == 3)
    requires WellFormed(ArrayMessage(lengthTy, ty, k, mem))
    ensures var fs := ArrayMessage(lengthTy, ty, k, mem);
      && |PacketBytes(env, fs)| == 44 + (if lengthTy == 2 then 2 else 4) + MOVED[ty] * k
      && SizeSum(fs, 0, 11) == 44 + (if lengthTy == 2 then 2 else 4) + COUNTED[ty] * k
  {
    hide Wire, Seal, FieldBytes, FieldSize, MoveSize, SizeOfType, ShapedAt, FilledAt;
    var fs := ArrayMessage(lengthTy, ty, k, mem);
    var s := Seal(env, fs);
    SealedFields(env, fs);
    SealedFilled(env, fs);
    HeaderIs32(env, s);
    WireSplit(env, s, 0, 7, 11);
    BodyLength(env, s, ty, k);
    HeaderCounted(fs);
    ArrayCounted(lengthTy, ty, k, mem);
  }

  lemma {:induction false} BodyLength(env: Env, s: seq<Field>, ty: nat, k: nat)
    requires WellFormed(s) && |s| == 11 && ty < 7 && s[9].data.Mem? && s[9].ty == ty && s[9].count == -1
    requires s[8].data.Null? && s[8].ivalue == k && (s[8].ty == 2 || s[8].ty == 3)
    ensures |Wire(env, s, 7, 11)| == 12 + (if s[8].ty == 2 then 2 else 4) + MOVED[ty] * k
  {
    hide FieldBytes;
    WidthsAre(ty);
    SpanIsProduct(MOVED[ty], k);
    forall n | 7 <= n < 11
      ensures FilledAt(s, n) && |FieldBytes(env, s, n)| == Extent(s, n)
    {
      FieldOutDefined(env, s, n);
    }
    assert ShapedAt(s, 7) && ShapedAt(s, 10);
    assert Wire(env, s, 11, 11) == [];
    assert Wire(env, s, 9, 11) == FieldBytes(env, s, 9) + Wire(env, s, 10, 11);
    assert Wire(env, s, 7, 11) == FieldBytes(env, s, 7) + Wire(env, s, 8, 11);
  }

  lemma {:induction false} HeaderCounted(fs: seq<Field>)
    requires WellFormed(fs)
    ensures SizeSum(fs, 0, 7) == 32
  {
    forall n | 0 <= n < 7
      ensures FieldSize(fs, n) == if n == 6 then 8 else 4
    {
      assert ShapedAt(fs, n);
    }
    assert SizeSum(fs, 0, 0) == 0;
    assert SizeSum(fs, 0, 1) == SizeSum(fs, 0, 0) + 4;
    assert SizeSum(fs, 0, 2) == SizeSum(fs, 0, 1) + 4;
    assert SizeSum(fs, 0, 3) == SizeSum(fs, 0, 2) + 4;
    assert SizeSum(fs, 0, 4) == SizeSum(fs, 0, 3) + 4;
    assert SizeSum(fs, 0, 5) == SizeSum(fs, 0, 4) + 4;
    assert SizeSum(fs, 0, 6) == SizeSum(fs, 0, 5) + 4;
  }

  lemma {:induction false} ArrayCounted(lengthTy: int, ty: nat, k: nat, mem: seq<Byte>)
    requires ty < 7 && (lengthTy == 2 || lengthTy == 3)
    ensures var fs := ArrayMessage(lengthTy, ty, k, mem);
      SizeSum(fs, 0, 11) == SizeSum(fs, 0, 7) + 12 + (if lengthTy == 2 then 2 else 4) + COUNTED[ty] * k
  {
    WidthsAre(ty);
    var fs := ArrayMessage(lengthTy, ty, k, mem);
    assert SizeSum(fs, 0, 8) == SizeSum(fs, 0, 7) + 4;
    assert SizeSum(fs, 0, 9) == SizeSum(fs, 0, 8) + FieldSize(fs, 8);
    assert SizeSum(fs, 0, 10) == SizeSum(fs, 0, 9) + FieldSize(fs, 9);
    assert FieldSize(fs, 9) == SizeOfType(ty) * k;
  }

  /** An array of variable length behind an entry of any type but short and long is refused, when its turn
      comes, by sender and receiver; by the receiver also behind another array. */
  lemma {:induction false} LengthMustBeThere(env: Env, fs: seq<Field>, n: nat, out: seq<Byte>, base: int, room: nat,
                                             wire: seq<Byte>, pos: nat)
    requires FIELD_COUNT < n < |fs| && fs[n].data.Mem? && base <= |out| && pos <= |wire|
    ensures fs[n].count <= 0 && fs[n - 1].ty != 2 && fs[n - 1].ty != 3 ==>
      EncodeFrom(env, fs, n, |fs|, out, base, room) == EncodeFailed(EncodeError)
    ensures fs[n].count < 0 && fs[n - 1].ty != 2 && fs[n - 1].ty != 3 ==>
      DecodeBodyFrom(env, fs, n, |fs|, true, wire, pos) == DecodeFailed(DecodeError)
    ensures fs[n].count == -1 && fs[n - 1].data.Mem? ==>
      DecodeBodyFrom(env, fs, n, |fs|, true, wire, pos) == DecodeFailed(DecodeError)
  {
  }
}
