/** Properties of the packet codec: exact output, round trips both ways, sizes and framing. */
module PacketProofs {
  import opened Bytes
  import opened Packet

  // ---------------------------------------------------------------- encoding is the sealed wire

  /** A field's bytes depend on the field, its predecessor and the count entry only. */
  lemma {:induction false} FieldOutLocal(env: Env, fs: seq<Field>, gs: seq<Field>, n: nat)
    requires FIELD_COUNT < |fs| && |fs| == |gs| && n < |fs|
    requires fs[n] == gs[n] && (n > 0 && fs[n].data.Mem? ==> fs[n - 1] == gs[n - 1])
    requires fs[FIELD_COUNT] == gs[FIELD_COUNT]
    ensures FieldOut(env, fs, n) == FieldOut(env, gs, n)
  {
  }

  lemma {:induction false} WireLocal(env: Env, fs: seq<Field>, gs: seq<Field>, a: nat, b: nat)
    requires FIELD_COUNT < |fs| && |fs| == |gs| && a <= b <= |fs|
    requires forall i :: a <= i < b ==> fs[i] == gs[i]
    requires 0 < a < b && fs[a].data.Mem? ==> fs[a - 1] == gs[a - 1]
    requires fs[FIELD_COUNT] == gs[FIELD_COUNT]
    ensures Wire(env, fs, a, b) == Wire(env, gs, a, b)
    decreases b - a
  {
    if a < b {
      FieldOutLocal(env, fs, gs, a);
      WireLocal(env, fs, gs, a + 1, b);
    }
  }

  lemma {:induction false} WireSplit(env: Env, fs: seq<Field>, a: nat, b: nat, c: nat)
    requires FIELD_COUNT < |fs| && a <= b <= c <= |fs|
    ensures Wire(env, fs, a, c) == Wire(env, fs, a, b) + Wire(env, fs, b, c)
    decreases b - a
  {
    if a < b {
      WireSplit(env, fs, a + 1, b, c);
      ConcatAssociates(FieldBytes(env, fs, a), Wire(env, fs, a + 1, b), Wire(env, fs, b, c));
    }
  }

  lemma {:induction false} WireSnoc(env: Env, fs: seq<Field>, a: nat, n: nat)
    requires FIELD_COUNT < |fs| && a <= n < |fs|
    ensures Wire(env, fs, a, n + 1) == Wire(env, fs, a, n) + FieldBytes(env, fs, n)
  {
    WireSplit(env, fs, a, n, n + 1);
    assert Wire(env, fs, n + 1, n + 1) == [];
  }

  lemma {:induction false} Int32InRange(v: int)
    requires 0 <= v < 0x8000_0000
    ensures Int32(v) == v
  {
    Pow256Values();
    SignedRoundTrip(v, 4);
  }

  /** Every field of a well-formed list, sealed or not, has an encoding, of the expected length. */
  lemma {:induction false} FieldOutDefined(env: Env, fs: seq<Field>, n: nat)
    requires Shaped(fs) && n < |fs| && FilledAt(fs, n)
    ensures FieldOut(env, fs, n).Chunk?
    ensures |FieldBytes(env, fs, n)| == Extent(fs, n)
  {
    assert ShapedAt(fs, n);
    if fs[n].data.Mem? {
      Int32InRange(Count(fs, n));
    }
  }

  /** Sealing changes the two checksum values and nothing else. */
  lemma {:induction false} SealedFields(env: Env, fs: seq<Field>)
    requires Shaped(fs)
    ensures var s := Seal(env, fs);
      && Shaped(s)
      && (forall i :: 0 <= i < |fs| && i != FIELD_HCRC && i != |fs| - 1 ==> s[i] == fs[i])
      && s[FIELD_HCRC] == fs[FIELD_HCRC].(ivalue := env.crc(Wire(env, s, 0, FIELD_HCRC)))
      && s[|fs| - 1] == fs[|fs| - 1].(ivalue := env.crc(Wire(env, s, FIELD_BMARK, |fs| - 1)))
  {
    var s := Seal(env, fs);
    var h := fs[FIELD_HCRC := fs[FIELD_HCRC].(ivalue := env.crc(Wire(env, fs, 0, FIELD_HCRC)))];
    WireLocal(env, fs, s, 0, FIELD_HCRC);
    assert ShapedAt(fs, FIELD_BMARK);
    WireLocal(env, h, s, FIELD_BMARK, |fs| - 1);
    forall n | 0 <= n < |s|
      ensures ShapedAt(s, n)
    {
      assert ShapedAt(fs, n);
    }
  }

  lemma {:induction false} SealedFilled(env: Env, fs: seq<Field>)
    requires WellFormed(fs)
    ensures WellFormed(Seal(env, fs))
  {
    SealedFields(env, fs);
    var s := Seal(env, fs);
    forall n | 0 <= n < |s|
      ensures FilledAt(s, n)
    {
      assert FilledAt(fs, n) && ShapedAt(fs, n) && ShapedAt(s, n);
    }
  }

  /** The list half-way through encoding: checksums before n are in place. */
  function SealedBefore(env: Env, fs: seq<Field>, n: nat): (r: seq<Field>)
    requires |fs| > FIELD_NEXT && n <= |fs|
    ensures |r| == |fs|
  {
    var s := Seal(env, fs);
    seq(|fs|, i requires 0 <= i < |fs| => if i < n then s[i] else fs[i])
  }

  lemma {:induction false} SealedBeforeStep(env: Env, fs: seq<Field>, n: nat)
    requires |fs| > FIELD_NEXT && n < |fs|
    ensures SealedBefore(env, fs, n)[n] == fs[n]
    ensures SealedBefore(env, fs, n)[n := Seal(env, fs)[n]] == SealedBefore(env, fs, n + 1)
  {
  }

  /** Seen from field n, the half-sealed list reads like the sealed one. */
  lemma {:induction false} SealedBeforeReads(env: Env, fs: seq<Field>, n: nat)
    requires Shaped(fs) && n < |fs|
    ensures FieldOut(env, SealedBefore(env, fs, n + 1), n) == FieldOut(env, Seal(env, fs), n)
  {
    SealedFields(env, fs);
    FieldOutLocal(env, SealedBefore(env, fs, n + 1), Seal(env, fs), n);
  }

  lemma {:induction false} HeaderLength(env: Env, fs: seq<Field>, n: nat)
    requires Shaped(fs) && n <= FIELD_HCRC
    requires forall i :: 0 <= i < n ==> FilledAt(fs, i)
    ensures |Wire(env, fs, 0, n)| == 4 * n
  {
    hide FieldBytes;
    if n > 0 {
      HeaderLength(env, fs, n - 1);
      WireSnoc(env, fs, 0, n - 1);
      FieldOutDefined(env, fs, n - 1);
      assert ShapedAt(fs, n - 1);
    }
  }

  /** One turn of the encoding loop on a well-formed list. */
  lemma {:induction false} SealStep(env: Env, fs: seq<Field>, n: nat)
    requires WellFormed(fs) && n < |fs|
    ensures var s := Seal(env, fs);
      var out := Wire(env, s, 0, n);
      var base := if n > FIELD_HCRC then HEADER_BYTES else -1;
      base <= |out| && SealField(env, fs[n], n, |fs|, out, base) == s[n]
  {
    var s := Seal(env, fs);
    SealedFields(env, fs);
    SealedFilled(env, fs);
    HeaderLength(env, s, FIELD_HCRC);
    HeaderIs32(env, s);
    if n > FIELD_HCRC {
      WireSplit(env, s, 0, FIELD_BMARK, n);
      if n == |fs| - 1 {
        var body := Wire(env, s, FIELD_BMARK, n);
        assert Wire(env, s, 0, n)[HEADER_BYTES..] == body;
        FieldOutDefined(env, s, FIELD_BMARK);
        assert ShapedAt(s, FIELD_BMARK);
        assert |body| >= 4;
      }
    }
  }

  lemma {:induction false} HeaderIs32(env: Env, fs: seq<Field>)
    requires WellFormed(fs)
    ensures |Wire(env, fs, 0, FIELD_HCRC)| == 24
    ensures |Wire(env, fs, 0, FIELD_BMARK)| == HEADER_BYTES
  {
    HeaderLength(env, fs, FIELD_HCRC);
    WireSnoc(env, fs, 0, FIELD_HCRC);
    assert ShapedAt(fs, FIELD_HCRC);
    FieldOutDefined(env, fs, FIELD_HCRC);
  }

  function BaseAt(n: nat): int {
    if n > FIELD_HCRC then HEADER_BYTES else -1
  }

  lemma {:induction false} BaseInside(env: Env, fs: seq<Field>, n: nat)
    requires WellFormed(fs) && n <= |fs|
    ensures BaseAt(n) <= |Wire(env, fs, 0, n)|
    ensures n == FIELD_BMARK ==> |Wire(env, fs, 0, n)| == HEADER_BYTES
  {
    HeaderIs32(env, fs);
    if n > FIELD_HCRC {
      WireSplit(env, fs, 0, FIELD_BMARK, n);
    }
  }

  lemma {:induction false} EncodeTurnSealed(env: Env, fs: seq<Field>, n: nat, room: nat)
    requires WellFormed(fs) && n < |fs|
    ensures var s := Seal(env, fs);
      var out, out' := Wire(env, s, 0, n), Wire(env, s, 0, n + 1);
      && BaseAt(n) <= |out| && NextBase(n, BaseAt(n), out') == BaseAt(n + 1) <= |out'|
      && EncodeTurn(env, SealedBefore(env, fs, n), n, |fs|, out, BaseAt(n), room)
         == if |out'| <= room then Encoded(SealedBefore(env, fs, n + 1), out') else EncodeFailed(Aborted)
  {
    var s := Seal(env, fs);
    SealedFilled(env, fs);
    BaseInside(env, s, n);
    BaseInside(env, s, n + 1);
    SealStep(env, fs, n);
    SealedBeforeStep(env, fs, n);
    SealedBeforeReads(env, fs, n);
    FieldOutDefined(env, s, n);
    WireSnoc(env, s, 0, n);
  }

  lemma {:induction false} EncodeFromSealed(env: Env, fs: seq<Field>, n: nat, room: nat)
    requires WellFormed(fs) && n <= |fs|
    requires |Wire(env, Seal(env, fs), 0, n)| <= room
    ensures var s := Seal(env, fs);
      var out := Wire(env, s, 0, n);
      BaseAt(n) <= |out| &&
      EncodeFrom(env, SealedBefore(env, fs, n), n, |fs|, out, BaseAt(n), room)
      == if |PacketBytes(env, fs)| <= room then Encoded(s, PacketBytes(env, fs)) else EncodeFailed(Aborted)
    decreases |fs| - n
  {
    var s := Seal(env, fs);
    if n == |fs| {
      SealedFilled(env, fs);
      BaseInside(env, s, n);
      assert SealedBefore(env, fs, n) == s;
    } else {
      EncodeTurnSealed(env, fs, n, room);
      WireSplit(env, s, 0, n + 1, |fs|);
      if |Wire(env, s, 0, n + 1)| <= room {
        EncodeFromSealed(env, fs, n + 1, room);
      }
    }
  }

  /** Encoding a well-formed list writes exactly the sealed packet, when the buffer has room for
      it, and trips the stream's assertion when it has not. */
  lemma {:induction false} EncodeWellFormed(env: Env, fs: seq<Field>, room: nat)
    requires WellFormed(fs)
    ensures Encode(env, fs, |fs|, room)
         == if |PacketBytes(env, fs)| <= room then Encoded(Seal(env, fs), PacketBytes(env, fs))
            else EncodeFailed(Aborted)
  {
    EncodeFromSealed(env, fs, 0, room);
    assert SealedBefore(env, fs, 0) == fs;
  }
}
