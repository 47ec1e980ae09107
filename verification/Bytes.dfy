/** Bytes, fixed-width numbers and their layouts: most significant byte first on the wire,
    either way round in host memory. */
module Bytes {
  type Byte = x: int | 0 <= x < 256
  type Word32 = x: int | 0 <= x < 0x1_0000_0000

  function Pow256(n: nat): (p: nat)
    ensures p > 0
  {
    if n == 0 then 1 else 256 * Pow256(n - 1)
  }

  lemma {:induction false} Pow256Values()
    ensures Pow256(1) == 0x100
    ensures Pow256(2) == 0x1_0000
    ensures Pow256(4) == 0x1_0000_0000
    ensures Pow256(8) == 0x1_0000_0000_0000_0000
  {
    assert Pow256(2) == 256 * Pow256(1);
    assert Pow256(3) == 256 * Pow256(2);
    assert Pow256(4) == 256 * Pow256(3);
    assert Pow256(5) == 256 * Pow256(4);
    assert Pow256(6) == 256 * Pow256(5);
    assert Pow256(7) == 256 * Pow256(6);
  }

  lemma {:induction false} ConcatAssociates<T>(a: seq<T>, b: seq<T>, c: seq<T>)
    ensures a + (b + c) == a + b + c
  {
  }

  /** The n low bytes of v, most significant first. */
  function BeBytes(v: nat, n: nat): (bs: seq<Byte>)
    ensures |bs| == n
  {
    if n == 0 then [] else BeBytes(v / 256, n - 1) + [v % 256]
  }

  function BeValue(bs: seq<Byte>): (v: nat)
    ensures v < Pow256(|bs|)
  {
    if bs == [] then 0 else BeValue(bs[..|bs| - 1]) * 256 + bs[|bs| - 1]
  }

  function Reverse(bs: seq<Byte>): (r: seq<Byte>)
    ensures |r| == |bs|
    ensures forall i :: 0 <= i < |bs| ==> r[i] == bs[|bs| - 1 - i]
  {
    seq(|bs|, i requires 0 <= i < |bs| => bs[|bs| - 1 - i])
  }

  lemma {:induction false} ReverseTwice(bs: seq<Byte>)
    ensures Reverse(Reverse(bs)) == bs
  {
  }

  /** Four bytes in numbers. */
  lemma {:induction false} MostSignificantFirst(v: nat)
    requires v < 0x1_0000_0000
    ensures BeBytes(v, 4) == [v / 0x100_0000, v / 0x1_0000 % 0x100, v / 0x100 % 0x100, v % 0x100]
    ensures MemBytes(false, v, 4) == BeBytes(v, 4)
    ensures MemBytes(true, v, 4) == [v % 0x100, v / 0x100 % 0x100, v / 0x1_0000 % 0x100, v / 0x100_0000]
  {
    var a, b, c := v / 256, v / 256 / 256, v / 256 / 256 / 256;
    assert BeBytes(c, 1) == BeBytes(0, 0) + [c];
    assert BeBytes(b, 2) == BeBytes(c, 1) + [b % 256];
    assert BeBytes(a, 3) == BeBytes(b, 2) + [a % 256];
  }

  lemma {:induction false} BeValueOfBytes(v: nat, n: nat)
    requires v < Pow256(n)
    ensures BeValue(BeBytes(v, n)) == v
  {
    if n > 0 {
      BeValueOfBytes(v / 256, n - 1);
      assert BeBytes(v, n)[..n - 1] == BeBytes(v / 256, n - 1);
    }
  }

  lemma {:induction false} BeBytesOfValue(bs: seq<Byte>)
    ensures BeBytes(BeValue(bs), |bs|) == bs
  {
    if bs != [] {
      BeBytesOfValue(bs[..|bs| - 1]);
      assert bs == bs[..|bs| - 1] + [bs[|bs| - 1]];
    }
  }

  lemma {:induction false} BeValueConcat(a: seq<Byte>, b: seq<Byte>)
    ensures BeValue(a + b) == BeValue(a) * Pow256(|b|) + BeValue(b)
  {
    if b == [] {
      assert a + b == a;
    } else {
      var b' := b[..|b| - 1];
      assert (a + b)[..|a + b| - 1] == a + b';
      BeValueConcat(a, b');
      Horner(BeValue(a), Pow256(|b'|), BeValue(b'), b[|b| - 1]);
    }
  }

  lemma {:induction false} Horner(x: int, p: int, y: int, d: int)
    ensures (x * p + y) * 256 + d == x * (256 * p) + (y * 256 + d)
  {
  }

  lemma {:induction false} ReverseConcat(a: seq<Byte>, b: seq<Byte>)
    ensures Reverse(a + b) == Reverse(b) + Reverse(a)
  {
  }

  /** The bytes one array element occupies in host memory, put in wire order, and back. */
  function Flip(little: bool, bs: seq<Byte>): (r: seq<Byte>)
    ensures |r| == |bs|
  {
    if little then Reverse(bs) else bs
  }

  lemma {:induction false} FlipTwice(little: bool, bs: seq<Byte>)
    ensures Flip(little, Flip(little, bs)) == bs
  {
    ReverseTwice(bs);
  }

  /** How the host lays out an n-byte number in memory, and how it reads one. */
  function MemBytes(little: bool, v: nat, n: nat): (bs: seq<Byte>)
    ensures |bs| == n
  {
    Flip(little, BeBytes(v, n))
  }

  function MemValue(little: bool, bs: seq<Byte>): (v: nat)
    ensures v < Pow256(|bs|)
  {
    BeValue(Flip(little, bs))
  }

  lemma {:induction false} WireOfElement(little: bool, bs: seq<Byte>)
    ensures BeBytes(MemValue(little, bs), |bs|) == Flip(little, bs)
  {
    BeBytesOfValue(Flip(little, bs));
  }

  /** Two's complement: the unsigned pattern of v in n bytes, and the signed value of a pattern. */
  function ToUnsigned(v: int, n: nat): (u: nat)
    ensures u < Pow256(n)
  {
    v % Pow256(n)
  }

  function ToSigned(u: nat, n: nat): int
  {
    if 2 * u < Pow256(n) then u else u - Pow256(n)
  }

  predicate InRange(v: int, n: nat)
  {
    0 <= 2 * v + Pow256(n) < 2 * Pow256(n)
  }

  function Int32(v: int): int
  {
    ToSigned(ToUnsigned(v, 4), 4)
  }

  /** A signed number survives the cast to n bytes and back exactly when it is in range. */
  lemma {:induction false} SignedRoundTrip(v: int, n: nat)
    requires n > 0
    ensures ToSigned(ToUnsigned(v, n), n) == v <==> InRange(v, n)
    ensures InRange(ToSigned(ToUnsigned(v, n), n), n)
  {
    var p := Pow256(n);
    assert p == 256 * Pow256(n - 1);
    if InRange(v, n) {
      if v >= 0 {
        SmallMod(v, p);
      } else {
        SmallMod(v + p, p);
        assert v % p == (v + p) % p by { AddMod(v, p); }
      }
    }
  }

  lemma {:induction false} UnsignedRoundTrip(u: nat, n: nat)
    requires u < Pow256(n)
    ensures ToUnsigned(ToSigned(u, n), n) == u
  {
    var p := Pow256(n);
    SmallMod(u, p);
    AddMod(u - p, p);
  }

  lemma {:induction false} SmallMod(v: int, p: int)
    requires 0 <= v < p
    ensures v % p == v
  {
  }

  lemma {:induction false} AddMod(v: int, p: int)
    requires p > 0
    ensures v % p == (v + p) % p
  {
    var q := v / p;
    assert v == q * p + v % p;
    assert v + p == (q + 1) * p + v % p;
    DivModUnique(v + p, q + 1, v % p, p);
  }

  lemma {:induction false} DivModUnique(v: int, q: int, r: int, p: int)
    requires p > 0 && 0 <= r < p && v == q * p + r
    ensures v / p == q && v % p == r
  {
    var d := q - v / p;
    assert v == (v / p) * p + v % p;
    assert d * p == v % p - r by { assert d * p == q * p - (v / p) * p; }
    MultipleInside(d, p);
  }

  lemma {:induction false} MultipleInside(d: int, p: int)
    requires -p < d * p < p
    ensures d == 0
  {
  }
}
