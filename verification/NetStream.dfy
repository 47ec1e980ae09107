/** Byte swapping of 16, 32 and 64 bit numbers (src/common/net_stream.cpp). */
module NetStream {
  import opened Bytes

  /** Full byte reversal of an n-byte number. */
  function ByteSwap(v: nat, n: nat): (r: nat)
    ensures r < Pow256(n)
  {
    BeValue(Reverse(BeBytes(v, n)))
  }

  /** Reversing host memory reverses the number, whichever order the host uses. */
  lemma {:induction false} SwapInMemory(little: bool, v: nat, n: nat)
    ensures MemValue(little, Reverse(MemBytes(little, v, n))) == ByteSwap(v, n)
  {
    ReverseTwice(BeBytes(v, n));
  }

  /** The exchange of bytes that swap_2 and swap_4 perform, in place. */
  method ExchangeInPlace(arr: array<Byte>, i: nat, j: nat)
    requires i < arr.Length && j < arr.Length
    modifies arr
    ensures arr[..] == old(arr[..][i := arr[j]][j := arr[i]])
  {
    var byte := arr[i];
    arr[i] := arr[j];
    arr[j] := byte;
  }

  method CopyToMemory(bs: seq<Byte>) returns (arr: array<Byte>)
    ensures fresh(arr) && arr[..] == bs
  {
    arr := new Byte[|bs|](i requires 0 <= i < |bs| => bs[i]);
  }

  method Swap2(little: bool, v: nat) returns (r: nat)
    requires v < Pow256(2)
    ensures r == ByteSwap(v, 2)
  {
    var arr := CopyToMemory(MemBytes(little, v, 2));
    ExchangeInPlace(arr, 0, 1);
    assert arr[..] == Reverse(MemBytes(little, v, 2));
    SwapInMemory(little, v, 2);
    r := MemValue(little, arr[..]);
  }

  method Swap4(little: bool, v: nat) returns (r: nat)
    requires v < Pow256(4)
    ensures r == ByteSwap(v, 4)
  {
    var arr := CopyToMemory(MemBytes(little, v, 4));
    ExchangeInPlace(arr, 0, 3);
    ExchangeInPlace(arr, 1, 2);
    assert arr[..] == Reverse(MemBytes(little, v, 4));
    SwapInMemory(little, v, 4);
    r := MemValue(little, arr[..]);
  }

  /** An 8-byte swap out of two 4-byte swaps with the halves exchanged. */
  method Swap8(little: bool, v: nat) returns (r: nat)
    requires v < Pow256(8)
    ensures r == ByteSwap(v, 8)
  {
    Pow256Values();
    var low := v % 0x1_0000_0000;
    var high := v / 0x1_0000_0000;
    SwapHalves(v);
    low := Swap4(little, low);
    high := Swap4(little, high);
    r := high + low * 0x1_0000_0000;
  }

  lemma {:induction false} SwapHalves(v: nat)
    requires v < Pow256(8)
    ensures v / 0x1_0000_0000 < Pow256(4)
    ensures ByteSwap(v, 8)
         == ByteSwap(v / 0x1_0000_0000, 4) + ByteSwap(v % 0x1_0000_0000, 4) * 0x1_0000_0000
  {
    Pow256Values();
    var bs := BeBytes(v, 8);
    var a, b := bs[..4], bs[4..];
    assert bs == a + b;
    BeValueOfBytes(v, 8);
    BeValueConcat(a, b);
    assert BeValue(a) == v / 0x1_0000_0000 && BeValue(b) == v % 0x1_0000_0000;
    BeBytesOfValue(a);
    BeBytesOfValue(b);
    ReverseConcat(a, b);
    BeValueConcat(Reverse(b), Reverse(a));
  }

  /** Swapping twice gives the number back, for every width. */
  lemma {:induction false} SwapInvolutive(v: nat, n: nat)
    requires v < Pow256(n)
    ensures ByteSwap(ByteSwap(v, n), n) == v
  {
    var r := Reverse(BeBytes(v, n));
    BeBytesOfValue(r);
    ReverseTwice(BeBytes(v, n));
    BeValueOfBytes(v, n);
  }

  /** A host swaps before writing exactly when it is little-endian; the memory then holds the
      most significant byte first on either host. */
  lemma {:induction false} WireOrderIsHostIndependent(little: bool, v: nat, n: nat)
    requires v < Pow256(n)
    ensures MemBytes(little, if little then ByteSwap(v, n) else v, n) == BeBytes(v, n)
  {
    var r := Reverse(BeBytes(v, n));
    BeBytesOfValue(r);
    ReverseTwice(BeBytes(v, n));
  }
}
