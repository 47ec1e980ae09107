/** Network-order streams over fixed buffers (src/common/io_streambuf.h, input_stream.cpp,
    output_stream.cpp). Running past the end of a buffer trips an assertion in the original;
    here it sets `aborted`, after which nothing more is promised. */
module Streams {
  import opened Bytes
  import opened NetStream

  predicate ElementSize(size: nat) {
    size == 1 || size == 2 || size == 4 || size == 8
  }

  /** The bytes that count elements of one size take up. */
  function Span(size: nat, count: nat): (bytes: nat) {
    if count == 0 then 0 else Span(size, count - 1) + size
  }

  lemma {:induction false} SpanIsProduct(size: nat, count: nat)
    ensures Span(size, count) == size * count
  {
    if count > 0 {
      SpanIsProduct(size, count - 1);
      assert size * count == size * (count - 1) + size;
    }
  }

  lemma {:induction false} SpanMonotone(size: nat, i: nat, count: nat)
    requires i <= count
    ensures Span(size, i) <= Span(size, count)
    decreases count
  {
    if i < count {
      SpanMonotone(size, i, count - 1);
    }
  }

  lemma {:induction false} SpanPositive(size: nat, i: nat)
    ensures Span(size, i + 1) >= size
  {
    SpanMonotone(size, 1, i + 1);
    assert Span(size, 1) == Span(size, 0) + size;
  }

  /** An array in host memory as it travels: each element most significant byte first. */
  function ArrayWire(little: bool, size: nat, mem: seq<Byte>): (bs: seq<Byte>)
    requires size > 0
    ensures |bs| == |mem|
    decreases |mem|
  {
    if |mem| < size then mem else Flip(little, mem[..size]) + ArrayWire(little, size, mem[size..])
  }

  /** Element i of an array in host memory. */
  function Element(little: bool, size: nat, mem: seq<Byte>, i: nat): (v: nat)
    requires size > 0 && Span(size, i + 1) <= |mem|
    decreases i
  {
    SpanPositive(size, i);
    if i == 0 then MemValue(little, mem[..size])
    else
      Element(little, size, mem[size..], i - 1)
  }

  /** Writing an array and reading it back on the same kind of host restores every byte. */
  lemma {:induction false} ArrayWireTwice(little: bool, size: nat, mem: seq<Byte>)
    requires size > 0
    ensures ArrayWire(little, size, ArrayWire(little, size, mem)) == mem
    decreases |mem|
  {
    if |mem| >= size {
      var head, tail := Flip(little, mem[..size]), ArrayWire(little, size, mem[size..]);
      assert (head + tail)[..size] == head && (head + tail)[size..] == tail;
      FlipTwice(little, mem[..size]);
      ArrayWireTwice(little, size, mem[size..]);
      assert mem == mem[..size] + mem[size..];
    }
  }

  /** Between any two hosts the elements keep their values: what host b reads from the bytes
      host a wrote is, element by element, what a held. */
  lemma {:induction false} ArrayValuesCross(a: bool, b: bool, size: nat, mem: seq<Byte>, i: nat)
    requires size > 0 && Span(size, i + 1) <= |mem|
    ensures Element(b, size, ArrayWire(b, size, ArrayWire(a, size, mem)), i) == Element(a, size, mem, i)
    decreases i
  {
    SpanPositive(size, i);
    var head, tail := Flip(a, mem[..size]), ArrayWire(a, size, mem[size..]);
    var wire := head + tail;
    assert wire[..size] == head && wire[size..] == tail;
    var back := Flip(b, head) + ArrayWire(b, size, tail);
    assert back[..size] == Flip(b, head) && back[size..] == ArrayWire(b, size, tail);
    FlipTwice(b, head);
    if i > 0 {
      ArrayValuesCross(a, b, size, mem[size..], i - 1);
    }
  }

  class OutputStream {
    const little: bool
    const buf: array<Byte>
    var pos: nat
    var aborted: bool

    ghost predicate Valid()
      reads this
    {
      pos <= buf.Length
    }

    ghost function Written(): seq<Byte>
      requires Valid()
      reads this, buf
    {
      buf[..pos]
    }

    /** Whether n more bytes fit before the end pointer. */
    predicate Fits(n: nat)
      reads this
    {
      !aborted && pos + n <= buf.Length
    }

    constructor (little: bool, buf: array<Byte>)
      ensures Valid() && !aborted && pos == 0
      ensures this.little == little && this.buf == buf
    {
      this.little, this.buf, this.pos, this.aborted := little, buf, 0, false;
    }

    /** Nothing behind the put pointer has changed, which does not move back. */
    twostate predicate RestKept()
      reads this, buf
    {
      old(pos) <= pos && forall j | pos <= j < buf.Length :: buf[j] == old(buf[j])
    }

    method Write(bs: seq<Byte>)
      requires Valid()
      modifies this, buf
      ensures RestKept()
      ensures Valid() && aborted == !old(Fits(|bs|))
      ensures !aborted ==> Written() == old(Written()) + bs
    {
      if Fits(|bs|) {
        forall i | 0 <= i < |bs| {
          buf[pos + i] := bs[i];
        }
        pos := pos + |bs|;
      } else {
        aborted := true;
      }
    }

    /** write_1, write_2, write_4 and write_8: swap on a little-endian host, then copy memory. */
    method WriteNumber(v: nat, size: nat)
      requires Valid() && ElementSize(size) && v < Pow256(size)
      modifies this, buf
      ensures RestKept()
      ensures Valid() && aborted == !old(Fits(size))
      ensures !aborted ==> Written() == old(Written()) + BeBytes(v, size)
    {
      var i := v;
      if little {
        i := SwapNumber(little, v, size);
      }
      WireOrderIsHostIndependent(little, v, size);
      Write(MemBytes(little, i, size));
    }

    /** write_n(&p[i]) on one element as it lies in host memory. */
    method WriteElement(group: seq<Byte>)
      requires Valid() && ElementSize(|group|)
      modifies this, buf
      ensures RestKept()
      ensures Valid() && aborted == !old(Fits(|group|))
      ensures !aborted ==> Written() == old(Written()) + Flip(little, group)
    {
      WireOfElement(little, group);
      WriteNumber(MemValue(little, group), |group|);
    }

    method WriteArray(mem: array<Byte>, size: nat, count: nat)
      requires Valid() && ElementSize(size) && mem.Length >= Span(size, count) && mem != buf
      modifies this, buf
      ensures RestKept()
      ensures Valid() && aborted == !old(Fits(Span(size, count)))
      ensures !aborted ==> Written() == old(Written()) + ArrayWire(little, size, old(mem[..Span(size, count)]))
    {
      hide ArrayWire, Flip;
      if aborted {
        return;
      }
      var i, off := 0, 0;
      var p := mem[..Span(size, count)];
      ghost var start, done: seq<Byte>, todo := Written(), [], p;
      while i < count && !aborted
        invariant Valid() && i <= count && off == Span(size, i) <= |p| && |done| == off
        invariant !aborted ==> Written() == start + done
        invariant todo == p[off..] && done + ArrayWire(little, size, todo) == ArrayWire(little, size, p)
        invariant aborted ==> old(pos) + |p| > buf.Length
        invariant RestKept()
      {
        SpanMonotone(size, i + 1, count);
        ArrayWireStep(little, size, p, off, done, todo);
        var group := p[off..off + size];
        ConcatAssociates(start, done, Flip(little, group));
        WriteElement(group);
        done, todo := done + Flip(little, group), todo[size..];
        i, off := i + 1, off + size;
      }
    }
  }

  lemma {:induction false} ArrayWireStep(little: bool, size: nat, p: seq<Byte>, off: nat, done: seq<Byte>,
                                         todo: seq<Byte>)
    requires size > 0 && off + size <= |p|
    requires todo == p[off..] && done + ArrayWire(little, size, todo) == ArrayWire(little, size, p)
    ensures todo[size..] == p[off + size..] && p[off..off + size] == todo[..size]
    ensures done + Flip(little, p[off..off + size]) + ArrayWire(little, size, todo[size..])
         == ArrayWire(little, size, p)
  {
    ConcatAssociates(done, Flip(little, todo[..size]), ArrayWire(little, size, todo[size..]));
  }

  method SwapNumber(little: bool, v: nat, size: nat) returns (r: nat)
    requires ElementSize(size) && v < Pow256(size)
    ensures r == ByteSwap(v, size)
  {
    if size == 2 {
      r := Swap2(little, v);
    } else if size == 4 {
      r := Swap4(little, v);
    } else if size == 8 {
      r := Swap8(little, v);
    } else {
      r := v;
      var bs := BeBytes(v, 1);
      assert Reverse(bs) == bs;
      BeValueOfBytes(v, 1);
    }
  }

  class InputStream {
    const little: bool
    const buf: array<Byte>
    const end: nat
    var pos: nat
    var aborted: bool

    ghost predicate Valid()
      reads this
    {
      pos <= end <= buf.Length
    }

    /** Whether n more bytes can be read before the end pointer. */
    predicate Has(n: nat)
      reads this
    {
      !aborted && pos + n <= end
    }

    constructor (little: bool, buf: array<Byte>, len: nat)
      requires len <= buf.Length
      ensures Valid() && !aborted && pos == 0
      ensures this.little == little && this.buf == buf && this.end == len
    {
      this.little, this.buf, this.end, this.pos, this.aborted := little, buf, len, 0, false;
    }

    method Read(n: nat) returns (bs: seq<Byte>)
      requires Valid()
      modifies this
      ensures Valid() && aborted == !old(Has(n)) && |bs| == n
      ensures !aborted ==> pos == old(pos) + n && bs == buf[old(pos)..pos]
    {
      if Has(n) {
        bs := buf[pos..pos + n];
        pos := pos + n;
      } else {
        aborted := true;
        bs := seq(n, _ => 0);
      }
    }

    /** read_1, read_2, read_4 and read_8: copy memory, then swap on a little-endian host. */
    method ReadNumber(size: nat) returns (v: nat)
      requires Valid() && ElementSize(size)
      modifies this
      ensures Valid() && aborted == !old(Has(size)) && v < Pow256(size)
      ensures !aborted ==> pos == old(pos) + size && v == BeValue(buf[old(pos)..pos])
    {
      var tmp := Read(size);
      SwapRead(little, tmp);
      v := MemValue(little, tmp);
      if little {
        v := SwapNumber(little, v, size);
      }
    }

    /** One block read into the caller's array, then every element swapped where it lies. */
    method ReadArray(mem: array<Byte>, size: nat, count: nat)
      requires Valid() && ElementSize(size) && mem.Length >= Span(size, count) && mem != buf
      modifies this, mem
      ensures Valid() && aborted == !old(Has(Span(size, count)))
      ensures !aborted ==> pos == old(pos) + Span(size, count)
      ensures !aborted ==> mem[..] == ArrayWire(little, size, old(buf[pos..pos + Span(size, count)]))
                                    + old(mem[Span(size, count)..])
    {
      var bytes := Span(size, count);
      var wire := Read(bytes);
      if aborted {
        return;
      }
      ghost var rest := mem[bytes..];
      forall i | 0 <= i < bytes {
        mem[i] := wire[i];
      }
      assert mem[..bytes] == wire && mem[bytes..] == rest;
      if little && size > 1 {
        SwapElements(mem, size, count);
      } else {
        UnflippedArray(little, size, wire);
      }
      assert mem[..] == mem[..bytes] + mem[bytes..];
    }

    method SwapElements(mem: array<Byte>, size: nat, count: nat)
      requires ElementSize(size) && mem.Length >= Span(size, count) && little
      modifies mem
      ensures mem[..Span(size, count)] == ArrayWire(true, size, old(mem[..Span(size, count)]))
      ensures mem[Span(size, count)..] == old(mem[Span(size, count)..])
    {
      var i, off := 0, 0;
      ghost var cur, wire, tail := mem[..], mem[..Span(size, count)], mem[Span(size, count)..];
      ghost var done: seq<Byte>, todo := [], wire;
      while i < count
        invariant i <= count && off == Span(size, i) == |done| && |done| + |todo| == Span(size, count)
        invariant mem[..] == cur == done + todo + tail
        invariant done + ArrayWire(true, size, todo) == ArrayWire(true, size, wire)
      {
        SpanMonotone(size, i + 1, count);
        SwapElement(mem, off, size, cur);
        cur := SwappedAt(cur, off, size);
        SwapStep(size, done, todo, tail);
        done, todo := done + Reverse(todo[..size]), todo[size..];
        i, off := i + 1, off + size;
      }
      assert todo == [];
    }

    /** p[i] = swap(p[i]) on a little-endian host. */
    method SwapElement(mem: array<Byte>, off: nat, size: nat, ghost cur: seq<Byte>)
      requires ElementSize(size) && little && off + size <= mem.Length && mem[..] == cur
      modifies mem
      ensures mem[..] == SwappedAt(cur, off, size)
    {
      var swapped := SwapGroup(mem[off..off + size]);
      forall i | 0 <= i < size {
        mem[off + i] := swapped[i];
      }
    }
  }

  method SwapGroup(group: seq<Byte>) returns (swapped: seq<Byte>)
    requires ElementSize(|group|)
    ensures swapped == Reverse(group)
  {
    var v := SwapNumber(true, MemValue(true, group), |group|);
    SwappedElement(group);
    swapped := MemBytes(true, v, |group|);
  }

  function SwappedAt(mem: seq<Byte>, off: nat, size: nat): (r: seq<Byte>)
    requires off + size <= |mem|
  {
    seq(|mem|, k requires 0 <= k < |mem| => if off <= k < off + size then mem[off + off + size - 1 - k] else mem[k])
  }

  lemma {:induction false} SwapStep(size: nat, done: seq<Byte>, todo: seq<Byte>, tail: seq<Byte>)
    requires 0 < size <= |todo|
    ensures SwappedAt(done + todo + tail, |done|, size) == (done + Reverse(todo[..size])) + todo[size..] + tail
    ensures done + Reverse(todo[..size]) + ArrayWire(true, size, todo[size..]) == done + ArrayWire(true, size, todo)
  {
    var mem := done + todo + tail;
    var patched := (done + Reverse(todo[..size])) + todo[size..] + tail;
    forall k | 0 <= k < |mem|
      ensures SwappedAt(mem, |done|, size)[k] == patched[k]
    {
    }
    ConcatAssociates(done, Reverse(todo[..size]), ArrayWire(true, size, todo[size..]));
  }

  lemma {:induction false} SwapRead(little: bool, tmp: seq<Byte>)
    ensures BeValue(tmp) == if little then ByteSwap(MemValue(little, tmp), |tmp|) else MemValue(little, tmp)
  {
    BeBytesOfValue(Reverse(tmp));
    ReverseTwice(tmp);
  }

  lemma {:induction false} SwappedElement(group: seq<Byte>)
    ensures MemBytes(true, ByteSwap(MemValue(true, group), |group|), |group|) == Reverse(group)
  {
    BeBytesOfValue(Reverse(group));
    ReverseTwice(group);
    BeBytesOfValue(group);
  }

  lemma {:induction false} UnflippedArray(little: bool, size: nat, mem: seq<Byte>)
    requires size > 0 && (little ==> size == 1)
    ensures ArrayWire(little, size, mem) == mem
    decreases |mem|
  {
    if |mem| >= size {
      UnflippedArray(little, size, mem[size..]);
      assert mem == mem[..size] + mem[size..];
      assert Flip(little, mem[..size]) == mem[..size];
    }
  }
}
