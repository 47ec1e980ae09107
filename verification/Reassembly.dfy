/** How a part is put together from the chunks a socket delivers: byte accounting for every
    chunking, and exactly which chunkings put every byte in its place. */
module Reassembly {
  import opened Bytes
  import opened Packet
  import opened PacketSizes
  import opened SessionSpec

  predicate NoneEmpty(chunks: seq<seq<Byte>>) {
    forall i :: 0 <= i < |chunks| ==> |chunks[i]| > 0
  }

  /** The session's writes: the first chunk at `at`, every later one at the length of the chunk
      before it. */
  function Deliver(buf: seq<Byte>, at: nat, chunks: seq<seq<Byte>>): (r: seq<Byte>)
    requires at + |Concat(chunks)| <= |buf|
    ensures |r| == |buf|
    decreases |chunks|
  {
    if chunks == [] then buf else Deliver(Overwrite(buf, at, chunks[0]), |chunks[0]|, chunks[1..])
  }

  /** Feeding reads to a session until it has no read outstanding. */
  function Feed(env: Env, now: int, s: State, chunks: seq<seq<Byte>>): (r: State)
    requires Valid(s)
    ensures Valid(r)
    decreases |chunks|
  {
    if chunks == [] || !s.op.Reading? || |chunks[0]| > s.op.want then s
    else Feed(env, now, ReadDone(env, now, s, chunks[0]), chunks[1..])
  }

  /** Byte accounting, for every chunking into any number of short reads: the session goes on to
      want exactly the bytes that are missing, at an offset that keeps the next write inside the
      part, and nothing behind the part is touched. */
  lemma {:induction false} ShortReads(env: Env, now: int, s: State, part: nat, chunks: seq<seq<Byte>>)
    requires Valid(s) && s.op.Reading? && NoneEmpty(chunks) && |Concat(chunks)| < s.op.want
    requires s.op.at + s.op.want <= part <= |s.recv|
    ensures s.op.at + |Concat(chunks)| <= |s.recv|
    ensures var r := Feed(env, now, s, chunks);
      && r.op.Reading? && r.op.want == s.op.want - |Concat(chunks)|
      && r.op.at == (if chunks == [] then s.op.at else |chunks[|chunks| - 1]|)
      && r.op.at + r.op.want <= part
      && r == s.(recv := Deliver(s.recv, s.op.at, chunks), op := r.op)
      && r.recv[part..] == s.recv[part..]
    decreases |chunks|
  {
    if chunks != [] {
      var c := chunks[0];
      var next := ReadDone(env, now, s, c);
      assert NoneEmpty(chunks[1..]);
      ShortReads(env, now, next, part, chunks[1..]);
      assert next.recv[part..] == s.recv[part..];
    }
  }

  /** And the part is dispatched with the chunk that makes it complete, not before: all its bytes,
      and none of the next part's, have been taken by then. */
  lemma {:induction false} PartCompletes(env: Env, now: int, s: State, chunks: seq<seq<Byte>>, last: seq<Byte>)
    requires Valid(s) && s.op.Reading? && s.op.at == 0 && NoneEmpty(chunks) && |last| > 0
    requires |Concat(chunks)| + |last| == s.op.want
    ensures |Concat(chunks + [last])| == s.op.want <= |s.recv|
    ensures var full := s.(recv := Deliver(s.recv, 0, chunks + [last]));
      Feed(env, now, s, chunks + [last]) == Dispatch(env, now, full)
  {
    var all := chunks + [last];
    ConcatSnoc(chunks, last);
    ShortReads(env, now, s, s.op.want, chunks);
    FeedSplit(env, now, s, chunks, last);
    DeliverSnoc(s.recv, 0, chunks, last);
    var r := Feed(env, now, s, chunks);
    assert r.op.want == |last|;
    var t := r.(recv := Overwrite(r.recv, r.op.at, last));
    DispatchIgnoresOp(env, now, t, s.op);
  }

  /** What a dispatch does depends on the buffer and the header, not on the finished read. */
  lemma {:induction false} DispatchIgnoresOp(env: Env, now: int, s: State, op: Op)
    requires Valid(s) && s.op.Reading? && op.Reading? && Valid(s.(op := op))
    ensures Dispatch(env, now, s) == Dispatch(env, now, s.(op := op))
  {
    hide Resized;
  }

  lemma {:induction false} FeedSplit(env: Env, now: int, s: State, chunks: seq<seq<Byte>>, last: seq<Byte>)
    requires Valid(s) && s.op.Reading? && NoneEmpty(chunks) && |Concat(chunks)| + |last| <= s.op.want && |last| > 0
    ensures Feed(env, now, s, chunks + [last])
         == Feed(env, now, Feed(env, now, s, chunks), [last])
    decreases |chunks|
  {
    if chunks != [] {
      assert (chunks + [last])[1..] == chunks[1..] + [last];
      assert NoneEmpty(chunks[1..]);
      FeedSplit(env, now, ReadDone(env, now, s, chunks[0]), chunks[1..], last);
    }
  }

  lemma {:induction false} ConcatSnoc(chunks: seq<seq<Byte>>, last: seq<Byte>)
    ensures Concat(chunks + [last]) == Concat(chunks) + last
    decreases |chunks|
  {
    if chunks == [] {
      assert chunks + [last] == [last];
    } else {
      assert (chunks + [last])[1..] == chunks[1..] + [last];
      ConcatSnoc(chunks[1..], last);
      ConcatAssociates(chunks[0], Concat(chunks[1..]), last);
    }
  }

  lemma {:induction false} DeliverSnoc(buf: seq<Byte>, at: nat, chunks: seq<seq<Byte>>, last: seq<Byte>)
    requires at + |Concat(chunks)| + |last| <= |buf|
    ensures |Concat(chunks + [last])| == |Concat(chunks)| + |last|
    ensures var offset := if chunks == [] then at else |chunks[|chunks| - 1]|;
      offset + |last| <= |buf| &&
      Deliver(buf, at, chunks + [last]) == Overwrite(Deliver(buf, at, chunks), offset, last)
    decreases |chunks|
  {
    ConcatSnoc(chunks, last);
    if chunks == [] {
      assert chunks + [last] == [last] && [last][1..] == [];
    } else {
      assert (chunks + [last])[1..] == chunks[1..] + [last];
      ConcatSnoc(chunks[1..], last);
      DeliverSnoc(Overwrite(buf, at, chunks[0]), |chunks[0]|, chunks[1..], last);
    }
  }

  // ---------------------------------------------------------------- content

  /** Up to two chunks, the part is in the buffer as it was sent. */
  lemma {:induction false} TwoChunksArrive(buf: seq<Byte>, chunks: seq<seq<Byte>>)
    requires |Concat(chunks)| <= |buf| && |chunks| <= 2
    ensures Deliver(buf, 0, chunks)[..|Concat(chunks)|] == Concat(chunks)
  {
    if |chunks| == 1 {
      OneChunk(buf, 0, chunks[0]);
      assert chunks == [chunks[0]];
    } else if |chunks| == 2 {
      var a, b := chunks[0], chunks[1];
      OneChunk(Overwrite(buf, 0, a), |a|, b);
      TwoWrites(buf, a, b);
      assert chunks[1..] == [b];
    }
  }

  lemma {:induction false} OneChunk(buf: seq<Byte>, at: nat, c: seq<Byte>)
    requires at + |c| <= |buf|
    ensures Concat([c]) == c && Deliver(buf, at, [c]) == Overwrite(buf, at, c)
  {
    var none: seq<seq<Byte>> := [c][1..];
    assert none == [];
  }

  lemma {:induction false} TwoWrites(buf: seq<Byte>, a: seq<Byte>, b: seq<Byte>)
    requires |a| + |b| <= |buf|
    ensures Overwrite(Overwrite(buf, 0, a), |a|, b)[..|a| + |b|] == a + b
  {
  }

  /** Writes only reach as far as two neighbouring chunks together. */
  lemma {:induction false} DeliverReach(buf: seq<Byte>, at: nat, chunks: seq<seq<Byte>>, i: nat)
    requires at + |Concat(chunks)| <= |buf| && i < |buf|
    requires chunks != [] ==> at + |chunks[0]| <= i
    requires forall j :: 0 < j < |chunks| ==> |chunks[j - 1]| + |chunks[j]| <= i
    ensures Deliver(buf, at, chunks)[i] == buf[i]
    decreases |chunks|
  {
    if chunks != [] {
      forall j | 0 < j < |chunks[1..]|
        ensures |chunks[1..][j - 1]| + |chunks[1..][j]| <= i
      {
        assert chunks[1..][j - 1] == chunks[j] && chunks[1..][j] == chunks[j + 1];
      }
      if |chunks| > 1 {
        assert |chunks[1 - 1]| + |chunks[1]| <= i;
        assert chunks[1..][0] == chunks[1];
      }
      DeliverReach(Overwrite(buf, at, chunks[0]), |chunks[0]|, chunks[1..], i);
    }
  }

  lemma {:induction false} PairBelowTotal(chunks: seq<seq<Byte>>, j: nat)
    requires NoneEmpty(chunks) && |chunks| >= 3 && 0 < j < |chunks|
    ensures |chunks[j - 1]| + |chunks[j]| < |Concat(chunks)|
    decreases |chunks|
  {
    var rest: seq<seq<Byte>> := chunks[1..];
    var rest2: seq<seq<Byte>> := rest[1..];
    assert NoneEmpty(rest) && NoneEmpty(rest2);
    if j == 1 {
      assert rest[0] == chunks[1] && rest2[0] == chunks[2] && |rest2[0]| > 0;
      assert |Concat(rest)| == |rest[0]| + |Concat(rest2)| && |Concat(rest2)| >= |rest2[0]|;
    } else if |chunks| == 3 {
      assert rest[0] == chunks[1] && rest[1] == chunks[2] && rest2[0] == chunks[2];
      assert |rest2| == 1;
    } else {
      assert rest[j - 2] == chunks[j - 1] && rest[j - 1] == chunks[j];
      PairBelowTotal(rest, j - 1);
    }
  }

  /** From three chunks on, the last byte of the part is never written: the buffer keeps whatever
      it held there. */
  lemma {:induction false} LastByteStale(buf: seq<Byte>, chunks: seq<seq<Byte>>)
    requires NoneEmpty(chunks) && |chunks| >= 3 && |Concat(chunks)| <= |buf|
    ensures |Concat(chunks)| > 0
    ensures Deliver(buf, 0, chunks)[|Concat(chunks)| - 1] == buf[|Concat(chunks)| - 1]
  {
    forall j | 0 < j < |chunks|
      ensures |chunks[j - 1]| + |chunks[j]| <= |Concat(chunks)| - 1
    {
      PairBelowTotal(chunks, j);
    }
    PairBelowTotal(chunks, 1);
    assert |chunks[1 - 1]| + |chunks[1]| <= |Concat(chunks)| - 1;
    DeliverReach(buf, 0, chunks, |Concat(chunks)| - 1);
  }

  function Lengths(chunks: seq<seq<Byte>>): (ls: seq<nat>)
    ensures |ls| == |chunks|
  {
    seq(|chunks|, i requires 0 <= i < |chunks| => |chunks[i]|)
  }

  /** Whether every part cut into chunks of these lengths arrives intact, whatever the buffer held. */
  ghost predicate AlwaysIntact(ls: seq<nat>) {
    forall buf: seq<Byte>, chunks: seq<seq<Byte>> ::
      Lengths(chunks) == ls && |Concat(chunks)| <= |buf| ==>
        Deliver(buf, 0, chunks)[..|Concat(chunks)|] == Concat(chunks)
  }

  function Ones(ls: seq<nat>): (chunks: seq<seq<Byte>>)
    ensures |chunks| == |ls| && forall i :: 0 <= i < |ls| ==> |chunks[i]| == ls[i] && forall b :: b in chunks[i] ==>
      b == 1
  {
    seq(|ls|, i requires 0 <= i < |ls| => seq(ls[i], _ => 1))
  }

  lemma {:induction false} ConcatOfOnes(chunks: seq<seq<Byte>>)
    requires forall i :: 0 <= i < |chunks| ==> forall b :: b in chunks[i] ==> b == 1
    ensures forall b :: b in Concat(chunks) ==> b == 1
    decreases |chunks|
  {
    if chunks != [] {
      assert forall b :: b in chunks[0] ==> b == 1;
      ConcatOfOnes(chunks[1..]);
    }
  }

  /** The exact condition: with chunks of at least one byte, the offset rule reassembles every part
      correctly if and only if the part arrives in at most two chunks. */
  lemma {:induction false} IntactIffTwoChunks(ls: seq<nat>)
    requires forall i :: 0 <= i < |ls| ==> ls[i] > 0
    ensures AlwaysIntact(ls) <==> |ls| <= 2
  {
    if |ls| <= 2 {
      forall buf: seq<Byte>, chunks: seq<seq<Byte>> | Lengths(chunks) == ls && |Concat(chunks)| <= |buf|
        ensures Deliver(buf, 0, chunks)[..|Concat(chunks)|] == Concat(chunks)
      {
        TwoChunksArrive(buf, chunks);
      }
    } else {
      var chunks := Ones(ls);
      assert Lengths(chunks) == ls;
      var total := |Concat(chunks)|;
      var buf := Zeros(total);
      LastByteStale(buf, chunks);
      ConcatOfOnes(chunks);
      assert Concat(chunks)[total - 1] in Concat(chunks);
      assert Deliver(buf, 0, chunks)[..total][total - 1] == 0;
    }
  }

  /** Three one-byte reads of a three-byte part: the second byte is overwritten by the third, and
      the third place keeps its old content. */
  lemma {:induction false} ThreeChunkWitness()
    ensures Deliver([0, 0, 0], 0, [[7], [8], [9]]) == [7, 9, 0]
  {
    var chunks: seq<seq<Byte>> := [[7], [8], [9]];
    assert chunks[1..] == [[8], [9]] && chunks[1..][1..] == [[9]] && chunks[1..][1..][1..] == [];
    assert |Concat(chunks)| == 3;
    assert Overwrite([0, 0, 0], 0, [7]) == [7, 0, 0];
    assert Overwrite([7, 0, 0], 1, [8]) == [7, 8, 0];
    assert Overwrite([7, 8, 0], 1, [9]) == [7, 9, 0];
  }

}
