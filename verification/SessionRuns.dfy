/** Runs of a session against an adversarial network: the stream is cut into chunks at will, with at
    most one short read per part. Packets are given by their bytes and by what a dispatch of each
    part does; ConnectExchange shows that the real messages behave that way. */
module SessionRuns {
  import opened Bytes
  import opened Packet
  import opened SessionSpec

  /** A packet on its way to the session: its two parts, the header they decode to, and for a login
      the names it carries. */
  datatype Parcel =
    | Login(head: seq<Byte>, body: seq<Byte>, header: seq<Field>, names: (seq<Byte>, seq<Byte>))
    | Bye(head: seq<Byte>, body: seq<Byte>, header: seq<Field>)

  /** A session's peer: the packets it sends, and what the session answers a login at a given time. */
  datatype Peer = Peer(packets: seq<Parcel>, answer: int -> seq<Byte>, clock: int -> bool)

  /** The header part is dispatched as a header, and its body is asked for. */
  ghost predicate HeadUnderstood(b: Env, peer: Peer, p: Parcel) {
    |p.head| == HEADER_BYTES && |p.body| > 0 && |p.header| == FIELD_BMARK &&
    forall s: State, now: int :: Valid(s) && s.op != Idle && p.head <= s.recv && peer.clock(now) ==>
      Dispatch(b, now, s)
      == s.(recv := Resized(s.recv, |p.body|), header := p.header, op := Reading(0, |p.body|))
  }

  /** The body part is dispatched as a body: a login is logged and answered, a bye closes. */
  ghost predicate BodyUnderstood(b: Env, peer: Peer, p: Parcel) {
    forall s: State, now: int ::
      Valid(s) && s.op != Idle && p.body <= s.recv && s.header == p.header && peer.clock(now) ==>
        Dispatch(b, now, s)
        == if p.Bye? then Close(s) else s.(op := Writing(peer.answer(now)), seen := s.seen + [p.names])
  }

  /** Any number of logins, then a bye, every part of which the session understands. */
  ghost predicate GoodPeer(b: Env, peer: Peer) {
    && |peer.packets| > 0
    && (forall i :: 0 <= i < |peer.packets| ==> peer.packets[i].Bye? == (i == |peer.packets| - 1))
    && (forall i :: 0 <= i < |peer.packets| ==>
          HeadUnderstood(b, peer, peer.packets[i]) && BodyUnderstood(b, peer, peer.packets[i]))
    && exists now: int :: peer.clock(now)
  }

  /** The stream from packet i on. */
  function From(peer: Peer, i: nat): seq<Byte>
    decreases |peer.packets| - i
  {
    if i >= |peer.packets| then [] else peer.packets[i].head + (peer.packets[i].body + From(peer, i + 1))
  }

  /** The names the first n packets carry. */
  function Names(peer: Peer, n: nat): seq<(seq<Byte>, seq<Byte>)>
    requires n <= |peer.packets| && forall i :: 0 <= i < n ==> peer.packets[i].Login?
  {
    seq(n, i requires 0 <= i < n => peer.packets[i].names)
  }

  ghost predicate IsAnswer(peer: Peer, bytes: seq<Byte>) {
    exists now: int :: peer.clock(now) && bytes == peer.answer(now)
  }

  // ---------------------------------------------------------------- the system

  /** The session, the part of the stream not yet delivered, the short reads in the current part
      and the replies written so far. */
  datatype Sys = Sys(s: State, rest: seq<Byte>, shorts: nat, replies: seq<seq<Byte>>)

  /** What the environment chooses: how many bytes a read completes with, and what the clock says. */
  datatype Choice = Choice(bytes: nat, now: int)

  /** The network delivers at least a byte, no more than is wanted or has been sent, and cuts a part
      short at most once; a pending write completes. */
  predicate Legal(peer: Peer, sys: Sys, c: Choice) {
    peer.clock(c.now) &&
    match sys.s.op
    case Idle => false
    case Writing(_) => true
    case Reading(_, want) => 1 <= c.bytes <= want && c.bytes <= |sys.rest| && (c.bytes < want ==> sys.shorts == 0)
  }

  function Step(b: Env, peer: Peer, sys: Sys, c: Choice): (r: Sys)
    requires Valid(sys.s) && Legal(peer, sys, c)
    ensures Valid(r.s)
  {
    match sys.s.op
    case Writing(bytes) => sys.(s := WriteDone(sys.s, true), replies := sys.replies + [bytes])
    case Reading(_, want) =>
      Sys(ReadDone(b, c.now, sys.s, sys.rest[..c.bytes]), sys.rest[c.bytes..],
          if c.bytes < want then sys.shorts + 1 else 0, sys.replies)
  }

  predicate LegalRun(b: Env, peer: Peer, sys: Sys, cs: seq<Choice>)
    requires Valid(sys.s)
    decreases |cs|
  {
    cs == [] || (Legal(peer, sys, cs[0]) && LegalRun(b, peer, Step(b, peer, sys, cs[0]), cs[1..]))
  }

  function Run(b: Env, peer: Peer, sys: Sys, cs: seq<Choice>): (r: Sys)
    requires Valid(sys.s) && LegalRun(b, peer, sys, cs)
    ensures Valid(r.s)
    decreases |cs|
  {
    if cs == [] then sys else Run(b, peer, Step(b, peer, sys, cs[0]), cs[1..])
  }

  /** A fresh session on a connection that carries the whole stream. */
  function Connected(peer: Peer): (sys: Sys)
    ensures Valid(sys.s)
  {
    Sys(Start(State([], [], Idle, Open, [])), From(peer, 0), 0, [])
  }

  // ---------------------------------------------------------------- the invariant

  datatype Phase = InHeader(got: nat) | InBody(got: nat) | Replying | Finished

  ghost predicate Answered(peer: Peer, replies: seq<seq<Byte>>, n: nat) {
    |replies| == n && forall j :: 0 <= j < n ==> IsAnswer(peer, replies[j])
  }

  /** The buffer holds the first `got` bytes of a part, the rest of it comes next. */
  predicate PartAt(sys: Sys, part: seq<Byte>, got: nat, next: seq<Byte>) {
    && got < |part| <= |sys.s.recv| && HEADER_BYTES <= |sys.s.recv|
    && sys.s.life == Open && sys.s.op == Reading(got, |part| - got)
    && sys.s.recv[..got] == part[..got]
    && sys.rest == part[got..] + next
    && (sys.shorts > 0 <==> got > 0)
  }

  /** Where a run is: packet i, and how far. */
  ghost predicate At(peer: Peer, sys: Sys, i: nat, ph: Phase) {
    && i < |peer.packets| && (forall j :: 0 <= j < i ==> peer.packets[j].Login?)
    && Answered(peer, sys.replies, i)
    && match ph
       case InHeader(got) =>
         && PartAt(sys, peer.packets[i].head, got, peer.packets[i].body + From(peer, i + 1))
         && sys.s.seen == Names(peer, i)
       case InBody(got) =>
         && PartAt(sys, peer.packets[i].body, got, From(peer, i + 1))
         && sys.s.header == peer.packets[i].header && sys.s.seen == Names(peer, i)
       case Replying =>
         && peer.packets[i].Login? && HEADER_BYTES <= |sys.s.recv|
         && sys.s.life == Open && sys.s.op.Writing? && IsAnswer(peer, sys.s.op.bytes)
         && sys.rest == From(peer, i + 1) && sys.shorts == 0
         && sys.s.seen == Names(peer, i) + [peer.packets[i].names]
       case Finished =>
         && peer.packets[i].Bye? && sys.s.life == Closed && sys.rest == From(peer, i + 1)
         && sys.s.seen == Names(peer, i)
  }

  lemma {:induction false} StartsAtFirstHeader(b: Env, peer: Peer)
    requires GoodPeer(b, peer)
    ensures At(peer, Connected(peer), 0, InHeader(0))
  {
    assert HeadUnderstood(b, peer, peer.packets[0]);
    assert Names(peer, 0) == [];
  }

  /** The bytes of a chunk in their place. */
  lemma {:induction false} ChunkInPlace(recv: seq<Byte>, part: seq<Byte>, got: nat, next: seq<Byte>, n: nat)
    requires got + n <= |part| <= |recv| && recv[..got] == part[..got]
    ensures var rest := part[got..] + next;
      && n <= |rest| && rest[n..] == part[got + n..] + next
      && Overwrite(recv, got, rest[..n])[..got + n] == part[..got + n]
  {
    var rest := part[got..] + next;
    assert rest[..n] == part[got..got + n];
    var r := Overwrite(recv, got, rest[..n]);
    assert r[..got + n] == recv[..got] + part[got..got + n];
  }

  /** A short read inside a part moves the position on by its bytes. */
  lemma {:induction false} ShortStep(b: Env, peer: Peer, sys: Sys, part: seq<Byte>, got: nat, next: seq<Byte>,
                                     c: Choice) returns (r: Sys)
    requires Valid(sys.s) && Legal(peer, sys, c) && PartAt(sys, part, got, next) && c.bytes < |part| - got
    ensures r == Step(b, peer, sys, c)
    ensures PartAt(r, part, c.bytes, next)
    ensures r.s == sys.s.(recv := r.s.recv, op := r.s.op) && r.replies == sys.replies
  {
    ChunkInPlace(sys.s.recv, part, got, next, c.bytes);
    r := Step(b, peer, sys, c);
  }

  /** The read that completes a part leaves all of it at the front of the buffer. */
  lemma {:induction false} FullStep(b: Env, peer: Peer, sys: Sys, part: seq<Byte>, got: nat, next: seq<Byte>, c: Choice)
    returns (r: Sys, full: State)
    requires Valid(sys.s) && Legal(peer, sys, c) && PartAt(sys, part, got, next) && c.bytes == |part| - got
    ensures r == Step(b, peer, sys, c)
    ensures Valid(full) && full == sys.s.(recv := full.recv) && |full.recv| == |sys.s.recv| && part <= full.recv
    ensures r == Sys(Dispatch(b, c.now, full), next, 0, sys.replies)
  {
    ChunkInPlace(sys.s.recv, part, got, next, c.bytes);
    assert part[..got + c.bytes] == part && part[got + c.bytes..] + next == next;
    full := sys.s.(recv := Overwrite(sys.s.recv, got, sys.rest[..c.bytes]));
    r := Step(b, peer, sys, c);
  }

  /** What the dispatch of a header part yields, spelled out. */
  lemma {:induction false} HeadDispatched(b: Env, peer: Peer, p: Parcel, full: State, now: int) returns (r: State)
    requires HeadUnderstood(b, peer, p) && Valid(full) && full.op != Idle && p.head <= full.recv && peer.clock(now)
    ensures r == Dispatch(b, now, full)
    ensures r == full.(recv := Resized(full.recv, |p.body|), header := p.header, op := Reading(0, |p.body|))
  {
    r := Dispatch(b, now, full);
  }

  lemma {:induction false} BodyDispatched(b: Env, peer: Peer, p: Parcel, full: State, now: int) returns (r: State)
    requires BodyUnderstood(b, peer, p) && Valid(full) && full.op != Idle && p.body <= full.recv
    requires full.header == p.header && peer.clock(now)
    ensures r == Dispatch(b, now, full)
    ensures r == if p.Bye? then Close(full) else full.(op := Writing(peer.answer(now)), seen := full.seen + [p.names])
  {
    r := Dispatch(b, now, full);
  }

  lemma {:induction false} HeaderStepAt(b: Env, peer: Peer, sys: Sys, i: nat, got: nat, c: Choice)
    returns (r: Sys, ph: Phase)
    requires GoodPeer(b, peer) && Valid(sys.s) && At(peer, sys, i, InHeader(got)) && Legal(peer, sys, c)
    ensures r == Step(b, peer, sys, c) && At(peer, r, i, ph)
  {
    var p, next := peer.packets[i], peer.packets[i].body + From(peer, i + 1);
    assert HeadUnderstood(b, peer, p);
    if c.bytes < |p.head| - got {
      r := ShortStep(b, peer, sys, p.head, got, next, c);
      ph := InHeader(c.bytes);
    } else {
      var full;
      r, full := FullStep(b, peer, sys, p.head, got, next, c);
      var s := HeadDispatched(b, peer, p, full, c.now);
      assert s.recv[..0] == p.body[..0];
      assert p.body[0..] == p.body;
      ph := InBody(0);
    }
  }

  lemma {:induction false} BodyStepAt(b: Env, peer: Peer, sys: Sys, i: nat, got: nat, c: Choice)
    returns (r: Sys, ph: Phase)
    requires GoodPeer(b, peer) && Valid(sys.s) && At(peer, sys, i, InBody(got)) && Legal(peer, sys, c)
    ensures r == Step(b, peer, sys, c) && At(peer, r, i, ph)
  {
    var p, next := peer.packets[i], From(peer, i + 1);
    assert BodyUnderstood(b, peer, p);
    if c.bytes < |p.body| - got {
      r := ShortStep(b, peer, sys, p.body, got, next, c);
      ph := InBody(c.bytes);
    } else {
      var full;
      r, full := FullStep(b, peer, sys, p.body, got, next, c);
      var s := BodyDispatched(b, peer, p, full, c.now);
      ph := if p.Bye? then Finished else Replying;
    }
  }

  lemma {:induction false} ReplyStepAt(b: Env, peer: Peer, sys: Sys, i: nat, c: Choice) returns (r: Sys)
    requires GoodPeer(b, peer) && Valid(sys.s) && At(peer, sys, i, Replying) && Legal(peer, sys, c)
    ensures r == Step(b, peer, sys, c) && At(peer, r, i + 1, InHeader(0))
  {
    r := Step(b, peer, sys, c);
    var head := peer.packets[i + 1].head;
    assert HeadUnderstood(b, peer, peer.packets[i + 1]);
    assert r.s.recv[..0] == head[..0] && head[0..] == head;
    assert Names(peer, i + 1) == Names(peer, i) + [peer.packets[i].names];
  }

  /** Every legal step keeps the run in a known position. */
  lemma {:induction false} StepAt(b: Env, peer: Peer, sys: Sys, i: nat, ph: Phase, c: Choice)
    returns (r: Sys, i': nat, ph': Phase)
    requires GoodPeer(b, peer) && Valid(sys.s) && At(peer, sys, i, ph) && Legal(peer, sys, c)
    ensures r == Step(b, peer, sys, c) && At(peer, r, i', ph')
  {
    i' := i;
    match ph
    case InHeader(got) => r, ph' := HeaderStepAt(b, peer, sys, i, got, c);
    case InBody(got) => r, ph' := BodyStepAt(b, peer, sys, i, got, c);
    case Replying =>
      r := ReplyStepAt(b, peer, sys, i, c);
      i', ph' := i + 1, InHeader(0);
    case Finished =>
      assert false;
  }

  lemma {:induction false} RunAt(b: Env, peer: Peer, sys: Sys, i: nat, ph: Phase, cs: seq<Choice>)
    returns (i': nat, ph': Phase)
    requires GoodPeer(b, peer) && Valid(sys.s) && At(peer, sys, i, ph) && LegalRun(b, peer, sys, cs)
    ensures At(peer, Run(b, peer, sys, cs), i', ph')
    decreases |cs|
  {
    if cs == [] {
      i', ph' := i, ph;
    } else {
      var r, i1, ph1 := StepAt(b, peer, sys, i, ph, cs[0]);
      i', ph' := RunAt(b, peer, r, i1, ph1, cs[1..]);
    }
  }

  /** Until it is finished, a run can always go on: whatever is missing has been sent. */
  lemma {:induction false} CanGoOn(b: Env, peer: Peer, sys: Sys, i: nat, ph: Phase)
    requires GoodPeer(b, peer) && At(peer, sys, i, ph) && ph != Finished
    ensures sys.s.op != Idle
    ensures exists c :: Legal(peer, sys, c)
  {
    var now: int :| peer.clock(now);
    var c := Choice(if sys.s.op.Reading? then sys.s.op.want else 0, now);
    assert Legal(peer, sys, c);
  }

  function Remaining(sys: Sys): nat {
    2 * |sys.rest| + (if sys.s.op.Writing? then 1 else 0)
  }

  /** And every step brings the end nearer. */
  lemma {:induction false} RunsAreBounded(b: Env, peer: Peer, sys: Sys, cs: seq<Choice>)
    requires Valid(sys.s) && LegalRun(b, peer, sys, cs)
    ensures |cs| + Remaining(Run(b, peer, sys, cs)) <= Remaining(sys)
    decreases |cs|
  {
    if cs != [] {
      RunsAreBounded(b, peer, Step(b, peer, sys, cs[0]), cs[1..]);
    }
  }

  ghost predicate Served(peer: Peer, end: Sys) {
    var n := |peer.packets| - 1;
    && end.rest == [] && end.s.life == Closed
    && n >= 0 && (forall j :: 0 <= j < n ==> peer.packets[j].Login?)
    && end.s.seen == Names(peer, n) && Answered(peer, end.replies, n)
  }

  lemma {:induction false} StepComesNearer(b: Env, peer: Peer, sys: Sys, c: Choice)
    requires Valid(sys.s) && Legal(peer, sys, c)
    ensures Remaining(Step(b, peer, sys, c)) < Remaining(sys)
  {
  }

  /** From every known position the rest of the exchange can be delivered, to its good end. */
  lemma {:induction false} CanFinish(b: Env, peer: Peer, sys: Sys, i: nat, ph: Phase) returns (cs: seq<Choice>)
    requires GoodPeer(b, peer) && Valid(sys.s) && At(peer, sys, i, ph)
    ensures LegalRun(b, peer, sys, cs) && Served(peer, Run(b, peer, sys, cs))
    decreases Remaining(sys)
  {
    if ph == Finished {
      cs := [];
    } else {
      CanGoOn(b, peer, sys, i, ph);
      var c :| Legal(peer, sys, c);
      var r, i', ph' := StepAt(b, peer, sys, i, ph, c);
      StepComesNearer(b, peer, sys, c);
      var rest := CanFinish(b, peer, r, i', ph');
      cs := [c] + rest;
      assert cs[1..] == rest;
    }
  }

  lemma {:induction false} RunsCompose(b: Env, peer: Peer, sys: Sys, cs: seq<Choice>, more: seq<Choice>)
    requires Valid(sys.s) && LegalRun(b, peer, sys, cs) && LegalRun(b, peer, Run(b, peer, sys, cs), more)
    ensures LegalRun(b, peer, sys, cs + more)
    ensures Run(b, peer, sys, cs + more) == Run(b, peer, Run(b, peer, sys, cs), more)
    decreases |cs|
  {
    hide Step, Legal;
    if cs == [] {
      assert cs + more == more;
    } else {
      assert (cs + more)[1..] == cs[1..] + more;
      RunsCompose(b, peer, Step(b, peer, sys, cs[0]), cs[1..], more);
    }
  }

  /** However a run has gone so far, it can still be brought to its good end. */
  lemma {:induction false} EveryRunCanFinish(b: Env, peer: Peer, cs: seq<Choice>) returns (more: seq<Choice>)
    requires GoodPeer(b, peer) && LegalRun(b, peer, Connected(peer), cs)
    ensures LegalRun(b, peer, Connected(peer), cs + more)
    ensures Served(peer, Run(b, peer, Connected(peer), cs + more))
  {
    StartsAtFirstHeader(b, peer);
    var i, ph := RunAt(b, peer, Connected(peer), 0, InHeader(0), cs);
    more := CanFinish(b, peer, Run(b, peer, Connected(peer), cs), i, ph);
    RunsCompose(b, peer, Connected(peer), cs, more);
  }

  /** What an onlooker sees of a run. */
  ghost predicate Behaves(peer: Peer, end: Sys) {
    var n := |peer.packets| - 1;
    && end.s.life != Crashed && (end.s.op == Idle ==> end.s.life == Closed)
    && n >= 0 && (forall j :: 0 <= j < n ==> peer.packets[j].Login?)
    && end.s.seen <= Names(peer, n)
    && |end.replies| <= |end.s.seen| <= |end.replies| + 1
    && Answered(peer, end.replies, |end.replies|)
    && ((forall c :: !Legal(peer, end, c)) ==>
          end.rest == [] && end.s.life == Closed && end.s.seen == Names(peer, n) && |end.replies| == n)
  }

  lemma {:induction false} PositionBehaves(b: Env, peer: Peer, end: Sys, i: nat, ph: Phase)
    requires GoodPeer(b, peer) && At(peer, end, i, ph)
    ensures Behaves(peer, end)
  {
    var n := |peer.packets| - 1;
    assert Names(peer, i) <= Names(peer, n);
    if ph == Replying {
      assert Names(peer, i) + [peer.packets[i].names] == Names(peer, i + 1);
      assert Names(peer, i + 1) <= Names(peer, n);
    }
    if ph != Finished {
      CanGoOn(b, peer, end, i, ph);
    }
  }

  /** For every peer and every legal run: at every point the session neither crashes nor stalls, has
      logged the first names, unchanged and in order, and has written one answer for each login it
      has finished with; runs are bounded; and one that cannot go on has used up the stream, seen
      every login, answered every one and closed. */
  lemma {:induction false} SessionServes(b: Env, peer: Peer, cs: seq<Choice>)
    requires GoodPeer(b, peer) && LegalRun(b, peer, Connected(peer), cs)
    ensures |cs| <= 2 * |From(peer, 0)|
    ensures Behaves(peer, Run(b, peer, Connected(peer), cs))
  {
    StartsAtFirstHeader(b, peer);
    var i, ph := RunAt(b, peer, Connected(peer), 0, InHeader(0), cs);
    RunsAreBounded(b, peer, Connected(peer), cs);
    PositionBehaves(b, peer, Run(b, peer, Connected(peer), cs), i, ph);
  }
}
