/** The acceptor and all its sessions (src/core/network/async_acceptor.cpp, session_handler.cpp).
    A session is known by its number in the order of allocation; allocation succeeds. */
module Acceptor {
  import opened Bytes
  import opened Packet
  import opened SessionSpec
  import opened SessionStalls

  /** A completed operation: the pending accept, or the operation a session was waiting for. */
  datatype Event =
    | Accepted(ok: bool)
    | ReadChunk(i: nat, chunk: seq<Byte>, now: int)
    | ReadFailed(i: nat)
    | Wrote(i: nat, ok: bool)

  datatype Pending = None | Handler(i: nat)

  /** sessions holds every session ever made; accepting is the one whose socket waits for the next
      client, none once an accept has failed. */
  datatype Server = Server(handlers: set<nat>, sessions: seq<State>, accepting: Pending)

  /** A session not yet started. */
  const UNBORN := State([], [], Idle, Open, [])

  function MakeHandler(s: Server): Server {
    var i := |s.sessions|;
    Server(s.handlers + {i}, s.sessions + [UNBORN], Handler(i))
  }

  /** What the completion of its operation does to one session. */
  function Completed(env: Env, s: State, e: Event): State
    requires Valid(s) && Completes(s, e)
  {
    match e
    case Accepted(ok) => if ok then SessionSpec.Start(s) else Close(s)
    case ReadChunk(_, chunk, now) => ReadDone(env, now, s, chunk)
    case ReadFailed(_) => ReadError(s)
    case Wrote(_, ok) => WriteDone(s, ok)
  }

  predicate Completes(s: State, e: Event) {
    match e
    case Accepted(_) => s.life == Open && s.op == Idle && s.header == []
    case ReadChunk(_, chunk, _) => s.op.Reading? && |chunk| <= s.op.want
    case ReadFailed(_) => s.op.Reading?
    case Wrote(_, _) => s.op.Writing?
  }

  /** Whose operation it is. */
  predicate Concerns(s: Server, e: Event, i: nat) {
    i < |s.sessions| && match e
                        case Accepted(_) => s.accepting == Handler(i)
                        case ReadChunk(j, _, _) => i == j
                        case ReadFailed(j) => i == j
                        case Wrote(j, _) => i == j
  }

  predicate Possible(s: Server, e: Event, i: nat) {
    Concerns(s, e, i) && Valid(s.sessions[i]) && Completes(s.sessions[i], e)
  }

  /** A session that closes takes itself out of the set; after an accept a new one is made, unless
      the accept failed. */
  function Next(env: Env, s: Server, e: Event, i: nat): Server
    requires Possible(s, e, i)
  {
    var t := Completed(env, s.sessions[i], e);
    var u := Server(if t.life == Closed then s.handlers - {i} else s.handlers, s.sessions[i := t], s.accepting);
    if e.Accepted? then if e.ok then MakeHandler(u) else u.(accepting := None) else u
  }

  /** A session gets its buffer, of at least a header's size, when it is started. */
  predicate Started(s: State) {
    |s.recv| >= HEADER_BYTES
  }

  /** The set is exactly the sessions not closed; of these the one being accepted, if any, is the
      only one not started; a closed session waits for nothing. */
  predicate Inv(s: Server) {
    && (forall i | 0 <= i < |s.sessions| :: Valid(s.sessions[i]) && (i in s.handlers <==> s.sessions[i].life != Closed))
    && (forall i | i in s.handlers :: i < |s.sessions|)
    && (forall i | 0 <= i < |s.sessions| ::
          Started(s.sessions[i]) || s.accepting == Handler(i) || s.sessions[i].life == Closed)
    && (s.accepting.Handler? ==> s.accepting.i < |s.sessions| && s.sessions[s.accepting.i] == UNBORN)
  }

  function Begin(): Server {
    MakeHandler(Server({}, [], None))
  }

  lemma {:induction false} MemoryKept(env: Env, s: State, e: Event)
    requires Valid(s) && Completes(s, e)
    ensures |Completed(env, s, e).recv| >= |s.recv|
    ensures e == Accepted(true) ==> Started(Completed(env, s, e))
    ensures e == Accepted(false) ==> Completed(env, s, e).life == Closed
  {
    hide DecodeHeader, DecodeBody, ReadBody, SendBuffer;
  }

  lemma {:induction false} NextKeeps(env: Env, s: Server, e: Event, i: nat)
    requires Inv(s) && Possible(s, e, i)
    ensures Inv(Next(env, s, e, i))
    ensures s.accepting.Handler? && e != Accepted(false) ==> Next(env, s, e, i).accepting.Handler?
  {
    hide ReadDone;
    var t, v := Completed(env, s.sessions[i], e), Next(env, s, e, i);
    MemoryKept(env, s.sessions[i], e);
    assert Valid(t);
    forall j | 0 <= j < |v.sessions|
      ensures Valid(v.sessions[j]) && (j in v.handlers <==> v.sessions[j].life != Closed)
      ensures Started(v.sessions[j]) || v.accepting == Handler(j) || v.sessions[j].life == Closed
    {
      if j < |s.sessions| && j != i {
        assert v.sessions[j] == s.sessions[j];
      }
    }
  }

  predicate PossibleRun(env: Env, s: Server, run: seq<(Event, nat)>)
    decreases |run|, 0
  {
    run == [] ||
    (var (front, last) := (run[..|run| - 1], run[|run| - 1]);
     PossibleRun(env, s, front) && Possible(After(env, s, front), last.0, last.1))
  }

  function After(env: Env, s: Server, run: seq<(Event, nat)>): Server
    requires PossibleRun(env, s, run)
    decreases |run|, 1
  {
    if run == [] then s
    else
      var (front, last) := (run[..|run| - 1], run[|run| - 1]);
      Next(env, After(env, s, front), last.0, last.1)
  }

  /** In every state a run can reach the set is exactly the sessions started and not closed, with
      the pending one if there is one; and there is one until an accept fails. */
  lemma {:induction false} RunsKeepTheSet(env: Env, run: seq<(Event, nat)>)
    requires PossibleRun(env, Begin(), run)
    ensures Inv(After(env, Begin(), run))
    ensures var t := After(env, Begin(), run);
      && (forall i: nat :: i in t.handlers <==>
            i < |t.sessions| && t.sessions[i].life != Closed && (Started(t.sessions[i]) || t.accepting == Handler(i)))
      && (t.accepting.Handler? ==> t.accepting.i in t.handlers && !Started(t.sessions[t.accepting.i]))
    ensures (forall k | 0 <= k < |run| :: run[k].0 != Accepted(false)) ==> After(env, Begin(), run).accepting.Handler?
    decreases |run|
  {
    if run != [] {
      hide Next, Possible;
      var front, last := run[..|run| - 1], run[|run| - 1];
      RunsKeepTheSet(env, front);
      NextKeeps(env, After(env, Begin(), front), last.0, last.1);
      assert forall k | 0 <= k < |front| :: run[k] == front[k];
    }
  }

  /** A started session that waits for nothing, because what it received was not understood,
      is never closed and stays in the set for good. */
  lemma {:induction false} StalledStays(env: Env, s: Server, run: seq<(Event, nat)>, i: nat)
    requires Inv(s) && PossibleRun(env, s, run)
    requires i < |s.sessions| && s.accepting != Handler(i)
    requires s.sessions[i].op == Idle && s.sessions[i].life != Closed
    ensures var t := After(env, s, run);
      Inv(t) && i in t.handlers && i < |t.sessions| && t.sessions[i] == s.sessions[i] && t.accepting != Handler(i)
    decreases |run|
  {
    if run != [] {
      hide ReadDone;
      var front, last := run[..|run| - 1], run[|run| - 1];
      StalledStays(env, s, front, i);
      NextKeeps(env, After(env, s, front), last.0, last.1);
    }
  }

  // The end of a session, and of accepting.

  /** What ends a session: its accept, a read or a write fails, a read brings nothing, or one brings
      the rest of an accepted DISCONNECT. */
  predicate Ends(env: Env, s: State, e: Event)
    requires Valid(s) && Completes(s, e)
  {
    match e
    case Accepted(ok) => !ok
    case ReadFailed(_) => true
    case Wrote(_, ok) => !ok
    case ReadChunk(_, chunk, _) =>
      |chunk| == 0
      || (|chunk| == s.op.want && Farewell(env, s.(recv := s.recv[..s.op.at] + chunk + s.recv[s.op.at + |chunk|..])))
  }

  /** A completed operation closes its session if and only if it is one of these. A closed session
      waits for nothing and is out of the set; all others are left alone. */
  lemma {:induction false} ClosedIff(env: Env, s: Server, e: Event, i: nat)
    requires Inv(s) && Possible(s, e, i)
    ensures var t := Next(env, s, e, i);
      && (t.sessions[i].life == Closed <==> Ends(env, s.sessions[i], e))
      && (t.sessions[i].life == Closed <==> i !in t.handlers)
      && (t.sessions[i].life == Closed ==> t.sessions[i].op == Idle)
      && forall j | 0 <= j < |s.sessions| && j != i ::
           t.sessions[j] == s.sessions[j] && (j in t.handlers <==> j in s.handlers)
  {
    hide Dispatch, Farewell;
    if e.ReadChunk? && |e.chunk| == s.sessions[i].op.want {
      var was := s.sessions[i];
      ClosesIffFarewell(env, e.now, was.(recv := Overwrite(was.recv, was.op.at, e.chunk)));
    }
    NextKeeps(env, s, e, i);
  }

  /** The k-th event of a run ended session i. */
  predicate EndedAt(env: Env, s: Server, run: seq<(Event, nat)>, k: nat, i: nat)
    requires k < |run|
  {
    && run[k].1 == i && PossibleRun(env, s, run[..k]) && Possible(After(env, s, run[..k]), run[k].0, i)
    && Ends(env, After(env, s, run[..k]).sessions[i], run[k].0)
  }

  /** A session once closed is never opened, started or entered again. */
  lemma {:induction false} ClosedForGood(env: Env, s: Server, run: seq<(Event, nat)>, i: nat)
    requires Inv(s) && PossibleRun(env, s, run) && i < |s.sessions| && s.sessions[i].life == Closed
    ensures var t := After(env, s, run);
      Inv(t) && i < |t.sessions| && t.sessions[i] == s.sessions[i] && i !in t.handlers
    decreases |run|
  {
    if run != [] {
      hide Completed, Completes, Ends;
      var front, last := run[..|run| - 1], run[|run| - 1];
      ClosedForGood(env, s, front, i);
      var was := After(env, s, front);
      NextKeeps(env, was, last.0, last.1);
      ClosedIff(env, was, last.0, last.1);
      OpenWhenCompleting(was.sessions[last.1], last.0);
    }
  }

  /** Over any run a session is closed if and only if one of its events ended it. */
  lemma {:induction false} ClosedOnlyByAnEnd(env: Env, run: seq<(Event, nat)>, i: nat)
    requires PossibleRun(env, Begin(), run)
    ensures var t := After(env, Begin(), run);
      i < |t.sessions| && t.sessions[i].life == Closed <==> Ended(env, Begin(), run, i)
    decreases |run|
  {
    if run != [] {
      hide EndedAt, After, Begin;
      ClosedOnlyByAnEnd(env, run[..|run| - 1], i);
      EndedByLast(env, run, i);
      EndedBefore(env, Begin(), run, i);
    }
  }

  /** Some event of the run ended session i. */
  predicate Ended(env: Env, s: Server, run: seq<(Event, nat)>, i: nat) {
    exists k: nat | k < |run| :: EndedAt(env, s, run, k, i)
  }

  lemma {:induction false} EndedBefore(env: Env, s: Server, run: seq<(Event, nat)>, i: nat)
    requires run != []
    ensures Ended(env, s, run, i) <==>
            Ended(env, s, run[..|run| - 1], i) || EndedAt(env, s, run, |run| - 1, i)
  {
    hide EndedAt;
    var n, front := |run| - 1, run[..|run| - 1];
    forall k: nat | k < n ensures EndedAt(env, s, run, k, i) <==> EndedAt(env, s, front, k, i) {
      EndedInFront(env, s, run, k, i);
    }
    if Ended(env, s, front, i) {
      var k: nat :| k < n && EndedAt(env, s, front, k, i);
      assert EndedAt(env, s, run, k, i);
    }
    if Ended(env, s, run, i) {
      var k: nat :| k < |run| && EndedAt(env, s, run, k, i);
      assert k == n || EndedAt(env, s, front, k, i);
    }
  }

  lemma {:induction false} EndedInFront(env: Env, s: Server, run: seq<(Event, nat)>, k: nat, i: nat)
    requires k < |run| - 1
    ensures EndedAt(env, s, run, k, i) <==> EndedAt(env, s, run[..|run| - 1], k, i)
  {
    hide PossibleRun, After, Possible, Ends;
    var front := run[..|run| - 1];
    assert run[..k] == front[..k] && run[k] == front[k];
  }

  lemma {:induction false} EndedByLast(env: Env, run: seq<(Event, nat)>, i: nat)
    requires run != [] && PossibleRun(env, Begin(), run)
    ensures var (n, t, was) := (|run| - 1, After(env, Begin(), run), After(env, Begin(), run[..|run| - 1]));
      i < |t.sessions| && t.sessions[i].life == Closed <==>
        (i < |was.sessions| && was.sessions[i].life == Closed) || EndedAt(env, Begin(), run, n, i)
  {
    hide Next, Ends, Possible;
    var front, last := run[..|run| - 1], run[|run| - 1];
    RunsKeepTheSet(env, front);
    ClosedByLast(env, After(env, Begin(), front), last.0, last.1, i);
  }

  lemma {:induction false} ClosedByLast(env: Env, s: Server, e: Event, j: nat, i: nat)
    requires Inv(s) && Possible(s, e, j)
    ensures j < |s.sessions| && Valid(s.sessions[j]) && Completes(s.sessions[j], e)
    ensures var t := Next(env, s, e, j);
      i < |t.sessions| && t.sessions[i].life == Closed <==>
        (i < |s.sessions| && s.sessions[i].life == Closed) || (i == j && Ends(env, s.sessions[j], e))
  {
    hide Completed, Ends, Completes;
    ClosedIff(env, s, e, j);
    OpenWhenCompleting(s.sessions[j], e);
  }

  lemma {:induction false} OpenWhenCompleting(s: State, e: Event)
    requires Valid(s) && Completes(s, e)
    ensures s.life == Open
  {
  }

  /** An accept makes the one handler for the next; a failed one makes none, and no later event of any
      run makes another. */
  lemma {:induction false} NoMoreHandlers(env: Env, s: Server, run: seq<(Event, nat)>)
    requires PossibleRun(env, s, run) && s.accepting == None
    ensures var t := After(env, s, run);
      t.accepting == None && |t.sessions| == |s.sessions| && t.handlers <= s.handlers
    decreases |run|
  {
    if run != [] {
      hide Completed;
      NoMoreHandlers(env, s, run[..|run| - 1]);
    }
  }

  /** A new client is read from its first 32 bytes on, while a new handler waits for the next; a failed
      accept leaves nothing waiting. */
  lemma {:induction false} AcceptedIs(env: Env, s: Server, ok: bool, i: nat)
    requires Inv(s) && Possible(s, Accepted(ok), i)
    ensures var (t, n) := (Next(env, s, Accepted(ok), i), |s.sessions|);
      if ok then
        && t.sessions == s.sessions[i := State(Zeros(32), [], Reading(0, 32), Open, [])]
                         + [State([], [], Idle, Open, [])]
        && t.accepting == Handler(n) && t.handlers == s.handlers + {n}
      else
        t.accepting == None && t.handlers == s.handlers - {i} && |t.sessions| == n && t.sessions[i].life == Closed
  {
    assert SessionSpec.Start(UNBORN).recv == Zeros(32);
  }

  /** A client connects and its first 32 bytes arrive in one piece. */
  function FirstHeader(bytes: seq<Byte>, now: int): seq<(Event, nat)> {
    [(Accepted(true), 0), (ReadChunk(0, bytes, now), 0)]
  }

  lemma {:induction false} FirstHeaderRuns(env: Env, bytes: seq<Byte>, now: int)
    requires |bytes| == HEADER_BYTES
    ensures PossibleRun(env, Begin(), FirstHeader(bytes, now))
    ensures var (t, full) := (After(env, Begin(), FirstHeader(bytes, now)), FirstPart(bytes));
      |t.sessions| == 2 && t.sessions[0] == Dispatch(env, now, full) && t.accepting == Handler(1)
  {
    hide Dispatch;
    var run := FirstHeader(bytes, now);
    var none: seq<(Event, nat)> := run[..1][..0];
    assert run[..1] == [run[0]] && none == [];
    var one := After(env, Begin(), run[..1]);
    assert one.sessions[0] == SessionSpec.Start(UNBORN);
    assert Overwrite(Zeros(HEADER_BYTES), 0, bytes) == bytes;
  }

  /** A started session whose first header part is complete. */
  function FirstPart(bytes: seq<Byte>): (s: State)
    requires |bytes| == HEADER_BYTES
    ensures Valid(s) && s.life == Open && s.op != Idle
  {
    State(bytes, [], Reading(0, HEADER_BYTES), Open, [])
  }

  /** The first 32 bytes of a client leave its session open, waiting for nothing and in the set, for
      good, if and only if they have neither mark, or the header mark and a wrong checksum. */
  lemma {:induction false} FirstHeaderStallsIff(env: Env, bytes: seq<Byte>, now: int)
    requires |bytes| == HEADER_BYTES
    ensures PossibleRun(env, Begin(), FirstHeader(bytes, now))
    ensures var (t, mark) := (After(env, Begin(), FirstHeader(bytes, now)), MemValue(env.little, bytes[..4]));
      |t.sessions| > 0 && (Stalled(t.sessions[0]) && 0 in t.handlers <==>
        if mark == HEAD_MARK then SumWrong(env, bytes, 24) else mark != BODY_MARK)
  {
    hide Dispatch, SumWrong, PossibleRun, After;
    FirstHeaderRuns(env, bytes, now);
    RunsKeepTheSet(env, FirstHeader(bytes, now));
    StallsIff(env, now, FirstPart(bytes));
    assert bytes[..HEADER_BYTES] == bytes;
  }

  /** Thirty-two zero bytes do. */
  lemma {:induction false} ZerosStall(env: Env, now: int)
    ensures PossibleRun(env, Begin(), FirstHeader(Zeros(HEADER_BYTES), now))
    ensures var t := After(env, Begin(), FirstHeader(Zeros(HEADER_BYTES), now));
      |t.sessions| > 0 && Stalled(t.sessions[0]) && 0 in t.handlers
  {
    hide After;
    var zero: seq<Byte> := [0, 0, 0, 0];
    FirstHeaderStallsIff(env, Zeros(HEADER_BYTES), now);
    assert Zeros(HEADER_BYTES)[..4] == zero && Flip(env.little, zero) == zero;
    Pow256Values();
    BeValueOfBytes(0, 4);
    assert BeBytes(0, 4) == zero;
  }

  class AsyncAcceptor {
    var handlers: set<nat>
    var sessions: seq<State>
    var accepting: Pending

    ghost function Value(): Server
      reads this
    {
      Server(handlers, sessions, accepting)
    }

    constructor ()
      ensures Value() == Server({}, [], None)
    {
      handlers, sessions, accepting := {}, [], None;
    }

    method MakeSessionHandler() returns (handler: nat)
      modifies this`handlers, this`sessions
      ensures handler == |old(sessions)| && sessions == old(sessions) + [UNBORN]
      ensures handlers == old(handlers) + {handler}
    {
      handler := |sessions|;
      sessions := sessions + [UNBORN];
      handlers := handlers + {handler};
    }

    method RemoveSessionHandler(handler: nat)
      modifies this`handlers
      ensures handlers == old(handlers) - {handler}
    {
      handlers := handlers - {handler};
    }

    method Start()
      modifies this
      ensures Value() == MakeHandler(old(Value()))
    {
      var handler := MakeSessionHandler();
      accepting := Handler(handler);
    }

    /** A started session, or the end of accepting: the handler is removed and deleted. */
    method HandleAccept(env: Env, handler: nat, error: bool)
      requires Possible(Value(), Accepted(!error), handler)
      modifies this
      ensures Value() == Next(env, old(Value()), Accepted(!error), handler)
    {
      if !error {
        sessions := sessions[handler := SessionSpec.Start(sessions[handler])];
        var next := MakeSessionHandler();
        accepting := Handler(next);
      } else {
        RemoveSessionHandler(handler);
        sessions := sessions[handler := Close(sessions[handler])];
        accepting := None;
      }
    }
  }
}
