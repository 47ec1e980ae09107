/** The log manager over whole runs: every interleaving of producers, setters, the log thread and
    stop(), from the moment the log thread enters its loop. */
module LogRuns {
  import opened LogQueue
  import opened LogQueueProofs
  import opened LogFilter

  /** Everything that holds at every point of every run. */
  ghost predicate Inv(s: State) {
    && Filtered(s) && Fifo(s) && CacheTested(s) && OneOwner(s) && PoolBounded(s) && Counted(s)
  }

  lemma {:induction false} NoHands(ps: seq<Producer>, p: nat)
    requires forall t :: 0 <= t < |ps| ==> ps[t] == Ready
    ensures InHands(ps, p) == 0 && Pending(ps) == 0
    decreases |ps|
  {
    if ps != [] {
      NoHands(ps[..|ps| - 1], p);
    }
  }

  lemma {:induction false} InitialInv(s: State)
    requires Initial(s)
    ensures Inv(s)
  {
    forall p: nat
      ensures OwnedOnce(s, p)
    {
      NoHands(s.producers, p);
    }
    NoHands(s.producers, 0);
  }

  /** The clock is history only the filter argument looks at. */
  lemma {:induction false} Ticked(r: State, clock: nat)
    requires Fifo(r) && CacheTested(r) && OneOwner(r) && PoolBounded(r) && Counted(r)
    ensures var r' := r.(clock := clock);
      Fifo(r') && CacheTested(r') && OneOwner(r') && PoolBounded(r') && Counted(r')
  {
    var r' := r.(clock := clock);
    forall p: nat
      ensures OwnedOnce(r', p)
    {
      assert OwnedOnce(r, p);
    }
  }

  lemma {:induction false} ProducerStep(s: State, r: State, t: nat)
    requires Inv(s) && t < |s.producers| && ProducerFrame(s, r, t)
    requires !s.producers[t].Push? ==> PoolMove(s, r, t)
    ensures Fifo(r) && CacheTested(r) && OneOwner(r) && PoolBounded(r) && Counted(r)
  {
    FifoProducer(s, r, t);
    PoolProducer(s, r, t);
    CountedProducer(s, r, t);
    forall p: nat
      ensures OwnedOnce(r, p)
    {
      assert OwnedOnce(s, p);
      HandAtMostOnce(s, t, p);
      if !s.producers[t].Push? {
        MoveBalances(s, r, t, p);
      }
      OwnerProducer(s, r, t, p);
    }
  }

  lemma {:induction false} GoKeeps(s: State, t: nat)
    requires Inv(s) && Allowed(s, Go(t))
    ensures Inv(Next(s, Go(t)))
  {
    hide Advance;
    var r := Advance(s, t);
    AdvanceFrame(s, t);
    if !s.producers[t].Push? {
      AdvancePoolMove(s, t);
    }
    ProducerStep(s, r, t);
    Ticked(r, s.clock + 1);
    AdvanceTracks(s, t);
    AdvanceOk(s, t);
    forall id | 0 <= id < |s.blocks|
      ensures r.blocks[id] == s.blocks[id]
           || r.blocks[id] == Block(s.clock + 1, StaleStore)
           || (r.blocks[id] == Block(s.clock + 1, Direct) && !s.running)
    {
      AdvanceBlocks(s, t, id);
    }
    FilteredProducer(s, r, t);
  }

  lemma {:induction false} StartKeeps(s: State, t: nat, c: Call)
    requires Inv(s) && Allowed(s, Start(t, c))
    ensures Inv(Next(s, Start(t, c)))
  {
    hide Begin;
    var r := Begin(s, t, c);
    BeginFrame(s, t, c);
    ProducerStep(s, r, t);
    Ticked(r, s.clock + 1);
    BeginTracks(s, t, c);
    BeginOk(s, t, c);
    FilteredProducer(s, r, t);
  }

  lemma {:induction false} LogThreadKeeps(s: State, opens: bool)
    requires Inv(s) && Allowed(s, LogThread(opens))
    ensures Inv(Next(s, LogThread(opens)))
  {
    hide Consume;
    var r := Consume(s, opens);
    ConsumeFrame(s, opens);
    FifoConsumer(s, r);
    PoolConsumer(s, r);
    CountedConsumer(s, r);
    CacheStaysTested(s, r);
    forall p: nat
      ensures OwnedOnce(r, p)
    {
      assert OwnedOnce(s, p);
      OwnerConsumer(s, r, p);
    }
    Ticked(r, s.clock + 1);
    FilteredConsumer(s, opens);
  }

  lemma {:induction false} CacheStaysTested(s: State, r: State)
    requires CacheTested(s) && ConsumerFrame(s, r) && !s.consumer.Done?
    ensures CacheTested(r)
  {
  }

  lemma {:induction false} StopKeeps(s: State)
    requires Inv(s)
    ensures Inv(Next(s, Stop))
  {
    var r := s.(running := false);
    forall p: nat
      ensures OwnedOnce(r, p)
    {
      assert OwnedOnce(s, p);
    }
    Ticked(r, s.clock + 1);
    var r' := Next(s, Stop);
    ItemsKept(s.loggers, s.blocks, s.loggers, s.blocks, s.clock, s.queue.logs);
    ItemsKept(s.loggers, s.blocks, s.loggers, s.blocks, s.clock, s.queue.cache);
    ConsumerKept(s.loggers, s.blocks, s.loggers, s.blocks, s.clock, s.queue.poppedAll, s.consumer);
    forall t | 0 <= t < |s.producers|
      ensures ProducerOk(s.loggers, s.blocks, s.clock + 1, s.producers[t])
    {
      ProducerKept(s.loggers, s.blocks, s.loggers, s.blocks, s.clock, s.producers[t]);
    }
    forall id | 0 <= id < |s.blocks|
      ensures BlockOk(r', id)
    {
      assert BlockOk(s, id);
    }
  }

  /** Every step of every thread keeps all of it. */
  lemma {:induction false} NextKeeps(s: State, m: Move)
    requires Inv(s) && Allowed(s, m)
    ensures Inv(Next(s, m))
  {
    match m
    case Start(t, c) => StartKeeps(s, t, c);
    case Go(t) => GoKeeps(s, t);
    case LogThread(opens) => LogThreadKeeps(s, opens);
    case Stop => StopKeeps(s);
  }

  // ---------------------------------------------------------------- runs

  lemma {:induction false} RunKeeps(s: State, ms: seq<Move>)
    requires Inv(s) && AllowedRun(s, ms)
    ensures Inv(Run(s, ms))
    decreases |ms|
  {
    if ms != [] {
      NextKeeps(s, ms[0]);
      RunKeeps(Next(s, ms[0]), ms[1..]);
    }
  }

  /** In every reachable state cache and queue are one FIFO queue popped in push order, every live
      record is in exactly one place, the pool is bounded by the number of threads, and the counters
      add up. */
  lemma {:induction false} RunsKeepBooks(s: State, ms: seq<Move>)
    requires Initial(s) && AllowedRun(s, ms)
    ensures var r := Run(s, ms);
      && r.queue.poppedAll <= r.queue.pushedAll
      && r.queue.pushedAll[|r.queue.poppedAll|..] == r.queue.cache + r.queue.logs
      && (forall p: nat :: PlacesOf(r, p) == if p in r.pool.live then 1 else 0)
      && |r.pool.free| + PendingInserts(r) <= 199 + (|r.producers| + 1)
      && r.tally.pushed == r.tally.popped + Records(r.queue.cache) + Records(r.queue.logs) + Uncounted(r.consumer)
      && r.tally.popped == |r.tally.written| + r.tally.dropped + r.tally.failed + Undecided(r.consumer)
      && r.tally.writes == |r.tally.written| && r.tally.bytes == Lengths(r.tally.written)
  {
    var r := Run(s, ms);
    InitialInv(s);
    RunKeeps(s, ms);
    var q := r.queue;
    assert q.pushedAll == q.poppedAll + (q.cache + q.logs);
    forall p: nat
      ensures PlacesOf(r, p) == if p in r.pool.live then 1 else 0
    {
      assert OwnedOnce(r, p);
    }
  }

  /** Leaving the loop: at that very step everything pushed so far has been popped. */
  lemma {:induction false} QuitLeavesNothing(s: State, opens: bool)
    requires Inv(s) && !s.consumer.Done? && Next(s, LogThread(opens)).consumer.Done?
    ensures s.queue.poppedAll == s.queue.pushedAll && s.queue.cache == [] && s.queue.logs == []
  {
    ConsumeFrame(s, opens);
    assert s.consumer.QuitTest? || s.queue.logs == [];
  }

  predicate Drops(s: State, opens: bool)
    requires |s.blocks| == |s.loggers|
  {
    Consume(s, opens).tally.dropped > s.tally.dropped
  }

  /** Why a record accepted by pushLog is dropped by the log thread's second filter: after its
      acceptance test began its logger became stricter, and while the log thread is running that
      was either a disable or level change for the same logger that was queued ahead of it, or a
      setter storing a level it had compared with an older one. */
  lemma {:induction false} DropHasCause(s: State, opens: bool)
    requires Inv(s) && Drops(s, opens)
    ensures s.consumer.FilterEnable? || s.consumer.FilterLevel?
    ensures var item := s.consumer.item;
      && item.want.Log? && 0 <= item.want.id < |s.blocks|
      && var b := s.blocks[item.want.id];
      && b.time > item.stamp
      && var at := |s.queue.poppedAll| - 1;
      && 0 <= at < |s.queue.pushedAll| && s.queue.pushedAll[at] == item
      && match b.cause
         case Hot(k) =>
           && k < at && s.queue.pushedAll[k].want.Change? && s.queue.pushedAll[k].want.id == item.want.id
           && !s.queue.pushedAll[k].want.kind.Other?
         case StaleStore => true
         case Direct => !s.running
         case Never => false
  {
    DropsAtFilter(s, opens);
    var item := s.consumer.item;
    var id := item.want.id;
    assert !Passes(s.loggers[id], item.want.level);
    assert BlockOk(s, id);
    var q := s.queue;
    assert q.pushedAll == q.poppedAll + (q.cache + q.logs);
  }

  lemma {:induction false} DropsAtFilter(s: State, opens: bool)
    requires Inv(s) && Drops(s, opens)
    ensures s.consumer.FilterEnable? || s.consumer.FilterLevel?
    ensures s.consumer.item.want.Log? && KnownId(s, s.consumer.item.want.id)
    ensures !Passes(s.loggers[s.consumer.item.want.id], s.consumer.item.want.level)
  {
    ConsumeFrame(s, opens);
  }

  // ---------------------------------------------------------------- atomic setters

  /** A setter whose comparison still holds when it stores the level. */
  predicate StoresFresh(s: State, m: Move) {
    m.Go? && m.t < |s.producers| && s.producers[m.t].StoreLevel? ==>
      var p := s.producers[m.t];
      KnownId(s, p.id) && p.level <= s.loggers[p.id].level
  }

  predicate NoStaleStore(s: State) {
    forall id :: 0 <= id < |s.blocks| ==> !s.blocks[id].cause.StaleStore?
  }

  /** Immediate enables and immediate level lowerings that are still lowerings make no logger
      stricter, so they never cause a drop. */
  lemma {:induction false} FreshStoresBlockNothing(s: State, m: Move)
    requires Inv(s) && Allowed(s, m) && StoresFresh(s, m) && NoStaleStore(s)
    ensures NoStaleStore(Next(s, m))
  {
    var r := Next(s, m);
    forall id | 0 <= id < |r.blocks|
      ensures !r.blocks[id].cause.StaleStore?
    {
      BlocksOfMove(s, m, id);
    }
  }

  lemma {:induction false} BlocksOfMove(s: State, m: Move, id: int)
    requires Inv(s) && Allowed(s, m) && StoresFresh(s, m)
    ensures |Next(s, m).blocks| == |s.blocks|
    ensures 0 <= id < |s.blocks| ==>
      Next(s, m).blocks[id] == s.blocks[id] || !Next(s, m).blocks[id].cause.StaleStore?
  {
    match m
    case Start(t, c) =>
      BeginTracks(s, t, c);
      assert Next(s, m).blocks == s.blocks;
    case Go(t) => FreshAdvance(s, t, id);
    case LogThread(opens) =>
      ConsumeFrame(s, opens);
      if 0 <= id < |s.blocks| {
        ConsumeBlocks(s, opens, id);
      }
    case Stop =>
  }

  lemma {:induction false} FreshAdvance(s: State, t: nat, id: int)
    requires t < |s.producers| && |s.blocks| == |s.loggers| && StoresFresh(s, Go(t))
    ensures |Advance(s, t).blocks| == |s.blocks|
    ensures 0 <= id < |s.blocks| ==>
      Advance(s, t).blocks[id] == s.blocks[id] || !Advance(s, t).blocks[id].cause.StaleStore?
  {
  }

  predicate AtomicRun(s: State, ms: seq<Move>)
    requires |s.blocks| == |s.loggers| && AllowedRun(s, ms)
    decreases |ms|
  {
    ms == [] || (StoresFresh(s, ms[0]) && AtomicRun(Next(s, ms[0]), ms[1..]))
  }

  lemma {:induction false} AtomicRunsHaveNoStaleStore(s: State, ms: seq<Move>)
    requires Inv(s) && AllowedRun(s, ms) && AtomicRun(s, ms) && NoStaleStore(s)
    ensures NoStaleStore(Run(s, ms))
    decreases |ms|
  {
    if ms != [] {
      NextKeeps(s, ms[0]);
      FreshStoresBlockNothing(s, ms[0]);
      AtomicRunsHaveNoStaleStore(Next(s, ms[0]), ms[1..]);
    }
  }

  /** With atomic setters, and the log thread running, a record is dropped only because of a disable
      or level change for its logger that was queued ahead of it and applied after its acceptance
      check began. */
  lemma {:induction false} DroppedOnlyByChangeAhead(s0: State, ms: seq<Move>, opens: bool)
    requires Initial(s0) && AllowedRun(s0, ms) && AtomicRun(s0, ms)
    requires Run(s0, ms).running && Drops(Run(s0, ms), opens)
    ensures var s := Run(s0, ms);
      && (s.consumer.FilterEnable? || s.consumer.FilterLevel?)
      && var item := s.consumer.item;
      && var at := |s.queue.poppedAll| - 1;
      && 0 <= at < |s.queue.pushedAll| && s.queue.pushedAll[at] == item
      && 0 <= item.want.id < |s.blocks| && s.blocks[item.want.id].time > item.stamp
      && s.blocks[item.want.id].cause.Hot?
      && var k := s.blocks[item.want.id].cause.index;
      && k < at && s.queue.pushedAll[k].want.Change? && s.queue.pushedAll[k].want.id == item.want.id
      && !s.queue.pushedAll[k].want.kind.Other?
  {
    var s := Run(s0, ms);
    InitialInv(s0);
    RunKeeps(s0, ms);
    AtomicRunsHaveNoStaleStore(s0, ms);
    DropHasCause(s, opens);
  }

  /** Storing an immediate level makes the logger stricter exactly when the level has been lowered
      below it since the setter compared: then the store is remembered as the reason. */
  lemma {:induction false} StoreStricterIff(s: State, t: nat)
    requires Inv(s) && t < |s.producers| && s.producers[t].StoreLevel?
    ensures var p := s.producers[t];
      && 0 <= p.id < |s.loggers|
      && (Next(s, Go(t)).blocks[p.id] == Block(s.clock + 1, StaleStore) <==> p.level > s.loggers[p.id].level)
  {
    var p := s.producers[t];
    assert ProducerOk(s.loggers, s.blocks, s.clock, p);
    assert BlockOk(s, p.id);
  }

  /** Two setters, to 4 and to 1, on a logger at level 5: both lower it, yet the slower one raises
      it from 1 to 4. */
  lemma {:induction false} StaleStoreWitness(s: State)
    requires |s.producers| == 2 && s.producers == [Ready, Ready] && |s.blocks| == |s.loggers| == 1
    requires s.loggers[0].level == 5
    ensures var s1 := Next(s, Start(0, CallLevel(0, 4)));
      var s2 := Next(s1, Start(1, CallLevel(0, 1)));
      && Allowed(s2, Go(1))
      && var s3 := Next(s2, Go(1));
      && s3.loggers[0].level == 1 && Allowed(s3, Go(0))
      && Next(s3, Go(0)).loggers[0].level == 4
      && Next(s3, Go(0)).blocks[0].cause == StaleStore
  {
    var s1 := Next(s, Start(0, CallLevel(0, 4)));
    assert s1.producers == [StoreLevel(0, 4), Ready];
    var s2 := Next(s1, Start(1, CallLevel(0, 1)));
    assert s2.producers == [StoreLevel(0, 4), StoreLevel(0, 1)];
    var s3 := Next(s2, Go(1));
    assert s3.producers == [StoreLevel(0, 4), Ready];
  }

  /** After the log thread has left its loop nothing is popped any more, so a push by a producer that
      passed its running test earlier stays in the queue for good. */
  lemma {:induction false} NothingPoppedAfterQuit(s: State, ms: seq<Move>)
    requires |s.blocks| == |s.loggers| && s.consumer.Done? && AllowedRun(s, ms)
    ensures Run(s, ms).consumer.Done? && Run(s, ms).queue.poppedAll == s.queue.poppedAll
    ensures s.queue.logs <= Run(s, ms).queue.logs
    decreases |ms|
  {
    if ms != [] {
      MoveAfterQuit(s, ms[0]);
      NothingPoppedAfterQuit(Next(s, ms[0]), ms[1..]);
    }
  }

  lemma {:induction false} MoveAfterQuit(s: State, m: Move)
    requires |s.blocks| == |s.loggers| && s.consumer.Done? && Allowed(s, m)
    ensures Next(s, m).consumer.Done? && Next(s, m).queue.poppedAll == s.queue.poppedAll
    ensures s.queue.logs <= Next(s, m).queue.logs
  {
    match m
    case Start(t, c) => BeginFrame(s, t, c);
    case Go(t) => AdvanceFrame(s, t);
    case _ =>
  }

  /** The manager runs until the first call of stop, and no longer. */
  lemma {:induction false} RunningUntilStopped(s: State, ms: seq<Move>)
    requires |s.blocks| == |s.loggers| && AllowedRun(s, ms)
    ensures Run(s, ms).running <==> s.running && Stop !in ms
    decreases |ms|
  {
    if ms != [] {
      RunningChangesByStop(s, ms[0]);
      RunningUntilStopped(Next(s, ms[0]), ms[1..]);
      assert ms == [ms[0]] + ms[1..];
    }
  }

  lemma {:induction false} RunningChangesByStop(s: State, m: Move)
    requires |s.blocks| == |s.loggers| && Allowed(s, m)
    ensures Next(s, m).running <==> s.running && m != Stop
  {
  }

  /** The log thread is past its loop, or about to leave it. */
  predicate Leaving(s: State) {
    s.consumer.QuitTest? || s.consumer.Done?
  }

  lemma {:induction false} LeavingMeansStopped(s: State, ms: seq<Move>)
    requires |s.blocks| == |s.loggers| && AllowedRun(s, ms) && (Leaving(s) ==> !s.running)
    ensures Leaving(Run(s, ms)) ==> !Run(s, ms).running
    decreases |ms|
  {
    if ms != [] {
      LeavingStep(s, ms[0]);
      LeavingMeansStopped(Next(s, ms[0]), ms[1..]);
    }
  }

  lemma {:induction false} LeavingStep(s: State, m: Move)
    requires |s.blocks| == |s.loggers| && Allowed(s, m) && (Leaving(s) ==> !s.running)
    ensures Leaving(Next(s, m)) ==> !Next(s, m).running
  {
  }

  /** From the start, a log thread that has left its loop was stopped. */
  lemma {:induction false} QuitOnlyAfterStop(s: State, ms: seq<Move>)
    requires Initial(s) && AllowedRun(s, ms) && Leaving(Run(s, ms))
    ensures Stop in ms && !Run(s, ms).running
  {
    LeavingMeansStopped(s, ms);
    RunningUntilStopped(s, ms);
  }
}
