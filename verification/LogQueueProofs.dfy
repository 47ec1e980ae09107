/** What every step of the log manager keeps, and what follows for whole runs. */
module LogQueueProofs {
  import opened LogQueue

  // ---------------------------------------------------------------- what steps leave alone

  /** A producer's step touches its own position, the logger settings, the pool, and the queue only
      when it pushes. */
  predicate ProducerFrame(s: State, r: State, t: nat)
    requires t < |s.producers|
  {
    && |r.producers| == |s.producers| && r.producers == s.producers[t := r.producers[t]]
    && |r.blocks| == |r.loggers| == |s.loggers|
    && r.consumer == s.consumer
    && (!s.producers[t].Push? ==> r.queue == s.queue && r.tally == s.tally)
    && (s.producers[t].Push? ==>
          var item := s.producers[t].item;
          && r.queue == Pushed(s.queue, item) && r.producers[t] == Ready && r.pool == s.pool
          && r.tally == if item.want.Log? then s.tally.(pushed := s.tally.pushed + 1) else s.tally)
  }

  lemma {:induction false} AdvanceFrame(s: State, t: nat)
    requires t < |s.producers| && |s.blocks| == |s.loggers|
    ensures ProducerFrame(s, Advance(s, t), t)
  {
  }

  lemma {:induction false} BeginFrame(s: State, t: nat, c: Call)
    requires t < |s.producers| && s.producers[t].Ready? && |s.blocks| == |s.loggers|
    ensures ProducerFrame(s, Begin(s, t, c), t)
    ensures var r := Begin(s, t, c);
      r.pool == s.pool && Hand(r.producers[t]) == None && !r.producers[t].Insert? && PoolMove(s, r, t)
  {
  }

  /** The log thread's step: what the queue, the pool and the counters see of it. */
  predicate ConsumerFrame(s: State, r: State) {
    && r.producers == s.producers && |r.blocks| == |r.loggers| == |s.loggers|
    && match s.consumer
       case Pop =>
         && r.pool == s.pool && r.tally == s.tally
         && if s.queue.cache == [] then r.queue == s.queue && r.consumer == LogsTest
            else r.queue == Popped(s.queue) && r.consumer == Handle(s.queue.cache[0])
       case Swap =>
         && r.pool == s.pool && r.tally == s.tally
         && if s.queue.logs == [] then r.queue == s.queue && r.consumer == StopTest
            else r.queue == s.queue.(cache := s.queue.logs, logs := s.queue.cache) && r.consumer == Pop
       case Handle(item) =>
         && r.pool == s.pool && r.queue == s.queue
         && if item.want.Log? && KnownId(s, item.want.id)
            then r.consumer == FilterEnable(item) && r.tally == s.tally.(popped := s.tally.popped + 1)
            else r.consumer == CSizeTest(item.ptr) && r.tally == s.tally
       case FilterEnable(item) =>
         && r.pool == s.pool && r.queue == s.queue
         && if r.consumer == FilterLevel(item) then r.tally == s.tally
            else r.consumer == CSizeTest(item.ptr) && r.tally == s.tally.(dropped := s.tally.dropped + 1)
       case FilterLevel(item) =>
         && r.pool == s.pool && r.queue == s.queue
         && if r.consumer == Output(item) then r.tally == s.tally
            else r.consumer == CSizeTest(item.ptr) && r.tally == s.tally.(dropped := s.tally.dropped + 1)
       case Output(item) =>
         && r.pool == s.pool && r.queue == s.queue && r.consumer == CSizeTest(item.ptr)
         && (r.tally == s.tally.(failed := s.tally.failed + 1)
             || (item.want.Log? && r.tally == WrittenOut(s.tally, item)))
       case CSizeTest(ptr) =>
         && r.queue == s.queue && r.tally == s.tally
         && if r.consumer == CInsert(ptr) then r.pool == s.pool && |s.pool.free| < POOL_LIMIT
            else r.consumer == Pop && r.pool == Deleted(s.pool, ptr)
       case CInsert(ptr) =>
         r.queue == s.queue && r.tally == s.tally && r.pool == Inserted(s.pool, ptr) && r.consumer == Pop
       case _ =>
         && r.queue == s.queue && r.tally == s.tally && r.pool == s.pool
         && ConsumerHand(r.consumer) == None && Uncounted(r.consumer) == Undecided(r.consumer) == 0
         && !r.consumer.CInsert? && !r.consumer.LogsTest?
         && (r.consumer == Done ==> s.consumer == Done || s.queue.logs == [])
  }

  lemma {:induction false} ConsumeFrame(s: State, opens: bool)
    requires |s.blocks| == |s.loggers|
    ensures ConsumerFrame(s, Consume(s, opens))
  {
  }

  // ---------------------------------------------------------------- one FIFO queue

  /** Behind the swap, cache and queue together are one first-in first-out queue: everything pushed
      is everything popped, then the cache, then the shared queue, in push order. */
  predicate Fifo(s: State) {
    s.queue.pushedAll == s.queue.poppedAll + s.queue.cache + s.queue.logs
  }

  lemma {:induction false} FifoProducer(s: State, r: State, t: nat)
    requires Fifo(s) && t < |s.producers| && ProducerFrame(s, r, t)
    ensures Fifo(r)
  {
    if s.producers[t].Push? {
      var item := s.producers[t].item;
      assert s.queue.poppedAll + s.queue.cache + (s.queue.logs + [item])
          == s.queue.poppedAll + s.queue.cache + s.queue.logs + [item];
    }
  }

  lemma {:induction false} FifoConsumer(s: State, r: State)
    requires Fifo(s) && ConsumerFrame(s, r) && (s.consumer.Swap? ==> s.queue.cache == [])
    ensures Fifo(r)
  {
    if s.consumer.Pop? && s.queue.cache != [] {
      assert s.queue.cache == [s.queue.cache[0]] + s.queue.cache[1..];
      assert s.queue.poppedAll + [s.queue.cache[0]] + s.queue.cache[1..] == s.queue.poppedAll + s.queue.cache;
    }
    if s.consumer.Swap? && s.queue.logs != [] {
      assert s.queue.poppedAll + s.queue.logs + [] == s.queue.poppedAll + [] + s.queue.logs;
    }
  }

  /** The log thread tests the shared queue, and stops, only with an empty cache. */
  predicate CacheTested(s: State) {
    (s.consumer.LogsTest? || s.consumer.Swap? || s.consumer.StopTest? || s.consumer.QuitTest? || s.consumer.Done?)
    ==> s.queue.cache == []
  }

  // ---------------------------------------------------------------- one owner for every record

  datatype Held = None | One(ptr: nat)

  function Hand(p: Producer): Held {
    match p
    case EnableTest(item) => One(item.ptr)
    case LevelTest(item) => One(item.ptr)
    case Push(item) => One(item.ptr)
    case SizeTest(ptr) => One(ptr)
    case Insert(ptr) => One(ptr)
    case _ => None
  }

  function ConsumerHand(c: Consumer): Held {
    match c
    case Handle(item) => One(item.ptr)
    case FilterEnable(item) => One(item.ptr)
    case FilterLevel(item) => One(item.ptr)
    case Output(item) => One(item.ptr)
    case CSizeTest(ptr) => One(ptr)
    case CInsert(ptr) => One(ptr)
    case _ => None
  }

  function Is(h: Held, p: nat): nat {
    if h == One(p) then 1 else 0
  }

  /** How often record p is in the pool, in a queue, in the producers' hands. */
  function InPool(free: seq<nat>, p: nat): nat {
    if free == [] then 0 else InPool(free[..|free| - 1], p) + if free[|free| - 1] == p then 1 else 0
  }

  function InQueue(items: seq<Item>, p: nat): nat {
    if items == [] then 0 else InQueue(items[..|items| - 1], p) + if items[|items| - 1].ptr == p then 1 else 0
  }

  function InHands(ps: seq<Producer>, p: nat): nat {
    if ps == [] then 0 else InHands(ps[..|ps| - 1], p) + Is(Hand(ps[|ps| - 1]), p)
  }

  function PlacesOf(s: State, p: nat): nat {
    InPool(s.pool.free, p) + InQueue(s.queue.cache, p) + InQueue(s.queue.logs, p) + InHands(s.producers, p)
    + Is(ConsumerHand(s.consumer), p)
  }

  /** A live record is in exactly one place, any other address in none. */
  predicate OwnedOnce(s: State, p: nat) {
    PlacesOf(s, p) == (if p in s.pool.live then 1 else 0) && (p in s.pool.live ==> p < s.pool.nextPtr)
  }

  ghost predicate OneOwner(s: State) {
    forall p: nat :: OwnedOnce(s, p)
  }

  lemma {:induction false} PoolSnoc(free: seq<nat>, x: nat, p: nat)
    ensures InPool(free + [x], p) == InPool(free, p) + if x == p then 1 else 0
  {
    assert (free + [x])[..|free|] == free;
  }

  lemma {:induction false} QueueSnoc(items: seq<Item>, item: Item, p: nat)
    ensures InQueue(items + [item], p) == InQueue(items, p) + if item.ptr == p then 1 else 0
  {
    assert (items + [item])[..|items|] == items;
  }

  lemma {:induction false} QueueFirst(items: seq<Item>, p: nat)
    requires items != []
    ensures InQueue(items, p) == InQueue(items[1..], p) + if items[0].ptr == p then 1 else 0
    decreases |items|
  {
    if |items| > 1 {
      var front := items[..|items| - 1];
      QueueFirst(front, p);
      assert front[1..] == items[1..][..|items| - 2];
    }
  }

  lemma {:induction false} HandsUpdate(ps: seq<Producer>, t: nat, x: Producer, p: nat)
    requires t < |ps|
    ensures InHands(ps[t := x], p) + Is(Hand(ps[t]), p) == InHands(ps, p) + Is(Hand(x), p)
    decreases |ps|
  {
    var last := |ps| - 1;
    var front := ps[..last];
    if t < last {
      HandsUpdate(front, t, x, p);
      assert ps[t := x][..last] == front[t := x];
    } else {
      assert ps[t := x][..last] == front;
    }
  }

  /** What the pool and one pair of hands hold of p, against whether p is in use. */
  predicate Balanced(s: Pool, hs: Held, r: Pool, hr: Held, p: nat) {
    && InPool(r.free, p) + Is(hr, p) + (if p in s.live then 1 else 0)
       == InPool(s.free, p) + Is(hs, p) + (if p in r.live then 1 else 0)
    && (p in r.live ==> p < r.nextPtr)
  }

  /** What a step that is not a push does to the pool and the hand. */
  predicate PoolMove(s: State, r: State, t: nat)
    requires t < |s.producers| == |r.producers|
  {
    var h := Hand(r.producers[t]);
    match s.producers[t]
    case PoolPop(_) =>
      if s.pool.free == [] then r.pool == s.pool && h == None
      else r.pool == s.pool.(free := s.pool.free[..|s.pool.free| - 1]) && h == One(s.pool.free[|s.pool.free| - 1])
           && !r.producers[t].Insert?
    case Allocate(_) => r.pool == Allocated(s.pool) && h == One(s.pool.nextPtr) && !r.producers[t].Insert?
    case SizeTest(ptr) =>
      if |s.pool.free| < POOL_LIMIT then r.pool == s.pool && r.producers[t] == Insert(ptr)
      else r.pool == Deleted(s.pool, ptr) && r.producers[t] == Ready
    case Insert(ptr) => r.pool == Inserted(s.pool, ptr) && r.producers[t] == Ready
    case _ => r.pool == s.pool && h == Hand(s.producers[t]) && !r.producers[t].Insert?
  }

  lemma {:induction false} AdvancePoolMove(s: State, t: nat)
    requires t < |s.producers| && |s.blocks| == |s.loggers| && !s.producers[t].Push?
    ensures |Advance(s, t).producers| == |s.producers| && PoolMove(s, Advance(s, t), t)
  {
  }

  /** A step that is not a push keeps that balance: it moves a record between pool and hand, takes a
      new one into the hand, or deletes the one in the hand. */
  lemma {:induction false} MoveBalances(s: State, r: State, t: nat, p: nat)
    requires t < |s.producers| == |r.producers| && PoolMove(s, r, t)
    requires Hand(s.producers[t]) == One(p) ==> p in s.pool.live
    requires p in s.pool.live ==> p < s.pool.nextPtr
    ensures Balanced(s.pool, Hand(s.producers[t]), r.pool, Hand(r.producers[t]), p)
  {
    match s.producers[t]
    case PoolPop(w) =>
      if s.pool.free != [] {
        TakeLast(s.pool.free, p);
      }
    case Insert(ptr) => PoolSnoc(s.pool.free, ptr, p);
    case _ =>
  }

  lemma {:induction false} TakeLast(free: seq<nat>, p: nat)
    requires free != []
    ensures InPool(free, p) == InPool(free[..|free| - 1], p) + if free[|free| - 1] == p then 1 else 0
  {
  }

  lemma {:induction false} HandAtMostOnce(s: State, t: nat, p: nat)
    requires t < |s.producers| && OwnedOnce(s, p)
    ensures Hand(s.producers[t]) == One(p) ==> p in s.pool.live
  {
    HandInHands(s.producers, t, p);
  }

  lemma {:induction false} HandInHands(ps: seq<Producer>, t: nat, p: nat)
    requires t < |ps|
    ensures InHands(ps, p) >= Is(Hand(ps[t]), p)
    decreases |ps|
  {
    if t < |ps| - 1 {
      HandInHands(ps[..|ps| - 1], t, p);
    }
  }

  lemma {:induction false} OwnerProducer(s: State, r: State, t: nat, p: nat)
    requires OwnedOnce(s, p) && t < |s.producers| && ProducerFrame(s, r, t)
    requires !s.producers[t].Push? ==> Balanced(s.pool, Hand(s.producers[t]), r.pool, Hand(r.producers[t]), p)
    ensures OwnedOnce(r, p)
  {
    HandsUpdate(s.producers, t, r.producers[t], p);
    if s.producers[t].Push? {
      QueueSnoc(s.queue.logs, s.producers[t].item, p);
    }
  }

  lemma {:induction false} OwnerConsumer(s: State, r: State, p: nat)
    requires OwnedOnce(s, p) && ConsumerFrame(s, r) && CacheTested(s)
    ensures OwnedOnce(r, p)
  {
    match s.consumer
    case Pop =>
      if s.queue.cache != [] {
        QueueFirst(s.queue.cache, p);
      }
    case CInsert(ptr) => PoolSnoc(s.pool.free, ptr, p);
    case _ =>
  }

  // ---------------------------------------------------------------- the pool

  function Pending(ps: seq<Producer>): (n: nat)
    ensures n <= |ps|
  {
    if ps == [] then 0 else Pending(ps[..|ps| - 1]) + if ps[|ps| - 1].Insert? then 1 else 0
  }

  /** Threads that have passed the unlocked size test and not yet inserted. */
  function PendingInserts(s: State): nat {
    Pending(s.producers) + if s.consumer.CInsert? then 1 else 0
  }

  /** With N threads, the log thread included, the pool and what is about to enter it stay within
      199 + N records. */
  predicate PoolBounded(s: State) {
    |s.pool.free| + PendingInserts(s) <= POOL_LIMIT - 1 + (|s.producers| + 1)
  }

  lemma {:induction false} PendingUpdate(ps: seq<Producer>, t: nat, x: Producer)
    requires t < |ps|
    ensures Pending(ps[t := x]) + (if ps[t].Insert? then 1 else 0) == Pending(ps) + if x.Insert? then 1 else 0
    decreases |ps|
  {
    var last := |ps| - 1;
    var front := ps[..last];
    if t < last {
      PendingUpdate(front, t, x);
      assert ps[t := x][..last] == front[t := x];
    } else {
      assert ps[t := x][..last] == front;
    }
  }

  lemma {:induction false} PoolProducer(s: State, r: State, t: nat)
    requires PoolBounded(s) && t < |s.producers| && ProducerFrame(s, r, t)
    requires !s.producers[t].Push? ==> PoolMove(s, r, t)
    ensures PoolBounded(r)
  {
    PendingUpdate(s.producers, t, r.producers[t]);
  }

  lemma {:induction false} PoolConsumer(s: State, r: State)
    requires PoolBounded(s) && ConsumerFrame(s, r)
    ensures PoolBounded(r)
  {
  }

  // ---------------------------------------------------------------- the counters

  function Records(items: seq<Item>): nat {
    if items == [] then 0 else Records(items[..|items| - 1]) + if items[|items| - 1].want.Log? then 1 else 0
  }

  function Lengths(items: seq<Item>): nat {
    if items == [] then 0
    else Lengths(items[..|items| - 1]) + if items[|items| - 1].want.Log? then items[|items| - 1].want.len else 0
  }

  /** Popped and not yet counted; counted and not yet decided. */
  function Uncounted(c: Consumer): nat {
    if c.Handle? && c.item.want.Log? then 1 else 0
  }

  function Undecided(c: Consumer): nat {
    if c.FilterEnable? || c.FilterLevel? || c.Output? then 1 else 0
  }

  /** Pushed records are popped, queued or just popped; hot changes enter no count. Every popped
      record is written, dropped by the second filter, lost to a file that did not open, or still
      in the log thread's hands. */
  predicate Counted(s: State) {
    && s.tally.pushed == s.tally.popped + Records(s.queue.cache) + Records(s.queue.logs) + Uncounted(s.consumer)
    && s.tally.popped == s.tally.writes + s.tally.dropped + s.tally.failed + Undecided(s.consumer)
    && s.tally.writes == |s.tally.written| && s.tally.bytes == Lengths(s.tally.written)
  }

  lemma {:induction false} RecordsSnoc(items: seq<Item>, item: Item)
    ensures Records(items + [item]) == Records(items) + if item.want.Log? then 1 else 0
    ensures Lengths(items + [item]) == Lengths(items) + if item.want.Log? then item.want.len else 0
  {
    assert (items + [item])[..|items|] == items;
  }

  lemma {:induction false} RecordsFirst(items: seq<Item>)
    requires items != []
    ensures Records(items) == Records(items[1..]) + if items[0].want.Log? then 1 else 0
    decreases |items|
  {
    if |items| > 1 {
      var front := items[..|items| - 1];
      RecordsFirst(front);
      assert front[1..] == items[1..][..|items| - 2];
    }
  }

  lemma {:induction false} CountedProducer(s: State, r: State, t: nat)
    requires Counted(s) && t < |s.producers| && ProducerFrame(s, r, t)
    ensures Counted(r)
  {
    if s.producers[t].Push? {
      RecordsSnoc(s.queue.logs, s.producers[t].item);
    }
  }

  lemma {:induction false} CountedConsumer(s: State, r: State)
    requires Counted(s) && ConsumerFrame(s, r) && CacheTested(s)
    requires s.consumer.Handle? ==> KnownId(s, s.consumer.item.want.id)
    requires s.consumer.FilterEnable? || s.consumer.FilterLevel? || s.consumer.Output? ==> s.consumer.item.want.Log?
    ensures Counted(r)
  {
    match s.consumer
    case Pop =>
      if s.queue.cache != [] {
        RecordsFirst(s.queue.cache);
      }
    case Output(item) => RecordsSnoc(s.tally.written, item);
    case _ =>
  }
}
