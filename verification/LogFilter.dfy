/** Why the second filter drops a record: what is known about every accepted record on its way. */
module LogFilter {
  import opened LogQueue
  import opened LogQueueProofs

  /** Since the record's acceptance test began, its logger has become stricter. */
  predicate BlockedSince(blocks: seq<Block>, id: int, stamp: nat) {
    0 <= id < |blocks| && blocks[id].time > stamp
  }

  /** A queued item: its logger exists, and an accepted record still passes unless its logger has
      become stricter since. */
  predicate ItemOk(loggers: seq<Logger>, blocks: seq<Block>, clock: nat, item: Item) {
    && 0 <= item.want.id < |loggers| && item.stamp <= clock
    && (item.want.Log? ==>
          Passes(loggers[item.want.id], item.want.level) || BlockedSince(blocks, item.want.id, item.stamp))
  }

  predicate ItemsOk(loggers: seq<Logger>, blocks: seq<Block>, clock: nat, items: seq<Item>) {
    forall i :: 0 <= i < |items| ==> ItemOk(loggers, blocks, clock, items[i])
  }

  predicate WantOk(loggers: seq<Logger>, w: Want) {
    w.Change? ==> 0 <= w.id < |loggers|
  }

  predicate ProducerOk(loggers: seq<Logger>, blocks: seq<Block>, clock: nat, p: Producer) {
    match p
    case HotTest(w) => w.Change? && WantOk(loggers, w)
    case PoolTest(w) => WantOk(loggers, w)
    case PoolPop(w) => WantOk(loggers, w)
    case Allocate(w) => WantOk(loggers, w)
    case EnableTest(item) => item.want.Log?
    case LevelTest(item) =>
      && 0 <= item.want.id < |loggers| && item.stamp <= clock && item.want.Log?
      && (loggers[item.want.id].enable || BlockedSince(blocks, item.want.id, item.stamp))
    case Push(item) => ItemOk(loggers, blocks, clock, item)
    case StoreLevel(id, _) => 0 <= id < |loggers|
    case _ => true
  }

  predicate ProducersOk(loggers: seq<Logger>, blocks: seq<Block>, clock: nat, ps: seq<Producer>) {
    forall t :: 0 <= t < |ps| ==> ProducerOk(loggers, blocks, clock, ps[t])
  }

  /** The item in the log thread's hands is the last one popped. */
  predicate ConsumerOk(loggers: seq<Logger>, blocks: seq<Block>, clock: nat, poppedAll: seq<Item>, c: Consumer) {
    match c
    case Handle(item) => ItemOk(loggers, blocks, clock, item) && IsLast(poppedAll, item)
    case FilterEnable(item) => ItemOk(loggers, blocks, clock, item) && IsLast(poppedAll, item) && item.want.Log?
    case FilterLevel(item) => ItemOk(loggers, blocks, clock, item) && IsLast(poppedAll, item) && item.want.Log?
    case Output(item) => item.want.Log?
    case _ => true
  }

  predicate IsLast(items: seq<Item>, item: Item) {
    items != [] && items[|items| - 1] == item
  }

  /** Every block on record has a reason: a disable or level change for this logger that has been
      popped, a stale store, or a change applied after the log thread was told to stop. */
  predicate BlockOk(s: State, id: int)
    requires 0 <= id < |s.blocks|
  {
    var b := s.blocks[id];
    && b.time <= s.clock
    && match b.cause
       case Never => b.time == 0
       case Hot(k) =>
         && k < |s.queue.poppedAll| && s.queue.poppedAll[k].want.Change?
         && s.queue.poppedAll[k].want.id == id && !s.queue.poppedAll[k].want.kind.Other?
       case StaleStore => true
       case Direct => !s.running
  }

  predicate Filtered(s: State) {
    && |s.blocks| == |s.loggers|
    && ItemsOk(s.loggers, s.blocks, s.clock, s.queue.logs)
    && ItemsOk(s.loggers, s.blocks, s.clock, s.queue.cache)
    && ProducersOk(s.loggers, s.blocks, s.clock, s.producers)
    && ConsumerOk(s.loggers, s.blocks, s.clock, s.queue.poppedAll, s.consumer)
    && forall id :: 0 <= id < |s.blocks| ==> BlockOk(s, id)
  }

  // ---------------------------------------------------------------- settings only get stricter on record

  /** A step from settings l and blocks b: nothing got stricter without a new block at `time`. */
  predicate Tracked(l: seq<Logger>, b: seq<Block>, l': seq<Logger>, b': seq<Block>, time: nat) {
    && |l| == |b| == |l'| == |b'|
    && forall id :: 0 <= id < |l| ==>
         b'[id].time == time
         || (b'[id] == b[id] && (l[id].enable ==> l'[id].enable) && l'[id].level <= l[id].level)
  }

  lemma {:induction false} WriteTracks(s: State, id: int, l: Logger, cause: Cause)
    requires KnownId(s, id) && |s.blocks| == |s.loggers|
    ensures var r := Write(s, id, l, cause);
      Tracked(s.loggers, s.blocks, r.loggers, r.blocks, s.clock + 1) && r.running == s.running && r.clock == s.clock
  {
  }

  lemma {:induction false} ApplyTracks(s: State, w: Want, cause: Cause)
    requires w.Change? && KnownId(s, w.id) && |s.blocks| == |s.loggers|
    ensures var r := Apply(s, w, cause);
      && Tracked(s.loggers, s.blocks, r.loggers, r.blocks, s.clock + 1)
      && r.running == s.running && r.clock == s.clock
  {
  }

  lemma {:induction false} AdvanceTracks(s: State, t: nat)
    requires t < |s.producers| && |s.blocks| == |s.loggers|
    ensures Tracked(s.loggers, s.blocks, Advance(s, t).loggers, Advance(s, t).blocks, s.clock + 1)
    ensures Advance(s, t).running == s.running && Advance(s, t).clock == s.clock
  {
    hide Pushed, Inserted, Allocated, Deleted, Apply, Write;
    var idle := At(s, t, Ready);
    match s.producers[t] {
      case HotTest(w) =>
        if !s.running && w.Change? && KnownId(s, w.id) {
          ApplyTracks(idle, w, Direct);
        }
      case StoreLevel(id, level) =>
        if KnownId(s, id) {
          WriteTracks(idle, id, s.loggers[id].(level := level), StaleStore);
        }
      case _ =>
    }
  }

  lemma {:induction false} BeginTracks(s: State, t: nat, c: Call)
    requires t < |s.producers| && |s.blocks| == |s.loggers|
    ensures Tracked(s.loggers, s.blocks, Begin(s, t, c).loggers, Begin(s, t, c).blocks, s.clock + 1)
    ensures Begin(s, t, c).running == s.running && Begin(s, t, c).clock == s.clock
    ensures Begin(s, t, c).blocks == s.blocks
  {
  }

  lemma {:induction false} ConsumeTracks(s: State, opens: bool)
    requires |s.blocks| == |s.loggers|
    ensures Tracked(s.loggers, s.blocks, Consume(s, opens).loggers, Consume(s, opens).blocks, s.clock + 1)
    ensures Consume(s, opens).running == s.running && Consume(s, opens).clock == s.clock
  {
    match s.consumer
    case Handle(item) =>
      if KnownId(s, item.want.id) && item.want.Change? {
        ApplyTracks(s, item.want, if s.queue.poppedAll == [] then Never else Hot(|s.queue.poppedAll| - 1));
      }
    case _ =>
  }

  lemma {:induction false} ItemKept(l: seq<Logger>, b: seq<Block>, l': seq<Logger>, b': seq<Block>, clock: nat,
                                    item: Item)
    requires Tracked(l, b, l', b', clock + 1) && ItemOk(l, b, clock, item)
    ensures ItemOk(l', b', clock + 1, item)
  {
  }

  lemma {:induction false} ItemsKept(l: seq<Logger>, b: seq<Block>, l': seq<Logger>, b': seq<Block>, clock: nat,
                                     items: seq<Item>)
    requires Tracked(l, b, l', b', clock + 1) && ItemsOk(l, b, clock, items)
    ensures ItemsOk(l', b', clock + 1, items)
  {
    forall i | 0 <= i < |items|
      ensures ItemOk(l', b', clock + 1, items[i])
    {
      ItemKept(l, b, l', b', clock, items[i]);
    }
  }

  lemma {:induction false} ProducerKept(l: seq<Logger>, b: seq<Block>, l': seq<Logger>, b': seq<Block>, clock: nat,
                                        p: Producer)
    requires Tracked(l, b, l', b', clock + 1) && ProducerOk(l, b, clock, p)
    ensures ProducerOk(l', b', clock + 1, p)
  {
  }

  lemma {:induction false} ProducersKept(l: seq<Logger>, b: seq<Block>, l': seq<Logger>, b': seq<Block>, clock: nat,
                                         ps: seq<Producer>, t: nat, p: Producer)
    requires Tracked(l, b, l', b', clock + 1) && ProducersOk(l, b, clock, ps) && t < |ps|
    requires ProducerOk(l', b', clock + 1, p)
    ensures ProducersOk(l', b', clock + 1, ps[t := p])
  {
    var qs := ps[t := p];
    forall i | 0 <= i < |qs|
      ensures ProducerOk(l', b', clock + 1, qs[i])
    {
      if i != t {
        ProducerKept(l, b, l', b', clock, ps[i]);
      }
    }
  }

  lemma {:induction false} ConsumerKept(l: seq<Logger>, b: seq<Block>, l': seq<Logger>, b': seq<Block>, clock: nat,
                                        popped: seq<Item>, c: Consumer)
    requires Tracked(l, b, l', b', clock + 1) && ConsumerOk(l, b, clock, popped, c)
    ensures ConsumerOk(l', b', clock + 1, popped, c)
  {
  }

  // ---------------------------------------------------------------- each thread keeps its own part

  /** The acceptance test, step by step: the enable test starts it, the level test completes it. */
  lemma {:induction false} AdvanceOk(s: State, t: nat)
    requires t < |s.producers| && |s.blocks| == |s.loggers|
    requires ProducerOk(s.loggers, s.blocks, s.clock, s.producers[t])
    ensures t < |Advance(s, t).producers|
    ensures ProducerOk(Advance(s, t).loggers, Advance(s, t).blocks, s.clock + 1, Advance(s, t).producers[t])
  {
  }

  lemma {:induction false} BeginOk(s: State, t: nat, c: Call)
    requires t < |s.producers| && s.producers[t].Ready? && |s.blocks| == |s.loggers|
    ensures t < |Begin(s, t, c).producers|
    ensures ProducerOk(Begin(s, t, c).loggers, Begin(s, t, c).blocks, s.clock + 1, Begin(s, t, c).producers[t])
  {
  }

  /** A producer's write is remembered as a stale store, or as a direct change after a stop. */
  lemma {:induction false} AdvanceBlocks(s: State, t: nat, id: int)
    requires t < |s.producers| && |s.blocks| == |s.loggers| && 0 <= id < |s.blocks|
    ensures var r := Advance(s, t);
      |r.blocks| == |s.blocks| &&
      (r.blocks[id] == s.blocks[id]
       || r.blocks[id] == Block(s.clock + 1, StaleStore)
       || (r.blocks[id] == Block(s.clock + 1, Direct) && !s.running))
  {
  }

  /** The log thread's write is remembered as the hot change it has just popped. */
  lemma {:induction false} ConsumeBlocks(s: State, opens: bool, id: int)
    requires |s.blocks| == |s.loggers| && 0 <= id < |s.blocks|
    requires s.consumer.Handle? ==> IsLast(s.queue.poppedAll, s.consumer.item)
    ensures var r := Consume(s, opens);
      |r.blocks| == |s.blocks| &&
      (r.blocks[id] == s.blocks[id]
       || (s.consumer.Handle? && s.consumer.item.want.Change? && s.consumer.item.want.id == id
           && !s.consumer.item.want.kind.Other?
           && r.blocks[id] == Block(s.clock + 1, Hot(|s.queue.poppedAll| - 1))))
  {
  }

  lemma {:induction false} FilteredProducer(s: State, r: State, t: nat)
    requires Filtered(s) && t < |s.producers| && ProducerFrame(s, r, t)
    requires Tracked(s.loggers, s.blocks, r.loggers, r.blocks, s.clock + 1)
    requires r.clock == s.clock && r.running == s.running
    requires ProducerOk(r.loggers, r.blocks, s.clock + 1, r.producers[t])
    requires forall id :: 0 <= id < |s.blocks| ==>
      r.blocks[id] == s.blocks[id]
      || r.blocks[id] == Block(s.clock + 1, StaleStore)
      || (r.blocks[id] == Block(s.clock + 1, Direct) && !s.running)
    ensures Filtered(r.(clock := s.clock + 1))
  {
    var l, b, l', b' := s.loggers, s.blocks, r.loggers, r.blocks;
    ItemsKept(l, b, l', b', s.clock, s.queue.logs);
    ItemsKept(l, b, l', b', s.clock, s.queue.cache);
    ProducersKept(l, b, l', b', s.clock, s.producers, t, r.producers[t]);
    ConsumerKept(l, b, l', b', s.clock, s.queue.poppedAll, s.consumer);
    if s.producers[t].Push? {
      ProducerKept(l, b, l', b', s.clock, s.producers[t]);
    }
    var r' := r.(clock := s.clock + 1);
    forall id | 0 <= id < |s.blocks|
      ensures BlockOk(r', id)
    {
      assert BlockOk(s, id);
    }
  }

  lemma {:induction false} FilteredConsumer(s: State, opens: bool)
    requires Filtered(s)
    ensures Filtered(Consume(s, opens).(clock := s.clock + 1))
  {
    var r := Consume(s, opens);
    ConsumeFrame(s, opens);
    ConsumeTracks(s, opens);
    var r' := r.(clock := s.clock + 1);
    forall id | 0 <= id < |s.blocks|
      ensures BlockOk(r', id)
    {
      ConsumeBlocks(s, opens, id);
      assert BlockOk(s, id);
      PoppedGrows(s, r);
    }
    FilteredQueues(s, r);
    FilteredHands(s, r);
  }

  lemma {:induction false} PoppedGrows(s: State, r: State)
    requires ConsumerFrame(s, r)
    ensures s.queue.poppedAll <= r.queue.poppedAll
  {
  }

  lemma {:induction false} FilteredQueues(s: State, r: State)
    requires Filtered(s) && ConsumerFrame(s, r)
    requires Tracked(s.loggers, s.blocks, r.loggers, r.blocks, s.clock + 1)
    ensures ItemsOk(r.loggers, r.blocks, s.clock + 1, r.queue.logs)
    ensures ItemsOk(r.loggers, r.blocks, s.clock + 1, r.queue.cache)
    ensures ProducersOk(r.loggers, r.blocks, s.clock + 1, r.producers)
  {
    var l, b, l', b' := s.loggers, s.blocks, r.loggers, r.blocks;
    ItemsKept(l, b, l', b', s.clock, s.queue.logs);
    ItemsKept(l, b, l', b', s.clock, s.queue.cache);
    forall t | 0 <= t < |s.producers|
      ensures ProducerOk(l', b', s.clock + 1, s.producers[t])
    {
      ProducerKept(l, b, l', b', s.clock, s.producers[t]);
    }
  }

  lemma {:induction false} FilteredHands(s: State, r: State)
    requires Filtered(s) && ConsumerFrame(s, r)
    requires Tracked(s.loggers, s.blocks, r.loggers, r.blocks, s.clock + 1)
    ensures ConsumerOk(r.loggers, r.blocks, s.clock + 1, r.queue.poppedAll, r.consumer)
  {
    ConsumerKept(s.loggers, s.blocks, r.loggers, r.blocks, s.clock, s.queue.poppedAll, s.consumer);
    if s.consumer.Pop? && s.queue.cache != [] {
      ItemKept(s.loggers, s.blocks, r.loggers, r.blocks, s.clock, s.queue.cache[0]);
    }
  }
}
