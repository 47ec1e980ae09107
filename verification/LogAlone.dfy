/** What each call of the log manager comes to when no other thread moves in between, told in terms
    of the loggers, the pool, the queue and the counters alone. */
module LogAlone {
  import opened LogQueue

  /** A producer runs on, for at most k steps, until its call is over. */
  function Finish(s: State, t: nat, k: nat): (r: State)
    requires |s.blocks| == |s.loggers| && t < |s.producers|
    ensures |r.blocks| == |r.loggers| && |r.producers| == |s.producers|
    decreases k
  {
    if k == 0 || s.producers[t].Ready? then s else Finish(Next(s, Go(t)), t, k - 1)
  }

  /** A record freed goes to the pool while that holds fewer than 200. */
  function Pooled(free: seq<nat>, ptr: nat): seq<nat> {
    if |free| < 200 then free + [ptr] else free
  }

  /** A record is pushed, at the end of the queue, if and only if the log thread is running and the
      record's logger exists, is enabled and asks for no higher level; else it is freed. */
  lemma {:induction false} PushAlone(s: State, t: nat, ptr: nat, id: int, level: int, len: nat)
    requires |s.blocks| == |s.loggers| && t < |s.producers|
    requires s.producers[t] == EnableTest(Item(ptr, Log(id, level, len), 0))
    ensures var r := Finish(s, t, 4);
      && r.producers[t] == Ready && r.loggers == s.loggers && r.queue.cache == s.queue.cache
      && if s.running && 0 <= id < |s.loggers| && s.loggers[id].enable && s.loggers[id].level <= level then
           && r.queue.logs == s.queue.logs + [Item(ptr, Log(id, level, len), s.clock)]
           && r.tally.pushed == s.tally.pushed + 1 && r.pool == s.pool
         else
           && r.queue.logs == s.queue.logs && r.tally.pushed == s.tally.pushed
           && r.pool.free == Pooled(s.pool.free, ptr)
  {
    var one := Next(s, Go(t));
    var two := Next(one, Go(t));
    Onward(s, t, 4);
    Onward(one, t, 3);
    if one.producers[t].SizeTest? {
      FreeAlone(one, t, ptr, 3);
    } else if two.producers[t].SizeTest? {
      FreeAlone(two, t, ptr, 2);
    } else {
      Onward(two, t, 2);
    }
  }

  lemma {:induction false} Onward(s: State, t: nat, k: nat)
    requires |s.blocks| == |s.loggers| && t < |s.producers| && k > 0 && !s.producers[t].Ready?
    ensures var one := Next(s, Go(t));
      && Finish(s, t, k) == Finish(one, t, k - 1) && (one.producers[t].Ready? ==> Finish(s, t, k) == one)
  {
    hide Next;
  }

  lemma {:induction false} FreeAlone(s: State, t: nat, ptr: nat, k: nat)
    requires |s.blocks| == |s.loggers| && t < |s.producers| && s.producers[t] == SizeTest(ptr) && k >= 2
    ensures var r := Finish(s, t, k);
      && r.producers[t] == Ready && r.pool.free == Pooled(s.pool.free, ptr)
      && r.loggers == s.loggers && r.queue == s.queue && r.tally == s.tally
  {
    hide Finish;
    var one := Next(s, Go(t));
    Onward(s, t, k);
    if !one.producers[t].Ready? {
      Onward(one, t, k - 1);
    }
  }

  /** The address a new record gets: the pool's last, or one never used. */
  function NewPtr(s: State): nat {
    if s.pool.free == [] then s.pool.nextPtr else s.pool.free[|s.pool.free| - 1]
  }

  lemma {:induction false} MakeAlone(s: State, t: nat, w: Want, k: nat)
    requires |s.blocks| == |s.loggers| && t < |s.producers| && s.producers[t] == PoolTest(w) && k >= 2
    ensures var r := Next(Next(s, Go(t)), Go(t));
      && Finish(s, t, k) == Finish(r, t, k - 2)
      && r.producers[t] == (if w.Change? then Push(Item(NewPtr(s), w, 0)) else EnableTest(Item(NewPtr(s), w, 0)))
      && r.pool.free == (if s.pool.free == [] then [] else s.pool.free[..|s.pool.free| - 1])
      && r.running == s.running && r.loggers == s.loggers && r.queue == s.queue && r.tally == s.tally
      && r.clock == s.clock + 2
  {
    hide Finish;
    Onward(s, t, k);
    Onward(Next(s, Go(t)), t, k - 1);
  }

  /** A whole log call: the record pushed holds what was asked. */
  lemma {:induction false} LogCallAlone(s: State, t: nat, id: int, level: int, len: nat)
    requires |s.blocks| == |s.loggers| && t < |s.producers| && s.producers[t] == Ready
    ensures var r := Finish(Next(s, Start(t, CallLog(id, level, len))), t, 6);
      && r.producers[t] == Ready && r.loggers == s.loggers && r.queue.cache == s.queue.cache
      && if s.running && 0 <= id < |s.loggers| && s.loggers[id].enable && s.loggers[id].level <= level then
           && r.queue.logs == s.queue.logs + [Item(NewPtr(s), Log(id, level, len), s.clock + 3)]
           && r.tally.pushed == s.tally.pushed + 1
         else
           r.queue.logs == s.queue.logs && r.tally.pushed == s.tally.pushed
  {
    hide Finish;
    var one := Next(s, Start(t, CallLog(id, level, len)));
    MakeAlone(one, t, Log(id, level, len), 6);
    PushAlone(Next(Next(one, Go(t)), Go(t)), t, NewPtr(s), id, level, len);
  }

  /** A logger after a hot change. */
  function Remade(l: Logger, w: Want): Logger
    requires w.Change?
  {
    Logger(if w.kind.Enable? then w.num != 0 else l.enable, if w.kind.Level? then w.num else l.level)
  }

  /** A hot change of a known logger is queued if and only if the log thread is running, and made
      otherwise. */
  lemma {:induction false} HotAlone(s: State, t: nat, w: Want)
    requires |s.blocks| == |s.loggers| && t < |s.producers| && w.Change? && 0 <= w.id < |s.loggers|
    requires s.producers[t] == HotTest(w)
    ensures var r := Finish(s, t, 4);
      && r.producers[t] == Ready && r.queue.cache == s.queue.cache && r.tally == s.tally
      && r.queue.logs == s.queue.logs + (if s.running then [Item(NewPtr(s), w, 0)] else [])
      && r.loggers == if s.running then s.loggers else s.loggers[w.id := Remade(s.loggers[w.id], w)]
  {
    hide Finish;
    var one := Next(s, Go(t));
    Onward(s, t, 4);
    if s.running {
      MakeAlone(one, t, w, 3);
      Onward(Next(Next(one, Go(t)), Go(t)), t, 1);
    }
  }

  /** The setters: enabling and lowering at once, disabling and raising as hot changes, unknown
      loggers refused. */
  lemma {:induction false} SettersAlone(s: State, t: nat, id: int, level: int)
    requires |s.blocks| == |s.loggers| && t < |s.producers| && s.producers[t] == Ready
    ensures var (on, off) := (Next(s, Start(t, CallEnable(id))), Next(s, Start(t, CallDisable(id))));
      var (stored, other) := (Next(s, Start(t, CallLevel(id, level))), Next(s, Start(t, CallOther(id))));
      if 0 <= id < |s.loggers| then
        && on.producers[t] == Ready && on.loggers == s.loggers[id := s.loggers[id].(enable := true)]
        && off.producers[t] == HotTest(Change(id, Enable, 0)) && off.loggers == s.loggers
        && other.producers[t] == HotTest(Change(id, Other, 0)) && other.loggers == s.loggers
        && if level <= s.loggers[id].level then
             var r := Finish(stored, t, 1);
             && r.producers[t] == Ready && r.queue == s.queue
             && r.loggers == s.loggers[id := s.loggers[id].(level := level)]
           else
             stored.producers[t] == HotTest(Change(id, Level, level)) && stored.loggers == s.loggers
      else
        on == off == stored == other == s.(clock := s.clock + 1)
  {
    var stored := Next(s, Start(t, CallLevel(id, level)));
    if 0 <= id < |s.loggers| && level <= s.loggers[id].level {
      Onward(stored, t, 1);
    }
  }

  // The log thread.

  /** The log thread runs on for k steps, or until it is between two records. */
  function Handled(s: State, opens: bool, k: nat): (r: State)
    requires |s.blocks| == |s.loggers|
    ensures |r.blocks| == |r.loggers|
    decreases k
  {
    if k == 0 || s.consumer.Pop? || s.consumer.Done? then s else Handled(Next(s, LogThread(opens)), opens, k - 1)
  }

  lemma {:induction false} HandledOnward(s: State, opens: bool, k: nat)
    requires |s.blocks| == |s.loggers| && k > 0 && !s.consumer.Pop? && !s.consumer.Done?
    ensures var one := Next(s, LogThread(opens));
      && Handled(s, opens, k) == Handled(one, opens, k - 1) && (one.consumer.Pop? ==> Handled(s, opens, k) == one)
  {
    hide Next;
  }

  lemma {:induction false} FreedByLogThread(s: State, opens: bool, ptr: nat, k: nat)
    requires |s.blocks| == |s.loggers| && s.consumer == CSizeTest(ptr) && k >= 2
    ensures var r := Handled(s, opens, k);
      && r.consumer == Pop && r.pool.free == Pooled(s.pool.free, ptr)
      && r.loggers == s.loggers && r.queue == s.queue && r.tally == s.tally
  {
    hide Handled;
    var one := Next(s, LogThread(opens));
    HandledOnward(s, opens, k);
    if !one.consumer.Pop? {
      HandledOnward(one, opens, k - 1);
    }
  }

  /** A record popped is written if and only if its logger exists, is enabled and asks for no higher
      level, and its file opens; whatever becomes of it, it is freed. */
  lemma {:induction false} RecordAlone(s: State, opens: bool, item: Item)
    requires |s.blocks| == |s.loggers| && s.consumer == Handle(item) && item.want.Log?
    ensures var (r, id) := (Handled(s, opens, 6), item.want.id);
      && r.consumer == Pop && r.loggers == s.loggers && r.queue == s.queue
      && r.pool.free == Pooled(s.pool.free, item.ptr) && r.tally.pushed == s.tally.pushed
      && r.tally.popped == s.tally.popped + (if 0 <= id < |s.loggers| then 1 else 0)
      && if 0 <= id < |s.loggers| && s.loggers[id].enable && s.loggers[id].level <= item.want.level && opens then
           && r.tally.written == s.tally.written + [item]
           && r.tally.writes == s.tally.writes + 1 && r.tally.bytes == s.tally.bytes + item.want.len
         else
           && r.tally.written == s.tally.written
           && r.tally.writes == s.tally.writes && r.tally.bytes == s.tally.bytes
  {
    hide Handled;
    var one := Next(s, LogThread(opens));
    HandledOnward(s, opens, 6);
    if one.consumer.CSizeTest? {
      FreedByLogThread(one, opens, item.ptr, 5);
    } else {
      FilteredAlone(one, opens, item);
    }
  }

  lemma {:induction false} FilteredAlone(s: State, opens: bool, item: Item)
    requires |s.blocks| == |s.loggers| && s.consumer == FilterEnable(item)
    requires item.want.Log? && 0 <= item.want.id < |s.loggers|
    ensures var (r, l) := (Handled(s, opens, 5), s.loggers[item.want.id]);
      && r.consumer == Pop && r.loggers == s.loggers && r.queue == s.queue
      && r.pool.free == Pooled(s.pool.free, item.ptr)
      && r.tally.pushed == s.tally.pushed && r.tally.popped == s.tally.popped
      && if l.enable && l.level <= item.want.level && opens then
           && r.tally.written == s.tally.written + [item]
           && r.tally.writes == s.tally.writes + 1 && r.tally.bytes == s.tally.bytes + item.want.len
         else
           && r.tally.written == s.tally.written
           && r.tally.writes == s.tally.writes && r.tally.bytes == s.tally.bytes
  {
    hide Handled;
    var one := Next(s, LogThread(opens));
    HandledOnward(s, opens, 5);
    if one.consumer.CSizeTest? {
      FreedByLogThread(one, opens, item.ptr, 4);
    } else {
      var two := Next(one, LogThread(opens));
      HandledOnward(one, opens, 4);
      if !two.consumer.CSizeTest? {
        HandledOnward(two, opens, 3);
        FreedByLogThread(Next(two, LogThread(opens)), opens, item.ptr, 2);
      } else {
        FreedByLogThread(two, opens, item.ptr, 3);
      }
    }
  }

  /** A hot change popped is made, if its logger exists, and counted nowhere. */
  lemma {:induction false} ChangeAlone(s: State, opens: bool, item: Item)
    requires |s.blocks| == |s.loggers| && s.consumer == Handle(item) && item.want.Change?
    ensures var (r, id) := (Handled(s, opens, 6), item.want.id);
      && r.consumer == Pop && r.queue == s.queue && r.tally == s.tally
      && r.pool.free == Pooled(s.pool.free, item.ptr)
      && r.loggers == if 0 <= id < |s.loggers| then s.loggers[id := Remade(s.loggers[id], item.want)] else s.loggers
  {
    hide Handled;
    HandledOnward(s, opens, 6);
    FreedByLogThread(Next(s, LogThread(opens)), opens, item.ptr, 5);
  }

  /** The log thread takes the oldest entry of cache and queue, or finds both empty. */
  lemma {:induction false} PopAlone(s: State, opens: bool)
    requires |s.blocks| == |s.loggers| && s.consumer == Pop
    ensures var (all, one) := (s.queue.cache + s.queue.logs, Next(s, LogThread(opens)));
      var r := if s.queue.cache != [] then one
               else if s.queue.logs == [] then Next(one, LogThread(opens))
               else Next(Next(Next(one, LogThread(opens)), LogThread(opens)), LogThread(opens));
      && r.loggers == s.loggers && r.tally == s.tally && r.pool == s.pool
      && if all == [] then r.consumer == StopTest && r.queue == s.queue
         else r.consumer == Handle(all[0]) && r.queue.cache + r.queue.logs == all[1..]
  {
  }

  /** At the end of a round the log thread leaves its loop if and only if it has been stopped and the
      queue is empty; else it goes round again. */
  lemma {:induction false} QuitAlone(s: State, opens: bool)
    requires |s.blocks| == |s.loggers| && s.consumer == StopTest
    ensures var r := Handled(s, opens, 2);
      && r.consumer == (if !s.running && s.queue.logs == [] then Done else Pop)
      && r.running == s.running && r.loggers == s.loggers
      && r.queue == s.queue && r.tally == s.tally && r.pool == s.pool
  {
    HandledOnward(s, opens, 2);
  }

  // What is left of the acceptance rule when other threads move in between.

  /** A state in which a record is refused. */
  predicate Refuses(s: State, id: int, level: int) {
    !s.running || !(0 <= id < |s.loggers|) || !s.loggers[id].enable || level < s.loggers[id].level
  }

  predicate Enabled(s: State, id: int) {
    s.running && 0 <= id < |s.loggers| && s.loggers[id].enable
  }

  predicate Admits(s: State, id: int, level: int) {
    0 <= id < |s.loggers| && s.loggers[id].level <= level
  }

  function OwnMoves(ms: seq<Move>, t: nat): nat {
    if ms == [] then 0 else (if ms[0] == Go(t) then 1 else 0) + OwnMoves(ms[1..], t)
  }

  lemma {:induction false} AdvanceLeaves(s: State, u: nat, t: nat)
    requires |s.blocks| == |s.loggers| && u < |s.producers| && t < |s.producers| && u != t
    ensures Advance(s, u).producers[t] == s.producers[t]
  {
    hide Filled, Pushed, Inserted, Deleted, Allocated;
  }

  lemma {:induction false} ConsumeLeaves(s: State, opens: bool)
    requires |s.blocks| == |s.loggers|
    ensures Consume(s, opens).producers == s.producers
  {
    hide Popped, WrittenOut, Inserted, Deleted;
  }

  lemma {:induction false} OthersLeaveIt(s: State, m: Move, t: nat)
    requires |s.blocks| == |s.loggers| && Allowed(s, m) && t < |s.producers| && !s.producers[t].Ready? && m != Go(t)
    ensures t < |Next(s, m).producers| && Next(s, m).producers[t] == s.producers[t]
  {
    hide Advance, Consume;
    if m.Go? {
      AdvanceLeaves(s, m.t, t);
    } else if m.LogThread? {
      ConsumeLeaves(s, m.opens);
    }
  }

  /** The first test, whatever others do before and after: the record goes on if and only if, in the
      state the test saw, the manager was running and the logger existed and was enabled. */
  lemma {:induction false} EnableMoment(s: State, ms: seq<Move>, t: nat) returns (k: nat)
    requires |s.blocks| == |s.loggers| && AllowedRun(s, ms) && t < |s.producers| && OwnMoves(ms, t) == 1
    requires s.producers[t].EnableTest?
    ensures k < |ms| && AllowedRun(s, ms[..k]) && |Run(s, ms).producers| == |s.producers|
    ensures var (r, m, item) := (Run(s, ms), Run(s, ms[..k]), s.producers[t].item);
      if Enabled(m, item.want.id) then r.producers[t] == LevelTest(item.(stamp := m.clock))
      else r.producers[t] == SizeTest(item.ptr)
    decreases |ms|
  {
    var next := Next(s, ms[0]);
    if ms[0] == Go(t) {
      k := 0;
      assert ms[..0] == [];
      Untouched(next, ms[1..], t);
    } else {
      OthersLeaveIt(s, ms[0], t);
      var j := EnableMoment(next, ms[1..], t);
      k := j + 1;
      Shifted(s, ms, j);
    }
  }

  /** The second: the record is pushed if and only if the logger's level in the state the test saw
      was no higher. */
  lemma {:induction false} LevelMoment(s: State, ms: seq<Move>, t: nat) returns (k: nat)
    requires |s.blocks| == |s.loggers| && AllowedRun(s, ms) && t < |s.producers| && OwnMoves(ms, t) == 1
    requires s.producers[t].LevelTest? && s.producers[t].item.want.Log? && KnownId(s, s.producers[t].item.want.id)
    ensures k < |ms| && AllowedRun(s, ms[..k]) && |Run(s, ms).producers| == |s.producers|
    ensures var (r, m, w) := (Run(s, ms), Run(s, ms[..k]), s.producers[t].item.want);
      KnownId(m, w.id) && r.producers[t]
        == if Admits(m, w.id, w.level) then Push(s.producers[t].item) else SizeTest(s.producers[t].item.ptr)
    decreases |ms|
  {
    var next := Next(s, ms[0]);
    if ms[0] == Go(t) {
      k := 0;
      assert ms[..0] == [];
      Untouched(next, ms[1..], t);
    } else {
      OthersLeaveIt(s, ms[0], t);
      var j := LevelMoment(next, ms[1..], t);
      k := j + 1;
      Shifted(s, ms, j);
    }
  }

  lemma {:induction false} Untouched(s: State, ms: seq<Move>, t: nat)
    requires |s.blocks| == |s.loggers| && AllowedRun(s, ms) && t < |s.producers| && OwnMoves(ms, t) == 0
    requires !s.producers[t].Ready?
    ensures |Run(s, ms).producers| == |s.producers| && Run(s, ms).producers[t] == s.producers[t]
    decreases |ms|
  {
    hide Next;
    if ms != [] {
      OthersLeaveIt(s, ms[0], t);
      Untouched(Next(s, ms[0]), ms[1..], t);
    }
  }

  lemma {:induction false} Shifted(s: State, ms: seq<Move>, j: nat)
    requires |s.blocks| == |s.loggers| && ms != [] && AllowedRun(s, ms) && j <= |ms| - 1
    requires AllowedRun(Next(s, ms[0]), ms[1..][..j])
    ensures AllowedRun(s, ms[..j + 1]) && Run(s, ms[..j + 1]) == Run(Next(s, ms[0]), ms[1..][..j])
  {
    hide Next;
    assert ms[..j + 1][1..] == ms[1..][..j];
  }
}
