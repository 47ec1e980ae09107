/** The log manager's methods (src/libs/log4z.cpp) as they run among other threads. At every point
    where the original holds no lock the others may take any number of steps; every locked region
    and every unlocked test is one step of the state machine in LogQueue, so whatever the methods
    do is one of its runs. */
module LogManager {
  import opened LogAlone
  import opened LogQueue
  import opened LogQueueProofs
  import opened LogRuns

  /** A queued record without its history: the address and the content. */
  type Entry = (nat, Want)

  function Plain(items: seq<Item>): (es: seq<Entry>)
    ensures |es| == |items|
    ensures forall i | 0 <= i < |items| :: es[i] == (items[i].ptr, items[i].want)
  {
    seq(|items|, i requires 0 <= i < |items| => (items[i].ptr, items[i].want))
  }

  /** Whether a move is made by this producer thread. */
  predicate By(m: Move, t: nat) {
    match m
    case Start(u, _) => u == t
    case Go(u) => u == t
    case _ => false
  }

  lemma {:induction false} RunSnoc(s: State, ms: seq<Move>, m: Move)
    requires |s.blocks| == |s.loggers| && AllowedRun(s, ms) && Allowed(Run(s, ms), m)
    ensures AllowedRun(s, ms + [m]) && Run(s, ms + [m]) == Next(Run(s, ms), m)
    decreases |ms|
  {
    hide Next, Allowed;
    var all := ms + [m];
    if ms == [] {
      assert all[0] == m && all[1..] == [];
    } else {
      assert all[0] == ms[0] && all[1..] == ms[1..] + [m];
      RunSnoc(Next(s, ms[0]), ms[1..], m);
    }
  }

  /** The machine gets from one state to another by these moves, through these states. */
  ghost predicate Reached(start: State, trace: seq<Move>, past: seq<State>) {
    && |start.blocks| == |start.loggers| && |past| == |trace| + 1
    && forall k | 0 <= k <= |trace| :: ReachedAt(start, trace, past[k], k)
  }

  ghost predicate ReachedAt(start: State, trace: seq<Move>, now: State, k: nat)
    requires |start.blocks| == |start.loggers| && k <= |trace|
  {
    AllowedRun(start, trace[..k]) && now == Run(start, trace[..k])
  }

  lemma {:induction false} ReachedNext(start: State, trace: seq<Move>, past: seq<State>, m: Move)
    requires Reached(start, trace, past)
    requires |past[|trace|].blocks| == |past[|trace|].loggers| && Allowed(past[|trace|], m)
    ensures Reached(start, trace + [m], past + [Next(past[|trace|], m)])
  {
    hide Next, Allowed, Run, AllowedRun;
    var n := |trace|;
    var longer, states := trace + [m], past + [Next(past[n], m)];
    assert ReachedAt(start, trace, past[n], n) && trace[..n] == trace;
    RunSnoc(start, trace, m);
    forall k | 0 <= k <= n + 1 ensures ReachedAt(start, longer, states[k], k) {
      if k <= n {
        assert ReachedAt(start, trace, past[k], k) && longer[..k] == trace[..k];
      } else {
        assert longer[..k] == longer;
      }
    }
  }

  /** What a thread can have seen of a state. */
  datatype Sight =
    | Refusal(id: int, level: int) | Enablement(id: int) | Admission(id: int, level: int)
    | Up | Down | Waiting | Open(id: int) | Shut(id: int, level: int)

  predicate Shows(s: State, x: Sight) {
    match x
    case Refusal(id, level) => Refuses(s, id, level)
    case Enablement(id) => Enabled(s, id)
    case Admission(id, level) => Admits(s, id, level)
    case Up => s.running
    case Down => !s.running
    case Waiting => s.queue.logs != []
    case Open(id) => 0 <= id < |s.loggers| && s.loggers[id].enable
    case Shut(id, level) => 0 <= id < |s.loggers| && (!s.loggers[id].enable || level < s.loggers[id].level)
  }

  /** Some state from this one on showed it. */
  predicate Saw(past: seq<State>, since: int, x: Sight) {
    exists k: nat | since <= k < |past| :: Shows(past[k], x)
  }

  lemma {:induction false} SawBefore(past: seq<State>, longer: seq<State>, since: int, x: Sight)
    requires past <= longer && Saw(past, since, x)
    ensures Saw(longer, since, x)
  {
    var k: nat :| since <= k < |past| && Shows(past[k], x);
    assert longer[k] == past[k];
  }

  /** What each thread has pushed, in order, once another move is made. */
  function Noted(pushed: map<nat, seq<Entry>>, s: State, m: Move): map<nat, seq<Entry>> {
    if m.Go? && m.t < |s.producers| && s.producers[m.t].Push? then
      var item := s.producers[m.t].item;
      pushed[m.t := PushedBy(pushed, m.t) + [(item.ptr, item.want)]]
    else pushed
  }

  function PushedBy(pushed: map<nat, seq<Entry>>, t: nat): seq<Entry> {
    if t in pushed then pushed[t] else []
  }

  lemma {:induction false} SawSince(past: seq<State>, since: int, later: int, x: Sight)
    requires since <= later && Saw(past, later, x)
    ensures Saw(past, since, x)
  {
    var k: nat :| later <= k < |past| && Shows(past[k], x);
  }

  class LogManager {
    var running: bool
    var loggers: seq<Logger>
    var free: seq<nat>
    var nextPtr: nat
    var logs: seq<Entry>
    var cache: seq<Entry>
    var totalPush: nat
    var totalPop: nat
    var writeCount: nat
    var writeBytes: nat

    /** History: where the log thread entered its loop, the moves made since, the states passed
        through, the machine now, and what each thread has pushed. */
    ghost const start: State
    ghost var trace: seq<Move>
    ghost var past: seq<State>
    ghost var machine: State
    ghost var pushed: map<nat, seq<Entry>>

    ghost predicate Valid()
      reads this
    {
      && Reached(start, trace, past) && machine == past[|trace|] && |machine.blocks| == |machine.loggers|
      && running == machine.running && loggers == machine.loggers
      && free == machine.pool.free && nextPtr == machine.pool.nextPtr
      && logs == Plain(machine.queue.logs) && cache == Plain(machine.queue.cache)
      && totalPush == machine.tally.pushed && totalPop == machine.tally.popped
      && writeCount == machine.tally.writes && writeBytes == machine.tally.bytes
    }

    /** Where thread t stands. */
    ghost predicate Stands(t: nat, p: Producer)
      reads this
    {
      t < |machine.producers| && machine.producers[t] == p
    }

    ghost predicate Grown(moves: seq<Move>, states: seq<State>)
      reads this
    {
      moves <= trace && states <= past
    }

    /** A move has been made since the trace had this length. */
    ghost predicate Made(since: nat, m: Move)
      reads this
    {
      exists k: nat | since <= k < |trace| :: trace[k] == m
    }

    /** The log thread has just entered its loop; n other threads and these loggers. */
    constructor (n: nat, loggers: seq<Logger>)
      ensures Valid() && Initial(start) && |start.producers| == n && this.loggers == loggers && trace == []
    {
      running, free, nextPtr, logs, cache := true, [], 0, [], [];
      totalPush, totalPop, writeCount, writeBytes := 0, 0, 0, 0;
      this.loggers := loggers;
      ghost var s := State(true, loggers, Pool([], 0, {}), Queue([], [], [], []), Tally(0, 0, 0, 0, [], 0, 0),
                           seq(n, _ => Ready), Pop, 0, seq(|loggers|, _ => Block(0, Never)));
      start, trace, past, machine, pushed := s, [], [s], s, map[];
    }

    ghost method Step(m: Move)
      requires Reached(start, trace, past) && machine == past[|trace|] && |machine.blocks| == |machine.loggers|
      requires Allowed(machine, m)
      modifies this`trace, this`past, this`machine, this`pushed
      ensures Reached(start, trace, past) && machine == past[|trace|] && |machine.blocks| == |machine.loggers|
      ensures machine == Next(old(machine), m) && trace == old(trace) + [m] && past == old(past) + [machine]
      ensures pushed == Noted(old(pushed), old(machine), m)
    {
      hide Next, Allowed;
      ReachedNext(start, trace, past, m);
      pushed := Noted(pushed, machine, m);
      machine := Next(machine, m);
      trace, past := trace + [m], past + [machine];
    }

    /** Other threads may run here. Nothing is known about them but that they take steps of the
        machine, none of them thread t's. */
    method Others(t: nat)
      requires Valid() && t < |machine.producers|
      modifies this
      ensures Valid() && Grown(old(trace), old(past))
      ensures forall k | |old(trace)| <= k < |trace| :: !By(trace[k], t)
      ensures t < |machine.producers| && machine.producers[t] == old(machine.producers[t])
      ensures |loggers| == |old(loggers)| && PushedBy(pushed, t) == old(PushedBy(pushed, t))
    {
    }

    /** The same for the log thread, which alone takes from the cache and counts what it takes. */
    method Producers()
      requires Valid()
      modifies this
      ensures Valid() && Grown(old(trace), old(past)) && machine.consumer == old(machine.consumer)
      ensures forall k | |old(trace)| <= k < |trace| :: !trace[k].LogThread?
      ensures cache == old(cache) && |loggers| == |old(loggers)| && (running ==> old(running))
      ensures totalPop == old(totalPop) && writeCount == old(writeCount) && writeBytes == old(writeBytes)
    {
    }

    // What a producer calls.

    method MakeLogData(t: nat, w: Want) returns (ptr: nat)
      requires Valid() && Stands(t, PoolTest(w))
      modifies this
      ensures Valid() && Grown(old(trace), old(past)) && Stands(t, Filled(ptr, w)) && |loggers| == |old(loggers)|
      ensures PushedBy(pushed, t) == old(PushedBy(pushed, t))
    {
      hide Reached, Begin, Consume, Apply, Write, Pushed, Deleted;
      Others(t);
      var empty := free == [];
      Step(Go(t));
      var found := false;
      if !empty {
        found, ptr := TakeFree(t, w);
      }
      if !found {
        ptr := NewLogData(t, w);
      }
    }

    method NewLogData(t: nat, w: Want) returns (ptr: nat)
      requires Valid() && Stands(t, Allocate(w))
      modifies this
      ensures Valid() && Grown(old(trace), old(past)) && Stands(t, Filled(ptr, w)) && |loggers| == |old(loggers)|
      ensures PushedBy(pushed, t) == old(PushedBy(pushed, t))
    {
      hide Reached, Begin, Consume, Apply, Write;
      Others(t);
      ptr, nextPtr := nextPtr, nextPtr + 1;
      Step(Go(t));
    }

    /** Under the pool's lock the test is made again. */
    method TakeFree(t: nat, w: Want) returns (found: bool, ptr: nat)
      requires Valid() && Stands(t, PoolPop(w))
      modifies this
      ensures Valid() && Grown(old(trace), old(past)) && |loggers| == |old(loggers)|
      ensures Stands(t, if found then Filled(ptr, w) else Allocate(w))
      ensures PushedBy(pushed, t) == old(PushedBy(pushed, t))
    {
      hide Reached, Begin, Consume, Apply, Write;
      Others(t);
      found, ptr := free != [], 0;
      if found {
        ptr, free := free[|free| - 1], free[..|free| - 1];
      }
      Step(Go(t));
    }

    method FreeLogData(t: nat, ptr: nat)
      requires Valid() && Stands(t, SizeTest(ptr))
      modifies this
      ensures Valid() && Grown(old(trace), old(past)) && Stands(t, Ready)
      ensures PushedBy(pushed, t) == old(PushedBy(pushed, t))
    {
      hide Reached, Begin, Consume, Apply, Write;
      Others(t);
      var small := |free| < POOL_LIMIT;
      Step(Go(t));
      if small {
        Others(t);
        free := free + [ptr];
        Step(Go(t));
      }
    }

    /** A record accepted met a moment when its logger was enabled, and one when its level was enough,
        and is at the end of the queue; one refused met a moment when it had to be, and is given back
        and never pushed. */
    method PushLog(t: nat, ptr: nat, w: Want) returns (ok: bool)
      requires Valid() && w.Log? && Stands(t, EnableTest(Item(ptr, w, 0)))
      modifies this
      ensures Valid() && Grown(old(trace), old(past)) && Stands(t, Ready)
      ensures ok ==> logs != [] && logs[|logs| - 1] == (ptr, w)
      ensures PushedBy(pushed, t) == old(PushedBy(pushed, t)) + if ok then [(ptr, w)] else []
      ensures ok ==> Saw(past, |old(past)| - 1, Enablement(w.id))
      ensures ok ==> Saw(past, |old(past)| - 1, Admission(w.id, w.level))
      ensures !ok ==> Saw(past, |old(past)| - 1, Refusal(w.id, w.level))
    {
      hide Reached, Next, Plain, Saw, Shows;
      var enabled := TestEnabled(t, ptr, w);
      ghost var since, mid, seen := |old(past)| - 1, |past| - 1, past;
      if !enabled {
        FreeLogData(t, ptr);
        SawBefore(seen, past, since, Refusal(w.id, w.level));
        return false;
      }
      ok := PassLevel(t, ptr, w);
      SawBefore(seen, past, since, Enablement(w.id));
      SawSince(past, since, mid, if ok then Admission(w.id, w.level) else Refusal(w.id, w.level));
    }

    /** The first of the two tests. */
    method TestEnabled(t: nat, ptr: nat, w: Want) returns (enabled: bool)
      requires Valid() && w.Log? && Stands(t, EnableTest(Item(ptr, w, 0)))
      modifies this
      ensures Valid() && Grown(old(trace), old(past)) && PushedBy(pushed, t) == old(PushedBy(pushed, t))
      ensures t < |machine.producers|
      ensures if enabled then 0 <= w.id < |loggers| && AtLevelTest(t, ptr, w) else Stands(t, SizeTest(ptr))
      ensures Saw(past, |old(past)| - 1, if enabled then Enablement(w.id) else Refusal(w.id, w.level))
    {
      hide Reached, Begin, Consume, Apply, Write, Plain, Saw;
      Others(t);
      enabled := 0 <= w.id < |loggers| && running && loggers[w.id].enable;
      ghost var since, x := |old(past)| - 1, if enabled then Enablement(w.id) else Refusal(w.id, w.level);
      SeenNow(since, x);
      ghost var seen := past;
      Step(Go(t));
      SawBefore(seen, past, since, x);
    }

    ghost predicate AtLevelTest(t: nat, ptr: nat, w: Want)
      reads this
    {
      && t < |machine.producers| && machine.producers[t].LevelTest?
      && machine.producers[t].item.ptr == ptr && machine.producers[t].item.want == w
    }

    /** The present state shows it. */
    lemma {:induction false} SeenNow(since: int, x: Sight)
      requires Valid() && since < |past| && Shows(machine, x)
      ensures Saw(past, since, x)
    {
      assert past[|trace|] == machine;
    }

    /** The rest of pushLog, once the logger was found enabled. */
    method PassLevel(t: nat, ptr: nat, w: Want) returns (ok: bool)
      requires Valid() && w.Log? && 0 <= w.id < |loggers| && AtLevelTest(t, ptr, w)
      modifies this
      ensures Valid() && Grown(old(trace), old(past)) && Stands(t, Ready)
      ensures ok ==> logs != [] && logs[|logs| - 1] == (ptr, w)
      ensures PushedBy(pushed, t) == old(PushedBy(pushed, t)) + if ok then [(ptr, w)] else []
      ensures Saw(past, |old(past)| - 1, if ok then Admission(w.id, w.level) else Refusal(w.id, w.level))
    {
      hide Reached, Next, Plain, Saw, Shows;
      ok := TestLevel(t, ptr, w);
      ghost var seen := past;
      if ok {
        Append(t, ptr, w);
      } else {
        FreeLogData(t, ptr);
      }
      SawBefore(seen, past, |old(past)| - 1, if ok then Admission(w.id, w.level) else Refusal(w.id, w.level));
    }

    /** The second test. */
    method TestLevel(t: nat, ptr: nat, w: Want) returns (ok: bool)
      requires Valid() && w.Log? && 0 <= w.id < |loggers| && AtLevelTest(t, ptr, w)
      modifies this
      ensures Valid() && Grown(old(trace), old(past)) && PushedBy(pushed, t) == old(PushedBy(pushed, t))
      ensures if ok then AtPush(t, ptr, w) else Stands(t, SizeTest(ptr))
      ensures Saw(past, |old(past)| - 1, if ok then Admission(w.id, w.level) else Refusal(w.id, w.level))
    {
      hide Reached, Begin, Consume, Apply, Write, Plain, Saw;
      Others(t);
      ok := !(w.level < loggers[w.id].level);
      ghost var since, x := |old(past)| - 1, if ok then Admission(w.id, w.level) else Refusal(w.id, w.level);
      SeenNow(since, x);
      ghost var seen := past;
      Step(Go(t));
      SawBefore(seen, past, since, x);
    }

    ghost predicate AtPush(t: nat, ptr: nat, w: Want)
      reads this
    {
      && t < |machine.producers| && machine.producers[t].Push?
      && machine.producers[t].item.ptr == ptr && machine.producers[t].item.want == w
    }

    /** The locked push of a record or a hot change; only records are counted. */
    method Append(t: nat, ptr: nat, w: Want)
      requires Valid() && AtPush(t, ptr, w)
      modifies this
      ensures Valid() && Grown(old(trace), old(past)) && Stands(t, Ready)
      ensures logs != [] && logs[|logs| - 1] == (ptr, w)
      ensures PushedBy(pushed, t) == old(PushedBy(pushed, t)) + [(ptr, w)]
    {
      hide Reached, Begin, Consume, Apply, Write;
      Others(t);
      logs := logs + [(ptr, w)];
      if w.Log? {
        totalPush := totalPush + 1;
      }
      Step(Go(t));
    }

    method OnHotChange(w: Want)
      requires w.Change? && 0 <= w.id < |loggers|
      modifies this`loggers
      ensures |loggers| == |old(loggers)| && forall i | 0 <= i < |loggers| && i != w.id :: loggers[i] == old(loggers[i])
      ensures loggers[w.id] == Logger(if w.kind.Enable? then w.num != 0 else old(loggers[w.id].enable),
                                      if w.kind.Level? then w.num else old(loggers[w.id].level))
    {
      var logger := loggers[w.id];
      if w.kind.Enable? {
        logger := logger.(enable := w.num != 0);
      } else if w.kind.Level? {
        logger := logger.(level := w.num);
      }
      loggers := loggers[w.id := logger];
    }

    /** A hot change is queued like a record if the log thread was running when that was tested, and
        made at once if it was not. */
    method HotChange(t: nat, w: Want) returns (ghost queued: seq<Entry>)
      requires Valid() && w.Change? && 0 <= w.id < |loggers| && Stands(t, HotTest(w))
      modifies this
      ensures Valid() && Grown(old(trace), old(past)) && Stands(t, Ready)
      ensures PushedBy(pushed, t) == old(PushedBy(pushed, t)) + queued
      ensures if queued == [] then Saw(past, |old(past)| - 1, Down) && MadeNow(w)
              else |queued| == 1 && queued[0].1 == w && Saw(past, |old(past)| - 1, Up)
    {
      hide Reached, Next, Plain, Saw, Shows;
      var direct := TestRunning(t, w);
      ghost var seen := past;
      queued := [];
      if !direct {
        queued := Enqueue(t, w);
      }
      SawBefore(seen, past, |old(past)| - 1, if direct then Down else Up);
    }

    /** The unlocked test; when the log thread is not running, the change is made here. */
    method TestRunning(t: nat, w: Want) returns (direct: bool)
      requires Valid() && w.Change? && 0 <= w.id < |loggers| && Stands(t, HotTest(w))
      modifies this
      ensures Valid() && Grown(old(trace), old(past)) && PushedBy(pushed, t) == old(PushedBy(pushed, t))
      ensures if direct then Stands(t, Ready) && MadeNow(w) else Stands(t, PoolTest(w))
      ensures Saw(past, |old(past)| - 1, if direct then Down else Up)
    {
      hide Reached, Begin, Consume, Plain, Saw;
      Others(t);
      direct := !running;
      ghost var since, x := |old(past)| - 1, if direct then Down else Up;
      SeenNow(since, x);
      ghost var seen := past;
      if direct {
        OnHotChange(w);
      }
      Step(Go(t));
      SawBefore(seen, past, since, x);
    }

    /** The logger has what the change says. */
    ghost predicate MadeNow(w: Want)
      requires w.Change?
      reads this
    {
      && 0 <= w.id < |loggers|
      && (w.kind.Enable? ==> loggers[w.id].enable == (w.num != 0))
      && (w.kind.Level? ==> loggers[w.id].level == w.num)
    }

    method Enqueue(t: nat, w: Want) returns (ghost queued: seq<Entry>)
      requires Valid() && w.Change? && Stands(t, PoolTest(w))
      modifies this
      ensures Valid() && Grown(old(trace), old(past)) && Stands(t, Ready)
      ensures PushedBy(pushed, t) == old(PushedBy(pushed, t)) + queued
      ensures |queued| == 1 && queued[0].1 == w
    {
      hide Reached, Begin, Consume, Advance, Next;
      var ptr := MakeLogData(t, w);
      Append(t, ptr, w);
      queued := [(ptr, w)];
    }

    /** Enabling is one step, pushing nothing; disabling is a hot change, queued or made. */
    method EnableLogger(t: nat, id: int, enable: bool) returns (ok: bool, ghost queued: seq<Entry>)
      requires Valid() && Stands(t, Ready)
      modifies this
      ensures Valid() && Grown(old(trace), old(past)) && Stands(t, Ready) && (ok <==> 0 <= id < |old(loggers)|)
      ensures ok ==> Made(|old(trace)|, Start(t, if enable then CallEnable(id) else CallDisable(id)))
      ensures ok && queued == [] ==> id < |loggers| && loggers[id].enable == enable
      ensures ok && !enable ==> Saw(past, |old(past)| - 1, if queued == [] then Down else Up)
      ensures PushedBy(pushed, t) == old(PushedBy(pushed, t)) + queued
      ensures queued == [] || (ok && !enable && |queued| == 1 && queued[0].1 == Change(id, Enable, 0))
    {
      hide Reached, Next, Plain, Saw, Shows;
      ok, queued := 0 <= id < |loggers|, [];
      if !ok {
        return;
      }
      ghost var k := StartEnable(t, id, enable);
      if !enable {
        ghost var mid := |past| - 1;
        queued := HotChange(t, Change(id, Enable, 0));
        SawSince(past, |old(past)| - 1, mid, if queued == [] then Down else Up);
      }
      assert trace[k].Start?;
    }

    method StartEnable(t: nat, id: int, enable: bool) returns (ghost k: nat)
      requires Valid() && Stands(t, Ready) && 0 <= id < |loggers|
      modifies this
      ensures Valid() && Grown(old(trace), old(past)) && PushedBy(pushed, t) == old(PushedBy(pushed, t))
      ensures |old(trace)| <= k < |trace| && trace[k] == Start(t, if enable then CallEnable(id) else CallDisable(id))
      ensures |loggers| == |old(loggers)| && Stands(t, if enable then Ready else HotTest(Change(id, Enable, 0)))
      ensures enable ==> loggers[id].enable
    {
      hide Reached, Advance, Consume, Plain;
      Others(t);
      k := |trace|;
      if enable {
        loggers := loggers[id := loggers[id].(enable := true)];
      }
      Step(Start(t, if enable then CallEnable(id) else CallDisable(id)));
    }

    /** The comparison and the store are two steps; others may run between them. */
    method SetLoggerLevel(t: nat, id: int, level: int) returns (ok: bool, ghost queued: seq<Entry>)
      requires Valid() && Stands(t, Ready)
      modifies this
      ensures Valid() && Grown(old(trace), old(past)) && Stands(t, Ready) && (ok <==> 0 <= id < |old(loggers)|)
      ensures ok ==> Made(|old(trace)|, Start(t, CallLevel(id, level)))
      ensures ok && queued == [] ==> id < |loggers| && loggers[id].level == level
      ensures PushedBy(pushed, t) == old(PushedBy(pushed, t)) + queued
      ensures queued == [] || (ok && |queued| == 1 && queued[0].1 == Change(id, Level, level))
    {
      hide Reached, Next, Plain, Saw, Shows;
      ok, queued := 0 <= id < |loggers|, [];
      if !ok {
        return;
      }
      ghost var k;
      var lower;
      lower, k := CompareLevel(t, id, level);
      if lower {
        StoreLevel(t, id, level);
      } else {
        queued := HotChange(t, Change(id, Level, level));
      }
      assert trace[k].Start?;
    }

    method CompareLevel(t: nat, id: int, level: int) returns (lower: bool, ghost k: nat)
      requires Valid() && Stands(t, Ready) && 0 <= id < |loggers|
      modifies this
      ensures Valid() && Grown(old(trace), old(past)) && PushedBy(pushed, t) == old(PushedBy(pushed, t))
      ensures |old(trace)| <= k < |trace| && trace[k] == Start(t, CallLevel(id, level))
      ensures |loggers| == |old(loggers)| && lower == (level <= loggers[id].level)
      ensures Stands(t, if lower then Producer.StoreLevel(id, level) else HotTest(Change(id, Level, level)))
    {
      hide Reached, Advance, Consume, Plain;
      Others(t);
      k := |trace|;
      lower := level <= loggers[id].level;
      Step(Start(t, CallLevel(id, level)));
    }

    method StoreLevel(t: nat, id: int, level: int)
      requires Valid() && Stands(t, Producer.StoreLevel(id, level)) && 0 <= id < |loggers|
      modifies this
      ensures Valid() && Grown(old(trace), old(past)) && Stands(t, Ready) && |loggers| == |old(loggers)|
      ensures loggers[id].level == level && PushedBy(pushed, t) == old(PushedBy(pushed, t))
    {
      hide Reached, Consume, Apply, Begin;
      Others(t);
      loggers := loggers[id := loggers[id].(level := level)];
      Step(Go(t));
    }

    method Stop()
      requires Valid()
      modifies this
      ensures Valid() && Grown(old(trace), old(past)) && !running
    {
      hide Reached, Consume, Apply, Advance, Begin;
      running := false;
      Step(Move.Stop);
    }

    // What the log thread does.

    /** The cache first; when it is empty the queue is taken over whole, if it holds anything. */
    method PopLog() returns (ok: bool, log: Entry)
      requires Valid() && machine.consumer == Pop
      modifies this
      ensures Valid() && Grown(old(trace), old(past)) && |loggers| == |old(loggers)|
      ensures if ok then machine.consumer.Handle? && log == (machine.consumer.item.ptr, machine.consumer.item.want)
              else machine.consumer == StopTest && cache == []
    {
      hide Reached, Advance, Begin, Apply, Write;
      ok, log := true, (0, Log(0, 0, 0));
      if cache == [] {
        ok := TakeOver();
      }
      if ok {
        log, cache := cache[0], cache[1..];
        Step(LogThread(true));
      }
    }

    /** The unlocked test and the swap under the lock, which tests again. */
    method TakeOver() returns (some: bool)
      requires Valid() && machine.consumer == Pop && cache == []
      modifies this
      ensures Valid() && Grown(old(trace), old(past)) && |loggers| == |old(loggers)|
      ensures if some then machine.consumer == Pop && cache != [] else machine.consumer == StopTest && cache == []
    {
      hide Reached, Advance, Begin, Apply, Write;
      Step(LogThread(true));
      Producers();
      var empty := logs == [];
      Step(LogThread(true));
      if empty {
        return false;
      }
      some := SwapQueues();
    }

    method SwapQueues() returns (some: bool)
      requires Valid() && machine.consumer == Swap && cache == []
      modifies this
      ensures Valid() && Grown(old(trace), old(past)) && |loggers| == |old(loggers)|
      ensures if some then machine.consumer == Pop && cache != [] else machine.consumer == StopTest && cache == []
    {
      hide Reached, Advance, Begin, Apply, Write;
      Producers();
      some := logs != [];
      if some {
        cache, logs := logs, cache;
      }
      Step(LogThread(true));
    }

    /** freeLogData as the log thread runs it. */
    method FreePopped(ptr: nat)
      requires Valid() && machine.consumer == CSizeTest(ptr)
      modifies this
      ensures Valid() && Grown(old(trace), old(past)) && machine.consumer == Pop && |loggers| == |old(loggers)|
      ensures totalPop == old(totalPop) && writeCount == old(writeCount) && writeBytes == old(writeBytes)
    {
      hide Reached, Advance, Begin, Apply, Write;
      Producers();
      var small := |free| < POOL_LIMIT;
      Step(LogThread(true));
      if small {
        Producers();
        free := free + [ptr];
        Step(LogThread(true));
      }
    }

    /** One turn of the inner loop of run: a hot change is made; a record is counted, filtered again
        and written, if its file opens. A record written met moments when its logger was enabled and
        its level enough; one not written met a moment when it was not, or its file did not open. */
    method HandleLog(log: Entry, opens: bool) returns (written: bool)
      requires Valid() && machine.consumer.Handle?
      requires log == (machine.consumer.item.ptr, machine.consumer.item.want)
      modifies this
      ensures Valid() && Grown(old(trace), old(past)) && machine.consumer == Pop
      ensures totalPop == old(totalPop) + if Known(log.1) then 1 else 0
      ensures writeCount == old(writeCount) + if written then 1 else 0
      ensures writeBytes == old(writeBytes) + if written && log.1.Log? then log.1.len else 0
      ensures if written then Known(log.1) && opens && Passed(|old(past)| - 1, log.1)
              else !Known(log.1) || !opens || Saw(past, |old(past)| - 1, Shut(log.1.id, log.1.level))
    {
      hide Reached, Next, Saw;
      StartLog(log, opens);
      written := false;
      ghost var since := |past| - 1;
      if log.1.Log? && 0 <= log.1.id < |loggers| {
        written := FilterAndWrite(log, opens);
      }
      ghost var seen := past;
      FreePopped(log.0);
      if written {
        PassedStays(seen, |old(past)| - 1, since, log.1);
      } else if Known(log.1) && opens {
        SawBefore(seen, past, since, Shut(log.1.id, log.1.level));
        SawSince(past, |old(past)| - 1, since, Shut(log.1.id, log.1.level));
      }
    }

    /** A record for a logger there is. */
    predicate Known(w: Want)
      reads this
    {
      w.Log? && 0 <= w.id < |loggers|
    }

    ghost predicate Passed(since: int, w: Want)
      requires w.Log?
      reads this
    {
      Saw(past, since, Open(w.id)) && Saw(past, since, Admission(w.id, w.level))
    }

    lemma {:induction false} PassedStays(before: seq<State>, since: int, later: int, w: Want)
      requires w.Log? && before <= past && since <= later
      requires Saw(before, later, Open(w.id)) && Saw(before, later, Admission(w.id, w.level))
      ensures Passed(since, w)
    {
      hide Saw;
      SawBefore(before, past, later, Open(w.id));
      SawBefore(before, past, later, Admission(w.id, w.level));
      SawSince(past, since, later, Open(w.id));
      SawSince(past, since, later, Admission(w.id, w.level));
    }

    /** A change of a known logger is made; a record for one is counted and goes to the filter. */
    method StartLog(log: Entry, opens: bool)
      requires Valid() && machine.consumer.Handle?
      requires log == (machine.consumer.item.ptr, machine.consumer.item.want)
      modifies this
      ensures Valid() && Grown(old(trace), old(past)) && |loggers| == |old(loggers)|
      ensures machine.consumer
           == if log.1.Log? && 0 <= log.1.id < |loggers| then FilterEnable(old(machine.consumer.item))
              else CSizeTest(log.0)
      ensures totalPop == old(totalPop) + if Known(log.1) then 1 else 0
      ensures writeCount == old(writeCount) && writeBytes == old(writeBytes)
      ensures log.1.Change? && 0 <= log.1.id < |loggers| ==> MadeNow(log.1)
    {
      hide Reached, Advance, Begin;
      var w := log.1;
      Producers();
      if w.Change? && 0 <= w.id < |loggers| {
        OnHotChange(w);
      }
      if w.Log? && 0 <= w.id < |loggers| {
        totalPop := totalPop + 1;
      }
      Step(LogThread(opens));
    }

    method FilterAndWrite(log: Entry, opens: bool) returns (written: bool)
      requires Valid() && machine.consumer.FilterEnable? && Known(log.1)
      requires log == (machine.consumer.item.ptr, machine.consumer.item.want)
      modifies this
      ensures Valid() && Grown(old(trace), old(past)) && machine.consumer == CSizeTest(log.0)
      ensures |loggers| == |old(loggers)| && totalPop == old(totalPop)
      ensures writeCount == old(writeCount) + if written then 1 else 0
      ensures writeBytes == old(writeBytes) + if written then log.1.len else 0
      ensures if written then opens && Passed(|old(past)| - 1, log.1)
              else !opens || Saw(past, |old(past)| - 1, Shut(log.1.id, log.1.level))
    {
      hide Reached, Advance, Begin, Apply, Write, Popped, Saw;
      var w := log.1;
      Producers();
      var enabled := loggers[w.id].enable;
      ghost var since, x := |old(past)| - 1, if enabled then Open(w.id) else Shut(w.id, w.level);
      SeenNow(since, x);
      ghost var seen := past;
      Step(LogThread(opens));
      written := false;
      if enabled {
        ghost var mid := |past| - 1;
        written := LevelAndWrite(log, opens);
        if written {
          SawSince(past, since, mid, Admission(w.id, w.level));
        } else if opens {
          SawSince(past, since, mid, Shut(w.id, w.level));
        }
      }
      SawBefore(seen, past, since, x);
    }

    method LevelAndWrite(log: Entry, opens: bool) returns (written: bool)
      requires Valid() && machine.consumer.FilterLevel? && Known(log.1)
      requires log == (machine.consumer.item.ptr, machine.consumer.item.want)
      modifies this
      ensures Valid() && Grown(old(trace), old(past)) && machine.consumer == CSizeTest(log.0)
      ensures |loggers| == |old(loggers)| && totalPop == old(totalPop)
      ensures writeCount == old(writeCount) + if written then 1 else 0
      ensures writeBytes == old(writeBytes) + if written then log.1.len else 0
      ensures if written then opens && Saw(past, |old(past)| - 1, Admission(log.1.id, log.1.level))
              else !opens || Saw(past, |old(past)| - 1, Shut(log.1.id, log.1.level))
    {
      hide Reached, Advance, Begin, Apply, Write, Popped, Saw;
      var w := log.1;
      Producers();
      var passes := w.level >= loggers[w.id].level;
      ghost var since := |old(past)| - 1;
      ghost var x := if passes then Admission(w.id, w.level) else Shut(w.id, w.level);
      SeenNow(since, x);
      ghost var seen := past;
      Step(LogThread(opens));
      written := passes && opens;
      if passes {
        WriteOut(log, opens);
      }
      SawBefore(seen, past, since, x);
    }

    method WriteOut(log: Entry, opens: bool)
      requires Valid() && machine.consumer.Output? && log.1.Log?
      requires log == (machine.consumer.item.ptr, machine.consumer.item.want)
      modifies this
      ensures Valid() && Grown(old(trace), old(past)) && machine.consumer == CSizeTest(log.0)
      ensures |loggers| == |old(loggers)| && totalPop == old(totalPop)
      ensures writeCount == old(writeCount) + if opens then 1 else 0
      ensures writeBytes == old(writeBytes) + if opens then log.1.len else 0
    {
      hide Reached, Advance, Begin, Apply, Write;
      Producers();
      if opens {
        writeCount, writeBytes := writeCount + 1, writeBytes + log.1.len;
      }
      Step(LogThread(opens));
    }

    /** The end of a round of run: the loop is left only once the manager has been stopped and the
        queue is found empty after that, and not left only if one of the two tests failed. */
    method QuitOrGoOn() returns (done: bool)
      requires Valid() && machine.consumer == StopTest
      modifies this
      ensures Valid() && Grown(old(trace), old(past)) && machine.consumer == if done then Done else Pop
      ensures if done then !running && logs == []
              else Saw(past, |old(past)| - 1, Up) || Saw(past, |old(past)| - 1, Waiting)
    {
      hide Reached, Advance, Begin, Apply, Write, Saw;
      Producers();
      done := !running;
      ghost var since := |old(past)| - 1;
      if !done {
        SeenNow(since, Up);
      }
      ghost var seen := past;
      Step(LogThread(true));
      if done {
        Producers();
        done := logs == [];
        if !done {
          SeenNow(since, Waiting);
        }
        seen := past;
        Step(LogThread(true));
        if !done {
          SawBefore(seen, past, since, Waiting);
        }
      } else {
        SawBefore(seen, past, since, Up);
      }
    }

    /** Whatever the methods and the other threads have done since the log thread entered its loop,
        the books hold: the real queue is what was pushed and not popped, in order, and the pool and
        the counters are within their bounds. */
    lemma {:induction false} BooksHold()
      requires Valid() && Initial(start)
      ensures |machine.queue.poppedAll| <= |machine.queue.pushedAll|
      ensures cache + logs == Plain(machine.queue.pushedAll[|machine.queue.poppedAll|..])
      ensures |free| <= POOL_LIMIT + |machine.producers|
      ensures totalPush
           == totalPop + Records(machine.queue.cache) + Records(machine.queue.logs) + Uncounted(machine.consumer)
      ensures running <==> Move.Stop !in trace
      ensures machine.consumer.Done? ==> !running
      ensures writeCount == |machine.tally.written| && writeBytes == Lengths(machine.tally.written)
    {
      hide Run, AllowedRun;
      assert ReachedAt(start, trace, past[|trace|], |trace|) && trace[..|trace|] == trace;
      RunsKeepBooks(start, trace);
      RunningUntilStopped(start, trace);
      LeavingMeansStopped(start, trace);
      assert cache + logs == Plain(machine.queue.cache + machine.queue.logs);
    }
  }
}
