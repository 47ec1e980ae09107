/** The asynchronous log manager (src/libs/log4z.cpp) as a state machine: any number of producer
    threads and the log thread, one step for every locked region and every unlocked test. */
module LogQueue {

  const POOL_LIMIT := 200

  datatype ChangeKind = Enable | Level | Other

  /** What a thread wants queued: a log record, or a hot change travelling in the same queue. */
  datatype Want =
    | Log(id: int, level: int, len: nat)
    | Change(id: int, kind: ChangeKind, num: int)

  /** A queued LogData: its address, its content, and when its acceptance test began. */
  datatype Item = Item(ptr: nat, want: Want, stamp: nat)

  datatype Logger = Logger(enable: bool, level: int)

  /** Where a producer stands, named after what it is about to do. */
  datatype Producer =
    | Ready
    | HotTest(want: Want)
    | PoolTest(want: Want)
    | PoolPop(want: Want)
    | Allocate(want: Want)
    | EnableTest(item: Item)
    | LevelTest(item: Item)
    | Push(item: Item)
    | SizeTest(ptr: nat)
    | Insert(ptr: nat)
    | StoreLevel(id: int, level: int)

  /** Where the log thread stands. */
  datatype Consumer =
    | Pop
    | LogsTest
    | Swap
    | Handle(item: Item)
    | FilterEnable(item: Item)
    | FilterLevel(item: Item)
    | Output(item: Item)
    | CSizeTest(ptr: nat)
    | CInsert(ptr: nat)
    | StopTest
    | QuitTest
    | Done

  /** Why a logger last became stricter: the hot change popped at some index, a setter that stored
      a level it had compared with an older one, or a change applied directly after a stop. */
  datatype Cause = Never | Hot(index: nat) | StaleStore | Direct

  datatype Block = Block(time: nat, cause: Cause)

  /** The record pool; live and nextPtr are history: the addresses in use, and the next one. */
  datatype Pool = Pool(free: seq<nat>, nextPtr: nat, live: set<nat>)

  /** _logs and _logsCache; pushedAll and poppedAll are history. */
  datatype Queue = Queue(logs: seq<Item>, cache: seq<Item>, pushedAll: seq<Item>, poppedAll: seq<Item>)

  /** The four status counters; what was written, dropped by the second filter, or lost to a file
      that did not open is history. */
  datatype Tally = Tally(pushed: nat, popped: nat, writes: nat, bytes: nat,
                         written: seq<Item>, dropped: nat, failed: nat)

  /** blocks (for each logger, when and why it last became stricter) and clock are history. */
  datatype State = State(
    running: bool, loggers: seq<Logger>, pool: Pool, queue: Queue, tally: Tally,
    producers: seq<Producer>, consumer: Consumer, clock: nat, blocks: seq<Block>)

  /** What a ready producer calls. */
  datatype Call =
    | CallLog(id: int, level: int, len: nat)
    | CallEnable(id: int)
    | CallDisable(id: int)
    | CallLevel(id: int, level: int)
    | CallOther(id: int)

  /** Who moves: a producer starting a call or taking its next step, the log thread (whose file
      may or may not open), or stop(). */
  datatype Move = Start(t: nat, call: Call) | Go(t: nat) | LogThread(opens: bool) | Stop

  predicate KnownId(s: State, id: int) {
    0 <= id < |s.loggers|
  }

  /** A record at this level passes this logger. */
  predicate Passes(l: Logger, level: int) {
    l.enable && level >= l.level
  }

  predicate Allowed(s: State, m: Move) {
    match m
    case Start(t, _) => t < |s.producers| && s.producers[t].Ready?
    case Go(t) => t < |s.producers| && !s.producers[t].Ready?
    case LogThread(_) => !s.consumer.Done?
    case Stop => true
  }

  // ---------------------------------------------------------------- effects shared by several steps

  /** Writing a logger's settings; a write that disables or raises the level is remembered. */
  function Write(s: State, id: int, l: Logger, cause: Cause): (r: State)
    requires KnownId(s, id) && |s.blocks| == |s.loggers|
    ensures |r.blocks| == |r.loggers| == |s.loggers| && |r.producers| == |s.producers|
  {
    var was := s.loggers[id];
    s.(loggers := s.loggers[id := l],
       blocks := if (was.enable && !l.enable) || l.level > was.level
                 then s.blocks[id := Block(s.clock + 1, cause)] else s.blocks)
  }

  /** onHotChange. */
  function Apply(s: State, w: Want, cause: Cause): (r: State)
    requires w.Change? && KnownId(s, w.id) && |s.blocks| == |s.loggers|
    ensures |r.blocks| == |r.loggers| == |s.loggers| && |r.producers| == |s.producers|
  {
    var was := s.loggers[w.id];
    match w.kind
    case Enable => Write(s, w.id, was.(enable := w.num != 0), cause)
    case Level => Write(s, w.id, was.(level := w.num), cause)
    case Other => s
  }

  /** A LogData in hand: hot changes are pushed at once, records are checked first. */
  function Filled(ptr: nat, w: Want): Producer {
    if w.Change? then Push(Item(ptr, w, 0)) else EnableTest(Item(ptr, w, 0))
  }

  function At(s: State, t: nat, p: Producer): State
    requires t < |s.producers|
  {
    s.(producers := s.producers[t := p])
  }

  function Allocated(pool: Pool): Pool {
    pool.(nextPtr := pool.nextPtr + 1, live := pool.live + {pool.nextPtr})
  }

  function Deleted(pool: Pool, ptr: nat): Pool {
    pool.(live := pool.live - {ptr})
  }

  function Inserted(pool: Pool, ptr: nat): Pool {
    pool.(free := pool.free + [ptr])
  }

  function Pushed(q: Queue, item: Item): Queue {
    q.(logs := q.logs + [item], pushedAll := q.pushedAll + [item])
  }

  // ---------------------------------------------------------------- producer steps

  function Begin(s: State, t: nat, c: Call): (r: State)
    requires t < |s.producers| && |s.blocks| == |s.loggers|
    ensures |r.blocks| == |r.loggers| == |s.loggers| && |r.producers| == |s.producers|
  {
    match c
    case CallLog(id, level, len) => At(s, t, PoolTest(Log(id, level, len)))
    case CallEnable(id) =>
      if KnownId(s, id) then Write(s, id, s.loggers[id].(enable := true), Never) else s
    case CallDisable(id) =>
      if KnownId(s, id) then At(s, t, HotTest(Change(id, Enable, 0))) else s
    case CallLevel(id, level) =>
      if !KnownId(s, id) then s
      else if level <= s.loggers[id].level then At(s, t, StoreLevel(id, level))
      else At(s, t, HotTest(Change(id, Level, level)))
    case CallOther(id) =>
      if KnownId(s, id) then At(s, t, HotTest(Change(id, Other, 0))) else s
  }

  function Advance(s: State, t: nat): (r: State)
    requires t < |s.producers| && |s.blocks| == |s.loggers|
    ensures |r.blocks| == |r.loggers| == |s.loggers| && |r.producers| == |s.producers|
  {
    match s.producers[t]
    case Ready => s
    case HotTest(w) =>
      if s.running then At(s, t, PoolTest(w))
      else if w.Change? && KnownId(s, w.id) then Apply(At(s, t, Ready), w, Direct)
      else At(s, t, Ready)
    case PoolTest(w) => At(s, t, if s.pool.free == [] then Allocate(w) else PoolPop(w))
    case PoolPop(w) =>
      if s.pool.free == [] then At(s, t, Allocate(w))
      else
        var last := |s.pool.free| - 1;
        At(s, t, Filled(s.pool.free[last], w)).(pool := s.pool.(free := s.pool.free[..last]))
    case Allocate(w) => At(s, t, Filled(s.pool.nextPtr, w)).(pool := Allocated(s.pool))
    case EnableTest(item) =>
      if KnownId(s, item.want.id) && s.running && s.loggers[item.want.id].enable
      then At(s, t, LevelTest(item.(stamp := s.clock)))
      else At(s, t, SizeTest(item.ptr))
    case LevelTest(item) =>
      if item.want.Log? && KnownId(s, item.want.id) && item.want.level < s.loggers[item.want.id].level
      then At(s, t, SizeTest(item.ptr))
      else At(s, t, Push(item))
    case Push(item) =>
      At(s, t, Ready).(queue := Pushed(s.queue, item),
                       tally := if item.want.Log? then s.tally.(pushed := s.tally.pushed + 1) else s.tally)
    case SizeTest(ptr) =>
      if |s.pool.free| < POOL_LIMIT then At(s, t, Insert(ptr))
      else At(s, t, Ready).(pool := Deleted(s.pool, ptr))
    case Insert(ptr) => At(s, t, Ready).(pool := Inserted(s.pool, ptr))
    case StoreLevel(id, level) =>
      if KnownId(s, id) then Write(At(s, t, Ready), id, s.loggers[id].(level := level), StaleStore)
      else At(s, t, Ready)
  }

  // ---------------------------------------------------------------- the log thread

  function Consume(s: State, opens: bool): (r: State)
    requires |s.blocks| == |s.loggers|
    ensures |r.blocks| == |r.loggers| == |s.loggers| && |r.producers| == |s.producers|
  {
    match s.consumer
    case Pop =>
      if s.queue.cache == [] then s.(consumer := LogsTest)
      else s.(consumer := Handle(s.queue.cache[0]), queue := Popped(s.queue))
    case LogsTest => s.(consumer := if s.queue.logs == [] then StopTest else Swap)
    case Swap =>
      if s.queue.logs == [] then s.(consumer := StopTest)
      else s.(consumer := Pop, queue := s.queue.(cache := s.queue.logs, logs := s.queue.cache))
    case Handle(item) =>
      if !KnownId(s, item.want.id) then s.(consumer := CSizeTest(item.ptr))
      else if item.want.Change? then
        Apply(s, item.want, if s.queue.poppedAll == [] then Never else Hot(|s.queue.poppedAll| - 1))
        .(consumer := CSizeTest(item.ptr))
      else s.(consumer := FilterEnable(item), tally := s.tally.(popped := s.tally.popped + 1))
    case FilterEnable(item) =>
      if KnownId(s, item.want.id) && s.loggers[item.want.id].enable then s.(consumer := FilterLevel(item))
      else s.(consumer := CSizeTest(item.ptr), tally := s.tally.(dropped := s.tally.dropped + 1))
    case FilterLevel(item) =>
      if item.want.Log? && KnownId(s, item.want.id) && item.want.level >= s.loggers[item.want.id].level
      then s.(consumer := Output(item))
      else s.(consumer := CSizeTest(item.ptr), tally := s.tally.(dropped := s.tally.dropped + 1))
    case Output(item) =>
      s.(consumer := CSizeTest(item.ptr),
         tally := if opens && item.want.Log? then WrittenOut(s.tally, item)
                  else s.tally.(failed := s.tally.failed + 1))
    case CSizeTest(ptr) =>
      if |s.pool.free| < POOL_LIMIT then s.(consumer := CInsert(ptr))
      else s.(consumer := Pop, pool := Deleted(s.pool, ptr))
    case CInsert(ptr) => s.(consumer := Pop, pool := Inserted(s.pool, ptr))
    case StopTest => s.(consumer := if s.running then Pop else QuitTest)
    case QuitTest => s.(consumer := if s.queue.logs == [] then Done else Pop)
    case Done => s
  }

  function Popped(q: Queue): Queue
    requires q.cache != []
  {
    q.(cache := q.cache[1..], poppedAll := q.poppedAll + [q.cache[0]])
  }

  function WrittenOut(tally: Tally, item: Item): Tally
    requires item.want.Log?
  {
    tally.(writes := tally.writes + 1, bytes := tally.bytes + item.want.len, written := tally.written + [item])
  }

  /** One step of the whole system. */
  function Next(s: State, m: Move): (r: State)
    requires Allowed(s, m) && |s.blocks| == |s.loggers|
    ensures |r.blocks| == |r.loggers| == |s.loggers| && |r.producers| == |s.producers|
  {
    hide Begin, Advance, Consume;
    var r := match m
      case Start(t, c) => Begin(s, t, c)
      case Go(t) => Advance(s, t)
      case LogThread(opens) => Consume(s, opens)
      case Stop => s.(running := false);
    r.(clock := s.clock + 1)
  }

  /** The log thread has just entered its loop. */
  predicate Initial(s: State) {
    && s.running && s.consumer == Pop && s.clock == 0
    && s.pool == Pool([], 0, {}) && s.queue == Queue([], [], [], []) && s.tally == Tally(0, 0, 0, 0, [], 0, 0)
    && (forall t :: 0 <= t < |s.producers| ==> s.producers[t] == Ready)
    && |s.blocks| == |s.loggers| && forall i :: 0 <= i < |s.blocks| ==> s.blocks[i] == Block(0, Never)
  }

  predicate AllowedRun(s: State, ms: seq<Move>)
    requires |s.blocks| == |s.loggers|
    decreases |ms|
  {
    ms == [] || (Allowed(s, ms[0]) && AllowedRun(Next(s, ms[0]), ms[1..]))
  }

  function Run(s: State, ms: seq<Move>): (r: State)
    requires |s.blocks| == |s.loggers| && AllowedRun(s, ms)
    ensures |r.blocks| == |r.loggers| == |s.loggers| && |r.producers| == |s.producers|
    decreases |ms|
  {
    if ms == [] then s else Run(Next(s, ms[0]), ms[1..])
  }
}
