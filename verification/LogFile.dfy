/** How the log thread chooses, rolls and fills a logger's files (openLogger and run,
    src/libs/log4z.cpp), over a disk that maps file names to lengths. */
module LogFile {
  import opened LogRecord

  const WORD := 0x1_0000_0000
  const MEGABYTE := 1024 * 1024
  const LONGEST := LOG_BUF_SIZE - 1

  function Wrap32(n: nat): (r: nat)
    ensures r < WORD
  {
    n % WORD
  }

  /** What a file name says: a stem from path, month folder and logger name, then the day and
      minute of the record that opened it and the rolling index. Stems of different settings may
      coincide. */
  datatype File = File(stem: string, day: int, minute: nat, index: nat)

  datatype Settings = Settings(enable: bool, outfile: bool, monthdir: bool, level: int, limit: nat,
                               path: string, name: string)

  datatype Handle = Closed | Open(file: File)

  datatype World = World(rules: Settings, handle: Handle, createDay: int, index: nat, writeLen: nat,
                         disk: map<File, nat>)

  datatype Change =
    | Enable(on: bool) | Outfile(on: bool) | Monthdir(on: bool) | Level(level: int)
    | Limit(limit: nat) | Path(path: string) | Name(name: string) | Elsewhere

  /** What the log thread meets: a record (whether its file opens, and how much of it fwrite takes,
      being decided by the disk), a hot change, or the rest between two rounds. */
  datatype Event =
    | Write(time: int, level: int, len: nat, opens: bool, wrote: nat)
    | Hot(change: Change)
    | Rest

  /** The calendar, and how settings and day make up the stem of a file name. */
  datatype Naming = Naming(zone: Zone, stem: (Settings, int) -> string)

  function Threshold(limit: nat): nat {
    Wrap32(limit * MEGABYTE)
  }

  function Size(disk: map<File, nat>, f: File): nat {
    if f in disk then disk[f] else 0
  }

  function SameDay(w: World, time: int): bool {
    time >= w.createDay && time - w.createDay < DAY
  }

  function NeedsChange(w: World): bool {
    w.writeLen > Threshold(w.rules.limit)
  }

  /** The part of openLogger before the file is opened: the index, and the handle given up. */
  function Rolled(w: World, time: int): World {
    if !SameDay(w, time) then w.(index := 0, handle := Closed)
    else if NeedsChange(w) then w.(index := w.index + 1, handle := Closed)
    else w
  }

  function FileFor(n: Naming, w: World, time: int): File {
    var day := DayOf(n.zone, time);
    File(n.stem(w.rules, day), day, (time - Midnight(n.zone, day)) / 60, w.index)
  }

  /** The file is opened for appending, so its length so far counts. */
  function Opened(n: Naming, w: World, time: int, opens: bool): World {
    if w.handle.Open? then w
    else
      var v := w.(createDay := Midnight(n.zone, DayOf(n.zone, time)), writeLen := 0);
      var f := FileFor(n, w, time);
      if opens then
        v.(handle := Open(f), writeLen := Wrap32(Size(w.disk, f)), disk := w.disk[f := Size(w.disk, f)])
      else v.(rules := w.rules.(outfile := false))
  }

  predicate Passes(w: World, level: int) {
    w.rules.enable && w.rules.outfile && level >= w.rules.level
  }

  /** A short write closes the handle, yet the whole record is counted. */
  function Filled(w: World, len: nat, wrote: nat): World
    requires w.handle.Open?
  {
    var f := w.handle.file;
    w.(handle := if wrote < len then Closed else w.handle, writeLen := Wrap32(w.writeLen + len),
       disk := w.disk[f := Size(w.disk, f) + wrote])
  }

  function WriteStep(n: Naming, w: World, e: Event): World
    requires e.Write?
  {
    if !Passes(w, e.level) then w
    else
      var v := Opened(n, Rolled(w, e.time), e.time, e.opens);
      if v.handle.Open? then Filled(v, e.len, e.wrote) else v
  }

  function Changed(s: Settings, c: Change): Settings {
    match c
    case Enable(on) => s.(enable := on)
    case Outfile(on) => s.(outfile := on)
    case Monthdir(on) => s.(monthdir := on)
    case Level(level) => s.(level := level)
    case Limit(limit) => s.(limit := Wrap32(limit))
    case Path(path) => s.(path := path)
    case Name(name) => s.(name := name)
    case Elsewhere => s
  }

  function Step(n: Naming, w: World, e: Event): World {
    match e
    case Write(_, _, _, _, _) => WriteStep(n, w, e)
    case Hot(change) => w.(rules := Changed(w.rules, change), handle := Closed)
    case Rest => if !w.rules.enable then w.(handle := Closed) else w
  }

  function Run(n: Naming, w: World, events: seq<Event>): World {
    if events == [] then w else Step(n, Run(n, w, events[..|events| - 1]), events[|events| - 1])
  }

  function Unopened(rules: Settings): World {
    World(rules, Closed, 0, 0, 0, map[])
  }

  /** What a run may do: records are as long as pushLog makes them, limits stay within a bound in
      bytes, and a record that goes to a file is not from a day before the file's. */
  predicate Allowed(n: Naming, w: World, e: Event, bound: nat) {
    && Threshold(w.rules.limit) <= bound
    && match e
       case Write(time, level, len, _, wrote) =>
         wrote <= len <= LONGEST
         && (Passes(w, level) && w.disk != map[] ==> DayOf(n.zone, time) >= DayOf(n.zone, w.createDay))
       case Hot(change) => change.Limit? ==> Threshold(Wrap32(change.limit)) <= bound
       case Rest => true
  }

  predicate AllowedRun(n: Naming, w: World, events: seq<Event>, bound: nat) {
    events == [] ||
    (var front := events[..|events| - 1];
     AllowedRun(n, w, front, bound) && Allowed(n, Run(n, w, front), events[|events| - 1], bound))
  }

  // The invariant.

  predicate Fits(n: Naming, w: World, bound: nat, f: File, size: nat) {
    var day := DayOf(n.zone, w.createDay);
    && f.day <= day
    && size <= bound + LONGEST
    && (f.day == day ==>
         f.index <= w.index && (f.index == w.index ==> size <= bound || size <= w.writeLen))
  }

  /** The open file is the current one, and at most as long as the length counted. */
  predicate Held(n: Naming, w: World)
    requires w.handle.Open?
  {
    var f := w.handle.file;
    f in w.disk && w.disk[f] <= w.writeLen && f.day == DayOf(n.zone, w.createDay) && f.index == w.index
  }

  /** Files of earlier days and earlier indexes are within the bound and left alone; at the
      current index a file may have passed the limit only if the length counted shows it, and
      then the next record of the day goes to a new one. */
  predicate Inv(n: Naming, w: World, bound: nat) {
    && w.writeLen <= bound + LONGEST
    && Threshold(w.rules.limit) <= bound
    && (w.handle.Open? ==> Held(n, w))
    && (w.disk != map[] ==> w.createDay == Midnight(n.zone, DayOf(n.zone, w.createDay)))
    && forall f | f in w.disk :: Fits(n, w, bound, f, w.disk[f])
  }

  /** Between rolling and opening: no file of the record's day is past the bound at the index the
      record will go to. */
  predicate Calm(w: World, day: int, bound: nat) {
    && (w.handle.Open? ==> w.writeLen <= bound)
    && forall f | f in w.disk ::
         && f.day <= day && w.disk[f] <= bound + LONGEST
         && (f.day == day ==> f.index <= w.index && (f.index == w.index ==> w.disk[f] <= bound))
  }

  lemma {:induction false} SameDayMeans(n: Naming, w: World, time: int)
    requires w.createDay == Midnight(n.zone, DayOf(n.zone, w.createDay))
    ensures SameDay(w, time) <==> DayOf(n.zone, time) == DayOf(n.zone, w.createDay)
  {
  }

  lemma {:induction false} RolledIsCalm(n: Naming, w: World, time: int, bound: nat)
    requires Inv(n, w, bound)
    requires w.disk != map[] ==> DayOf(n.zone, time) >= DayOf(n.zone, w.createDay)
    ensures Calm(Rolled(w, time), DayOf(n.zone, time), bound)
    ensures Rolled(w, time).handle.Open? ==> Rolled(w, time) == w && DayOf(n.zone, time) == DayOf(n.zone, w.createDay)
  {
    var v, day := Rolled(w, time), DayOf(n.zone, time);
    if w.disk != map[] {
      SameDayMeans(n, w, time);
      forall f | f in w.disk
        ensures f.day <= day && w.disk[f] <= bound + LONGEST
        ensures f.day == day ==> f.index <= v.index && (f.index == v.index ==> w.disk[f] <= bound)
      {
        assert Fits(n, w, bound, f, w.disk[f]);
      }
    }
  }

  lemma {:induction false} OpeningKeeps(n: Naming, r: World, time: int, opens: bool, bound: nat)
    requires Calm(r, DayOf(n.zone, time), bound) && Threshold(r.rules.limit) <= bound && bound < WORD
    requires r.handle.Open? ==> Inv(n, r, bound) && DayOf(n.zone, time) == DayOf(n.zone, r.createDay)
    ensures var v := Opened(n, r, time, opens);
      Inv(n, v, bound) && v.writeLen <= bound && Calm(v, DayOf(n.zone, v.createDay), bound)
  {
    if r.handle.Closed? {
      var v, day, f := Opened(n, r, time, opens), DayOf(n.zone, time), FileFor(n, r, time);
      MidnightIsOfItsDay(n.zone, day);
      if opens {
        assert v.disk[f] <= bound;
      }
      forall g | g in v.disk ensures Fits(n, v, bound, g, v.disk[g]) {
      }
    }
  }

  lemma {:induction false} MidnightIsOfItsDay(z: Zone, day: int)
    ensures DayOf(z, Midnight(z, day)) == day
  {
  }

  lemma {:induction false} FillingKeeps(n: Naming, v: World, len: nat, wrote: nat, bound: nat)
    requires Inv(n, v, bound) && v.handle.Open? && v.writeLen <= bound
    requires Calm(v, DayOf(n.zone, v.createDay), bound)
    requires wrote <= len <= LONGEST && bound + LONGEST < WORD
    ensures Inv(n, Filled(v, len, wrote), bound)
  {
    var u := Filled(v, len, wrote);
    assert u.writeLen == v.writeLen + len;
    forall f | f in u.disk ensures Fits(n, u, bound, f, u.disk[f]) {
      assert f in v.disk && Fits(n, v, bound, f, v.disk[f]);
    }
  }

  lemma {:induction false} WriteKeeps(n: Naming, w: World, e: Event, bound: nat)
    requires Inv(n, w, bound) && e.Write? && Allowed(n, w, e, bound) && bound + LONGEST < WORD
    ensures Inv(n, WriteStep(n, w, e), bound)
  {
    if Passes(w, e.level) {
      var r := Rolled(w, e.time);
      RolledIsCalm(n, w, e.time, bound);
      OpeningKeeps(n, r, e.time, e.opens, bound);
      var v := Opened(n, r, e.time, e.opens);
      if v.handle.Open? {
        FillingKeeps(n, v, e.len, e.wrote, bound);
      }
    }
  }

  lemma {:induction false} StepKeeps(n: Naming, w: World, e: Event, bound: nat)
    requires Inv(n, w, bound) && Allowed(n, w, e, bound) && bound + LONGEST < WORD
    ensures Inv(n, Step(n, w, e), bound)
  {
    if e.Write? {
      WriteKeeps(n, w, e, bound);
    } else {
      var v := Step(n, w, e);
      forall f | f in v.disk ensures Fits(n, v, bound, f, v.disk[f]) {
        assert Fits(n, w, bound, f, w.disk[f]);
      }
    }
  }

  /** Over any allowed run, however it mixes records, hot changes, failing opens and short writes,
      no file grows past the largest limit in use by more than one record. */
  lemma {:induction false} EveryFileIsBounded(n: Naming, rules: Settings, events: seq<Event>, bound: nat)
    requires AllowedRun(n, Unopened(rules), events, bound) && bound + LONGEST < WORD
    requires Threshold(rules.limit) <= bound
    ensures var w := Run(n, Unopened(rules), events);
      Inv(n, w, bound) && forall f | f in w.disk :: w.disk[f] <= bound + LONGEST
    decreases |events|
  {
    if events != [] {
      var front := events[..|events| - 1];
      EveryFileIsBounded(n, rules, front, bound);
      StepKeeps(n, Run(n, Unopened(rules), front), events[|events| - 1], bound);
    }
    var w := Run(n, Unopened(rules), events);
    forall f | f in w.disk ensures w.disk[f] <= bound + LONGEST {
      assert Fits(n, w, bound, f, w.disk[f]);
    }
  }

  /** In such a run the 32-bit length never wraps: neither when a file is opened nor when a
      record is added. */
  lemma {:induction false} LengthsNeverWrap(n: Naming, w: World, e: Event, bound: nat)
    requires Inv(n, w, bound) && e.Write? && Allowed(n, w, e, bound) && Passes(w, e.level)
    requires bound + LONGEST < WORD
    ensures var (r, v) := (Rolled(w, e.time), Opened(n, Rolled(w, e.time), e.time, e.opens));
      && (r.handle.Closed? ==> Size(w.disk, FileFor(n, r, e.time)) < WORD)
      && v.writeLen + e.len < WORD
  {
    var r := Rolled(w, e.time);
    RolledIsCalm(n, w, e.time, bound);
    OpeningKeeps(n, r, e.time, e.opens, bound);
    if r.handle.Closed? {
      var f := FileFor(n, r, e.time);
      if f in r.disk {
        assert r.disk[f] <= bound + LONGEST;
      }
    }
  }

  /** Only the limit modulo 4096 matters. */
  lemma {:induction false} ThresholdOf(limit: nat)
    ensures Threshold(limit) == (limit % 4096) * MEGABYTE
    ensures Threshold(limit) + LONGEST < WORD
  {
    var q, r := limit / 4096, limit % 4096;
    assert limit * MEGABYTE == q * WORD + r * MEGABYTE;
  }

  /** setLoggerLimitsize(0) stores the largest word, meant as no limit; it limits to 4095 MB. */
  lemma {:induction false} NoLimitIsALimit()
    ensures Threshold(WORD - 1) == 4095 * MEGABYTE
  {
    ThresholdOf(WORD - 1);
  }

  // A fixed limit, and days that never go backwards.

  predicate SteadyEvent(e: Event) {
    match e
    case Write(_, _, len, _, wrote) => wrote <= len <= LONGEST
    case Hot(change) => !change.Limit?
    case Rest => true
  }

  predicate Steady(z: Zone, events: seq<Event>) {
    && (forall i | 0 <= i < |events| :: SteadyEvent(events[i]))
    && (forall i, j | 0 <= i < j < |events| && events[i].Write? && events[j].Write? ::
          DayOf(z, events[i].time) <= DayOf(z, events[j].time))
  }

  /** The day of the current file is the day of a record that came before. */
  lemma {:induction false} CreateDayIsARecords(n: Naming, w: World, events: seq<Event>)
    requires w.disk == map[] && w.handle.Closed?
    ensures var v := Run(n, w, events);
      && (v.disk != map[] ==> exists i | 0 <= i < |events| ::
            events[i].Write? && DayOf(n.zone, events[i].time) == DayOf(n.zone, v.createDay))
      && (v.handle.Open? ==> v.handle.file in v.disk)
  {
    if events != [] {
      var front, e := events[..|events| - 1], events[|events| - 1];
      CreateDayIsARecords(n, w, front);
      var u, v := Run(n, w, front), Run(n, w, events);
      if e.Write? && v.createDay == Midnight(n.zone, DayOf(n.zone, e.time)) {
        MidnightIsOfItsDay(n.zone, DayOf(n.zone, e.time));
        assert events[|events| - 1] == e;
      } else if v.disk != map[] {
        assert u.disk != map[];
        var i :| 0 <= i < |front| && front[i].Write? && DayOf(n.zone, front[i].time) == DayOf(n.zone, u.createDay);
        assert events[i] == front[i];
      }
    }
  }

  lemma {:induction false} SteadyFront(z: Zone, events: seq<Event>, front: seq<Event>, e: Event)
    requires events == front + [e] && Steady(z, events)
    ensures Steady(z, front) && SteadyEvent(e)
    ensures e.Write? ==>
      forall i | 0 <= i < |front| && front[i].Write? :: DayOf(z, front[i].time) <= DayOf(z, e.time)
  {
    assert events[|front|] == e;
    forall i | 0 <= i < |front| ensures events[i] == front[i] && SteadyEvent(front[i]) {
    }
  }

  lemma {:induction false} SteadyStep(n: Naming, w: World, front: seq<Event>, e: Event, limit: nat)
    requires SteadyEvent(e) && w.rules.limit == limit
    requires w.disk != map[] ==> exists i | 0 <= i < |front| ::
               front[i].Write? && DayOf(n.zone, front[i].time) == DayOf(n.zone, w.createDay)
    requires e.Write? ==>
      forall i | 0 <= i < |front| && front[i].Write? :: DayOf(n.zone, front[i].time) <= DayOf(n.zone, e.time)
    ensures Allowed(n, w, e, Threshold(limit)) && Step(n, w, e).rules.limit == limit
  {
  }

  lemma {:induction false} AllowedExtends(n: Naming, w: World, events: seq<Event>, front: seq<Event>, e: Event,
                                          bound: nat)
    requires events == front + [e] && AllowedRun(n, w, front, bound) && Allowed(n, Run(n, w, front), e, bound)
    ensures AllowedRun(n, w, events, bound) && Run(n, w, events) == Step(n, Run(n, w, front), e)
  {
    assert events[..|events| - 1] == front;
  }

  lemma {:induction false} SteadyIsAllowed(n: Naming, rules: Settings, events: seq<Event>)
    requires Steady(n.zone, events)
    ensures AllowedRun(n, Unopened(rules), events, Threshold(rules.limit))
    ensures Run(n, Unopened(rules), events).rules.limit == rules.limit
    decreases |events|
  {
    if events != [] {
      var front, e := events[..|events| - 1], events[|events| - 1];
      SteadyFront(n.zone, events, front, e);
      SteadyIsAllowed(n, rules, front);
      CreateDayIsARecords(n, Unopened(rules), front);
      SteadyStep(n, Run(n, Unopened(rules), front), front, e, rules.limit);
      AllowedExtends(n, Unopened(rules), events, front, e, Threshold(rules.limit));
    }
  }

  /** With the limit fixed at 1 to 4095 megabytes and days that never go backwards, every file
      ends at most 8191 bytes past the limit. */
  lemma {:induction false} SteadyLimit(n: Naming, rules: Settings, events: seq<Event>)
    requires 1 <= rules.limit <= 4095 && Steady(n.zone, events)
    ensures var w := Run(n, Unopened(rules), events);
      forall f | f in w.disk :: w.disk[f] <= rules.limit * MEGABYTE + 8191
  {
    ThresholdOf(rules.limit);
    SteadyIsAllowed(n, rules, events);
    EveryFileIsBounded(n, rules, events, Threshold(rules.limit));
  }

  // Without the condition on days there is no bound: a new day starts again at index 0 without
  // looking at the length of the file it appends to.

  function BackAndForth(k: nat, time: int, level: int): seq<Event> {
    if k == 0 then [] else BackAndForth(k - 1, time, level) + Round(time, level)
  }

  function Round(time: int, level: int): seq<Event> {
    [Write(time, level, 1, true, 1), Write(time + DAY, level, 1, true, 1)]
  }

  /** Records of one byte each, alternating between two days: after k rounds the first day's file
      holds k bytes, whatever the limit. */
  lemma {:induction false} DaysMustNotGoBack(n: Naming, rules: Settings, k: nat, time: int, level: int)
    requires rules.enable && rules.outfile && level >= rules.level
    ensures var w := Run(n, Unopened(rules), BackAndForth(k, time, level));
      AfterRounds(n, w, rules, k, time)
  {
    hide Step, FileFor;
    if k > 0 {
      DaysMustNotGoBack(n, rules, k - 1, time, level);
      var front := BackAndForth(k - 1, time, level);
      var w := Run(n, Unopened(rules), front);
      RunTwo(n, Unopened(rules), front, Round(time, level)[0], Round(time, level)[1]);
      OneRound(n, w, rules, k - 1, time, level);
    }
  }

  predicate AfterRounds(n: Naming, w: World, rules: Settings, k: nat, time: int) {
    && w.rules == rules && Size(w.disk, FileFor(n, Unopened(rules), time)) == k
    && if k == 0 then w == Unopened(rules) else w.createDay == Midnight(n.zone, DayOf(n.zone, time + DAY))
  }

  lemma {:induction false} OneRound(n: Naming, w: World, rules: Settings, k: nat, time: int, level: int)
    requires rules.enable && rules.outfile && level >= rules.level && AfterRounds(n, w, rules, k, time)
    ensures AfterRounds(n, Step(n, Step(n, w, Round(time, level)[0]), Round(time, level)[1]), rules, k + 1, time)
  {
    var day := DayOf(n.zone, time);
    MidnightIsOfItsDay(n.zone, day);
    MidnightIsOfItsDay(n.zone, day + 1);
    assert DayOf(n.zone, time + DAY) == day + 1;
    OtherDay(n, w, Round(time, level)[0]);
    OtherDay(n, Step(n, w, Round(time, level)[0]), Round(time, level)[1]);
  }

  lemma {:induction false} RunTwo(n: Naming, w: World, front: seq<Event>, a: Event, b: Event)
    ensures Run(n, w, front + [a, b]) == Step(n, Step(n, Run(n, w, front), a), b)
  {
    var all := front + [a, b];
    assert all[..|all| - 1] == front + [a];
    assert (front + [a])[..|front|] == front;
  }

  /** A record of another day than the current file's goes to index 0 and adds its length there. */
  lemma {:induction false} OtherDay(n: Naming, w: World, e: Event)
    requires e.Write? && e.opens && e.wrote == e.len && Passes(w, e.level)
    requires w.createDay == Midnight(n.zone, DayOf(n.zone, w.createDay)) || w == Unopened(w.rules)
    requires w != Unopened(w.rules) ==> DayOf(n.zone, e.time) != DayOf(n.zone, w.createDay)
    ensures var (v, f) := (Step(n, w, e), FileFor(n, Unopened(w.rules), e.time));
      && v.rules == w.rules && v.createDay == Midnight(n.zone, DayOf(n.zone, e.time))
      && v.disk == w.disk[f := Size(w.disk, f) + e.len]
  {
    if w != Unopened(w.rules) {
      SameDayMeans(n, w, e.time);
    }
  }

  // The condition on days is sufficient; this is the exact one, record by record.

  /** A record that opens a file opens one within the bound. */
  predicate OpensShort(n: Naming, w: World, e: Event, bound: nat) {
    e.Write? && Passes(w, e.level) ==>
      var r := Rolled(w, e.time); r.handle.Closed? ==> Size(r.disk, FileFor(n, r, e.time)) <= bound
  }

  /** Every file within the bound and a record, and the open one as long as counted. */
  predicate Tame(w: World, bound: nat) {
    && (forall f | f in w.disk :: w.disk[f] <= bound + LONGEST)
    && (w.handle.Open? ==> w.handle.file in w.disk && w.disk[w.handle.file] <= w.writeLen)
  }

  predicate Sized(w: World, e: Event, bound: nat) {
    && Threshold(w.rules.limit) <= bound
    && (e.Write? ==> e.wrote <= e.len <= LONGEST)
  }

  lemma {:induction false} OpenedIsTame(n: Naming, w: World, time: int, opens: bool, bound: nat)
    requires Tame(w, bound) && Threshold(w.rules.limit) <= bound && bound + LONGEST < WORD
    requires var r := Rolled(w, time); r.handle.Closed? ==> Size(r.disk, FileFor(n, r, time)) <= bound
    ensures var v := Opened(n, Rolled(w, time), time, opens);
      Tame(v, bound) && (v.handle.Open? ==> v.writeLen <= bound)
  {
    var r := Rolled(w, time);
    var f := FileFor(n, r, time);
    var v := Opened(n, r, time, opens);
    forall g | g in v.disk ensures v.disk[g] <= bound + LONGEST {
      assert g == f || g in w.disk;
    }
  }

  lemma {:induction false} FilledIsTame(v: World, len: nat, wrote: nat, bound: nat)
    requires Tame(v, bound) && v.handle.Open? && v.writeLen <= bound
    requires wrote <= len <= LONGEST && bound + LONGEST < WORD
    ensures Tame(Filled(v, len, wrote), bound)
  {
    var u := Filled(v, len, wrote);
    assert u.writeLen == v.writeLen + len;
    forall g | g in u.disk ensures u.disk[g] <= bound + LONGEST {
      assert g in v.disk;
    }
  }

  lemma {:induction false} ShortOpeningStaysTame(n: Naming, w: World, e: Event, bound: nat)
    requires Tame(w, bound) && Sized(w, e, bound) && OpensShort(n, w, e, bound) && bound + LONGEST < WORD
    ensures Tame(Step(n, w, e), bound)
  {
    hide Tame, Rolled, Opened, Filled;
    if e.Write? {
      if Passes(w, e.level) {
        OpenedIsTame(n, w, e.time, e.opens, bound);
        var v := Opened(n, Rolled(w, e.time), e.time, e.opens);
        if v.handle.Open? {
          FilledIsTame(v, e.len, e.wrote, bound);
        }
      }
    } else {
      ClosingIsTame(n, w, e, bound);
    }
  }

  lemma {:induction false} ClosingIsTame(n: Naming, w: World, e: Event, bound: nat)
    requires Tame(w, bound) && !e.Write?
    ensures Tame(Step(n, w, e), bound)
  {
  }

  /** Over any run whatever its days: as long as no record opens a file already past the bound, no
      file exceeds it by more than a record. */
  predicate ShortRun(n: Naming, w: World, events: seq<Event>, bound: nat) {
    events == [] ||
    (var (front, e) := (events[..|events| - 1], events[|events| - 1]);
     ShortRun(n, w, front, bound) && Sized(Run(n, w, front), e, bound) && OpensShort(n, Run(n, w, front), e, bound))
  }

  lemma {:induction false} ShortRunsStayTame(n: Naming, w: World, events: seq<Event>, bound: nat)
    requires Tame(w, bound) && ShortRun(n, w, events, bound) && bound + LONGEST < WORD
    ensures Tame(Run(n, w, events), bound)
    decreases |events|
  {
    hide Step, OpensShort, Sized, Tame;
    if events != [] {
      var front, e := events[..|events| - 1], events[|events| - 1];
      ShortRunsStayTame(n, w, front, bound);
      ShortOpeningStaysTame(n, Run(n, w, front), e, bound);
    }
  }

  /** A record is safe in a state, whatever its length, if and only if the file it opens, if it opens
      one, is not yet past the limit: for a record of another day, the index-0 file of that day. */
  lemma {:induction false} SafeIffOpensShort(n: Naming, w: World, time: int, level: int)
    requires Passes(w, level)
    requires var limit := Threshold(w.rules.limit); Tame(w, limit) && limit + LONGEST < WORD
    ensures var limit := Threshold(w.rules.limit);
      (forall len: nat | len <= LONGEST :: Tame(Step(n, w, Write(time, level, len, true, len)), limit))
      <==> OpensShort(n, w, Write(time, level, 0, true, 0), limit)
  {
    var limit := Threshold(w.rules.limit);
    if OpensShort(n, w, Write(time, level, 0, true, 0), limit) {
      forall len: nat | len <= LONGEST ensures Tame(Step(n, w, Write(time, level, len, true, len)), limit) {
        ShortOpeningStaysTame(n, w, Write(time, level, len, true, len), limit);
      }
    } else {
      var r := Rolled(w, time);
      var f, v := FileFor(n, r, time), Step(n, w, Write(time, level, LONGEST, true, LONGEST));
      assert v.disk[f] == Size(r.disk, f) + LONGEST;
      assert !Tame(v, limit);
    }
  }

  lemma {:induction false} OtherDayOpensIndexZero(n: Naming, w: World, time: int)
    requires !SameDay(w, time)
    ensures var r := Rolled(w, time); r.handle.Closed? && r.index == 0 && FileFor(n, r, time).index == 0
  {
  }

  /** One logger as the log thread works on it. The disk is shared with nothing else. */
  class FileLogger {
    var rules: Settings
    var handle: Handle
    var createDay: int
    var index: nat
    var writeLen: nat
    var disk: map<File, nat>

    ghost function State(): World
      reads this
    {
      World(rules, handle, createDay, index, writeLen, disk)
    }

    constructor (rules: Settings)
      ensures State() == Unopened(rules)
    {
      this.rules, handle, createDay, index, writeLen, disk := rules, Closed, 0, 0, 0, map[];
    }

    method OpenLogger(n: Naming, time: int, level: int, opens: bool) returns (ok: bool)
      modifies this
      ensures State() == if old(Passes(State(), level))
                         then Opened(n, Rolled(old(State()), time), time, opens) else old(State())
      ensures ok <==> old(Passes(State(), level)) && handle.Open?
      ensures old(handle.Open? && createDay <= time < createDay + 24 * 60 * 60) ==>
        old(writeLen <= (rules.limit % 4096) * MEGABYTE) ==> State() == old(State())
      ensures old(rules.enable && rules.outfile && rules.level <= level) ==>
        index == if old(!(createDay <= time < createDay + 24 * 60 * 60)) then 0
                 else if old(writeLen > (rules.limit % 4096) * MEGABYTE) then old(index) + 1 else old(index)
    {
      ThresholdOf(rules.limit);
      if !rules.enable || !rules.outfile || level < rules.level {
        return false;
      }
      var sameDay := time >= createDay && time - createDay < DAY;
      var needChangeFile := writeLen > Wrap32(rules.limit * MEGABYTE);
      if !sameDay || needChangeFile {
        if !sameDay {
          index := 0;
        } else {
          index := index + 1;
        }
        if handle.Open? {
          handle := Closed;
        }
      }
      if handle.Closed? {
        writeLen := 0;
        var day := DayOf(n.zone, time);
        createDay := Midnight(n.zone, day);
        if !opens {
          rules := rules.(outfile := false);
          return false;
        }
        var f := File(n.stem(rules, day), day, (time - createDay) / 60, index);
        var curLen := if f in disk then disk[f] else 0;
        handle, disk := Open(f), disk[f := curLen];
        writeLen := Wrap32(curLen);
      }
      return true;
    }

    /** run: the second filter, then the file if the logger writes to one. */
    method WriteRecord(n: Naming, time: int, level: int, len: nat, opens: bool, wrote: nat)
      requires wrote <= len
      modifies this
      ensures State() == Step(n, old(State()), Write(time, level, len, opens, wrote))
    {
      if !rules.enable || level < rules.level {
        return;
      }
      if rules.outfile {
        var ok := OpenLogger(n, time, level, opens);
        if !ok {
          return;
        }
        var f := handle.file;
        disk := disk[f := (if f in disk then disk[f] else 0) + wrote];
        if wrote < len {
          handle := Closed;
        }
        writeLen := Wrap32(writeLen + len);
      }
    }

    /** onHotChange, after which the log thread closes the file whatever was changed. */
    method HotChange(n: Naming, change: Change)
      modifies this
      ensures State() == Step(n, old(State()), Hot(change))
    {
      match change {
        case Enable(on) => rules := rules.(enable := on);
        case Outfile(on) => rules := rules.(outfile := on);
        case Monthdir(on) => rules := rules.(monthdir := on);
        case Level(level) => rules := rules.(level := level);
        case Limit(limit) => rules := rules.(limit := Wrap32(limit));
        case Path(path) => rules := rules.(path := path);
        case Name(name) => rules := rules.(name := name);
        case Elsewhere =>
      }
      handle := Closed;
    }

    /** The end of a round of the log thread. */
    method EndRound(n: Naming)
      modifies this
      ensures State() == Step(n, old(State()), Rest)
    {
      if !rules.enable && handle.Open? {
        handle := Closed;
      }
    }
  }
}
