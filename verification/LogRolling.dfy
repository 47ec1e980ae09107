/** When a logger's file is kept, when it is left and for which, told in lengths, days and minutes;
    and that a run leaves no file before it is full. */
module LogRolling {
  import opened LogRecord
  import opened LogFile

  /** The record's day, as seconds since the last midnight opened for. */
  predicate Today(w: World, time: int) {
    w.createDay <= time < w.createDay + 24 * 60 * 60
  }

  predicate Full(w: World) {
    w.writeLen > (w.rules.limit % 4096) * 1048576
  }

  /** A logger that is on, writes to files and asks for no higher level. */
  predicate Takes(w: World, level: int) {
    w.rules.enable && w.rules.outfile && w.rules.level <= level
  }

  /** A midnight is the first second of its day, and days have 24 hours. */
  lemma {:induction false} TodayMeans(z: Zone, w: World, time: int)
    requires w.createDay == Midnight(z, DayOf(z, w.createDay))
    ensures Today(w, time) <==> DayOf(z, time) == DayOf(z, w.createDay)
    ensures DayOf(z, time + 24 * 60 * 60) == DayOf(z, time) + 1
    ensures DayOf(z, w.createDay - 1) == DayOf(z, w.createDay) - 1
  {
  }

  /** What a file opened for a record is called. */
  lemma {:induction false} NamedAfterRecord(n: Naming, w: World, time: int)
    ensures var (f, day) := (FileFor(n, w, time), DayOf(n.zone, time));
      && f.stem == n.stem(w.rules, day) && f.day == day && f.index == w.index
      && f.minute < 24 * 60 && 0 <= time - (Midnight(n.zone, day) + 60 * f.minute) < 60
  {
  }

  /** The index of the file a record goes to. */
  function IndexFor(w: World, time: int): nat {
    if !Today(w, time) then 0 else if Full(w) then w.index + 1 else w.index
  }

  /** A record the logger does not take changes nothing; one it takes goes to the open file if and only
      if that is of the day and not full, and else to a file opened for it at the next index, or at 0 on
      another day. Only that file grows, by what was written. If none opens, nothing is written and the
      logger stops writing to files. */
  lemma {:induction false} RecordGoes(n: Naming, w: World, time: int, level: int, len: nat, opens: bool, wrote: nat)
    ensures var (v, g) := (Step(n, w, Write(time, level, len, opens, wrote)),
                           FileFor(n, w.(index := IndexFor(w, time)), time));
      if !Takes(w, level) then v == w
      else if w.handle.Open? && Today(w, time) && !Full(w) then
        && v.rules == w.rules && v.createDay == w.createDay && v.index == w.index
        && v.handle == (if wrote < len then Closed else w.handle)
        && v.writeLen == (w.writeLen + len) % 0x1_0000_0000
        && v.disk == w.disk[w.handle.file := Size(w.disk, w.handle.file) + wrote]
      else
        && v.index == IndexFor(w, time) && v.createDay == Midnight(n.zone, DayOf(n.zone, time))
        && if opens then
             && v.rules == w.rules && v.handle == (if wrote < len then Closed else Open(g))
             && v.writeLen == (Size(w.disk, g) % 0x1_0000_0000 + len) % 0x1_0000_0000
             && v.disk == w.disk[g := Size(w.disk, g) + wrote]
           else
             && v.rules == w.rules.(outfile := false) && v.handle == Closed && v.writeLen == 0 && v.disk == w.disk
  {
    ThresholdOf(w.rules.limit);
  }

  /** A record written whole leaves the open file open, with its index, if and only if it is of the
      file's day and the file is not past its limit. */
  lemma {:induction false} KeptIff(n: Naming, w: World, time: int, level: int, len: nat, opens: bool)
    requires Takes(w, level) && w.handle.Open?
    requires w.handle.file.index == w.index && w.handle.file.day == DayOf(n.zone, w.createDay)
    requires w.createDay == Midnight(n.zone, DayOf(n.zone, w.createDay))
    ensures var (v, same) := (Step(n, w, Write(time, level, len, opens, len)),
                              DayOf(n.zone, time) == DayOf(n.zone, w.createDay));
      && (v.handle == w.handle && v.index == w.index
          <==> same && w.writeLen <= (w.rules.limit % 4096) * MEGABYTE)
      && (same && w.writeLen > (w.rules.limit % 4096) * MEGABYTE ==> v.index == w.index + 1)
      && (!same ==> v.index == 0)
  {
    hide Step;
    RecordGoes(n, w, time, level, len, opens, len);
    TodayMeans(n.zone, w, time);
  }

  // Runs.

  /** A run within one day, without hot changes and short writes. */
  predicate OneDay(z: Zone, day: int, events: seq<Event>) {
    forall i | 0 <= i < |events| ::
      match events[i]
      case Write(time, _, len, _, wrote) => DayOf(z, time) == day && wrote == len
      case Hot(_) => false
      case Rest => true
  }

  /** The open file is counted at no more than its length; without one, nothing is taken. */
  predicate Counted(n: Naming, w: World) {
    && w.createDay == Midnight(n.zone, DayOf(n.zone, w.createDay))
    && if w.handle.Open? then
         && w.handle.file in w.disk && w.writeLen <= w.disk[w.handle.file]
         && w.handle.file.index == w.index && w.handle.file.day == DayOf(n.zone, w.createDay)
       else !w.rules.enable || !w.rules.outfile
  }

  /** A file of that day at that index is past the limit. */
  predicate FullAt(disk: map<File, nat>, day: int, j: nat, limit: nat) {
    exists f | f in disk :: f.day == day && f.index == j && disk[f] > limit
  }

  lemma {:induction false} CountedKept(n: Naming, w: World, e: Event)
    requires Counted(n, w) && OneDay(n.zone, DayOf(n.zone, w.createDay), [e])
    ensures var v := Step(n, w, e);
      && Counted(n, v) && v.createDay == w.createDay && v.rules.limit == w.rules.limit
      && (v.index == w.index
          || (v.index == w.index + 1
              && FullAt(v.disk, DayOf(n.zone, w.createDay), w.index, (w.rules.limit % 4096) * MEGABYTE)))
  {
    assert [e][0] == e;
    if e.Write? {
      hide Step;
      RecordGoes(n, w, e.time, e.level, e.len, e.opens, e.wrote);
      NamedAfterRecord(n, w.(index := IndexFor(w, e.time)), e.time);
      TodayMeans(n.zone, w, e.time);
      if w.handle.Open? && Takes(w, e.level) && Full(w) {
        var v, f := Step(n, w, e), w.handle.file;
        assert f in v.disk && v.disk[f] == w.disk[f];
      }
    }
  }

  /** No file is emptied or removed. */
  lemma {:induction false} LengthsGrow(n: Naming, w: World, e: Event)
    ensures forall f | f in w.disk :: f in Step(n, w, e).disk && Step(n, w, e).disk[f] >= w.disk[f]
  {
  }

  /** Over such a run no file is left before it is past the limit: every index passed over has one. */
  lemma {:induction false} NoFileIsLeftShort(n: Naming, w: World, events: seq<Event>)
    requires Counted(n, w) && OneDay(n.zone, DayOf(n.zone, w.createDay), events)
    ensures var v := Run(n, w, events);
      && Counted(n, v) && v.createDay == w.createDay && v.rules.limit == w.rules.limit && v.index >= w.index
      && forall j | w.index <= j < v.index ::
           FullAt(v.disk, DayOf(n.zone, w.createDay), j, (w.rules.limit % 4096) * MEGABYTE)
    decreases |events|
  {
    if events != [] {
      hide Step, Counted;
      var front, e := events[..|events| - 1], events[|events| - 1];
      NoFileIsLeftShort(n, w, front);
      var u := Run(n, w, front);
      CountedKept(n, u, e);
      LengthsGrow(n, u, e);
      forall j | w.index <= j < u.index
        ensures FullAt(Step(n, u, e).disk, DayOf(n.zone, w.createDay), j, (w.rules.limit % 4096) * MEGABYTE)
      {
        FullStays(u.disk, Step(n, u, e).disk, DayOf(n.zone, w.createDay), j, (w.rules.limit % 4096) * MEGABYTE);
      }
    }
  }

  lemma {:induction false} FullStays(disk: map<File, nat>, later: map<File, nat>, day: int, j: nat, limit: nat)
    requires FullAt(disk, day, j, limit)
    requires forall f | f in disk :: f in later && later[f] >= disk[f]
    ensures FullAt(later, day, j, limit)
  {
    var f :| f in disk && f.day == day && f.index == j && disk[f] > limit;
    assert f in later && later[f] > limit;
  }

  /** A logger that is off or does not write to files, as after an open that failed, writes nothing
      until a hot change turns that on again. */
  lemma {:induction false} SilentUntilTurnedOn(n: Naming, w: World, events: seq<Event>)
    requires !w.rules.enable || !w.rules.outfile
    requires forall i | 0 <= i < |events| :: events[i] != Hot(Enable(true)) && events[i] != Hot(Outfile(true))
    ensures var v := Run(n, w, events); v.disk == w.disk && (!v.rules.enable || !v.rules.outfile)
    decreases |events|
  {
    if events != [] {
      SilentUntilTurnedOn(n, w, events[..|events| - 1]);
    }
  }

  /** A hot change sets its own setting and no other, and closes the file. */
  lemma {:induction false} ChangeSets(n: Naming, w: World, c: Change)
    ensures var (v, s) := (Step(n, w, Hot(c)), w.rules);
      && v == w.(rules := v.rules, handle := Closed)
      && v.rules.enable == (match c case Enable(on) => on case _ => s.enable)
      && v.rules.outfile == (match c case Outfile(on) => on case _ => s.outfile)
      && v.rules.monthdir == (match c case Monthdir(on) => on case _ => s.monthdir)
      && v.rules.level == (match c case Level(level) => level case _ => s.level)
      && v.rules.limit == (match c case Limit(limit) => limit % 0x1_0000_0000 case _ => s.limit)
      && v.rules.path == (match c case Path(path) => path case _ => s.path)
      && v.rules.name == (match c case Name(name) => name case _ => s.name)
  {
  }

  /** Between two rounds the file of a disabled logger, and only that, is closed. */
  lemma {:induction false} RestCloses(n: Naming, w: World)
    ensures var v := Step(n, w, Rest);
      v == w.(handle := v.handle) && v.handle == if w.rules.enable then w.handle else Closed
  {
  }
}
