/** A log record (makeLogData and pushLog, src/libs/log4z.cpp): the day its stamp shows, taken
    from a per-thread cache, and the end put behind its message inside one fixed buffer. The zone
    has a fixed offset and days of 24 hours; the calendar is any function from days to dates. */
module LogRecord {
  import opened Bytes
  import opened LogStream

  const DAY := 86400
  const LOG_BUF_SIZE := 8192

  /** As printed: tm_year + 1900, tm_mon + 1, tm_mday. */
  datatype Date = Date(year: nat, month: nat, day: nat)

  datatype Zone = Zone(offset: int, civil: int -> Date)

  /** No date is day zero of its month. */
  ghost predicate Calendar(z: Zone) {
    forall d: int :: z.civil(d).day > 0
  }

  function DayOf(z: Zone, time: int): int {
    (time + z.offset) / DAY
  }

  function Midnight(z: Zone, day: int): int {
    day * DAY - z.offset
  }

  /** What the stamp shows: a date and the seconds since that date began. */
  datatype Shown = Shown(date: Date, sec: nat)

  /** Computed afresh for the record's own time. */
  function Fresh(z: Zone, time: int): (s: Shown)
    ensures s.sec < DAY
  {
    Shown(z.civil(DayOf(z, time)), time - Midnight(z, DayOf(z, time)))
  }

  /** The cached date and its first second; a new thread starts with both zeroed. */
  datatype Cache = Cache(date: Date, start: int)

  const EMPTY := Cache(Date(1900, 1, 0), 0)

  function Refreshed(z: Zone, c: Cache, time: int): (r: Cache)
    ensures r.start <= time < r.start + DAY
  {
    if time < c.start || time >= c.start + DAY then
      Cache(z.civil(DayOf(z, time)), Midnight(z, DayOf(z, time)))
    else c
  }

  function ShownBy(z: Zone, c: Cache, time: int): Shown {
    var r := Refreshed(z, c, time);
    Shown(r.date, time - r.start)
  }

  /** The cache after a thread has stamped records with these times. */
  function After(z: Zone, times: seq<int>): Cache {
    if times == [] then EMPTY
    else Refreshed(z, After(z, times[..|times| - 1]), times[|times| - 1])
  }

  /** The cache is untouched, or holds one whole day of the zone. */
  predicate Whole(z: Zone, c: Cache) {
    var d := DayOf(z, c.start);
    c == Cache(z.civil(d), Midnight(z, d))
  }

  predicate FirstDay(time: int) {
    0 <= time < DAY
  }

  lemma {:induction false} CacheHolds(z: Zone, times: seq<int>)
    requires Calendar(z)
    ensures if forall i | 0 <= i < |times| :: FirstDay(times[i]) then After(z, times) == EMPTY
            else Whole(z, After(z, times))
  {
    if times != [] {
      var front := times[..|times| - 1];
      CacheHolds(z, front);
    }
  }

  /** The cached stamp of a record equals the one computed afresh, whatever the order of times,
      exactly when the thread has by then seen a time outside the first day of the epoch. Until
      then it shows day zero of January 1900. */
  lemma {:induction false} StampIsFreshIff(z: Zone, earlier: seq<int>, time: int)
    requires Calendar(z)
    ensures ShownBy(z, After(z, earlier), time) == Fresh(z, time)
        <==> !FirstDay(time) || exists i | 0 <= i < |earlier| :: !FirstDay(earlier[i])
  {
    CacheHolds(z, earlier);
    var c := After(z, earlier);
    if forall i | 0 <= i < |earlier| :: FirstDay(earlier[i]) {
      assert c == EMPTY && EMPTY.date.day == 0;
    } else {
      var d := DayOf(z, c.start);
      if c.start <= time < c.start + DAY {
        assert DayOf(z, time) == d;
      }
    }
  }

  /** The day cache each thread keeps: g_tt and g_curDayTime. */
  class DayCache {
    var date: Date
    var start: int

    ghost function Value(): Cache
      reads this
    {
      Cache(date, start)
    }

    constructor ()
      ensures Value() == EMPTY
    {
      date, start := EMPTY.date, EMPTY.start;
    }

    /** Refreshes the cache if the time is outside the cached day; the seconds since midnight. */
    method Look(z: Zone, time: int) returns (sec: nat)
      modifies this
      ensures Value() == Refreshed(z, old(Value()), time)
      ensures Shown(date, sec) == ShownBy(z, old(Value()), time) && sec < DAY
    {
      if time < start || time >= start + DAY {
        date := z.civil(DayOf(z, time));
        start := Midnight(z, DayOf(z, time));
      }
      sec := time - start;
    }
  }

  // The end of a record.

  predicate Separator(c: char) {
    c == '\\' || c == '/'
  }

  /** The file name at the end of a path. */
  function BaseOf(file: string): (name: string)
    ensures |name| <= |file|
  {
    if file == "" || Separator(file[|file| - 1]) then ""
    else BaseOf(file[..|file| - 1]) + [file[|file| - 1]]
  }

  /** It is the longest end of the path without a separator of either kind. */
  lemma {:induction false} BaseIsLongestPlainEnd(file: string)
    ensures var name := BaseOf(file);
      && name == file[|file| - |name|..] && '/' !in name && '\\' !in name
      && (|name| < |file| ==> file[|file| - |name| - 1] == '/' || file[|file| - |name| - 1] == '\\')
    decreases |file|
  {
    if file != "" && !Separator(file[|file| - 1]) {
      BaseIsLongestPlainEnd(file[..|file| - 1]);
    }
  }

  /** The backward scan for it. */
  method BaseName(file: string) returns (name: string)
    ensures name == BaseOf(file)
  {
    var begin: nat := |file|;
    assert file[..begin] == file;
    while true
      invariant begin <= |file| && BaseOf(file) == BaseOf(file[..begin]) + file[begin..]
      decreases begin
    {
      if begin == 0 || Separator(file[begin - 1]) {
        break;
      }
      begin := begin - 1;
      assert file[..begin + 1][..begin] == file[..begin];
      assert file[begin..] == [file[begin]] + file[begin + 1..];
    }
    name := file[begin..];
  }

  /** What pushLog appends to say where a record came from, with this much room left. */
  function Place(name: string, line: nat, room: nat): string {
    var blank := if room > 1 then " " else "";
    var left := room - |blank|;
    var kept := Cut(name, left);
    var colon := if left - |kept| > 1 then ":" else "";
    blank + (kept + (colon + if left - |kept| - |colon| > SCRATCH then Numeral(line, 10) else ""))
  }

  function Cut(s: string, n: nat): string {
    if |s| <= n then s else s[..n]
  }

  /** It is a blank, the name, a colon and the line in decimal if and only if more than 64 characters are
      left behind the colon. */
  lemma {:induction false} PlaceInFull(name: string, line: nat, room: nat)
    ensures Place(name, line, room) == " " + name + ":" + Numeral(line, 10) <==> room > |name| + 66
  {
    hide Numeral;
    PrintedNumber(line, 0, 10);
    var whole := " " + name + ":" + Numeral(line, 10);
    if room > |name| + 66 {
      assert Place(name, line, room) == whole;
    } else {
      assert |Place(name, line, room)| <= |name| + 2 < |whole|;
    }
  }

  method PutPlace(ss: TextStream, name: string, line: nat)
    requires ss.Valid() && line < 2 * TWO_63
    modifies ss, ss.buf
    ensures ss.Valid() && ss.Written() == old(ss.Written()) + Place(name, line, old(ss.Room()))
  {
    ghost var w, room := ss.Written(), ss.Room();
    ghost var blank := if room > 1 then " " else "";
    ss.WriteChar(' ');
    ghost var kept := Cut(name, ss.Room());
    ss.WriteString(name);
    ghost var colon := if ss.Room() > 1 then ":" else "";
    ss.WriteChar(':');
    ghost var digits := if ss.Room() > SCRATCH then Numeral(line, 10) else "";
    ss.WriteULongLong(line, 0, 10);
    Nested(w, blank, kept, colon, digits);
  }

  lemma {:induction false} Nested(w: string, a: string, b: string, c: string, d: string)
    ensures w + a + b + c + d == w + (a + (b + (c + d)))
  {
    ConcatAssociates(b, c, d);
    ConcatAssociates(a, b, c + d);
    ConcatAssociates(w, a, b + (c + d));
    ConcatAssociates(w + a, b, c + d);
    ConcatAssociates(w + a + b, c, d);
  }

  /** A record's fixed content buffer. */
  class Record {
    const content: array<char>
    var contentLen: nat

    ghost predicate Valid()
      reads this
    {
      content.Length == LOG_BUF_SIZE && contentLen <= LOG_BUF_SIZE
    }

    ghost function Text(): string
      requires Valid()
      reads this, content
    {
      content[..contentLen]
    }

    constructor ()
      ensures Valid() && contentLen == 0 && fresh(content)
    {
      content, contentLen := new char[LOG_BUF_SIZE], 0;
    }

    /** LOG_STREAM: the message goes behind the stamp, as far as it fits. */
    method Append(message: string)
      requires Valid()
      modifies this, content
      ensures Valid() && Text() == Cut(old(Text()) + message, LOG_BUF_SIZE)
    {
      var ss := new TextStream(content, contentLen, LOG_BUF_SIZE - contentLen);
      ss.WriteString(message);
      contentLen := ss.cur;
    }

    method AppendPlace(file: string, line: nat)
      requires Valid() && line < 2 * TWO_63
      modifies this, content
      ensures Valid() && Text() == old(Text()) + Place(BaseOf(file), line, LOG_BUF_SIZE - old(contentLen))
    {
      var name := BaseName(file);
      var ss := new TextStream(content, contentLen, LOG_BUF_SIZE - contentLen);
      PutPlace(ss, name, line);
      contentLen := ss.cur;
    }

    /** The line end: whatever came before, a record ends with a line feed, keeps a terminator
        inside its buffer and is at most one byte short of it. */
    method Close()
      requires Valid()
      modifies this, content
      ensures Valid() && contentLen < LOG_BUF_SIZE && content[contentLen] == '\0'
      ensures Text() == Cut(old(Text()), LOG_BUF_SIZE - 3) + "\r\n"
    {
      if contentLen + 3 > LOG_BUF_SIZE {
        contentLen := LOG_BUF_SIZE - 3;
      }
      content[contentLen] := '\r';
      content[contentLen + 1] := '\n';
      content[contentLen + 2] := '\0';
      contentLen := contentLen + 2;
    }
  }
}
