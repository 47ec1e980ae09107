/** The log configuration parser (src/libs/log4z.cpp). Text is a string of bytes. */
module LogConfig {

  // Trimming: trimLogConfig.

  const BLANKS := "\r\n\t "

  predicate Bom(s: string) {
    |s| >= 3 && s[0] as int == 0xef && s[1] as int == 0xbb && s[2] as int == 0xbf
  }

  function AfterBom(s: string): string {
    if Bom(s) then s[3..] else s
  }

  function TrimFront(s: string, ignore: string): string {
    if s != "" && s[0] in ignore then TrimFront(s[1..], ignore) else s
  }

  function TrimBack(s: string, ignore: string): string {
    if s != "" && s[|s| - 1] in ignore then TrimBack(s[..|s| - 1], ignore) else s
  }

  function Trimmed(s: string, extra: string): string {
    TrimBack(TrimFront(AfterBom(s), extra + BLANKS), extra + BLANKS)
  }

  method Trim(str: string, extIgnore: string) returns (r: string)
    ensures r == Trimmed(str, extIgnore)
  {
    hide TrimFront, TrimBack;
    if str == "" {
      TrimFrontIs("", extIgnore + BLANKS, 0);
      TrimBackIs("", extIgnore + BLANKS, 0);
      return str;
    }
    var ignore := extIgnore + BLANKS;
    var start := 0;
    if |str| >= 3 && str[0] as int == 0xef && str[1] as int == 0xbb && str[2] as int == 0xbf {
      start := 3;
    }
    var posBegin, posEnd := FindEnds(str, start, ignore);
    ghost var front := str[posBegin..];
    TrimFrontIs(str[start..], ignore, posBegin - start);
    assert AfterBom(str) == str[start..] && str[start..][posBegin - start..] == front;
    if posBegin < posEnd {
      r := str[posBegin..posEnd];
      TrimBackIs(front, ignore, posEnd - posBegin);
      assert r == front[..posEnd - posBegin];
    } else {
      r := "";
      TrimBackIs(front, ignore, 0);
    }
  }

  /** One scan finds both ends: it moves the front over what it may drop and remembers the end of
      the last character to keep. */
  method FindEnds(str: string, start: nat, ignore: string) returns (posBegin: nat, posEnd: nat)
    requires start <= |str|
    ensures start <= posBegin <= |str| && posEnd <= |str|
    ensures forall k | start <= k < posBegin :: str[k] in ignore
    ensures if posBegin < |str| then str[posBegin] !in ignore && posBegin < posEnd && str[posEnd - 1] !in ignore
            else posEnd == 0
    ensures forall k | posBegin <= k < |str| && posEnd <= k :: str[k] in ignore
  {
    posBegin, posEnd := start, 0;
    var i := start;
    while i < |str|
      invariant start <= posBegin <= i <= |str|
      invariant forall k | start <= k < posBegin :: str[k] in ignore
      invariant posBegin < i ==> str[posBegin] !in ignore && posBegin < posEnd <= i && str[posEnd - 1] !in ignore
      invariant posBegin == i ==> posEnd == 0
      invariant forall k | posBegin <= k < i && posEnd <= k :: str[k] in ignore
    {
      var check := Among(str[i], ignore);
      if check {
        if i == posBegin {
          posBegin := posBegin + 1;
        }
      } else {
        posEnd := i + 1;
      }
      i := i + 1;
    }
  }

  method Among(c: char, ignore: string) returns (check: bool)
    ensures check <==> c in ignore
  {
    check := false;
    for j := 0 to |ignore|
      invariant check <==> c in ignore[..j]
    {
      if c == ignore[j] {
        check := true;
      }
    }
    assert ignore[..|ignore|] == ignore;
  }

  lemma {:induction false} TrimFrontIs(s: string, ignore: string, n: nat)
    requires n <= |s| && forall k | 0 <= k < n :: s[k] in ignore
    requires n < |s| ==> s[n] !in ignore
    ensures TrimFront(s, ignore) == s[n..]
    decreases n
  {
    if n > 0 {
      TrimFrontIs(s[1..], ignore, n - 1);
    }
  }

  lemma {:induction false} TrimBackIs(s: string, ignore: string, n: nat)
    requires n <= |s| && forall k | n <= k < |s| :: s[k] in ignore
    requires n > 0 ==> s[n - 1] !in ignore
    ensures TrimBack(s, ignore) == s[..n]
    decreases |s|
  {
    if n < |s| {
      TrimBackIs(s[..|s| - 1], ignore, n);
    }
  }

  predicate AllIn(s: string, ignore: string) {
    forall k | 0 <= k < |s| :: s[k] in ignore
  }

  /** What is left has no blank at either end, and only blanks were dropped. */
  lemma {:induction false} TrimmedIsTheMiddle(s: string, extra: string) returns (front: string, back: string)
    ensures var (r, ignore) := (Trimmed(s, extra), extra + BLANKS);
      && AfterBom(s) == front + r + back && AllIn(front, ignore) && AllIn(back, ignore)
      && (r != "" ==> r[0] !in ignore && r[|r| - 1] !in ignore)
  {
    var ignore := extra + BLANKS;
    front := FrontDropped(AfterBom(s), ignore);
    back := BackDropped(TrimFront(AfterBom(s), ignore), ignore);
    assert AfterBom(s) == front + (Trimmed(s, extra) + back);
  }

  lemma {:induction false} FrontDropped(s: string, ignore: string) returns (front: string)
    ensures s == front + TrimFront(s, ignore) && AllIn(front, ignore)
    ensures var r := TrimFront(s, ignore); r != "" ==> r[0] !in ignore
  {
    if s != "" && s[0] in ignore {
      var rest := FrontDropped(s[1..], ignore);
      front := [s[0]] + rest;
      assert s == [s[0]] + (rest + TrimFront(s[1..], ignore));
    } else {
      front := "";
    }
  }

  lemma {:induction false} BackDropped(s: string, ignore: string) returns (back: string)
    ensures var r := TrimBack(s, ignore);
      s == r + back && AllIn(back, ignore) && (r != "" ==> r[0] == s[0] && r[|r| - 1] !in ignore)
  {
    if s != "" && s[|s| - 1] in ignore {
      var rest := BackDropped(s[..|s| - 1], ignore);
      back := rest + [s[|s| - 1]];
      assert s == (TrimBack(s, ignore) + rest) + [s[|s| - 1]];
    } else {
      back := "";
    }
  }

  // Splitting at the first equals sign: splitPairString.

  function FirstOf(s: string, c: char): (pos: nat)
    ensures pos <= |s| && (pos < |s| ==> s[pos] == c) && c !in s[..pos]
  {
    if s == "" || s[0] == c then 0
    else
      assert s[..FirstOf(s[1..], c) + 1] == [s[0]] + s[1..][..FirstOf(s[1..], c)];
      FirstOf(s[1..], c) + 1
  }

  function SplitPair(s: string): (kv: (string, string))
    ensures '=' !in kv.0
    ensures s == if '=' in s then kv.0 + "=" + kv.1 else kv.0
    ensures '=' !in s ==> kv.1 == ""
  {
    var pos := FirstOf(s, '=');
    if pos == |s| then
      assert s[..pos] == s;
      (s, "")
    else
      (s[..pos], s[pos + 1..])
  }

  function LowerChar(c: char): char {
    if 'A' <= c <= 'Z' then (c as int + 32) as char else c
  }

  function Lower(s: string): string {
    seq(|s|, i requires 0 <= i < |s| => LowerChar(s[i]))
  }

  /** atoi, without its limit to 32 bits. */
  function Atoi(s: string): int {
    if s != "" && (s[0] == ' ' || 9 <= s[0] as int <= 13) then Atoi(s[1..])
    else if s != "" && s[0] == '-' then 0 - Natural(s[1..], 0)
    else if s != "" && s[0] == '+' then Natural(s[1..], 0)
    else Natural(s, 0)
  }

  function Natural(s: string, acc: nat): nat {
    if s != "" && '0' <= s[0] <= '9' then Natural(s[1..], acc * 10 + (s[0] as int - '0' as int)) else acc
  }

  // One line: parseConfigLine.

  const TRACE := 0
  const DEBUG := 1
  const INFO := 2
  const WARN := 3
  const ERROR := 4
  const ALARM := 5
  const FATAL := 6

  datatype LoggerInfo = LoggerInfo(
    key: string, name: string, path: string, level: int, display: bool, outfile: bool, monthdir: bool,
    limitsize: int, enable: bool, fileLine: bool, reserve: int)

  /** A section as it is opened. */
  function NewLogger(key: string): LoggerInfo {
    LoggerInfo(key, key, "./log/", DEBUG, true, true, false, 100, true, true, 0)
  }

  function LevelOf(value: string, was: int): int {
    if value == "trace" || value == "all" then TRACE
    else if value == "debug" then DEBUG
    else if value == "info" then INFO
    else if value == "warn" || value == "warning" then WARN
    else if value == "error" then ERROR
    else if value == "alarm" then ALARM
    else if value == "fatal" then FATAL
    else was
  }

  predicate Switch(value: string) {
    !(value == "false" || value == "0")
  }

  datatype Field =
    | Path | Name | Level | Display | OutFile | MonthDir | LimitSize | FileLine | Enable | Reserve
    | Unknown

  /** Setting names in lower case. */
  function Named(name: string): Field {
    match name
    case "path" => Path
    case "name" => Name
    case "level" => Level
    case "display" => Display
    case "outfile" => OutFile
    case "monthdir" => MonthDir
    case "limitsize" => LimitSize
    case "fileline" => FileLine
    case "enable" => Enable
    case "reserve" => Reserve
    case _ => Unknown
  }

  /** One setting of one logger. */
  function Assigned(li: LoggerInfo, field: Field, value: string): (r: LoggerInfo)
    ensures r.key == li.key
  {
    var low := Lower(value);
    match field
    case Path => li.(path := value)
    case Name => li.(name := value)
    case Level => li.(level := LevelOf(low, li.level))
    case Display => li.(display := Switch(low))
    case OutFile => li.(outfile := Switch(low))
    case MonthDir => li.(monthdir := Switch(low))
    case LimitSize => li.(limitsize := Atoi(low) % 0x1_0000_0000)
    case FileLine => li.(fileLine := Switch(low))
    case Enable => li.(enable := Switch(low))
    case Reserve => li.(reserve := Atoi(low))
    case Unknown => li
  }

  datatype Parsed = Parsed(key: string, info: map<string, LoggerInfo>)

  /** What a line is, once trimmed: nothing, a section header, or a setting. */
  datatype Line = Nothing | Section(key: string) | Setting(field: Field, value: string)

  function Read(line: string): Line {
    var kv := SplitPair(line);
    var first, second := Trimmed(kv.0, ""), Trimmed(kv.1, "");
    if kv.0 == "" || first == "" || first[0] == '#' then Nothing
    else if first[0] == '[' then
      var key := Trimmed(first, "[]");
      Section(if Lower(key) == "main" then "Main" else key)
    else Setting(Named(Lower(Trimmed(first, ""))), Trimmed(second, ""))
  }

  function Applied(p: Parsed, line: Line): Parsed {
    match line
    case Nothing => p
    case Section(key) => Parsed(key, if key in p.info then p.info else p.info[key := NewLogger(key)])
    case Setting(field, value) =>
      if p.key in p.info then p.(info := p.info[p.key := Assigned(p.info[p.key], field, value)]) else p
  }

  function ParseLine(p: Parsed, line: string): Parsed {
    Applied(p, Read(line))
  }

  // A whole configuration: parseConfigFromString.

  predicate Break(c: char) {
    c == '\r' || c == '\n'
  }

  function FirstBreak(s: string): (pos: nat)
    ensures pos <= |s| && (pos < |s| ==> Break(s[pos]))
  {
    if s == "" || Break(s[0]) then 0 else FirstBreak(s[1..]) + 1
  }

  /** The lines between line breaks; CR and LF each end a line. */
  function Lines(s: string): seq<string> {
    var pos := FirstBreak(s);
    if pos == |s| then [s] else [s[..pos]] + Lines(s[pos + 1..])
  }

  function Fold(p: Parsed, lines: seq<string>): Parsed
    decreases |lines|
  {
    if lines == [] then p else Fold(ParseLine(p, lines[0]), lines[1..])
  }

  function Parse(p: Parsed, content: string): Parsed {
    Fold(p, Lines(content))
  }

  lemma {:induction false} OneLine(p: Parsed, line: string)
    ensures Fold(p, [line]) == ParseLine(p, line)
  {
    assert [line][1..] == [];
  }

  /** A line with nothing in front of its equals sign but blanks changes nothing. */
  lemma {:induction false} BlankChangesNothing(p: Parsed, line: string)
    requires Trimmed(SplitPair(line).0, "") == ""
    ensures ParseLine(p, line) == p
  {
  }

  lemma {:induction false} EmptyLine(p: Parsed)
    ensures ParseLine(p, "") == p
  {
    assert SplitPair("").0 == "";
  }

  lemma {:induction false} ParseTurn(p: Parsed, content: string, at: nat, pos: nat)
    requires at <= |content| && pos == at + FirstBreak(content[at..])
    ensures at <= pos <= |content|
    ensures Parse(p, content[at..]) ==
            var q := ParseLine(p, content[at..pos]);
            if pos == |content| then q else Parse(q, content[pos + 1..])
  {
    hide ParseLine;
    var todo := content[at..];
    assert todo[..pos - at] == content[at..pos];
    if pos == |content| {
      assert content[at..pos] == todo;
      OneLine(p, todo);
    } else {
      assert todo[pos - at + 1..] == content[pos + 1..];
      var rest := Lines(content[pos + 1..]);
      assert ([content[at..pos]] + rest)[1..] == rest;
    }
  }

  class ConfigParser {
    var key: string
    var outInfo: map<string, LoggerInfo>

    ghost function Value(): Parsed
      reads this
    {
      Parsed(key, outInfo)
    }

    constructor (outInfo: map<string, LoggerInfo>)
      ensures Value() == Parsed("", outInfo)
    {
      this.key, this.outInfo := "", outInfo;
    }

    method ReadLine(line: string) returns (ok: bool)
      modifies this
      ensures Value() == ParseLine(old(Value()), line)
      ensures ok <==> SplitPair(line).0 != ""
    {
      hide Trimmed, Lower, Named, Assigned;
      var kv := SplitPair(line);
      if kv.0 == "" {
        return false;
      }
      var first := Trim(kv.0, "");
      var second := Trim(kv.1, "");
      if first == "" || first[0] == '#' {
        return true;
      }
      if first[0] == '[' {
        first := Trim(first, "[]");
        key := first;
        if Lower(first) == "main" {
          key := "Main";
        }
        if key !in outInfo {
          outInfo := outInfo[key := NewLogger(key)];
        }
        return true;
      }
      first := Trim(first, "");
      second := Trim(second, "");
      if key !in outInfo {
        return true;
      }
      outInfo := outInfo[key := Assigned(outInfo[key], Named(Lower(first)), second)];
      return true;
    }

    method ReadContent(content: string)
      modifies this
      ensures Value() == Parse(old(Value()), content)
    {
      hide ParseLine;
      EmptyLine(Value());
      OneLine(Value(), "");
      if content == "" {
        return;
      }
      ghost var start := Value();
      var curPos: nat := 0;
      assert content[0..] == content;
      while true
        invariant curPos <= |content| && Parse(Value(), content[curPos..]) == Parse(start, content)
        decreases |content| - curPos
      {
        var pos := FindBreak(content, curPos);
        ParseTurn(Value(), content, curPos, pos);
        var _ := ReadLine(content[curPos..pos]);
        if pos == |content| {
          break;
        }
        curPos := pos + 1;
      }
    }
  }

  method FindBreak(content: string, from: nat) returns (pos: nat)
    requires from <= |content|
    ensures pos == from + FirstBreak(content[from..])
  {
    pos := from;
    while pos < |content|
      invariant from <= pos <= |content|
      invariant from + FirstBreak(content[from..]) == pos + FirstBreak(content[pos..])
    {
      if Break(content[pos]) {
        break;
      }
      pos := pos + 1;
    }
  }

  // What a configuration means does not depend on how its lines are broken.

  lemma {:induction false} BreakBefore(a: string, c: char, b: string)
    requires Break(c)
    ensures FirstBreak(a + [c] + b) == FirstBreak(a)
    decreases |a|
  {
    var s := a + [c] + b;
    if a != "" && !Break(a[0]) {
      assert s[1..] == a[1..] + [c] + b;
      BreakBefore(a[1..], c, b);
    }
  }

  /** A line break separates the lines before it from those after it. */
  lemma {:induction false} LinesOfParts(a: string, c: char, b: string)
    requires Break(c)
    ensures Lines(a + [c] + b) == Lines(a) + Lines(b)
    decreases |a|
  {
    hide Break, FirstBreak;
    var s, pos := a + [c] + b, FirstBreak(a);
    BreakBefore(a, c, b);
    if pos == |a| {
      assert s[..pos] == a && s[pos + 1..] == b;
    } else {
      var rest := a[pos + 1..];
      assert s[..pos] == a[..pos] && s[pos + 1..] == rest + [c] + b;
      LinesOfParts(rest, c, b);
      assert [a[..pos]] + (Lines(rest) + Lines(b)) == [a[..pos]] + Lines(rest) + Lines(b);
    }
  }

  lemma {:induction false} FoldOfParts(p: Parsed, a: seq<string>, b: seq<string>)
    ensures Fold(p, a + b) == Fold(Fold(p, a), b)
    decreases |a|
  {
    hide ParseLine;
    if a == [] {
      assert a + b == b;
    } else {
      assert (a + b)[1..] == a[1..] + b;
      FoldOfParts(ParseLine(p, a[0]), a[1..], b);
    }
  }

  /** So parsing goes on from where the text before the break left off. */
  lemma {:induction false} ParseOfParts(p: Parsed, a: string, c: char, b: string)
    requires Break(c)
    ensures Parse(p, a + [c] + b) == Parse(Parse(p, a), b)
  {
    LinesOfParts(a, c, b);
    FoldOfParts(p, Lines(a), Lines(b));
  }

  lemma {:induction false} NoBreak(s: string)
    requires forall i | 0 <= i < |s| :: !Break(s[i])
    ensures FirstBreak(s) == |s| && Lines(s) == [s]
    decreases |s|
  {
    if s != "" {
      NoBreak(s[1..]);
    }
  }

  /** A text is read line by line: up to the first CR or LF, then from behind it. */
  lemma {:induction false} LineByLine(p: Parsed, line: string, c: char, rest: string)
    requires forall i | 0 <= i < |line| :: line[i] != '\r' && line[i] != '\n'
    ensures Parse(p, line) == ParseLine(p, line)
    ensures c == '\r' || c == '\n' ==> Parse(p, line + [c] + rest) == Parse(ParseLine(p, line), rest)
  {
    hide ParseLine;
    NoBreak(line);
    OneLine(p, line);
    if c == '\r' || c == '\n' {
      ParseOfParts(p, line, c, rest);
    }
  }

  /** A blank line anywhere, of spaces and tabs or of nothing at all, changes nothing. */
  lemma {:induction false} BlankLineAnywhere(p: Parsed, a: string, c: char, blank: string, d: char, b: string)
    requires Break(c) && Break(d) && forall i | 0 <= i < |blank| :: blank[i] in " \t"
    ensures Parse(p, a + [c] + (blank + [d] + b)) == Parse(p, a + [c] + b)
  {
    var q := Parse(p, a);
    ParseOfParts(p, a, c, blank + [d] + b);
    BlankLineFirst(q, blank, d, b);
    ParseOfParts(p, a, c, b);
  }

  /** Also before the first line. */
  lemma {:induction false} BlankLineFirst(p: Parsed, blank: string, d: char, b: string)
    requires Break(d) && forall i | 0 <= i < |blank| :: blank[i] in " \t"
    ensures Parse(p, blank + [d] + b) == Parse(p, b)
  {
    ParseOfParts(p, blank, d, b);
    BlankText(p, blank);
  }

  /** And behind the last. */
  lemma {:induction false} BlankLineLast(p: Parsed, a: string, c: char, blank: string)
    requires Break(c) && forall i | 0 <= i < |blank| :: blank[i] in " \t"
    ensures Parse(p, a + [c] + blank) == Parse(p, a)
  {
    ParseOfParts(p, a, c, blank);
    BlankText(Parse(p, a), blank);
  }

  lemma {:induction false} BlankText(p: Parsed, blank: string)
    requires forall i | 0 <= i < |blank| :: blank[i] in " \t"
    ensures Parse(p, blank) == p
  {
    NoBreak(blank);
    OneLine(p, blank);
    BlankIsTrimmed(blank);
    BlankChangesNothing(p, blank);
  }

  lemma {:induction false} BlankIsTrimmed(blank: string)
    requires forall i | 0 <= i < |blank| :: blank[i] in " \t"
    ensures SplitPair(blank).0 == blank && Trimmed(blank, "") == ""
  {
    var ignore := "" + BLANKS;
    forall i | 0 <= i < |blank| ensures blank[i] in ignore && blank[i] != '=' {
      assert blank[i] in " \t";
    }
    TrimFrontIs(blank, ignore, |blank|);
  }

  /** Every LF written as CR LF. */
  function WithCrLf(s: string): string {
    if s == "" then "" else (if s[0] == '\n' then "\r\n" else [s[0]]) + WithCrLf(s[1..])
  }

  /** Line ends of either kind give the same configuration. */
  lemma {:induction false} LineEndsDoNotMatter(p: Parsed, content: string)
    ensures Parse(p, WithCrLf(content)) == Parse(p, content)
    decreases |content|
  {
    hide Parse, FirstBreak, Break;
    var pos := FirstBreak(content);
    CrLfUpTo(content, pos);
    var a := content[..pos];
    if pos < |content| {
      var c, b := content[pos], content[pos + 1..];
      var q, rest := Parse(p, a), WithCrLf(content[pos + 1..]);
      assert content == a + [c] + b;
      ParseOfParts(p, a, c, b);
      LineEndsDoNotMatter(q, b);
      if c == '\n' {
        assert WithCrLf(content) == a + ['\r'] + ("" + ['\n'] + rest);
        ParseOfParts(p, a, '\r', "" + ['\n'] + rest);
        ParseOfParts(q, "", '\n', rest);
        ParseNothing(q);
      } else {
        assert WithCrLf(content) == a + [c] + rest;
        ParseOfParts(p, a, c, rest);
      }
    } else {
      assert WithCrLf(content) == content;
    }
  }

  lemma {:induction false} ParseNothing(p: Parsed)
    ensures Parse(p, "") == p
  {
    OneLine(p, "");
    EmptyLine(p);
  }

  lemma {:induction false} CrLfUpTo(s: string, pos: nat)
    requires pos == FirstBreak(s)
    ensures WithCrLf(s) == s[..pos] + WithCrLf(s[pos..])
    decreases |s|
  {
    if pos > 0 {
      CrLfUpTo(s[1..], pos - 1);
      assert s[1..][..pos - 1] == s[1..pos] && s[..pos] == [s[0]] + s[1..pos];
      assert s[1..][pos - 1..] == s[pos..];
    }
  }

  // What a parse keeps.

  /** Every entry's key is the one it is filed under. */
  predicate KeysAgree(p: Parsed) {
    forall k | k in p.info :: p.info[k].key == k
  }

  lemma {:induction false} LineKeeps(p: Parsed, line: string)
    requires KeysAgree(p)
    ensures KeysAgree(ParseLine(p, line))
  {
    hide Read, Assigned;
    var read, q := Read(line), ParseLine(p, line);
    forall k | k in q.info ensures q.info[k].key == k {
      if read.Setting? && p.key in p.info && k == p.key {
        assert q.info[k] == Assigned(p.info[k], read.field, read.value);
      }
    }
  }

  lemma {:induction false} ParsingKeeps(p: Parsed, lines: seq<string>)
    requires KeysAgree(p)
    ensures KeysAgree(Fold(p, lines)) && p.info.Keys <= Fold(p, lines).info.Keys
    decreases |lines|
  {
    hide ParseLine;
    if lines != [] {
      LineKeeps(p, lines[0]);
      OnlyTheOpenSection(p, lines[0]);
      ParsingKeeps(ParseLine(p, lines[0]), lines[1..]);
    }
  }

  /** A header opens a section without touching any that exist; any other line leaves the open
      section open and can change no entry but that section's. */
  lemma {:induction false} OnlyTheOpenSection(p: Parsed, line: string)
    ensures var (q, read) := (ParseLine(p, line), Read(line));
      && (forall k | k in p.info && (read.Section? || k != p.key) :: k in q.info && q.info[k] == p.info[k])
      && (if read.Section? then q.key == read.key && q.info.Keys == p.info.Keys + {read.key}
          else q.key == p.key && q.info.Keys == p.info.Keys)
  {
    hide Read, Assigned;
  }

  // A setting changes the field it names and no other.

  datatype Value = Text(text: string) | Number(number: int) | Flag(flag: bool)

  function FieldOf(li: LoggerInfo, field: Field): Value
    requires !field.Unknown?
  {
    match field
    case Path => Text(li.path)
    case Name => Text(li.name)
    case Level => Number(li.level)
    case Display => Flag(li.display)
    case OutFile => Flag(li.outfile)
    case MonthDir => Flag(li.monthdir)
    case LimitSize => Number(li.limitsize)
    case FileLine => Flag(li.fileLine)
    case Enable => Flag(li.enable)
    case Reserve => Number(li.reserve)
  }

  lemma {:induction false} OtherFieldsStay(li: LoggerInfo, field: Field, value: string, other: Field)
    requires !other.Unknown? && other != field
    ensures FieldOf(Assigned(li, field, value), other) == FieldOf(li, other)
  {
    hide Lower, LevelOf, Atoi, Switch;
  }

  /** So the last of several settings of one field decides, except that an unknown level name
      leaves the level as it was. */
  lemma {:induction false} LastSettingDecides(li: LoggerInfo, field: Field, first: string, last: string)
    requires field.Level? ==> LevelOf(Lower(last), TRACE) == LevelOf(Lower(last), FATAL)
    ensures Assigned(Assigned(li, field, first), field, last) == Assigned(li, field, last)
  {
    hide Lower, Atoi, Switch;
  }
}
