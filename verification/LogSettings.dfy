/** What a configuration line does, told in its own characters: which level, switch, number or text
    a setting gets, and which section a header opens. */
module LogSettings {
  import opened LogStream
  import opened LogConfig

  const LEVEL_NAMES: seq<(string, int)> := [
    ("trace", 0), ("all", 0), ("debug", 1), ("info", 2), ("warn", 3), ("warning", 3), ("error", 4), ("alarm", 5),
    ("fatal", 6)]

  const SETTING_NAMES: seq<string> := [
    "path", "name", "level", "display", "outfile", "monthdir", "limitsize", "fileline", "enable", "reserve"]

  /** The word, each letter small or capital. */
  predicate AnyCase(s: string, word: string) {
    && |s| == |word|
    && forall i | 0 <= i < |s| :: s[i] == word[i] || ('a' <= word[i] <= 'z' && s[i] as int + 32 == word[i] as int)
  }

  predicate Small(word: string) {
    forall i | 0 <= i < |word| :: !('A' <= word[i] <= 'Z')
  }

  lemma {:induction false} CaseMeans(s: string, word: string)
    requires Small(word)
    ensures AnyCase(s, word) <==> Lower(s) == word
  {
    if AnyCase(s, word) {
      forall i | 0 <= i < |s| ensures Lower(s)[i] == word[i] {
      }
    } else if Lower(s) == word {
      forall i | 0 <= i < |s| ensures LowerChar(s[i]) == word[i] {
        assert Lower(s)[i] == word[i];
      }
    }
  }

  // The layout of a line.

  predicate Blank(s: string) {
    forall i | 0 <= i < |s| :: s[i] in "\r\n\t "
  }

  /** No blank at either end, and no byte order mark in front. */
  predicate Bare(s: string) {
    && (s != "" ==> s[0] !in "\r\n\t " && s[|s| - 1] !in "\r\n\t ")
    && !(|s| >= 3 && s[0] as int == 0xef && s[1] as int == 0xbb && s[2] as int == 0xbf)
  }

  /** Nothing, or the three bytes a file may begin with. */
  predicate Mark(s: string) {
    s == "" || (|s| == 3 && s[0] as int == 0xef && s[1] as int == 0xbb && s[2] as int == 0xbf)
  }

  lemma {:induction false} CoreIsLeft(a: string, core: string, b: string, ignore: string)
    requires AllIn(a, ignore) && AllIn(b, ignore)
    requires core != "" ==> core[0] !in ignore && core[|core| - 1] !in ignore
    ensures TrimBack(TrimFront(a + core + b, ignore), ignore) == core
  {
    hide TrimFront, TrimBack;
    var t := a + core + b;
    if core == "" {
      TrimFrontIs(t, ignore, |t|);
      TrimBackIs("", ignore, 0);
    } else {
      TrimFrontIs(t, ignore, |a|);
      var u := t[|a|..];
      assert u == core + b;
      TrimBackIs(u, ignore, |core|);
      assert u[..|core|] == core;
    }
  }

  lemma {:induction false} CoreIsTrimmed(mark: string, a: string, core: string, b: string)
    requires Mark(mark) && Blank(a) && Blank(b) && Bare(core)
    ensures Trimmed(mark + a + core + b, "") == core
  {
    hide TrimFront, TrimBack;
    MarkDropped(mark, a, core, b);
    assert "" + BLANKS == "\r\n\t ";
    CoreIsLeft(a, core, b, "\r\n\t ");
  }

  lemma {:induction false} MarkDropped(mark: string, a: string, core: string, b: string)
    requires Mark(mark) && Blank(a) && Blank(b) && Bare(core)
    ensures AfterBom(mark + a + core + b) == a + core + b
  {
    var t := a + core + b;
    assert mark + a + core + b == mark + t;
    if mark != "" {
      assert (mark + t)[3..] == t;
    } else {
      assert mark + t == t;
      if a != "" {
        assert t[0] == a[0];
      } else if |t| >= 3 {
        NoMarkInside(core, b);
        assert t == core + b;
      }
    }
  }

  /** Blanks behind a text make no byte order mark in front of it. */
  lemma {:induction false} NoMarkInside(core: string, b: string)
    requires Blank(b) && Bare(core) && |core + b| >= 3
    ensures !Bom(core + b)
  {
    var t := core + b;
    forall i | |core| <= i < |t| ensures t[i] in "\r\n\t " {
      assert t[i] == b[i - |core|];
    }
    assert '\r' as int == 13 && '\n' as int == 10 && '\t' as int == 9 && ' ' as int == 32;
    assert forall i | 0 <= i < |core| :: t[i] == core[i];
  }

  lemma {:induction false} SplitAtEquals(a: string, b: string)
    requires '=' !in a
    ensures SplitPair(a + "=" + b) == (a, b)
  {
    var s := a + "=" + b;
    EqualsAt(a, b);
    assert s[..|a|] == a && s[|a| + 1..] == b;
  }

  lemma {:induction false} EqualsAt(a: string, b: string)
    requires '=' !in a
    ensures FirstOf(a + "=" + b, '=') == |a|
    decreases |a|
  {
    if a != "" {
      assert (a + "=" + b)[1..] == a[1..] + "=" + b;
      assert a[0] in a;
      EqualsAt(a[1..], b);
    }
  }

  /** A line with a setting: blanks may stand around its name and its value. */
  datatype Setting = Setting(mark: string, a: string, name: string, b: string, c: string, value: string, d: string)
  {
    function Text(): string {
      (mark + a + name + b) + "=" + (c + value + d)
    }

    predicate Made() {
      && Mark(mark) && Blank(a) && Blank(b) && Blank(c) && Blank(d) && Bare(name) && Bare(value)
      && name != "" && '=' !in name && name[0] != '#' && name[0] != '['
    }
  }

  lemma {:induction false} BareIsTrimmed(s: string)
    requires Bare(s)
    ensures Trimmed(s, "") == s
  {
    CoreIsTrimmed("", "", s, "");
    assert "" + "" + s + "" == s;
  }

  lemma {:induction false} ValueIsTrimmed(c: string, value: string, d: string)
    requires Blank(c) && Blank(d) && Bare(value)
    ensures Trimmed(c + value + d, "") == value
  {
    hide Trimmed, Blank, Bare;
    CoreIsTrimmed("", c, value, d);
    assert "" + c == c;
  }

  lemma {:induction false} SettingRead(l: Setting)
    requires l.Made()
    ensures Read(l.Text()) == LogConfig.Setting(Named(Lower(l.name)), l.value)
  {
    hide Trimmed, Lower, Named, SplitPair, Bare, Blank, Mark;
    var (a, b) := (l.mark + l.a + l.name + l.b, l.c + l.value + l.d);
    NoEquals(l.mark, l.a, l.name, l.b);
    SplitAtEquals(a, b);
    CoreIsTrimmed(l.mark, l.a, l.name, l.b);
    ValueIsTrimmed(l.c, l.value, l.d);
    BareIsTrimmed(l.name);
    BareIsTrimmed(l.value);
  }

  lemma {:induction false} NoEquals(mark: string, a: string, name: string, b: string)
    requires Mark(mark) && Blank(a) && Blank(b) && '=' !in name
    ensures '=' !in mark + a + name + b
  {
    assert '=' !in "\r\n\t ";
  }

  // Settings.

  /** The open section with another entry. */
  function Entered(p: Parsed, li: LoggerInfo): Parsed {
    p.(info := p.info[p.key := li])
  }

  /** A switch is off for "false", in any case, and for "0"; everything else turns it on. */
  predicate On(value: string) {
    !AnyCase(value, "false") && value != "0"
  }

  lemma {:induction false} SwitchMeans(value: string)
    ensures Switch(Lower(value)) == On(value)
  {
    CaseMeans(value, "false");
    CaseMeans(value, "0");
  }

  lemma {:induction false} NamesMean(name: string)
    ensures forall i | 0 <= i < |SETTING_NAMES| :: AnyCase(name, SETTING_NAMES[i]) <==> Lower(name) == SETTING_NAMES[i]
    ensures Named(Lower(name)).Unknown? <==> forall i | 0 <= i < |SETTING_NAMES| :: !AnyCase(name, SETTING_NAMES[i])
  {
    hide AnyCase, Lower;
    forall i | 0 <= i < |SETTING_NAMES|
      ensures AnyCase(name, SETTING_NAMES[i]) <==> Lower(name) == SETTING_NAMES[i]
    {
      CaseMeans(name, SETTING_NAMES[i]);
    }
    var low := Lower(name);
    assert (forall i | 0 <= i < |SETTING_NAMES| :: low != SETTING_NAMES[i]) <==>
           low != SETTING_NAMES[0] && low != SETTING_NAMES[1] && low != SETTING_NAMES[2] && low != SETTING_NAMES[3]
           && low != SETTING_NAMES[4] && low != SETTING_NAMES[5] && low != SETTING_NAMES[6] && low != SETTING_NAMES[7]
           && low != SETTING_NAMES[8] && low != SETTING_NAMES[9];
  }

  /** Each of the ten names, in any case, reaches its own field of the open section and nothing else;
      any other text reaches nothing, and without an open section nothing is reached. */
  lemma {:induction false} SettingLine(p: Parsed, l: Setting)
    requires l.Made()
    ensures p.key !in p.info ==> ParseLine(p, l.Text()) == p
    ensures (forall i | 0 <= i < |SETTING_NAMES| :: !AnyCase(l.name, SETTING_NAMES[i])) ==> ParseLine(p, l.Text()) == p
    ensures p.key in p.info ==>
      var (q, was, v) := (ParseLine(p, l.Text()), p.info[p.key], l.value);
      && (AnyCase(l.name, "path") ==> q == Entered(p, was.(path := v)))
      && (AnyCase(l.name, "name") ==> q == Entered(p, was.(name := v)))
      && (AnyCase(l.name, "level") ==> q == Entered(p, was.(level := LevelOf(Lower(v), was.level))))
      && (AnyCase(l.name, "display") ==> q == Entered(p, was.(display := On(v))))
      && (AnyCase(l.name, "outfile") ==> q == Entered(p, was.(outfile := On(v))))
      && (AnyCase(l.name, "monthdir") ==> q == Entered(p, was.(monthdir := On(v))))
      && (AnyCase(l.name, "limitsize") ==> q == Entered(p, was.(limitsize := Atoi(Lower(v)) % 0x1_0000_0000)))
      && (AnyCase(l.name, "fileline") ==> q == Entered(p, was.(fileLine := On(v))))
      && (AnyCase(l.name, "enable") ==> q == Entered(p, was.(enable := On(v))))
      && (AnyCase(l.name, "reserve") ==> q == Entered(p, was.(reserve := Atoi(Lower(v)))))
  {
    hide Read, Lower, LevelOf, Atoi, Switch, On, AnyCase;
    SettingRead(l);
    NamesMean(l.name);
    SwitchMeans(l.value);
    NamedTable();
    assert SETTING_NAMES[0] == "path" && SETTING_NAMES[1] == "name" && SETTING_NAMES[2] == "level"
      && SETTING_NAMES[3] == "display" && SETTING_NAMES[4] == "outfile" && SETTING_NAMES[5] == "monthdir"
      && SETTING_NAMES[6] == "limitsize" && SETTING_NAMES[7] == "fileline" && SETTING_NAMES[8] == "enable"
      && SETTING_NAMES[9] == "reserve";
  }

  lemma {:induction false} NamedTable()
    ensures Named("path") == Path && Named("name") == Name && Named("level") == Level && Named("display") == Display
    ensures Named("outfile") == OutFile && Named("monthdir") == MonthDir && Named("limitsize") == LimitSize
    ensures Named("fileline") == FileLine && Named("enable") == Enable && Named("reserve") == Reserve
  {
  }

  /** A level line gives the open section the level of the name, in any case; any other value leaves
      its level as it was. */
  lemma {:induction false} LevelLine(p: Parsed, l: Setting)
    requires l.Made() && AnyCase(l.name, "level") && p.key in p.info
    ensures var (q, was) := (ParseLine(p, l.Text()), p.info[p.key]);
      && (forall i | 0 <= i < |LEVEL_NAMES| && AnyCase(l.value, LEVEL_NAMES[i].0) ::
            q == Entered(p, was.(level := LEVEL_NAMES[i].1)))
      && ((forall i | 0 <= i < |LEVEL_NAMES| :: !AnyCase(l.value, LEVEL_NAMES[i].0)) ==> q == p)
  {
    hide ParseLine, Lower, AnyCase, LevelOf;
    SettingLine(p, l);
    LevelMeans(l.value, p.info[p.key].level);
    assert Entered(p, p.info[p.key]) == p;
  }

  lemma {:induction false} LevelMeans(value: string, was: int)
    ensures forall i | 0 <= i < |LEVEL_NAMES| && AnyCase(value, LEVEL_NAMES[i].0) ::
              LevelOf(Lower(value), was) == LEVEL_NAMES[i].1
    ensures (forall i | 0 <= i < |LEVEL_NAMES| :: !AnyCase(value, LEVEL_NAMES[i].0)) ==>
              LevelOf(Lower(value), was) == was
  {
    hide Lower, AnyCase;
    forall i | 0 <= i < |LEVEL_NAMES|
      ensures AnyCase(value, LEVEL_NAMES[i].0) <==> Lower(value) == LEVEL_NAMES[i].0
    {
      CaseMeans(value, LEVEL_NAMES[i].0);
    }
    var low := Lower(value);
    assert LEVEL_NAMES[0].0 == "trace" && LEVEL_NAMES[1].0 == "all" && LEVEL_NAMES[2].0 == "debug"
      && LEVEL_NAMES[3].0 == "info" && LEVEL_NAMES[4].0 == "warn" && LEVEL_NAMES[5].0 == "warning"
      && LEVEL_NAMES[6].0 == "error" && LEVEL_NAMES[7].0 == "alarm" && LEVEL_NAMES[8].0 == "fatal";
  }

  // Numbers.

  predicate Space(s: string) {
    forall i | 0 <= i < |s| :: s[i] == ' ' || 9 <= s[i] as int <= 13
  }

  predicate NoDigit(s: string) {
    s != "" ==> !('0' <= s[0] <= '9')
  }

  lemma {:induction false} NumeralIsRead(n: nat, rest: string)
    ensures Natural(Numeral(n, 10) + rest, 0) == Natural(rest, n)
    decreases n
  {
    hide Remainder, Quotient;
    var q, d := Quotient(n, 10), Remainder(n, 10);
    var g := Glyph(d, 10);
    GlyphRead(d, 10);
    QuotientIsDivision(n, 10);
    assert ([g] + rest)[1..] == rest;
    if n < 10 {
      assert Numeral(n, 10) + rest == [g] + rest;
    } else {
      NumeralIsRead(q, [g] + rest);
      assert Numeral(n, 10) + rest == Numeral(q, 10) + ([g] + rest);
    }
  }

  lemma {:induction false} ZerosAreSkipped(z: nat, s: string)
    ensures Natural(Zeros(z) + s, 0) == Natural(s, 0)
    decreases z
  {
    if z == 0 {
      assert Zeros(z) + s == s;
    } else {
      assert (Zeros(z) + s)[1..] == Zeros(z - 1) + s;
      ZerosAreSkipped(z - 1, s);
    }
  }

  lemma {:induction false} SpaceIsSkipped(space: string, s: string)
    requires Space(space)
    ensures Atoi(space + s) == Atoi(s)
    decreases |space|
  {
    if space == "" {
      assert space + s == s;
    } else {
      assert (space + s)[1..] == space[1..] + s;
      SpaceIsSkipped(space[1..], s);
    }
  }

  /** White space, at most one sign, zeros and a numeral, then anything but a digit. */
  datatype Decimal = Decimal(space: string, sign: string, zeros: nat, n: nat, rest: string)
  {
    function Text(): string {
      space + (sign + (Zeros(zeros) + (Numeral(n, 10) + rest)))
    }

    predicate Made() {
      Space(space) && sign in ["", "+", "-"] && NoDigit(rest)
    }

    function Means(): int {
      if sign == "-" then 0 - n else n
    }
  }

  lemma {:induction false} DecimalIsRead(d: Decimal)
    requires d.Made()
    ensures Atoi(d.Text()) == d.Means()
  {
    hide Natural, Numeral, Zeros;
    var digits := Zeros(d.zeros) + (Numeral(d.n, 10) + d.rest);
    SpaceIsSkipped(d.space, d.sign + digits);
    NumeralIsRead(d.n, d.rest);
    ZerosAreSkipped(d.zeros, Numeral(d.n, 10) + d.rest);
    NothingMore(d.rest, d.n);
    if d.sign == "" {
      assert d.sign + digits == digits;
      DigitsFirst(d.zeros, d.n, d.rest);
    } else {
      assert (d.sign + digits)[1..] == digits;
    }
  }

  lemma {:induction false} NothingMore(rest: string, n: nat)
    requires NoDigit(rest)
    ensures Natural(rest, n) == n
  {
  }

  lemma {:induction false} DigitsFirst(z: nat, n: nat, rest: string)
    ensures var s := Zeros(z) + (Numeral(n, 10) + rest); s != "" && '0' <= s[0] <= '9'
    decreases n
  {
    if z == 0 {
      GlyphRead(Remainder(n, 10), 10);
      if n >= 10 {
        DigitsFirst(0, Quotient(n, 10), "");
      }
    }
  }

  lemma {:induction false} LowerOfParts(a: string, b: string)
    ensures Lower(a + b) == Lower(a) + Lower(b)
  {
  }

  lemma {:induction false} LowerKeeps(s: string)
    requires forall i | 0 <= i < |s| :: !('A' <= s[i] <= 'Z')
    ensures Lower(s) == s
  {
  }

  lemma {:induction false} DigitsAreSmall(z: nat, n: nat)
    ensures Lower(Zeros(z)) == Zeros(z) && Lower(Numeral(n, 10)) == Numeral(n, 10)
    decreases z + n
  {
    if z > 0 {
      DigitsAreSmall(z - 1, 0);
      LowerOfParts("0", Zeros(z - 1));
    }
    GlyphRead(Remainder(n, 10), 10);
    if n >= 10 {
      DigitsAreSmall(0, Quotient(n, 10));
      LowerOfParts(Numeral(Quotient(n, 10), 10), [Glyph(Remainder(n, 10), 10)]);
    }
  }

  lemma {:induction false} LowerDecimal(d: Decimal)
    requires d.Made()
    ensures var e := d.(rest := Lower(d.rest)); e.Made() && Lower(d.Text()) == e.Text()
  {
    hide Numeral, Zeros;
    var digits := Zeros(d.zeros) + (Numeral(d.n, 10) + d.rest);
    DigitsAreSmall(d.zeros, d.n);
    LowerKeeps(d.space);
    LowerKeeps(d.sign);
    LowerOfParts(d.space, d.sign + digits);
    LowerOfParts(d.sign, digits);
    LowerOfParts(Zeros(d.zeros), Numeral(d.n, 10) + d.rest);
    LowerOfParts(Numeral(d.n, 10), d.rest);
  }

  /** A number line: the decimal numeral of n, with its sign, gives n; the limit is kept in 32 bits. */
  lemma {:induction false} NumberLine(p: Parsed, l: Setting, d: Decimal)
    requires l.Made() && p.key in p.info && d.Made() && l.value == d.Text()
    ensures var (q, was) := (ParseLine(p, l.Text()), p.info[p.key]);
      && (AnyCase(l.name, "limitsize") ==> q == Entered(p, was.(limitsize := d.Means() % 0x1_0000_0000)))
      && (AnyCase(l.name, "reserve") ==> q == Entered(p, was.(reserve := d.Means())))
  {
    hide ParseLine, Lower, AnyCase, Atoi;
    SettingLine(p, l);
    LowerDecimal(d);
    DecimalIsRead(d.(rest := Lower(d.rest)));
  }

  /** White space or a sign comes first. */
  predicate Leads(s: string) {
    s != "" && (s[0] == '+' || s[0] == '-' || s[0] == ' ' || 9 <= s[0] as int <= 13)
  }

  lemma {:induction false} LowerStarts(s: string)
    requires NoDigit(s)
    ensures NoDigit(Lower(s)) && (Leads(Lower(s)) <==> Leads(s))
  {
  }

  lemma {:induction false} NoNumberRead(space: string, sign: string, rest: string)
    requires Space(space) && sign in ["", "+", "-"] && NoDigit(rest) && (sign == "" ==> !Leads(rest))
    ensures Atoi(space + (sign + rest)) == 0
  {
    SpaceIsSkipped(space, sign + rest);
    if sign == "" {
      assert sign + rest == rest;
    } else {
      assert (sign + rest)[1..] == rest;
    }
  }

  /** Without a digit behind white space and sign the number is 0. */
  lemma {:induction false} NoNumberLine(p: Parsed, l: Setting, space: string, sign: string, rest: string)
    requires l.Made() && p.key in p.info && Space(space) && sign in ["", "+", "-"] && NoDigit(rest)
    requires sign == "" ==> !Leads(rest)
    requires l.value == space + (sign + rest)
    ensures var (q, was) := (ParseLine(p, l.Text()), p.info[p.key]);
      && (AnyCase(l.name, "limitsize") ==> q == Entered(p, was.(limitsize := 0)))
      && (AnyCase(l.name, "reserve") ==> q == Entered(p, was.(reserve := 0)))
  {
    hide ParseLine, Lower, AnyCase, Atoi;
    SettingLine(p, l);
    LowerKeeps(space);
    LowerKeeps(sign);
    LowerOfParts(space, sign + rest);
    LowerOfParts(sign, rest);
    LowerStarts(rest);
    NoNumberRead(space, sign, Lower(rest));
  }

  // Lines that are no settings.

  /** A line without an equals sign is like one with nothing behind it. */
  lemma {:induction false} EqualsMayLack(p: Parsed, line: string)
    requires '=' !in line
    ensures ParseLine(p, line + "=") == ParseLine(p, line)
  {
    hide Trimmed, Named;
    SplitAtEquals(line, "");
    assert line + "=" + "" == line + "=";
    assert SplitPair(line) == (line, "") by {
      assert FirstOf(line, '=') == |line|;
    }
  }

  /** A comment changes nothing. */
  lemma {:induction false} CommentLine(p: Parsed, mark: string, a: string, text: string)
    requires Mark(mark) && Blank(a)
    ensures ParseLine(p, mark + a + "#" + text) == p
  {
    var line := mark + a + "#" + text;
    var kv := SplitPair(line);
    var n := |mark| + |a|;
    NoEquals(mark, a, "#", "");
    assert mark + a + "#" + "" == line[..n + 1];
    FirstIsKept(mark, a, '#', kv.0);
  }

  /** The front of a text that does not begin with a blank or a mark. */
  lemma {:induction false} FrontIs(mark: string, a: string, core: string)
    requires Mark(mark) && Blank(a) && core != "" && core[0] !in "\r\n\t " && core[0] as int != 0xef
    ensures TrimFront(AfterBom(mark + a + core), "" + BLANKS) == core
  {
    hide TrimFront;
    var t := a + core;
    assert mark + a + core == mark + t;
    MarkOff(mark, t);
    TrimFrontIs(t, "" + BLANKS, |a|);
    assert t[|a|..] == core;
  }

  lemma {:induction false} MarkOff(mark: string, t: string)
    requires Mark(mark) && t != "" && t[0] as int != 0xef
    ensures AfterBom(mark + t) == t
  {
    if mark == "" {
      assert mark + t == t;
    }
  }

  /** What is left of a text begins with its first character that is not blank. */
  lemma {:induction false} FirstIsKept(mark: string, a: string, c: char, s: string)
    requires Mark(mark) && Blank(a) && c !in "\r\n\t " && c as int != 0xef && mark + a + [c] <= s
    ensures var r := Trimmed(s, ""); r != "" && r[0] == c
  {
    hide TrimFront, TrimBack;
    var u := s[|mark| + |a|..];
    assert s == mark + a + u && u[0] == c;
    FrontIs(mark, a, u);
    FirstStays(u, "" + BLANKS);
  }

  lemma {:induction false} FirstStays(u: string, ignore: string)
    requires u != "" && u[0] !in ignore
    ensures var r := TrimBack(u, ignore); r != "" && r[0] == u[0]
    decreases |u|
  {
    if u[|u| - 1] in ignore {
      FirstStays(u[..|u| - 1], ignore);
    }
  }

  /** Brackets and blanks. */
  predicate Fringe(s: string) {
    forall i | 0 <= i < |s| :: s[i] in "[]\r\n\t "
  }

  /** A section as it is when its header is first met. */
  function Default(key: string): LoggerInfo {
    LoggerInfo(key := key, name := key, path := "./log/", level := 1, display := true, outfile := true,
               monthdir := false, limitsize := 100, enable := true, fileLine := true, reserve := 0)
  }

  lemma {:induction false} HeaderHasNoEquals(mark: string, a: string, x: string, key: string, y: string)
    requires Mark(mark) && Blank(a) && Fringe(x) && Fringe(y) && '=' !in key
    ensures '=' !in mark + a + ("[" + x + key + y)
  {
    assert '=' !in "[]\r\n\t " && '=' !in "\r\n\t ";
    assert '=' !in "[" + x + key + y;
  }

  lemma {:induction false} HeaderTrimmed(mark: string, a: string, x: string, key: string, y: string)
    requires Mark(mark) && Blank(a) && Fringe(x) && Fringe(y)
    requires key != "" ==> key[0] !in "[]\r\n\t " && key[|key| - 1] !in "[]\r\n\t "
    ensures var first := Trimmed(mark + a + ("[" + x + key + y), "");
      first != "" && first[0] == '[' && Trimmed(first, "[]") == key
  {
    var core := "[" + x + key + y;
    var s := mark + a + core;
    FirstIsKept(mark, a, '[', s);
    var first := HeaderFront(mark, a, core);
    BracketsDropped(x, key, y, first);
  }

  /** The blanks behind a header are dropped with those in front. */
  lemma {:induction false} HeaderFront(mark: string, a: string, core: string) returns (first: string)
    requires Mark(mark) && Blank(a) && core != "" && core[0] == '['
    ensures first == Trimmed(mark + a + core, "") && first <= core
    ensures forall i | |first| <= i < |core| :: core[i] in "\r\n\t "
  {
    hide TrimFront, TrimBack, AfterBom, Mark, Blank;
    var ignore := "" + BLANKS;
    FrontIs(mark, a, core);
    var back := BackDropped(core, ignore);
    first := TrimBack(core, ignore);
    forall i | |first| <= i < |core| ensures core[i] in ignore {
      assert core[i] == back[i - |first|];
    }
  }

  lemma {:induction false} BracketsDropped(x: string, key: string, y: string, first: string)
    requires Fringe(x) && Fringe(y) && first != "" && first <= "[" + x + key + y
    requires key != "" ==> key[0] !in "[]\r\n\t " && key[|key| - 1] !in "[]\r\n\t "
    requires var core := "[" + x + key + y; forall i | |first| <= i < |core| :: core[i] in "\r\n\t "
    ensures Trimmed(first, "[]") == key
  {
    hide TrimFront, TrimBack;
    var core, ignore, n := "[" + x + key + y, "[]\r\n\t ", 1 + |x| + |key|;
    assert "[]" + BLANKS == ignore;
    assert AfterBom(first) == first;
    if key == "" {
      assert first + "" + "" == first;
      forall i | 0 <= i < |first| ensures first[i] in ignore {
        assert first[i] == core[i];
      }
      CoreIsLeft(first, "", "", ignore);
    } else {
      assert core[n - 1] == key[|key| - 1];
      var rest := y[..|first| - n];
      assert first == "[" + x + key + rest;
      CoreIsLeft("[" + x, key, rest, ignore);
    }
  }

  /** A header opens the section of the text between its brackets, "Main" for "main" in any case; a new
      section has the default settings, and one that exists keeps its own. */
  lemma {:induction false} HeaderLine(p: Parsed, mark: string, a: string, x: string, key: string, y: string)
    requires Mark(mark) && Blank(a) && Fringe(x) && Fringe(y) && '=' !in key
    requires key != "" ==> key[0] !in "[]\r\n\t " && key[|key| - 1] !in "[]\r\n\t "
    ensures var (q, k) := (ParseLine(p, mark + a + ("[" + x + key + y)),
                                if AnyCase(key, "main") then "Main" else key);
      q == Parsed(k, if k in p.info then p.info else p.info[k := Default(k)])
  {
    hide Trimmed, Lower, AnyCase;
    var core := "[" + x + key + y;
    HeaderTrimmed(mark, a, x, key, y);
    assert SplitPair(mark + a + core) == (mark + a + core, "") by {
      HeaderHasNoEquals(mark, a, x, key, y);
    }
    CaseMeans(key, "main");
  }
}
