/** The text stream a log record is composed with (Log4zStream, src/libs/log4z.h): a cursor over
    a fixed character buffer, and the table-driven printer of 64-bit numbers. */
module LogStream {
  import opened Bytes

  /** Size of the printer's scratch buffer; it prints only with more room than this. */
  const SCRATCH := 64

  const TWO_63 := 0x8000_0000_0000_0000

  const LOWER := "0123456789abcdef"
  const UPPER := "0123456789ABCDEF"

  /** The two-digit tables, one row of the original's literals after the other. */
  const DEC_ROWS: seq<string> := [
    "00010203040506070809", "10111213141516171819", "20212223242526272829", "30313233343536373839",
    "40414243444546474849", "50515253545556575859", "60616263646566676869", "70717273747576777879",
    "80818283848586878889", "90919293949596979899"]
  const HEX_ROWS: seq<string> := [
    "000102030405060708090A0B0C0D0E0F", "101112131415161718191A1B1C1D1E1F",
    "202122232425262728292A2B2C2D2E2F", "303132333435363738393A3B3C3D3E3F",
    "404142434445464748494A4B4C4D4E4F", "505152535455565758595A5B5C5D5E5F",
    "606162636465666768696A6B6C6D6E6F", "707172737475767778797A7B7C7D7E7F",
    "808182838485868788898A8B8C8D8E8F", "909192939495969798999A9B9C9D9E9F",
    "A0A1A2A3A4A5A6A7A8A9AAABACADAEAF", "B0B1B2B3B4B5B6B7B8B9BABBBCBDBEBF",
    "C0C1C2C3C4C5C6C7C8C9CACBCCCDCECF", "D0D1D2D3D4D5D6D7D8D9DADBDCDDDEDF",
    "E0E1E2E3E4E5E6E7E8E9EAEBECEDEEEF", "F0F1F2F3F4F5F6F7F8F9FAFBFCFDFEFF"]

  function Joined(rows: seq<string>): string {
    if rows == [] then "" else Joined(rows[..|rows| - 1]) + rows[|rows| - 1]
  }

  predicate Base(base: nat) {
    2 <= base <= 16
  }

  /** A digit as the printer writes it: lower case, except in base 16. */
  function Glyph(d: nat, base: nat): char
    requires d < base <= 16
  {
    if base == 16 then UPPER[d] else LOWER[d]
  }

  // Division and multiplication by repeated subtraction and addition: products and quotients of
  // two variables stay out of the proofs about numerals.

  function Quotient(t: nat, base: nat): (q: nat)
    requires base > 0
    ensures q <= t
    ensures base > 1 && t > 0 ==> q < t
    ensures q == 0 <==> t < base
  {
    if t < base then 0 else Quotient(t - base, base) + 1
  }

  function Remainder(t: nat, base: nat): (r: nat)
    requires base > 0
    ensures r < base
  {
    if t < base then t else Remainder(t - base, base)
  }

  function Shifted(q: nat, base: nat): nat {
    if q == 0 then 0 else Shifted(q - 1, base) + base
  }

  lemma {:induction false} DivideSplits(t: nat, base: nat)
    requires base > 0
    ensures t == Shifted(Quotient(t, base), base) + Remainder(t, base)
  {
    if t >= base {
      DivideSplits(t - base, base);
    }
  }

  lemma {:induction false} DivideBack(q: nat, d: nat, base: nat)
    requires d < base
    ensures Quotient(Shifted(q, base) + d, base) == q && Remainder(Shifted(q, base) + d, base) == d
  {
    if q > 0 {
      DivideBack(q - 1, d, base);
    }
  }

  /** They are the machine's division and remainder. */
  lemma {:induction false} QuotientIsDivision(t: nat, base: nat)
    requires base > 0
    ensures Quotient(t, base) == t / base && Remainder(t, base) == t % base
  {
    if t >= base {
      QuotientIsDivision(t - base, base);
      DivideStep(t - base, base);
    }
  }

  lemma {:induction false} DivideStep(t: nat, base: nat)
    requires base > 0
    ensures (t + base) / base == t / base + 1 && (t + base) % base == t % base
  {
    var k := (t + base) / base - t / base;
    assert base * k == base + t % base - (t + base) % base;
    ProductOrder(base, k, 0);
    ProductOrder(base, 2, k);
  }

  lemma {:induction false} ProductOrder(base: nat, a: int, b: int)
    ensures a <= b ==> base * a <= base * b
  {
  }

  /** The canonical numeral of t, digit by digit. */
  function Numeral(t: nat, base: nat): (s: string)
    requires Base(base)
    ensures |s| > 0
  {
    (if t < base then "" else Numeral(Quotient(t, base), base)) + [Glyph(Remainder(t, base), base)]
  }

  function Zeros(n: nat): (s: string)
    ensures |s| == n
  {
    if n == 0 then "" else "0" + Zeros(n - 1)
  }

  function Padded(s: string, width: nat): string {
    if |s| < width then Zeros(width - |s|) + s else s
  }

  // Reading a numeral back, in either case of letters.

  function DigitOf(c: char): int {
    if '0' <= c <= '9' then c as int - '0' as int
    else if 'a' <= c <= 'f' then c as int - 'a' as int + 10
    else if 'A' <= c <= 'F' then c as int - 'A' as int + 10
    else -1
  }

  predicate Digits(s: string, base: nat) {
    s == "" || (Digits(s[..|s| - 1], base) && 0 <= DigitOf(s[|s| - 1]) < base)
  }

  function ReadNumeral(s: string, base: nat): nat
    requires Digits(s, base)
  {
    if s == "" then 0 else Shifted(ReadNumeral(s[..|s| - 1], base), base) + DigitOf(s[|s| - 1])
  }

  lemma {:induction false} GlyphRead(d: nat, base: nat)
    requires Base(base) && d < base
    ensures DigitOf(Glyph(d, base)) == d
    ensures Glyph(d, base) == '0' <==> d == 0
  {
  }

  /** The printed digits mean the number. */
  lemma {:induction false} NumeralReadsBack(t: nat, base: nat)
    requires Base(base)
    ensures Digits(Numeral(t, base), base) && ReadNumeral(Numeral(t, base), base) == t
    decreases t
  {
    var p := if t < base then "" else Numeral(Quotient(t, base), base);
    if t >= base {
      NumeralReadsBack(Quotient(t, base), base);
    }
    DivideSplits(t, base);
    AppendDigit(p, Remainder(t, base), base);
  }

  lemma {:induction false} AppendDigit(p: string, d: nat, base: nat)
    requires Base(base) && d < base && Digits(p, base)
    ensures var s := p + [Glyph(d, base)];
      Digits(s, base) && ReadNumeral(s, base) == Shifted(ReadNumeral(p, base), base) + d
  {
    GlyphRead(d, base);
    var s := p + [Glyph(d, base)];
    assert s[..|s| - 1] == p;
  }

  lemma {:induction false} NoLeadingZero(t: nat, base: nat)
    requires Base(base)
    ensures Numeral(t, base)[0] == '0' <==> t == 0
    ensures t == 0 ==> |Numeral(t, base)| == 1
    decreases t
  {
    GlyphRead(Remainder(t, base), base);
    if t >= base {
      DivideSplits(t, base);
      NoLeadingZero(Quotient(t, base), base);
    }
  }

  lemma {:induction false} LeadingDigitCounts(s: string, base: nat)
    requires Base(base) && Digits(s, base) && s != "" && s[0] != '0'
    ensures ReadNumeral(s, base) > 0
    decreases |s|
  {
    if |s| > 1 {
      var p := s[..|s| - 1];
      LeadingDigitCounts(p, base);
    } else {
      assert s[..0] == "";
    }
  }

  /** Every character is one the printer uses in this base. */
  predicate Printable(s: string, base: nat)
    requires Base(base)
  {
    s == "" || (Printable(s[..|s| - 1], base) && PrinterUses(s[|s| - 1], base))
  }

  predicate PrinterUses(c: char, base: nat)
    requires Base(base)
  {
    0 <= DigitOf(c) < base && c == Glyph(DigitOf(c), base)
  }

  /** There is only one such text: the printer's characters, no needless zero in front and the
      right value leave no choice. */
  lemma {:induction false} NumeralIsUnique(s: string, base: nat)
    requires Base(base) && Printable(s, base) && s != "" && (|s| > 1 ==> s[0] != '0')
    ensures Digits(s, base) && s == Numeral(ReadNumeral(s, base), base)
    decreases |s|
  {
    hide Numeral, Glyph, DigitOf, ReadNumeral;
    var p := s[..|s| - 1];
    var d: nat := DigitOf(s[|s| - 1]);
    if p != "" {
      NumeralIsUnique(p, base);
      LeadingDigitCounts(p, base);
    }
    NumeralAppended(p, d, base);
    assert s == p + [Glyph(d, base)];
  }

  lemma {:induction false} NumeralAppended(p: string, d: nat, base: nat)
    requires Base(base) && d < base && Digits(p, base)
    requires p != "" ==> p == Numeral(ReadNumeral(p, base), base) && ReadNumeral(p, base) > 0
    ensures var s := p + [Glyph(d, base)];
      Digits(s, base) && s == Numeral(ReadNumeral(s, base), base)
  {
    hide Glyph, Shifted, Numeral;
    var q := ReadNumeral(p, base);
    AppendDigit(p, d, base);
    NumeralGrows(q, d, base);
    var front := if q == 0 then "" else Numeral(q, base);
    assert p == front;
  }

  lemma {:induction false} NumeralGrows(q: nat, d: nat, base: nat)
    requires Base(base) && d < base
    ensures Numeral(Shifted(q, base) + d, base) == (if q == 0 then "" else Numeral(q, base)) + [Glyph(d, base)]
  {
    DivideBack(q, d, base);
  }

  lemma {:induction false} ZerosReadAway(n: nat, s: string, base: nat)
    requires Base(base) && Digits(s, base)
    ensures Digits(Zeros(n) + s, base) && ReadNumeral(Zeros(n) + s, base) == ReadNumeral(s, base)
    decreases n + |s|
  {
    if |s| > 0 {
      ZerosReadAway(n, s[..|s| - 1], base);
      assert (Zeros(n) + s)[..n + |s| - 1] == Zeros(n) + s[..|s| - 1];
    } else if n > 0 {
      ZerosReadAway(n - 1, "", base);
      ZerosEnd(n);
      assert (Zeros(n) + s)[..n - 1] == Zeros(n - 1) + "";
    }
  }

  lemma {:induction false} ZerosEnd(n: nat)
    requires n > 0
    ensures Zeros(n) == Zeros(n - 1) + "0"
  {
    if n > 1 {
      ZerosEnd(n - 1);
      assert "0" + (Zeros(n - 2) + "0") == ("0" + Zeros(n - 2)) + "0";
    }
  }

  /** What writeULongLong prints has at least the asked width, reads back as the number, and
      exceeds the width only by digits that count. */
  lemma {:induction false} PrintedNumber(t: nat, width: nat, base: nat)
    requires Base(base)
    ensures var s := Padded(Numeral(t, base), width);
      && |s| >= width
      && Digits(s, base) && ReadNumeral(s, base) == t
      && (|s| > width && |s| > 1 ==> s[0] != '0')
  {
    var s := Numeral(t, base);
    NumeralReadsBack(t, base);
    NoLeadingZero(t, base);
    if |s| < width {
      ZerosReadAway(width - |s|, s, base);
    }
  }

  // The tables hold every pair of digits in order.

  function DecRow(hi: char): string {
    [hi, '0', hi, '1', hi, '2', hi, '3', hi, '4', hi, '5', hi, '6', hi, '7', hi, '8', hi, '9']
  }

  function HexRow(hi: char): string {
    [hi, '0', hi, '1', hi, '2', hi, '3', hi, '4', hi, '5', hi, '6', hi, '7',
     hi, '8', hi, '9', hi, 'A', hi, 'B', hi, 'C', hi, 'D', hi, 'E', hi, 'F']
  }

  lemma {:induction false} JoinedAt(rows: seq<string>, w: nat, r: nat, c: nat)
    requires r < |rows| && c < w && forall k | 0 <= k < |rows| :: |rows[k]| == w
    ensures |Joined(rows)| == Shifted(|rows|, w) >= Shifted(r + 1, w)
    ensures Joined(rows)[Shifted(r, w) + c] == rows[r][c]
    decreases |rows|
  {
    var n := |rows| - 1;
    var front := rows[..n];
    if n == 0 {
      assert front == [];
    } else {
      JoinedAt(front, w, if r < n then r else 0, c);
    }
  }

  lemma {:induction false} DecRows()
    ensures DEC_ROWS == [DecRow('0'), DecRow('1'), DecRow('2'), DecRow('3'), DecRow('4'),
                         DecRow('5'), DecRow('6'), DecRow('7'), DecRow('8'), DecRow('9')]
  {
  }

  lemma {:induction false} HexRows()
    ensures HEX_ROWS == [HexRow('0'), HexRow('1'), HexRow('2'), HexRow('3'), HexRow('4'), HexRow('5'),
                         HexRow('6'), HexRow('7'), HexRow('8'), HexRow('9'), HexRow('A'), HexRow('B'),
                         HexRow('C'), HexRow('D'), HexRow('E'), HexRow('F')]
  {
  }

  lemma {:induction false} DecRowIs(r: nat)
    requires r < 10
    ensures |DEC_ROWS| == 10 && DEC_ROWS[r] == DecRow(LOWER[r])
  {
    DecRows();
  }

  lemma {:induction false} DecRowAt(hi: char, c: nat)
    requires c < 10
    ensures |DecRow(hi)| == 20 && DecRow(hi)[2 * c] == hi && DecRow(hi)[2 * c + 1] == LOWER[c]
  {
  }

  lemma {:induction false} HexRowIs(r: nat)
    requires r < 16
    ensures |HEX_ROWS| == 16 && HEX_ROWS[r] == HexRow(UPPER[r])
  {
    HexRows();
  }

  lemma {:induction false} HexRowAt(hi: char, c: nat)
    requires c < 16
    ensures |HexRow(hi)| == 32 && HexRow(hi)[2 * c] == hi && HexRow(hi)[2 * c + 1] == UPPER[c]
  {
  }

  const LUT_DEC := Joined(DEC_ROWS)
  const LUT_HEX := Joined(HEX_ROWS)

  /** Entry m of a two-digit table is m written with two digits. */
  lemma {:induction false} DecPair(m: nat)
    requires m < 100
    ensures 2 * m + 1 < |LUT_DEC|
    ensures LUT_DEC[2 * m] == Glyph(m / 10, 10) && LUT_DEC[2 * m + 1] == Glyph(m % 10, 10)
  {
    var r, c := m / 10, m % 10;
    DecRowIs(r);
    DecRowAt(LOWER[r], c);
    DecJoined(r, 2 * c);
  }

  lemma {:induction false} HexPair(m: nat)
    requires m < 256
    ensures 2 * m + 1 < |LUT_HEX|
    ensures LUT_HEX[2 * m] == Glyph(m / 16, 16) && LUT_HEX[2 * m + 1] == Glyph(m % 16, 16)
  {
    var r, c := m / 16, m % 16;
    HexRowIs(r);
    HexRowAt(UPPER[r], c);
    HexJoined(r, 2 * c);
  }

  lemma {:induction false} DecJoined(r: nat, c: nat)
    requires r < 10 && c + 1 < 20 && |DEC_ROWS| == 10 && |DEC_ROWS[r]| == 20
    ensures 20 * r + c + 1 < |LUT_DEC|
    ensures LUT_DEC[20 * r + c] == DEC_ROWS[r][c] && LUT_DEC[20 * r + c + 1] == DEC_ROWS[r][c + 1]
  {
    forall k | 0 <= k < 10 ensures |DEC_ROWS[k]| == 20 {
      DecRowIs(k);
    }
    RowsJoined(DEC_ROWS, 20, r, c);
  }

  lemma {:induction false} HexJoined(r: nat, c: nat)
    requires r < 16 && c + 1 < 32 && |HEX_ROWS| == 16 && |HEX_ROWS[r]| == 32
    ensures 32 * r + c + 1 < |LUT_HEX|
    ensures LUT_HEX[32 * r + c] == HEX_ROWS[r][c] && LUT_HEX[32 * r + c + 1] == HEX_ROWS[r][c + 1]
  {
    forall k | 0 <= k < 16 ensures |HEX_ROWS[k]| == 32 {
      HexRowIs(k);
    }
    RowsJoined(HEX_ROWS, 32, r, c);
  }

  lemma {:induction false} RowsJoined(rows: seq<string>, w: nat, r: nat, c: nat)
    requires r < |rows| && c + 1 < w && forall k | 0 <= k < |rows| :: |rows[k]| == w
    ensures r * w + c + 1 < |Joined(rows)|
    ensures Joined(rows)[r * w + c] == rows[r][c] && Joined(rows)[r * w + c + 1] == rows[r][c + 1]
  {
    JoinedAt(rows, w, r, c);
    JoinedAt(rows, w, r, c + 1);
    ShiftedIsProduct(r, w);
  }

  lemma {:induction false} ShiftedIsProduct(q: nat, base: nat)
    ensures Shifted(q, base) == q * base
  {
    if q > 0 {
      ShiftedIsProduct(q - 1, base);
      assert q * base == (q - 1) * base + base;
    }
  }

  predicate Paired(base: nat) {
    base == 10 || base == 16
  }

  /** Entry m of a table is m written with two digits. */
  predicate Entry(lut: string, m: nat, base: nat)
    requires Paired(base)
  {
    && 2 * m + 1 < |lut|
    && if base == 10 then
         m < 100 && lut[2 * m] == Glyph(m / 10, 10) && lut[2 * m + 1] == Glyph(m % 10, 10)
       else
         m < 256 && lut[2 * m] == Glyph(m / 16, 16) && lut[2 * m + 1] == Glyph(m % 16, 16)
  }

  predicate PairTable(lut: string, base: nat)
    requires Paired(base)
  {
    forall m: nat | m < (if base == 10 then 100 else 256) :: Entry(lut, m, base)
  }

  lemma {:induction false} TablesHold()
    ensures PairTable(LUT_DEC, 10) && PairTable(LUT_HEX, 16)
  {
    forall m: nat | m < 100 ensures Entry(LUT_DEC, m, 10) {
      DecPair(m);
    }
    forall m: nat | m < 256 ensures Entry(LUT_HEX, m, 16) {
      HexPair(m);
    }
  }

  /** What a turn of a two-digit loop leaves for the next, and the table entry it picks. */
  function PairRest(v: nat, base: nat): nat
    requires Paired(base)
  {
    if base == 10 then v / 100 else v / 256
  }

  function PairIndex(v: nat, base: nat): (m: nat)
    requires Paired(base)
  {
    if base == 10 then v % 100 else v % 256
  }

  function PairText(lut: string, v: nat, base: nat): (s: string)
    requires Paired(base) && PairTable(lut, base)
    ensures |s| == 2
  {
    var m := PairIndex(v, base);
    assert Entry(lut, m, base);
    [lut[2 * m], lut[2 * m + 1]]
  }

  lemma {:induction false} NumeralUnfolds(v: nat, base: nat)
    requires Base(base)
    ensures Numeral(v, base) == (if v < base then "" else Numeral(v / base, base)) + [Glyph(v % base, base)]
  {
    QuotientIsDivision(v, base);
  }

  /** One turn of a two-digit loop: v splits into what is left and a table entry, whose leading
      zero is the numeral's only surplus. */
  lemma {:induction false} PairStep(lut: string, v: nat, base: nat)
    requires Paired(base) && PairTable(lut, base)
    ensures var (q, pair) := (PairRest(v, base), PairText(lut, v, base));
      && (q > 0 ==> Numeral(v, base) == Numeral(q, base) + pair)
      && (q == 0 ==> Numeral(v, base) == Stripped(pair))
  {
    if base == 10 {
      DecStep(lut, v);
    } else {
      HexStep(lut, v);
    }
  }

  lemma {:induction false} DecStep(lut: string, v: nat)
    requires PairTable(lut, 10)
    ensures var (q, pair) := (v / 100, PairText(lut, v, 10));
      && (q > 0 ==> Numeral(v, 10) == Numeral(q, 10) + pair)
      && (q == 0 ==> Numeral(v, 10) == Stripped(pair))
  {
    var pair := PairText(lut, v, 10);
    assert Entry(lut, v % 100, 10);
    DecDigits(v);
    GlyphRead((v % 100) / 10, 10);
    TwoDigits(v, 10, v / 100, (v % 100) / 10, v % 10, pair);
  }

  lemma {:induction false} DecDigits(v: nat)
    ensures (v / 10) / 10 == v / 100 && (v / 10) % 10 == (v % 100) / 10
    ensures (v % 100) % 10 == v % 10
  {
  }

  lemma {:induction false} HexStep(lut: string, v: nat)
    requires PairTable(lut, 16)
    ensures var (q, pair) := (v / 256, PairText(lut, v, 16));
      && (q > 0 ==> Numeral(v, 16) == Numeral(q, 16) + pair)
      && (q == 0 ==> Numeral(v, 16) == Stripped(pair))
  {
    var pair := PairText(lut, v, 16);
    assert Entry(lut, v % 256, 16);
    HexDigits(v);
    GlyphRead((v % 256) / 16, 16);
    TwoDigits(v, 16, v / 256, (v % 256) / 16, v % 16, pair);
  }

  lemma {:induction false} HexDigits(v: nat)
    ensures (v / 16) / 16 == v / 256 && (v / 16) % 16 == (v % 256) / 16
    ensures (v % 256) % 16 == v % 16
  {
  }

  lemma {:induction false} TwoDigits(v: nat, base: nat, q: nat, hi: nat, lo: nat, pair: string)
    requires Base(base) && q == (v / base) / base && hi == (v / base) % base && lo == v % base
    requires pair == [Glyph(hi, base), Glyph(lo, base)]
    ensures q > 0 ==> Numeral(v, base) == Numeral(q, base) + pair
    ensures q == 0 ==> Numeral(v, base) == if hi == 0 then pair[1..] else pair
  {
    var u := v / base;
    NumeralUnfolds(v, base);
    NumeralUnfolds(u, base);
    QuotientIsDivision(v, base);
    QuotientIsDivision(u, base);
    if q > 0 {
      ConcatAssociates(Numeral(q, base), [Glyph(hi, base)], [Glyph(lo, base)]);
    } else {
      assert u == hi;
    }
  }

  function Pow2(n: nat): (p: nat)
    ensures p > 0
  {
    if n == 0 then 1 else 2 * Pow2(n - 1)
  }

  lemma {:induction false} EightMore(n: nat)
    ensures Pow2(n + 8) == 256 * Pow2(n)
  {
    assert Pow2(n + 2) == 4 * Pow2(n);
    assert Pow2(n + 4) == 4 * Pow2(n + 2);
    assert Pow2(n + 6) == 4 * Pow2(n + 4);
    assert Pow2(n + 8) == 4 * Pow2(n + 6);
  }

  /** Even in base 2 a 64-bit number has no more digits than the scratch buffer has room for. */
  lemma {:induction false} ScratchHoldsEveryDigit(n: nat)
    requires n == SCRATCH
    ensures Pow2(n) == 2 * TWO_63
  {
    EightMore(n - 64); EightMore(n - 56); EightMore(n - 48); EightMore(n - 40);
    EightMore(n - 32); EightMore(n - 24); EightMore(n - 16); EightMore(n - 8);
  }

  lemma {:induction false} QuotientHalves(v: nat, base: nat)
    requires base >= 2
    ensures 2 * Quotient(v, base) <= v
  {
    if v >= base {
      QuotientHalves(v - base, base);
    }
  }

  class TextStream {
    const buf: array<char>
    const end: nat
    var cur: nat

    ghost predicate Valid()
      reads this
    {
      cur <= end <= buf.Length
    }

    /** What lies before the cursor. */
    ghost function Written(): string
      requires Valid()
      reads this, buf
    {
      buf[..cur]
    }

    /** What lies past the end pointer, which no operation may touch. */
    ghost function Beyond(): string
      requires Valid()
      reads this, buf
    {
      buf[end..]
    }

    function Room(): nat
      requires Valid()
      reads this
    {
      end - cur
    }

    constructor (buf: array<char>, begin: nat, len: nat)
      requires begin + len <= buf.Length
      ensures Valid() && this.buf == buf && cur == begin && end == begin + len
    {
      this.buf, this.cur, this.end := buf, begin, begin + len;
    }

    /** A single character is written only if another one still fits behind it. */
    method WriteChar(ch: char)
      requires Valid()
      modifies this, buf
      ensures Valid() && Beyond() == old(Beyond())
      ensures Written() == old(Written()) + if old(Room()) > 1 then [ch] else ""
    {
      if end - cur > 1 {
        buf[cur] := ch;
        cur := cur + 1;
      }
    }

    /** A text is cut to what fits. */
    method WriteString(t: string)
      requires Valid()
      modifies this, buf
      ensures Valid() && Beyond() == old(Beyond())
      ensures Written() == old(Written()) + if |t| <= old(Room()) then t else t[..old(Room())]
    {
      var count := end - cur;
      var len := |t|;
      if len > count {
        len := count;
      }
      if len > 0 {
        forall i | 0 <= i < len {
          buf[cur + i] := t[i];
        }
        cur := cur + len;
      }
    }

    /** Prints the padded numeral, or nothing at all when 64 characters or fewer fit. */
    method WriteULongLong(t: nat, width: nat, dec: nat)
      requires Valid() && t < 2 * TWO_63 && width <= SCRATCH && Base(dec)
      modifies this, buf
      ensures Valid() && Beyond() == old(Beyond())
      ensures Written() == old(Written()) + if old(Room()) > SCRATCH then Padded(Numeral(t, dec), width) else ""
      ensures Room() + SCRATCH >= old(Room())
    {
      if end - cur > SCRATCH {
        var scratch := new char[SCRATCH];
        var digit := Fill(scratch, t, dec);
        digit := Pad(scratch, digit, width);
        WriteString(scratch[SCRATCH - digit..]);
      }
    }

    /** The sign and the padded digits. The sign is written even where the digits no longer fit. */
    method WriteLongLong(t: int, width: nat, dec: nat)
      requires Valid() && -TWO_63 <= t < TWO_63 && width <= SCRATCH && Base(dec)
      modifies this, buf
      ensures Valid() && Beyond() == old(Beyond())
      ensures Written() == old(Written()) + SignedText(t, Padded(Numeral(Magnitude(t), dec), width), old(Room()))
    {
      hide Padded, Numeral;
      var u := t;
      ghost var before, sign := Written(), if t < 0 && Room() > 1 then "-" else "";
      if t < 0 {
        u := -t;
        WriteChar('-');
      }
      ghost var digits := if Room() > SCRATCH then Padded(Numeral(u, dec), width) else "";
      ConcatAssociates(before, sign, digits);
      WriteULongLong(u, width, dec);
    }
  }

  function SignedText(t: int, digits: string, room: nat): string {
    var sign := if t < 0 && room > 1 then "-" else "";
    sign + if room - |sign| > SCRATCH then digits else ""
  }

  function Magnitude(t: int): nat {
    if t < 0 then -t else t
  }

  predicate SignedDigits(s: string, base: nat) {
    s != "" && if s[0] == '-' then Digits(s[1..], base) else Digits(s, base)
  }

  /** Digits with or without a minus sign. */
  function ReadSigned(s: string, base: nat): int
    requires SignedDigits(s, base)
  {
    if s[0] == '-' then 0 - ReadNumeral(s[1..], base) else ReadNumeral(s, base)
  }

  lemma {:induction false} FirstIsDigit(s: string, base: nat)
    requires Digits(s, base) && s != ""
    ensures DigitOf(s[0]) >= 0
    decreases |s|
  {
    if |s| > 1 {
      FirstIsDigit(s[..|s| - 1], base);
    }
  }

  /** What writeLongLong prints reads back as the number with more than 64 characters of room behind
      the sign, and has no more than the sign otherwise. */
  lemma {:induction false} PrintedSigned(t: int, width: nat, base: nat, room: nat)
    requires Base(base)
    ensures var s := SignedText(t, Padded(Numeral(Magnitude(t), base), width), room);
      if room > (if t < 0 then 65 else 64) then SignedDigits(s, base) && ReadSigned(s, base) == t && |s| >= width
      else s == if t < 0 && room > 1 then "-" else ""
  {
    hide Numeral, ReadNumeral;
    var digits := Padded(Numeral(Magnitude(t), base), width);
    PrintedNumber(Magnitude(t), width, base);
    if digits != "" {
      FirstIsDigit(digits, base);
    }
    assert ("-" + digits)[1..] == digits && "" + digits == digits;
  }

  method Fill(scratch: array<char>, t: nat, dec: nat) returns (digit: nat)
    requires scratch.Length == SCRATCH && t < 2 * TWO_63 && Base(dec)
    modifies scratch
    ensures digit <= SCRATCH && scratch[SCRATCH - digit..] == Numeral(t, dec)
  {
    TablesHold();
    if dec == 10 {
      digit := FillPairs(scratch, t, dec, LUT_DEC);
    } else if dec == 16 {
      digit := FillPairs(scratch, t, dec, LUT_HEX);
    } else {
      digit := FillDigits(scratch, t, dec);
    }
  }

  /** The loops for bases 10 and 16, two digits a turn from a table; a leading zero goes. */
  method FillPairs(scratch: array<char>, t: nat, dec: nat, lut: string) returns (digit: nat)
    requires scratch.Length == SCRATCH && t < 2 * TWO_63 && Paired(dec) && PairTable(lut, dec)
    modifies scratch
    ensures digit <= SCRATCH && scratch[SCRATCH - digit..] == Numeral(t, dec)
  {
    digit := PairLoop(scratch, t, dec, lut);
    if digit >= 2 && scratch[SCRATCH - digit] == '0' {
      ghost var s := scratch[SCRATCH - digit..];
      digit := digit - 1;
      assert scratch[SCRATCH - digit..] == s[1..];
    }
  }

  /** A text without one leading zero. */
  function Stripped(s: string): string {
    if s != "" && s[0] == '0' then s[1..] else s
  }

  method PairLoop(scratch: array<char>, t: nat, dec: nat, lut: string) returns (digit: nat)
    requires scratch.Length == SCRATCH && t < 2 * TWO_63 && Paired(dec) && PairTable(lut, dec)
    modifies scratch
    ensures 2 <= digit <= SCRATCH && Stripped(scratch[SCRATCH - digit..]) == Numeral(t, dec)
  {
    var val: nat, i := t, SCRATCH;
    digit := 0;
    ghost var whole, done, left := Numeral(t, dec), "", 32;
    ScratchHoldsEveryDigit(i);
    while true
      invariant i + digit == SCRATCH && i >= 2 && i == 2 * left && val < Pow2(i)
      invariant scratch[i..] == done && whole == Numeral(val, dec) + done
      decreases i
    {
      PairTurn(whole, lut, val, dec, done, i);
      done, left := PairText(lut, val, dec) + done, left - 1;
      PutPair(scratch, i, lut, val, dec);
      i := i - 2;
      val := PairRest(val, dec);
      digit := digit + 2;
      if !(val != 0 && i >= 2) {
        break;
      }
    }
    assert whole == Stripped(done);
  }

  lemma {:induction false} PairTurn(numeral: string, lut: string, val: nat, dec: nat, done: string, i: nat)
    requires Paired(dec) && PairTable(lut, dec) && numeral == Numeral(val, dec) + done
    requires i >= 2 && val < Pow2(i)
    ensures 0 <= PairIndex(val, dec) && PairRest(val, dec) < Pow2(i - 2)
    ensures var (q, next) := (PairRest(val, dec), PairText(lut, val, dec) + done);
      && (q > 0 ==> numeral == Numeral(q, dec) + next)
      && (q == 0 ==> numeral == Stripped(next))
  {
    var q, pair := PairRest(val, dec), PairText(lut, val, dec);
    PairStep(lut, val, dec);
    PairBound(val, dec, i - 2);
    if q > 0 {
      ConcatAssociates(Numeral(q, dec), pair, done);
    } else {
      StrippedFront(pair, done);
    }
  }

  lemma {:induction false} StrippedFront(s: string, t: string)
    requires s != ""
    ensures Stripped(s + t) == Stripped(s) + t
  {
    assert (s + t)[1..] == s[1..] + t;
  }

  method PutPair(scratch: array<char>, i: nat, lut: string, val: nat, dec: nat)
    requires 2 <= i <= scratch.Length && Paired(dec) && PairTable(lut, dec)
    modifies scratch
    ensures scratch[i - 2..] == PairText(lut, val, dec) + old(scratch[i..])
  {
    assert Entry(lut, PairIndex(val, dec), dec);
    var m2 := PairIndex(val, dec) * 2;
    ghost var rest := scratch[i..];
    scratch[i - 1] := lut[m2 + 1];
    scratch[i - 2] := lut[m2];
    assert scratch[i..] == rest;
  }

  lemma {:induction false} PairBound(v: nat, base: nat, i: nat)
    requires Paired(base) && v < Pow2(i + 2)
    ensures PairRest(v, base) < Pow2(i)
  {
    assert Pow2(i + 2) == 2 * Pow2(i + 1);
  }

  /** The loop for every other base: one digit a turn. */
  method FillDigits(scratch: array<char>, t: nat, dec: nat) returns (digit: nat)
    requires scratch.Length == SCRATCH && t < 2 * TWO_63 && Base(dec) && dec != 16
    modifies scratch
    ensures digit <= SCRATCH && scratch[SCRATCH - digit..] == Numeral(t, dec)
  {
    hide Numeral;
    var val: nat, i := t, SCRATCH;
    digit := 0;
    ghost var whole, done := Numeral(t, dec), "";
    ScratchHoldsEveryDigit(i);
    while true
      invariant i + digit == SCRATCH && i > 0 && val < Pow2(i)
      invariant scratch[i..] == done && whole == Numeral(val, dec) + done
      decreases i
    {
      DigitTurn(whole, val, dec, done, i);
      i := i - 1;
      scratch[i] := LOWER[val % dec];
      done := [scratch[i]] + done;
      val := val / dec;
      digit := digit + 1;
      if !(val != 0 && i > 0) {
        break;
      }
    }
  }

  lemma {:induction false} DigitTurn(numeral: string, val: nat, dec: nat, done: string, i: nat)
    requires Base(dec) && dec != 16 && numeral == Numeral(val, dec) + done && val < Pow2(i) && i > 0
    ensures 0 <= val % dec < dec && 0 <= val / dec < Pow2(i - 1)
    ensures var (q: nat, next) := (val / dec, [LOWER[val % dec]] + done);
      && (q > 0 ==> numeral == Numeral(q, dec) + next)
      && (q == 0 ==> numeral == next)
  {
    NumeralUnfolds(val, dec);
    QuotientIsDivision(val, dec);
    QuotientHalves(val, dec);
    if val >= dec {
      ConcatAssociates(Numeral(val / dec, dec), [LOWER[val % dec]], done);
    }
  }

  method Pad(scratch: array<char>, n: nat, width: nat) returns (digit: nat)
    requires scratch.Length == SCRATCH && n <= SCRATCH && width <= SCRATCH
    modifies scratch
    ensures digit <= SCRATCH && scratch[SCRATCH - digit..] == Padded(old(scratch[SCRATCH - n..]), width)
  {
    ghost var s := scratch[SCRATCH - n..];
    digit := n;
    while digit < width
      invariant n <= digit <= SCRATCH && (digit <= width || digit == n)
      invariant scratch[SCRATCH - digit..] == Zeros(digit - n) + s
    {
      ghost var rest := scratch[SCRATCH - digit..];
      digit := digit + 1;
      scratch[SCRATCH - digit] := '0';
      assert scratch[SCRATCH - digit..] == ['0'] + rest;
      assert "0" + (Zeros(digit - 1 - n) + s) == ("0" + Zeros(digit - 1 - n)) + s;
    }
  }
}
