/**
 * Calendar dates and Python's `datetime.strptime` for the two formats the
 * repository uses, `%d.%m.%Y` and `%Y%m%d`.
 *
 * `strptime` turns the format into a regular expression in which each
 * directive is an ordered alternation (`%d` is `3[01]|[12]\d|0[1-9]|[1-9]| [1-9]`,
 * `%m` is `1[0-2]|0[1-9]|[1-9]`, `%Y` is `\d\d\d\d`), takes the first match
 * the backtracking engine finds at the start of the string, raises if any text
 * is left over, and finally raises if the numbers do not name a real date.
 */
module Dates {
  import opened Wrappers
  import opened Text

  datatype Date = Date(year: int, month: int, day: int)

  predicate IsLeap(y: int)
  {
    y % 4 == 0 && (y % 100 != 0 || y % 400 == 0)
  }

  function DaysIn(y: int, m: int): int
  {
    if m == 2 then (if IsLeap(y) then 29 else 28)
    else if m == 4 || m == 6 || m == 9 || m == 11 then 30
    else 31
  }

  /** What the `datetime` constructor accepts. */
  predicate ValidDate(d: Date)
  {
    1 <= d.year <= 9999 && 1 <= d.month <= 12 && 1 <= d.day <= DaysIn(d.year, d.month)
  }

  /** One position of a regular-expression alternative: a character range. */
  datatype Cls = Cls(lo: char, hi: char)

  datatype Directive = Day | Month | Year | Lit(c: char)

  /** The alternatives of each directive, in the order the engine tries them. */
  function Alternatives(d: Directive): seq<seq<Cls>>
  {
    var digit := Cls('0', '9');
    match d
    case Day => [[Cls('3', '3'), Cls('0', '1')], [Cls('1', '2'), digit], [Cls('0', '0'), Cls('1', '9')],
                 [Cls('1', '9')], [Cls(' ', ' '), Cls('1', '9')]]
    case Month => [[Cls('1', '1'), Cls('0', '2')], [Cls('0', '0'), Cls('1', '9')], [Cls('1', '9')]]
    case Year => [[digit, digit, digit, digit]]
    case Lit(c) => [[Cls(c, c)]]
  }

  predicate AltMatches(alt: seq<Cls>, s: string, pos: nat)
  {
    pos + |alt| <= |s| && forall i | 0 <= i < |alt| :: alt[i].lo <= s[pos + i] <= alt[i].hi
  }

  /**
   * The first match of the directives `fmt` at `pos`: one number per directive
   * (the digits of the text it matched) and the position where the match ends.
   */
  function MatchFrom(fmt: seq<Directive>, s: string, pos: nat): (r: Option<(seq<nat>, nat)>)
    ensures r.Some? ==> |r.value.0| == |fmt| && r.value.1 <= |s|
    decreases |fmt|, 1
  {
    if fmt == [] then (if pos <= |s| then Some(([], pos)) else None)
    else TryAlternatives(fmt, s, pos, 0)
  }

  function TryAlternatives(fmt: seq<Directive>, s: string, pos: nat, k: nat): (r: Option<(seq<nat>, nat)>)
    requires fmt != []
    ensures r.Some? ==> |r.value.0| == |fmt| && r.value.1 <= |s|
    decreases |fmt|, 0, |Alternatives(fmt[0])| - k
  {
    var alts := Alternatives(fmt[0]);
    if k >= |alts| then None
    else if AltMatches(alts[k], s, pos) then
      match MatchFrom(fmt[1..], s, pos + |alts[k]|)
      case Some((vs, e)) => Some(([DigitsValue(s[pos..pos + |alts[k]|])] + vs, e))
      case None => TryAlternatives(fmt, s, pos, k + 1)
    else TryAlternatives(fmt, s, pos, k + 1)
  }

  const DayMonthYear: seq<Directive> := [Day, Lit('.'), Month, Lit('.'), Year]
  const YearMonthDay: seq<Directive> := [Year, Month, Day]

  /** `strptime(s, fmt)`; `None` where Python raises `ValueError` (or `TypeError`). */
  function Strptime(s: string, fmt: seq<Directive>, y: nat, m: nat, d: nat): (r: Option<Date>)
    requires y < |fmt| && m < |fmt| && d < |fmt|
    ensures r.Some? ==> ValidDate(r.value)
  {
    match MatchFrom(fmt, s, 0)
    case None => None
    case Some((vs, e)) =>
      if e != |s| then None
      else
        var date := Date(vs[y], vs[m], vs[d]);
        if ValidDate(date) then Some(date) else None
  }

  /** `datetime.strptime(s, '%d.%m.%Y')` */
  function ParseDayMonthYear(s: string): (r: Option<Date>)
    ensures r.Some? ==> ValidDate(r.value)
  {
    Strptime(s, DayMonthYear, 4, 2, 0)
  }

  /** `datetime.strptime(s, '%Y%m%d')` */
  function ParseYearMonthDay(s: string): (r: Option<Date>)
    ensures r.Some? ==> ValidDate(r.value)
  {
    Strptime(s, YearMonthDay, 0, 1, 2)
  }

  function Pad2(n: nat): (t: string)
    requires n < 100
    ensures |t| == 2 && AllDigits(t)
  {
    [DigitChar(n / 10), DigitChar(n % 10)]
  }

  function Pad4(n: nat): (t: string)
    requires n < 10000
    ensures |t| == 4 && AllDigits(t)
  {
    Pad2(n / 100) + Pad2(n % 100)
  }

  /** `date.strftime('%d.%m.%Y')` */
  function FormatDayMonthYear(d: Date): string
    requires ValidDate(d)
  {
    Pad2(d.day) + "." + Pad2(d.month) + "." + Pad4(d.year)
  }

  /** `date.strftime('%Y%m%d')` */
  function FormatYearMonthDay(d: Date): string
    requires ValidDate(d)
  {
    Pad4(d.year) + Pad2(d.month) + Pad2(d.day)
  }

  lemma Pad2Value(n: nat)
    requires n < 100
    ensures DigitsValue(Pad2(n)) == n
  {
    var t := Pad2(n);
    var hi := [DigitChar(n / 10)];
    assert t[..1] == hi && hi[..0] == [];
    DigitRoundTrip(n / 10);
    DigitRoundTrip(n % 10);
    assert DigitsValue(hi) == n / 10;
    assert DigitsValue(t) == DigitsValue(hi) * 10 + n % 10;
  }

  lemma DigitRoundTrip(d: nat)
    requires d < 10
    ensures DigitValue(DigitChar(d)) == d
  {
  }

  lemma Pad4Value(n: nat)
    requires n < 10000
    ensures DigitsValue(Pad4(n)) == n
  {
    var t := Pad4(n);
    var hi, lo := Pad2(n / 100), Pad2(n % 100);
    assert t[..3] == hi + [lo[0]] && t[..3][..2] == hi;
    Pad2Value(n / 100);
  }

  /**
   * When the alternatives before `j` do not match and alternative `j` does,
   * and the remaining directives then match, the engine takes alternative `j`.
   */
  lemma {:induction false} PickAlternative(fmt: seq<Directive>, s: string, pos: nat, k: nat, j: nat,
                                           rest: (seq<nat>, nat))
    requires fmt != [] && k <= j < |Alternatives(fmt[0])|
    requires forall i | k <= i < j :: !AltMatches(Alternatives(fmt[0])[i], s, pos)
    requires AltMatches(Alternatives(fmt[0])[j], s, pos)
    requires MatchFrom(fmt[1..], s, pos + |Alternatives(fmt[0])[j]|) == Some(rest)
    ensures TryAlternatives(fmt, s, pos, k)
         == Some(([DigitsValue(s[pos..pos + |Alternatives(fmt[0])[j]|])] + rest.0, rest.1))
    decreases j - k
  {
    if k < j {
      PickAlternative(fmt, s, pos, k + 1, j, rest);
    }
  }

  lemma FirstClassFails(alt: seq<Cls>, s: string, pos: nat)
    requires |alt| > 0 && pos < |s| && !(alt[0].lo <= s[pos] <= alt[0].hi)
    ensures !AltMatches(alt, s, pos)
  {
    assert s[pos + 0] == s[pos];
  }

  lemma Tens(v: nat)
    requires v < 40
    ensures v < 10 ==> v / 10 == 0 && v % 10 == v
    ensures 10 <= v < 20 ==> v / 10 == 1 && v % 10 == v - 10
    ensures 20 <= v < 30 ==> v / 10 == 2 && v % 10 == v - 20
    ensures 30 <= v ==> v / 10 == 3 && v % 10 == v - 30
  {
  }

  /** A zero-padded day is matched by `%d` with its value. */
  lemma DayMatchesPadded(fmt: seq<Directive>, s: string, pos: nat, v: nat, rest: (seq<nat>, nat))
    requires fmt != [] && fmt[0] == Day
    requires 1 <= v <= 31 && pos + 2 <= |s| && s[pos..pos + 2] == Pad2(v)
    requires MatchFrom(fmt[1..], s, pos + 2) == Some(rest)
    ensures MatchFrom(fmt, s, pos) == Some(([v] + rest.0, rest.1))
  {
    Pad2Value(v);
    var j := if v >= 30 then 0 else if v >= 10 then 1 else 2;
    assert s[pos] == DigitChar(v / 10) && s[pos + 1] == DigitChar(v % 10);
    Tens(v);
    var alts := Alternatives(Day);
    if v < 30 {
      FirstClassFails(alts[0], s, pos);
    }
    if v < 10 {
      FirstClassFails(alts[1], s, pos);
    }
    PickAlternative(fmt, s, pos, 0, j, rest);
  }

  /** A zero-padded month is matched by `%m` with its value. */
  lemma MonthMatchesPadded(fmt: seq<Directive>, s: string, pos: nat, v: nat, rest: (seq<nat>, nat))
    requires fmt != [] && fmt[0] == Month
    requires 1 <= v <= 12 && pos + 2 <= |s| && s[pos..pos + 2] == Pad2(v)
    requires MatchFrom(fmt[1..], s, pos + 2) == Some(rest)
    ensures MatchFrom(fmt, s, pos) == Some(([v] + rest.0, rest.1))
  {
    Pad2Value(v);
    var j := if v >= 10 then 0 else 1;
    assert s[pos] == DigitChar(v / 10) && s[pos + 1] == DigitChar(v % 10);
    Tens(v);
    if v < 10 {
      FirstClassFails(Alternatives(Month)[0], s, pos);
    }
    PickAlternative(fmt, s, pos, 0, j, rest);
  }

  /** A four-digit year is matched by `%Y` with its value. */
  lemma YearMatchesPadded(fmt: seq<Directive>, s: string, pos: nat, v: nat, rest: (seq<nat>, nat))
    requires fmt != [] && fmt[0] == Year
    requires v < 10000 && pos + 4 <= |s| && s[pos..pos + 4] == Pad4(v)
    requires MatchFrom(fmt[1..], s, pos + 4) == Some(rest)
    ensures MatchFrom(fmt, s, pos) == Some(([v] + rest.0, rest.1))
  {
    Pad4Value(v);
    assert AltMatches(Alternatives(Year)[0], s, pos) by {
      var t := Pad4(v);
      assert s[pos] == t[0] && s[pos + 1] == t[1] && s[pos + 2] == t[2] && s[pos + 3] == t[3];
    }
    PickAlternative(fmt, s, pos, 0, 0, rest);
  }

  /** A separator is matched by itself, with the value 0 of a text without digits. */
  lemma LitMatches(fmt: seq<Directive>, s: string, pos: nat, rest: (seq<nat>, nat))
    requires fmt != [] && fmt[0].Lit? && !IsDigit(fmt[0].c)
    requires pos < |s| && s[pos] == fmt[0].c
    requires MatchFrom(fmt[1..], s, pos + 1) == Some(rest)
    ensures MatchFrom(fmt, s, pos) == Some(([0] + rest.0, rest.1))
  {
    assert s[pos..pos + 1] == [fmt[0].c] && [fmt[0].c][..0] == [];
    PickAlternative(fmt, s, pos, 0, 0, rest);
  }

  /** The year, second separator and month of a formatted date match the tail of `%d.%m.%Y`. */
  lemma MonthYearTailMatches(d: Date, s: string)
    requires ValidDate(d) && s == FormatDayMonthYear(d)
    ensures MatchFrom(DayMonthYear[2..], s, 3) == Some(([d.month, 0, d.year], 10))
  {
    var f := DayMonthYear;
    assert |s| == 10 && s[3..5] == Pad2(d.month);
    assert f[2..][1..] == f[3..];
    DotYearTailMatches(d, s);
    MonthMatchesPadded(f[2..], s, 3, d.month, ([0, d.year], 10));
    assert [d.month] + [0, d.year] == [d.month, 0, d.year];
  }

  /** The `.%Y` that ends `%d.%m.%Y`. */
  lemma DotYearTailMatches(d: Date, s: string)
    requires ValidDate(d) && s == FormatDayMonthYear(d)
    ensures MatchFrom(DayMonthYear[3..], s, 5) == Some(([0, d.year], 10))
  {
    var f := DayMonthYear;
    assert |s| == 10 && s[5] == '.' && s[6..10] == Pad4(d.year);
    assert f[4..][1..] == [] && f[3..][1..] == f[4..];
    YearMatchesPadded(f[4..], s, 6, d.year, ([], 10));
    assert [d.year] + [] == [d.year];
    LitMatches(f[3..], s, 5, ([d.year], 10));
    assert [0] + [d.year] == [0, d.year];
  }

  /** `strptime(d.strftime('%d.%m.%Y'), '%d.%m.%Y') == d` */
  lemma DayMonthYearRoundTrip(d: Date)
    requires ValidDate(d)
    ensures ParseDayMonthYear(FormatDayMonthYear(d)) == Some(d)
  {
    var s := FormatDayMonthYear(d);
    var f := DayMonthYear;
    assert |s| == 10 && s[..2] == Pad2(d.day) && s[2] == '.';
    MonthYearTailMatches(d, s);
    assert f[1..][1..] == f[2..];
    assert [d.month] + [0, d.year] == [d.month, 0, d.year];
    LitMatches(f[1..], s, 2, ([d.month, 0, d.year], 10));
    assert [0] + [d.month, 0, d.year] == [0, d.month, 0, d.year];
    DayMatchesPadded(f, s, 0, d.day, ([0, d.month, 0, d.year], 10));
  }

  /** `strptime(d.strftime('%Y%m%d'), '%Y%m%d') == d` */
  lemma YearMonthDayRoundTrip(d: Date)
    requires ValidDate(d)
    ensures ParseYearMonthDay(FormatYearMonthDay(d)) == Some(d)
  {
    var s := FormatYearMonthDay(d);
    var f := YearMonthDay;
    assert |s| == 8 && s[..4] == Pad4(d.year);
    MonthDayTailMatches(d, s);
    YearMatchesPadded(f, s, 0, d.year, ([d.month, d.day], 8));
  }

  /** After the year, the month and the day of `%Y%m%d` match their padded digits. */
  lemma MonthDayTailMatches(d: Date, s: string)
    requires ValidDate(d) && s == FormatYearMonthDay(d)
    ensures MatchFrom(YearMonthDay[1..], s, 4) == Some(([d.month, d.day], 8))
  {
    var f := YearMonthDay;
    assert |s| == 8 && s[4..6] == Pad2(d.month) && s[6..8] == Pad2(d.day);
    assert f[2..][1..] == [] && f[1..][1..] == f[2..];
    DayMatchesPadded(f[2..], s, 6, d.day, ([], 8));
    assert [d.day] + [] == [d.day];
    MonthMatchesPadded(f[1..], s, 4, d.month, ([d.day], 8));
    assert [d.month] + [d.day] == [d.month, d.day];
  }
}
