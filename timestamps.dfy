/** Start and stop times of a downtime event, and the parse that
    `pd.to_datetime(..., format="%d/%m/%y %H:%M:%S", errors="coerce")` performs
    on their text (dashboard.py:44-45). A text the format does not match
    becomes NaT, here `None`. */
module Timestamps {
  import opened Wrappers
  import opened Text
  import opened Calendar

  datatype DateTime = DateTime(date: Date, hour: int, minute: int, second: int)

  predicate ValidDateTime(t: DateTime) {
    && ValidDate(t.date)
    && 0 <= t.hour < 24
    && 0 <= t.minute < 60
    && 0 <= t.second < 60
  }

  /** Seconds since 1970-01-01 00:00:00 (timezone-naive, as the loaded table is). */
  function EpochSeconds(t: DateTime): int
    requires ValidDateTime(t)
  {
    DaysFromEpoch(t.date) * 86400 + SecondOfDay(t)
  }

  /** `.dt.time`, as seconds since midnight. */
  function SecondOfDay(t: DateTime): int {
    t.hour * 3600 + t.minute * 60 + t.second
  }

  /** The timestamp splits back into its day number and its time of day. */
  lemma {:induction false} EpochSecondsSplit(t: DateTime)
    requires ValidDateTime(t)
    ensures 0 <= SecondOfDay(t) < 86400
    ensures EpochSeconds(t) / 86400 == DaysFromEpoch(t.date)
    ensures EpochSeconds(t) % 86400 == SecondOfDay(t)
  {
  }

  // ---------------------------------------------------------------------------
  // The pattern "%d/%m/%y %H:%M:%S"
  //
  // Python's strptime pattern for each directive:
  //   %d  3[01]|[12]\d|0[1-9]|[1-9]| [1-9]      %m  1[0-2]|0[1-9]|[1-9]
  //   %y  \d\d                                   %H  2[0-3]|[0-1]\d|\d
  //   %M  [0-5]\d|\d                             %S  6[0-1]|[0-5]\d|\d
  // and the blank between the date and the time matches one or more
  // whitespace characters. Since each field is followed by a non-digit (or
  // the end of the text, which must be reached exactly), a field matches
  // exactly when the run of digits at that point has one or two digits and
  // a value within the field's range.

  datatype Scan = Scan(value: nat, rest: string)

  /** The number two digits write. */
  function TwoDigitValue(a: char, b: char): nat
    requires IsDigit(a) && IsDigit(b)
  {
    10 * DigitValue(a) + DigitValue(b)
  }

  /** One or two digits with a value in `lo..hi`, ending the run of digits. */
  function NumberField(s: string, lo: nat, hi: nat): (r: Option<Scan>)
    ensures r.Some? ==> lo <= r.value.value <= hi
    ensures r.Some? ==> 1 <= |s| - |r.value.rest| <= 2
    ensures r.Some? ==> r.value.rest == [] || !IsDigit(r.value.rest[0])
  {
    if 1 <= |s| && IsDigit(s[0]) && (|s| == 1 || !IsDigit(s[1])) then
      if lo <= DigitValue(s[0]) <= hi then Some(Scan(DigitValue(s[0]), s[1..])) else None
    else if 2 <= |s| && IsDigit(s[0]) && IsDigit(s[1]) && (|s| == 2 || !IsDigit(s[2])) then
      if lo <= TwoDigitValue(s[0], s[1]) <= hi then Some(Scan(TwoDigitValue(s[0], s[1]), s[2..])) else None
    else None
  }

  /** `%d`, which also admits a blank followed by one non-zero digit. */
  function DayField(s: string): (r: Option<Scan>)
    ensures r.Some? ==> 1 <= r.value.value <= 31
  {
    if s != [] && s[0] == ' ' then
      if 2 <= |s| && '1' <= s[1] <= '9' && (|s| == 2 || !IsDigit(s[2])) then Some(Scan(DigitValue(s[1]), s[2..])) else None
    else NumberField(s, 1, 31)
  }

  /** `%y`: exactly two digits. */
  function YearField(s: string): (r: Option<Scan>)
    ensures r.Some? ==> r.value.value <= 99
  {
    if 2 <= |s| && IsDigit(s[0]) && IsDigit(s[1]) && (|s| == 2 || !IsDigit(s[2])) then
      Some(Scan(TwoDigitValue(s[0], s[1]), s[2..]))
    else None
  }

  function Literal(s: string, c: char): Option<string> {
    if s != [] && s[0] == c then Some(s[1..]) else None
  }

  /** `\s+` */
  function Blanks(s: string): Option<string> {
    if s != [] && IsWhitespace(s[0]) then Some(StripLeft(s)) else None
  }

  /** `%y` as strptime resolves it: 00-68 are 2000-2068, 69-99 are 1969-1999. */
  function CenturyOf(yy: nat): (y: int)
    requires yy <= 99
    ensures 1969 <= y <= 2068 && y % 100 == yy
  {
    if yy <= 68 then 2000 + yy else 1900 + yy
  }

  datatype Clock = Clock(hour: nat, minute: nat, second: nat)

  /** "%H:%M:%S" up to the end of the text. */
  function ParseClock(s: string): (r: Option<Clock>)
    ensures r.Some? ==> r.value.hour <= 23 && r.value.minute <= 59 && r.value.second <= 59
  {
    var hh :- NumberField(s, 0, 23);
    var s1 :- Literal(hh.rest, ':');
    var mm :- NumberField(s1, 0, 59);
    var s2 :- Literal(mm.rest, ':');
    var ss :- NumberField(s2, 0, 59);
    if ss.rest == [] then Some(Clock(hh.value, mm.value, ss.value)) else None
  }

  datatype DayMonthYear = DayMonthYear(day: nat, month: nat, yy: nat, rest: string)

  /** "%d/%m/%y", leaving the rest of the text. */
  function ParseDayMonthYear(s: string): (r: Option<DayMonthYear>)
    ensures r.Some? ==> 1 <= r.value.day <= 31 && 1 <= r.value.month <= 12 && r.value.yy <= 99
  {
    var d :- DayField(s);
    var s1 :- Literal(d.rest, '/');
    var m :- NumberField(s1, 1, 12);
    var s2 :- Literal(m.rest, '/');
    var y :- YearField(s2);
    Some(DayMonthYear(d.value, m.value, y.value, y.rest))
  }

  /** The text as the parse reads it, or `None` (NaT) when it does not match the
      pattern in full or names a day its month does not have. */
  function ParseTimestamp(s: string): (r: Option<DateTime>)
    ensures r.Some? ==> ValidDateTime(r.value) && 1969 <= r.value.date.year <= 2068
  {
    var dmy :- ParseDayMonthYear(s);
    var s1 :- Blanks(dmy.rest);
    var c :- ParseClock(s1);
    var date := Date(CenturyOf(dmy.yy), dmy.month, dmy.day);
    if dmy.day <= DaysInMonth(date.year, date.month) then
      Some(DateTime(date, c.hour, c.minute, c.second))
    else
      None
  }

  function ClockText(t: DateTime): string
    requires ValidDateTime(t)
  {
    Pad2(t.hour) + (":" + (Pad2(t.minute) + (":" + Pad2(t.second))))
  }

  function DateText(d: Date): string
    requires ValidDate(d)
  {
    Pad2(d.day) + ("/" + (Pad2(d.month) + ("/" + Pad2(d.year % 100))))
  }

  /** The canonical text of a timestamp in this pattern, every field two digits. */
  function FormatTimestamp(t: DateTime): string
    requires ValidDateTime(t) && 1969 <= t.date.year <= 2068
  {
    DateText(t.date) + (" " + ClockText(t))
  }

  /** A padded number followed by `rest`: its two digits, and what is left. */
  lemma {:induction false} Pad2Then(n: nat, rest: string)
    requires n < 100
    ensures var s := Pad2(n) + rest;
      && |s| >= 2 && IsDigit(s[0]) && IsDigit(s[1]) && TwoDigitValue(s[0], s[1]) == n
      && s[2..] == rest && (|s| > 2 ==> s[2] == rest[0])
  {
    var p := Pad2(n);
    DecimalValueOfTwo(p);
    assert (p + rest)[2..] == rest;
  }

  lemma {:induction false} ScanPad2(n: nat, lo: nat, hi: nat, rest: string)
    requires lo <= n <= hi && n < 100
    requires rest == [] || !IsDigit(rest[0])
    ensures NumberField(Pad2(n) + rest, lo, hi) == Some(Scan(n, rest))
  {
    Pad2Then(n, rest);
  }

  lemma {:induction false} YearPad2(n: nat, rest: string)
    requires n < 100
    requires rest == [] || !IsDigit(rest[0])
    ensures YearField(Pad2(n) + rest) == Some(Scan(n, rest))
  {
    Pad2Then(n, rest);
  }

  lemma {:induction false} DayPad2(n: nat, rest: string)
    requires 1 <= n <= 31
    requires rest == [] || !IsDigit(rest[0])
    ensures DayField(Pad2(n) + rest) == Some(Scan(n, rest))
  {
    Pad2Then(n, rest);
    ScanPad2(n, 1, 31, rest);
  }

  lemma {:induction false} ClockTextReads(t: DateTime, extra: string)
    requires ValidDateTime(t)
    ensures ParseClock(ClockText(t) + extra) == if extra == [] then Some(Clock(t.hour, t.minute, t.second)) else None
  {
    var c3 := Pad2(t.second) + extra;
    var c2 := ":" + c3;
    var c1 := Pad2(t.minute) + c2;
    var c0 := ":" + c1;
    var s := Pad2(t.hour) + c0;
    assert ClockText(t) + extra == s;
    ScanPad2(t.hour, 0, 23, c0);
    assert Literal(c0, ':') == Some(c1) by { assert c0[1..] == c1; }
    ScanPad2(t.minute, 0, 59, c2);
    assert Literal(c2, ':') == Some(c3) by { assert c2[1..] == c3; }
    if extra != [] && IsDigit(extra[0]) {
      Pad2Then(t.second, extra);
      assert NumberField(c3, 0, 59) == None;
    } else {
      ScanPad2(t.second, 0, 59, extra);
    }
  }

  lemma {:induction false} DateTextReads(d: Date, rest: string)
    requires ValidDate(d) && rest != [] && !IsDigit(rest[0])
    ensures ParseDayMonthYear(DateText(d) + rest) == Some(DayMonthYear(d.day, d.month, d.year % 100, rest))
  {
    var u2 := "/" + (Pad2(d.year % 100) + rest);
    var u1 := Pad2(d.month) + u2;
    var u0 := "/" + u1;
    assert DateText(d) + rest == Pad2(d.day) + u0;
    DayPad2(d.day, u0);
    assert Literal(u0, '/') == Some(u1) by { assert u0[1..] == u1; }
    ScanPad2(d.month, 1, 12, u2);
    assert Literal(u2, '/') == Some(Pad2(d.year % 100) + rest) by { assert u2[1..] == Pad2(d.year % 100) + rest; }
    YearPad2(d.year % 100, rest);
  }

  /** Every timestamp the two-digit year can name reads back from its canonical
      text, and nothing may follow that text. */
  lemma {:induction false} OneBlank(rest: string)
    requires rest != [] && IsDigit(rest[0])
    ensures Blanks(" " + rest) == Some(rest)
  {
    var tail := " " + rest;
    assert tail[1..] == rest;
    assert StripLeft(rest) == rest;
  }

  /** ParseTimestamp, stage by stage, for a text whose date, blank and clock
      parts read as those of `t`. */
  lemma {:induction false} ReadsAsStages(t: DateTime, extra: string, s: string, rest: string)
    requires ValidDateTime(t) && 1969 <= t.date.year <= 2068
    requires ParseDayMonthYear(s) == Some(DayMonthYear(t.date.day, t.date.month, t.date.year % 100, " " + rest))
    requires Blanks(" " + rest) == Some(rest)
    requires ParseClock(rest) == if extra == [] then Some(Clock(t.hour, t.minute, t.second)) else None
    ensures ParseTimestamp(s) == if extra == [] then Some(t) else None
  {
    CenturyOfYear(t.date.year);
  }

  /** The two-digit year of a year in the window gives that year back. */
  lemma {:induction false} CenturyOfYear(y: int)
    requires 1969 <= y <= 2068
    ensures CenturyOf(y % 100) == y
  {
  }

  lemma {:induction false} Regroup(a: string, b: string, c: string, d: string)
    ensures (a + (b + c)) + d == a + (b + (c + d))
  {
  }

  lemma {:induction false} ParseFormatRoundTrip(t: DateTime, extra: string)
    requires ValidDateTime(t) && 1969 <= t.date.year <= 2068
    ensures ParseTimestamp(FormatTimestamp(t) + extra) == if extra == [] then Some(t) else None
  {
    var rest := ClockText(t) + extra;
    Regroup(DateText(t.date), " ", ClockText(t), extra);
    DateTextReads(t.date, " " + rest);
    assert rest[0] == Pad2(t.hour)[0];
    OneBlank(rest);
    ClockTextReads(t, extra);
    ReadsAsStages(t, extra, FormatTimestamp(t) + extra, rest);
  }

  /** A text that formats a valid timestamp parses back to it. */
  lemma {:induction false} ParsesFormatted(t: DateTime, s: string)
    requires ValidDateTime(t) && 1969 <= t.date.year <= 2068 && FormatTimestamp(t) == s
    ensures ParseTimestamp(s) == Some(t)
  {
    ParseFormatRoundTrip(t, []);
    assert FormatTimestamp(t) + [] == s;
  }

  /** Texts as they appear in the export. */
  lemma {:induction false} ParseExampleMorning()
    ensures ParseTimestamp("01/01/24 08:00:00") == Some(DateTime(Date(2024, 1, 1), 8, 0, 0))
  {
    FormatMorning();
    ParsesFormatted(DateTime(Date(2024, 1, 1), 8, 0, 0), "01/01/24 08:00:00");
  }

  lemma {:induction false} FormatMorning()
    ensures FormatTimestamp(DateTime(Date(2024, 1, 1), 8, 0, 0)) == "01/01/24 08:00:00"
  {
    NewYear24Text();
    ClockTextOf(DateTime(Date(2024, 1, 1), 8, 0, 0), '0', '8', '0', '0', '0', '0');
  }

  lemma {:induction false} ParseExampleQuarterPast()
    ensures ParseTimestamp("01/01/24 08:15:00") == Some(DateTime(Date(2024, 1, 1), 8, 15, 0))
  {
    FormatQuarterPast();
    ParsesFormatted(DateTime(Date(2024, 1, 1), 8, 15, 0), "01/01/24 08:15:00");
  }

  lemma {:induction false} FormatQuarterPast()
    ensures FormatTimestamp(DateTime(Date(2024, 1, 1), 8, 15, 0)) == "01/01/24 08:15:00"
  {
    NewYear24Text();
    ClockTextOf(DateTime(Date(2024, 1, 1), 8, 15, 0), '0', '8', '1', '5', '0', '0');
  }

  lemma {:induction false} NewYear24Text()
    ensures DateText(Date(2024, 1, 1)) == "01/01/24"
  {
    TwoDigits(1, '0', '1');
    TwoDigits(24, '2', '4');
  }

  /** The clock text of a time, digit by digit. */
  lemma {:induction false} ClockTextOf(t: DateTime, h1: char, h2: char, m1: char, m2: char, s1: char, s2: char)
    requires ValidDateTime(t)
    requires h1 == DigitChar(t.hour / 10) && h2 == DigitChar(t.hour % 10)
    requires m1 == DigitChar(t.minute / 10) && m2 == DigitChar(t.minute % 10)
    requires s1 == DigitChar(t.second / 10) && s2 == DigitChar(t.second % 10)
    ensures ClockText(t) == [h1, h2, ':', m1, m2, ':', s1, s2]
  {
    TwoDigits(t.hour, h1, h2);
    TwoDigits(t.minute, m1, m2);
    TwoDigits(t.second, s1, s2);
  }

  /** The last second of the earliest century the two-digit year reaches. */
  lemma {:induction false} ParseExampleEarliest()
    ensures ParseTimestamp("31/12/69 23:59:59") == Some(DateTime(Date(1969, 12, 31), 23, 59, 59))
  {
    FormatEarliest();
    ParsesFormatted(DateTime(Date(1969, 12, 31), 23, 59, 59), "31/12/69 23:59:59");
  }

  lemma {:induction false} FormatEarliest()
    ensures FormatTimestamp(DateTime(Date(1969, 12, 31), 23, 59, 59)) == "31/12/69 23:59:59"
  {
    LastDay69Text();
    ClockTextOf(DateTime(Date(1969, 12, 31), 23, 59, 59), '2', '3', '5', '9', '5', '9');
  }

  lemma {:induction false} LastDay69Text()
    ensures DateText(Date(1969, 12, 31)) == "31/12/69"
  {
    TwoDigits(31, '3', '1');
    TwoDigits(12, '1', '2');
    TwoDigits(69, '6', '9');
  }

  /** A text naming a day its month does not have is NaT, whatever follows the date. */
  lemma {:induction false} RejectsImpossibleDay(s: string)
    requires ParseDayMonthYear(s).Some?
    requires ParseDayMonthYear(s).value.day > DaysInMonth(CenturyOf(ParseDayMonthYear(s).value.yy), ParseDayMonthYear(s).value.month)
    ensures ParseTimestamp(s) == None
  {
  }

  // ---------------------------------------------------------------------------
  // The pattern as a description of the texts it admits
  //
  // The same format, stated without the parser: a text matches when it splits,
  // at separator positions, into a date, a run of whitespace and a clock, and
  // each field is one of its directive's alternatives. ParseMatches shows that
  // the parse reads a text exactly when it has this shape and names a real date
  // and time, so every other text becomes NaT.

  /** `s[a..b]` is one or two digits with a value in `lo..hi`: the alternatives
      of `%m`, `%H`, `%M` and `%S`, and of `%d` apart from its blank form. */
  predicate FieldAt(s: string, a: int, b: int, v: int, lo: int, hi: int) {
    && 0 <= a < b <= |s| && b - a <= 2
    && IsDigit(s[a]) && IsDigit(s[b - 1])
    && v == (if b - a == 1 then DigitValue(s[a]) else TwoDigitValue(s[a], s[a + 1]))
    && lo <= v <= hi
  }

  /** `%d` at `s[a..b]`: a field in 1..31, or a blank followed by one non-zero digit. */
  predicate DayAt(s: string, a: int, b: int, v: int) {
    || FieldAt(s, a, b, v, 1, 31)
    || (0 <= a && b == a + 2 <= |s| && s[a] == ' ' && '1' <= s[a + 1] <= '9' && DigitValue(s[a + 1]) == v)
  }

  /** `%y` at `s[a..a + 2]`: two digits, naming the year of 1969..2068 that ends in them. */
  predicate YearAt(s: string, a: int, y: int) {
    && 0 <= a && a + 2 <= |s| && IsDigit(s[a]) && IsDigit(s[a + 1])
    && 1969 <= y <= 2068 && y % 100 == TwoDigitValue(s[a], s[a + 1])
  }

  /** `\s+` at `s[a..b]`. */
  predicate BlanksAt(s: string, a: int, b: int) {
    0 <= a < b <= |s| && forall k :: a <= k < b ==> IsWhitespace(s[k])
  }

  /** "%d/%m/%y" at `s[..k]`, with its slashes at `i` and `j`. */
  predicate DateAt(s: string, i: int, j: int, k: int, d: Date) {
    && 0 <= i < j && k == j + 3 <= |s| && s[i] == '/' && s[j] == '/'
    && DayAt(s, 0, i, d.day) && FieldAt(s, i + 1, j, d.month, 1, 12) && YearAt(s, j + 1, d.year)
  }

  /** "%H:%M:%S" at `s[c..]`, with its colons at `i` and `j`. */
  predicate ClockAt(s: string, c: int, i: int, j: int, hour: int, minute: int, second: int) {
    && 0 <= c < i < j < |s| && s[i] == ':' && s[j] == ':'
    && FieldAt(s, c, i, hour, 0, 23) && FieldAt(s, i + 1, j, minute, 0, 59) && FieldAt(s, j + 1, |s|, second, 0, 59)
  }

  /** The text is a date ending at `k`, whitespace up to `c` and a clock from `c` on. */
  predicate MatchesAt(s: string, i: int, j: int, k: int, c: int, m: int, n: int, t: DateTime) {
    DateAt(s, i, j, k, t.date) && BlanksAt(s, k, c) && ClockAt(s, c, m, n, t.hour, t.minute, t.second)
  }

  /** The whole text matches "%d/%m/%y %H:%M:%S" with the fields of `t`. */
  ghost predicate Matches(s: string, t: DateTime) {
    exists i, j, k, c, m, n :: MatchesAt(s, i, j, k, c, m, n, t)
  }

  lemma {:induction false} LiteralAt(s: string, k: int, c: char)
    requires 0 <= k < |s| && s[k] == c
    ensures Literal(s[k..], c) == Some(s[k + 1..])
  {
    assert s[k..][1..] == s[k + 1..];
  }

  lemma {:induction false} LiteralBack(s: string, k: int, t: string, c: char, rest: string)
    requires 0 <= k <= |s| && t == s[k..] && Literal(t, c) == Some(rest)
    ensures k < |s| && s[k] == c && rest == s[k + 1..]
  {
    assert t[0] == s[k];
    assert t[1..] == s[k + 1..];
  }

  /** A field followed by a non-digit reads as its value. */
  lemma {:induction false} FieldReads(s: string, a: int, b: int, v: int, lo: nat, hi: nat)
    requires FieldAt(s, a, b, v, lo, hi) && (b == |s| || !IsDigit(s[b]))
    ensures NumberField(s[a..], lo, hi) == Some(Scan(v, s[b..]))
  {
    var t := s[a..];
    assert t[0] == s[a];
    if b - a == 2 {
      assert t[1] == s[a + 1];
    }
    if b < |s| {
      assert t[b - a] == s[b];
    }
    assert t[b - a..] == s[b..];
  }

  /** What a successful field read at `s[a..]` consumed is a field, followed by a non-digit. */
  lemma {:induction false} FieldReadBack(s: string, a: int, b: int, t: string, lo: nat, hi: nat, r: Scan)
    requires 0 <= a <= |s| && t == s[a..] && NumberField(t, lo, hi) == Some(r) && b == |s| - |r.rest|
    ensures FieldAt(s, a, b, r.value, lo, hi) && r.rest == s[b..] && (b == |s| || !IsDigit(s[b]))
  {
    var n := |t| - |r.rest|;
    assert t[0] == s[a];
    if n == 2 {
      assert t[1] == s[a + 1];
    }
    assert t[n..] == s[a + n..];
    if a + n < |s| {
      assert t[n] == s[a + n];
    }
  }

  lemma {:induction false} DayReads(s: string, b: int, v: int)
    requires DayAt(s, 0, b, v) && b < |s| && !IsDigit(s[b])
    ensures DayField(s) == Some(Scan(v, s[b..]))
  {
    assert s[0..] == s;
    if FieldAt(s, 0, b, v, 1, 31) {
      FieldReads(s, 0, b, v, 1, 31);
    }
  }

  lemma {:induction false} DayReadBack(s: string, r: Scan)
    requires DayField(s) == Some(r)
    ensures var b := |s| - |r.rest|; DayAt(s, 0, b, r.value) && r.rest == s[b..]
  {
    assert s[0..] == s;
    if s[0] != ' ' {
      FieldReadBack(s, 0, |s| - |r.rest|, s, 1, 31, r);
    }
  }

  lemma {:induction false} YearReads(s: string, a: int, y: int)
    requires YearAt(s, a, y) && a + 2 < |s| && !IsDigit(s[a + 2])
    ensures YearField(s[a..]) == Some(Scan(y % 100, s[a + 2..]))
  {
    var t := s[a..];
    assert t[0] == s[a] && t[1] == s[a + 1] && t[2] == s[a + 2];
    assert t[2..] == s[a + 2..];
  }

  lemma {:induction false} YearReadBack(s: string, a: int, t: string, r: Scan)
    requires 0 <= a <= |s| && t == s[a..] && YearField(t) == Some(r)
    ensures YearAt(s, a, CenturyOf(r.value)) && r.rest == s[a + 2..]
  {
    assert t[0] == s[a] && t[1] == s[a + 1];
    assert t[2..] == s[a + 2..];
  }

  /** Whitespace followed by a digit is what `Blanks` skips. */
  lemma {:induction false} BlanksSkip(s: string, a: int, b: int)
    requires BlanksAt(s, a, b) && b < |s| && IsDigit(s[b])
    ensures Blanks(s[a..]) == Some(s[b..])
  {
    var t := s[a..];
    var n := LeadingBlanks(t);
    assert t[0] == s[a] && t[b - a] == s[b];
    assert n < |t| ==> t[n] == s[a + n];
    assert t[b - a..] == s[b..];
  }

  /** What `Blanks` skips is whitespace. */
  lemma {:induction false} BlanksBack(s: string, a: int, t: string, rest: string)
    requires 0 <= a <= |s| && t == s[a..] && Blanks(t) == Some(rest)
    ensures var b := |s| - |rest|; BlanksAt(s, a, b) && rest == s[b..]
  {
    var n := LeadingBlanks(t);
    forall k | a <= k < a + n
      ensures IsWhitespace(s[k])
    {
      assert t[k - a] == s[k];
    }
    assert t[n..] == s[a + n..];
  }

  /** ParseClock from the results of its stages. */
  lemma {:induction false} ClockStages(s: string, c: int, i: int, j: int, hour: nat, minute: nat, second: nat)
    requires 0 <= c <= i < j < |s|
    requires NumberField(s[c..], 0, 23) == Some(Scan(hour, s[i..])) && Literal(s[i..], ':') == Some(s[i + 1..])
    requires NumberField(s[i + 1..], 0, 59) == Some(Scan(minute, s[j..])) && Literal(s[j..], ':') == Some(s[j + 1..])
    requires NumberField(s[j + 1..], 0, 59) == Some(Scan(second, []))
    ensures ParseClock(s[c..]) == Some(Clock(hour, minute, second))
  {
  }

  /** The stages of a successful ParseClock. */
  lemma {:induction false} ClockStagesBack(p: string) returns (h: Scan, s1: string, m: Scan, s2: string, z: Scan)
    requires ParseClock(p).Some?
    ensures NumberField(p, 0, 23) == Some(h) && Literal(h.rest, ':') == Some(s1)
    ensures NumberField(s1, 0, 59) == Some(m) && Literal(m.rest, ':') == Some(s2)
    ensures NumberField(s2, 0, 59) == Some(z) && z.rest == []
    ensures ParseClock(p).value == Clock(h.value, m.value, z.value)
  {
    h := NumberField(p, 0, 23).value;
    s1 := Literal(h.rest, ':').value;
    m := NumberField(s1, 0, 59).value;
    s2 := Literal(m.rest, ':').value;
    z := NumberField(s2, 0, 59).value;
  }

  /** The minutes and seconds of the clock, each after its colon, read as themselves. */
  lemma {:induction false} ClockTailReads(s: string, i: int, j: int, minute: int, second: int)
    requires 0 <= i < j < |s| && s[i] == ':' && s[j] == ':'
    requires FieldAt(s, i + 1, j, minute, 0, 59) && FieldAt(s, j + 1, |s|, second, 0, 59)
    ensures Literal(s[i..], ':') == Some(s[i + 1..]) && NumberField(s[i + 1..], 0, 59) == Some(Scan(minute, s[j..]))
    ensures Literal(s[j..], ':') == Some(s[j + 1..]) && NumberField(s[j + 1..], 0, 59) == Some(Scan(second, []))
  {
    LiteralAt(s, i, ':');
    FieldReads(s, i + 1, j, minute, 0, 59);
    LiteralAt(s, j, ':');
    FieldReads(s, j + 1, |s|, second, 0, 59);
    assert s[|s|..] == [];
  }

  lemma {:induction false} ClockReads(s: string, c: int, i: int, j: int, hour: int, minute: int, second: int)
    requires ClockAt(s, c, i, j, hour, minute, second)
    ensures ParseClock(s[c..]) == Some(Clock(hour, minute, second))
  {
    FieldReads(s, c, i, hour, 0, 23);
    ClockTailReads(s, i, j, minute, second);
    ClockStages(s, c, i, j, hour, minute, second);
  }

  /** The texts the minute and second stages of ParseClock consumed, from the first colon on. */
  lemma {:induction false} ClockTailBack(s: string, i: int, j: int, t: string, s1: string, m: Scan, s2: string, z: Scan)
    requires 0 <= i <= |s| && t == s[i..] && Literal(t, ':') == Some(s1)
    requires NumberField(s1, 0, 59) == Some(m) && Literal(m.rest, ':') == Some(s2)
    requires NumberField(s2, 0, 59) == Some(z) && z.rest == [] && j == |s| - |m.rest|
    ensures i < j < |s| && s[i] == ':' && s[j] == ':'
    ensures FieldAt(s, i + 1, j, m.value, 0, 59) && FieldAt(s, j + 1, |s|, z.value, 0, 59)
  {
    LiteralBack(s, i, t, ':', s1);
    FieldReadBack(s, i + 1, j, s1, 0, 59, m);
    LiteralBack(s, j, m.rest, ':', s2);
    FieldReadBack(s, j + 1, |s|, s2, 0, 59, z);
  }

  /** The texts the stages of ParseClock consumed form the clock pattern. */
  lemma {:induction false} ClockBack(s: string, c: int, p: string, h: Scan, s1: string, m: Scan, s2: string, z: Scan, x: Clock, i: int, j: int)
    requires 0 <= c <= |s| && p == s[c..]
    requires NumberField(p, 0, 23) == Some(h) && Literal(h.rest, ':') == Some(s1)
    requires NumberField(s1, 0, 59) == Some(m) && Literal(m.rest, ':') == Some(s2)
    requires NumberField(s2, 0, 59) == Some(z) && z.rest == []
    requires x == Clock(h.value, m.value, z.value) && i == |s| - |h.rest| && j == |s| - |m.rest|
    ensures ClockAt(s, c, i, j, x.hour, x.minute, x.second)
  {
    FieldReadBack(s, c, i, p, 0, 23, h);
    ClockTailBack(s, i, j, h.rest, s1, m, s2, z);
  }

  /** ParseDayMonthYear from the results of its stages. */
  lemma {:induction false} DateStages(s: string, d: Scan, s1: string, m: Scan, s2: string, y: Scan)
    requires DayField(s) == Some(d) && Literal(d.rest, '/') == Some(s1)
    requires NumberField(s1, 1, 12) == Some(m) && Literal(m.rest, '/') == Some(s2)
    requires YearField(s2) == Some(y)
    ensures ParseDayMonthYear(s) == Some(DayMonthYear(d.value, m.value, y.value, y.rest))
  {
  }

  /** The stages of a successful ParseDayMonthYear. */
  lemma {:induction false} DateStagesBack(s: string) returns (d: Scan, s1: string, m: Scan, s2: string, y: Scan)
    requires ParseDayMonthYear(s).Some?
    ensures DayField(s) == Some(d) && Literal(d.rest, '/') == Some(s1)
    ensures NumberField(s1, 1, 12) == Some(m) && Literal(m.rest, '/') == Some(s2)
    ensures YearField(s2) == Some(y)
    ensures ParseDayMonthYear(s).value == DayMonthYear(d.value, m.value, y.value, y.rest)
  {
    d := DayField(s).value;
    s1 := Literal(d.rest, '/').value;
    m := NumberField(s1, 1, 12).value;
    s2 := Literal(m.rest, '/').value;
    y := YearField(s2).value;
  }

  lemma {:induction false} DateReads(s: string, i: int, j: int, k: int, d: Date)
    requires DateAt(s, i, j, k, d) && k < |s| && !IsDigit(s[k])
    ensures ParseDayMonthYear(s) == Some(DayMonthYear(d.day, d.month, d.year % 100, s[k..]))
  {
    DayReads(s, i, d.day);
    LiteralAt(s, i, '/');
    FieldReads(s, i + 1, j, d.month, 1, 12);
    LiteralAt(s, j, '/');
    YearReads(s, j + 1, d.year);
    DateStages(s, Scan(d.day, s[i..]), s[i + 1..], Scan(d.month, s[j..]), s[j + 1..], Scan(d.year % 100, s[k..]));
  }

  /** The texts the stages of ParseDayMonthYear consumed form the date pattern. */
  lemma {:induction false} DateBack(s: string, d: Scan, s1: string, m: Scan, s2: string, y: Scan, i: int, j: int, k: int, date: Date)
    requires DayField(s) == Some(d) && Literal(d.rest, '/') == Some(s1)
    requires NumberField(s1, 1, 12) == Some(m) && Literal(m.rest, '/') == Some(s2)
    requires YearField(s2) == Some(y)
    requires i == |s| - |d.rest| && j == |s| - |m.rest| && k == |s| - |y.rest|
    requires date == Date(CenturyOf(y.value), m.value, d.value)
    ensures DateAt(s, i, j, k, date) && y.rest == s[k..]
  {
    DayReadBack(s, d);
    LiteralBack(s, i, d.rest, '/', s1);
    FieldReadBack(s, i + 1, j, s1, 1, 12, m);
    LiteralBack(s, j, m.rest, '/', s2);
    YearReadBack(s, j + 1, s2, y);
  }

  /** ParseTimestamp from the results of its stages. */
  lemma {:induction false} TimestampStages(s: string, r: DayMonthYear, s1: string, c: Clock)
    requires ParseDayMonthYear(s) == Some(r) && Blanks(r.rest) == Some(s1) && ParseClock(s1) == Some(c)
    requires r.day <= DaysInMonth(CenturyOf(r.yy), r.month)
    ensures ParseTimestamp(s) == Some(DateTime(Date(CenturyOf(r.yy), r.month, r.day), c.hour, c.minute, c.second))
  {
  }

  /** The stages of a successful ParseTimestamp. */
  lemma {:induction false} TimestampStagesBack(s: string)
    requires ParseTimestamp(s).Some?
    ensures ParseDayMonthYear(s).Some?
    ensures var r := ParseDayMonthYear(s).value;
      && Blanks(r.rest).Some?
      && ParseClock(Blanks(r.rest).value).Some?
      && var c := ParseClock(Blanks(r.rest).value).value;
      && ParseTimestamp(s).value == DateTime(Date(CenturyOf(r.yy), r.month, r.day), c.hour, c.minute, c.second)
  {
  }

  /** A text that matches the pattern for a real date and time reads as it. */
  lemma {:induction false} ParseFromParts(s: string, t: DateTime, i: int, j: int, k: int, c: int, m: int, n: int)
    requires MatchesAt(s, i, j, k, c, m, n, t) && ValidDateTime(t)
    ensures ParseTimestamp(s) == Some(t)
  {
    DateReads(s, i, j, k, t.date);
    BlanksSkip(s, k, c);
    ClockReads(s, c, m, n, t.hour, t.minute, t.second);
    CenturyOfYear(t.date.year);
    TimestampStages(s, DayMonthYear(t.date.day, t.date.month, t.date.year % 100, s[k..]), s[c..], Clock(t.hour, t.minute, t.second));
  }

  /** Where a successful ParseDayMonthYear put the slashes. */
  lemma {:induction false} DateSeparators(s: string, r: DayMonthYear, k: int) returns (i: int, j: int)
    requires ParseDayMonthYear(s) == Some(r) && k == |s| - |r.rest|
    ensures DateAt(s, i, j, k, Date(CenturyOf(r.yy), r.month, r.day)) && r.rest == s[k..]
  {
    var d, s1, m, s2, y := DateStagesBack(s);
    i, j := |s| - |d.rest|, |s| - |m.rest|;
    DateBack(s, d, s1, m, s2, y, i, j, k, Date(CenturyOf(r.yy), r.month, r.day));
  }

  /** Where a successful ParseClock of `s[c..]` put the colons. */
  lemma {:induction false} ClockSeparators(s: string, c: int, p: string, x: Clock) returns (i: int, j: int)
    requires 0 <= c <= |s| && p == s[c..] && ParseClock(p) == Some(x)
    ensures ClockAt(s, c, i, j, x.hour, x.minute, x.second)
  {
    var h, s1, m, s2, z := ClockStagesBack(p);
    i, j := |s| - |h.rest|, |s| - |m.rest|;
    ClockBack(s, c, p, h, s1, m, s2, z, x, i, j);
  }

  /** A text the parse reads matches the pattern for what it reads. */
  lemma {:induction false} MatchesFromParse(s: string)
    requires ParseTimestamp(s).Some?
    ensures Matches(s, ParseTimestamp(s).value)
  {
    TimestampStagesBack(s);
    var r := ParseDayMonthYear(s).value;
    var k := |s| - |r.rest|;
    var i, j := DateSeparators(s, r, k);
    var p := Blanks(r.rest).value;
    var c := |s| - |p|;
    BlanksBack(s, k, r.rest, p);
    var m, n := ClockSeparators(s, c, p, ParseClock(p).value);
    assert MatchesAt(s, i, j, k, c, m, n, ParseTimestamp(s).value);
  }

  /** The parse reads `t` from a text exactly when the text matches the
      pattern with the fields of `t` and `t` is a real date and time. */
  lemma {:induction false} ParseMatches(s: string, t: DateTime)
    ensures ParseTimestamp(s) == Some(t) <==> Matches(s, t) && ValidDateTime(t)
  {
    if ParseTimestamp(s) == Some(t) {
      MatchesFromParse(s);
    }
    if Matches(s, t) && ValidDateTime(t) {
      var i, j, k, c, m, n :| MatchesAt(s, i, j, k, c, m, n, t);
      ParseFromParts(s, t, i, j, k, c, m, n);
    }
  }

  /** Every text that does not match the pattern with a real date and time,
      and only such a text, becomes NaT. */
  lemma {:induction false} UnmatchedIsMissing(s: string)
    ensures ParseTimestamp(s) == None <==> forall t :: !(Matches(s, t) && ValidDateTime(t))
  {
    if ParseTimestamp(s).Some? {
      ParseMatches(s, ParseTimestamp(s).value);
    } else {
      forall t
        ensures !(Matches(s, t) && ValidDateTime(t))
      {
        ParseMatches(s, t);
      }
    }
  }
}
