/** The period views: `display_period_analysis` (dashboard.py:269-285) sums the
    downtime per day, week or month, and `display_pareto_analysis`
    (dashboard.py:380-411) lists the three largest reasons within one chosen
    period.

    Day keys are `YYYY-MM-DD` and month keys `YYYY-MM`, so ordering them as
    text orders them in time. The dashboard writes week keys with
    `strftime('%Y-W%V')`, which puts the ISO week number next to the calendar
    year rather than the ISO year; `WeekKeyAsWritten` keeps that format and
    `AsWrittenWeekKeyMisfiles` shows where it files a week under the wrong
    year. The model groups weeks by `IsoWeekKey` (`%G-W%V`), which is
    proved to name each Monday-to-Sunday week once and to sort weeks
    chronologically. */
module PeriodAnalysis {
  import opened Wrappers
  import opened Text
  import opened Calendar
  import opened Seqs
  import opened Grouping
  import opened DowntimeLoader
  import opened ReasonAnalysis

  const PARETO_SIZE := 3

  datatype Period = Day | Week | Month

  /** The sidebar's period choice: "Dag", "Week", anything else is a month. */
  function PeriodOf(selection: string): Period {
    if selection == "Dag" then Day else if selection == "Week" then Week else Month
  }

  /** `%Y` and `%G`: four digits, or all of them from year 10000 on. */
  function YearText(y: nat): (s: string)
    ensures y < 10000 ==> s == Pad4(y)
    ensures IsDecimal(s, y)
  {
    if y < 10000 then Pad4(y) else NatToString(y)
  }

  /** `strftime("%Y-%m-%d")`. */
  function DayKey(d: Date): (key: string)
    requires ValidDate(d)
    ensures |key| == 10 && key[4] == '-' && key[7] == '-'
    ensures IsDecimal(key[..4], d.year) && IsDecimal(key[5..7], d.month) && IsDecimal(key[8..], d.day)
  {
    var key := Pad4(d.year) + "-" + Pad2(d.month) + "-" + Pad2(d.day);
    assert key[..4] == Pad4(d.year) && key[5..7] == Pad2(d.month) && key[8..] == Pad2(d.day);
    key
  }

  /** `to_period("M").astype(str)`. */
  function MonthKey(d: Date): (key: string)
    requires ValidDate(d)
    ensures |key| == 7 && key[4] == '-'
    ensures IsDecimal(key[..4], d.year) && IsDecimal(key[5..], d.month)
  {
    var key := Pad4(d.year) + "-" + Pad2(d.month);
    assert key[..4] == Pad4(d.year) && key[5..] == Pad2(d.month);
    key
  }

  /** `strftime('%Y-W%V')` as the dashboard writes it: calendar year, ISO week. */
  function WeekKeyAsWritten(d: Date): (key: string)
    requires ValidDate(d)
    ensures |key| == 8 && key[4..6] == "-W"
    ensures IsDecimal(key[..4], d.year) && IsDecimal(key[6..], IsoWeekOf(d).week)
  {
    IsoWeekLocatesMonday(d);
    var key := Pad4(d.year) + "-W" + Pad2(IsoWeekOf(d).week);
    assert key[..4] == Pad4(d.year) && key[4..6] == "-W" && key[6..] == Pad2(IsoWeekOf(d).week);
    key
  }

  /** `strftime('%G-W%V')`: ISO year and ISO week. */
  function IsoWeekKey(d: Date): (key: string)
    requires ValidDate(d)
    ensures |key| >= 5 && key[|key| - 4..|key| - 2] == "-W"
    ensures IsDecimal(key[..|key| - 4], IsoWeekOf(d).year) && IsDecimal(key[|key| - 2..], IsoWeekOf(d).week)
  {
    IsoWeekLocatesMonday(d);
    var year := YearText(IsoWeekOf(d).year);
    var key := year + "-W" + Pad2(IsoWeekOf(d).week);
    assert key[..|key| - 4] == year && key[|key| - 4..|key| - 2] == "-W" && key[|key| - 2..] == Pad2(IsoWeekOf(d).week);
    key
  }

  /** The period key of a date. Every loaded event has a valid date; the
      empty key stands for a date no parse produces. */
  function PeriodKey(p: Period, d: Date): (key: string)
    ensures key == "" <==> !ValidDate(d)
  {
    if !ValidDate(d) then ""
    else match p
      case Day => DayKey(d)
      case Week => IsoWeekKey(d)
      case Month => MonthKey(d)
  }

  /** Two dates fall in the same period: the same day, the same
      Monday-to-Sunday week, or the same calendar month. */
  predicate SamePeriod(p: Period, a: Date, b: Date)
    requires ValidDate(a) && ValidDate(b)
  {
    match p
      case Day => a == b
      case Week => MondayOf(a) == MondayOf(b)
      case Month => a.year == b.year && a.month == b.month
  }

  /** The period of `a` lies before the period of `b`. */
  predicate PeriodBefore(p: Period, a: Date, b: Date)
    requires ValidDate(a) && ValidDate(b)
  {
    match p
      case Day => DateBefore(a, b)
      case Week => MondayOf(a) < MondayOf(b)
      case Month => a.year < b.year || (a.year == b.year && a.month < b.month)
  }

  function PeriodKeyOf(p: Period): Event -> string {
    (e: Event) => PeriodKey(p, Datum(e))
  }

  // ---------------------------------------------------------------------------
  // Keys and time

  lemma {:induction false} ConcatParts(a: string, b: string, c: string, d: string)
    requires |a| == |c|
    ensures a + b == c + d <==> a == c && b == d
  {
    if a + b == c + d {
      assert a == (a + b)[..|a|] && c == (c + d)[..|c|];
      assert b == (a + b)[|a|..] && d == (c + d)[|c|..];
    }
  }

  /** Day keys in text order are days in calendar order. */
  lemma {:induction false} DayKeyOrder(a: Date, b: Date)
    requires ValidDate(a) && ValidDate(b)
    ensures StrLess(DayKey(a), DayKey(b)) <==> DateBefore(a, b)
  {
    var da, db := "-" + Pad2(a.day), "-" + Pad2(b.day);
    var ma, mb := Pad2(a.month) + da, Pad2(b.month) + db;
    var ta, tb := "-" + ma, "-" + mb;
    assert DayKey(a) == Pad4(a.year) + ta && DayKey(b) == Pad4(b.year) + tb;
    StrLessConcat(Pad4(a.year), ta, Pad4(b.year), tb);
    Pad4Order(a.year, b.year);
    Pad4Injective(a.year, b.year);
    StrLessConcat("-", ma, "-", mb);
    StrLessConcat(Pad2(a.month), da, Pad2(b.month), db);
    Pad2Order(a.month, b.month);
    Pad2Injective(a.month, b.month);
    StrLessConcat("-", Pad2(a.day), "-", Pad2(b.day));
    Pad2Order(a.day, b.day);
    StrLessIrreflexive("-");
  }

  /** Two dates share a day key exactly when they are the same date. */
  lemma {:induction false} DayKeyInjective(a: Date, b: Date)
    requires ValidDate(a) && ValidDate(b)
    ensures DayKey(a) == DayKey(b) <==> a == b
  {
    if DayKey(a) == DayKey(b) {
      DayKeyOrder(a, b);
      DayKeyOrder(b, a);
      StrLessIrreflexive(DayKey(a));
    }
  }

  /** Month keys in text order are months in calendar order. */
  lemma {:induction false} MonthKeyOrder(a: Date, b: Date)
    requires ValidDate(a) && ValidDate(b)
    ensures StrLess(MonthKey(a), MonthKey(b)) <==> a.year < b.year || (a.year == b.year && a.month < b.month)
    ensures MonthKey(a) == MonthKey(b) <==> a.year == b.year && a.month == b.month
  {
    var ta, tb := "-" + Pad2(a.month), "-" + Pad2(b.month);
    assert MonthKey(a) == Pad4(a.year) + ta && MonthKey(b) == Pad4(b.year) + tb;
    StrLessConcat(Pad4(a.year), ta, Pad4(b.year), tb);
    ConcatParts(Pad4(a.year), ta, Pad4(b.year), tb);
    Pad4Order(a.year, b.year);
    Pad4Injective(a.year, b.year);
    StrLessConcat("-", Pad2(a.month), "-", Pad2(b.month));
    ConcatParts("-", Pad2(a.month), "-", Pad2(b.month));
    Pad2Order(a.month, b.month);
    Pad2Injective(a.month, b.month);
    StrLessIrreflexive("-");
  }

  /** A week written as year, "-W" and two-digit week. */
  function WeekText(y: nat, w: nat): string
    requires y < 10000 && w < 100
  {
    Pad4(y) + ("-W" + Pad2(w))
  }

  /** Week texts compare as their (year, week) pairs do. */
  lemma {:induction false} WeekTextOrder(y1: nat, w1: nat, y2: nat, w2: nat)
    requires y1 < 10000 && w1 < 100 && y2 < 10000 && w2 < 100
    ensures StrLess(WeekText(y1, w1), WeekText(y2, w2)) <==> y1 < y2 || (y1 == y2 && w1 < w2)
    ensures WeekText(y1, w1) == WeekText(y2, w2) <==> y1 == y2 && w1 == w2
  {
    StrLessConcat(Pad4(y1), "-W" + Pad2(w1), Pad4(y2), "-W" + Pad2(w2));
    ConcatParts(Pad4(y1), "-W" + Pad2(w1), Pad4(y2), "-W" + Pad2(w2));
    StrLessConcat("-W", Pad2(w1), "-W", Pad2(w2));
    ConcatParts("-W", Pad2(w1), "-W", Pad2(w2));
    StrLessIrreflexive("-W");
    Pad4Order(y1, y2);
    Pad4Injective(y1, y2);
    Pad2Order(w1, w2);
    Pad2Injective(w1, w2);
  }

  /** A period key names its period, and keys sort as their periods do:
      grouping by key is grouping by period, and sorting the keys puts the
      periods in time order. */
  lemma {:induction false} PeriodKeyNamesPeriod(p: Period, a: Date, b: Date)
    requires ValidDate(a) && ValidDate(b) && a.year < 9999 && b.year < 9999
    ensures PeriodKey(p, a) == PeriodKey(p, b) <==> SamePeriod(p, a, b)
    ensures StrLess(PeriodKey(p, a), PeriodKey(p, b)) <==> PeriodBefore(p, a, b)
  {
    match p
    case Day =>
      DayKeyInjective(a, b);
      DayKeyOrder(a, b);
    case Week =>
      IsoWeekKeyNamesWeek(a, b);
      IsoWeekKeyOrder(a, b);
    case Month =>
      MonthKeyOrder(a, b);
  }

  /** Before year 9999 the corrected key is the four-digit week text. */
  lemma {:induction false} IsoWeekKeyText(d: Date)
    requires ValidDate(d) && d.year < 9999
    ensures 0 <= IsoWeekOf(d).year < 10000 && 1 <= IsoWeekOf(d).week < 100
    ensures IsoWeekKey(d) == WeekText(IsoWeekOf(d).year, IsoWeekOf(d).week)
  {
    IsoWeekLocatesMonday(d);
  }

  /** The corrected week key names weeks: two dates share it exactly when they
      fall in the same Monday-to-Sunday week. */
  lemma {:induction false} IsoWeekKeyNamesWeek(a: Date, b: Date)
    requires ValidDate(a) && ValidDate(b) && a.year < 9999 && b.year < 9999
    ensures IsoWeekKey(a) == IsoWeekKey(b) <==> MondayOf(a) == MondayOf(b)
  {
    IsoWeekKeyText(a);
    IsoWeekKeyText(b);
    SameIsoWeekIffSameMonday(a, b);
    WeekTextOrder(IsoWeekOf(a).year, IsoWeekOf(a).week, IsoWeekOf(b).year, IsoWeekOf(b).week);
  }

  /** The corrected week keys in text order are weeks in calendar order. */
  lemma {:induction false} IsoWeekKeyOrder(a: Date, b: Date)
    requires ValidDate(a) && ValidDate(b) && a.year < 9999 && b.year < 9999
    ensures StrLess(IsoWeekKey(a), IsoWeekKey(b)) <==> MondayOf(a) < MondayOf(b)
  {
    IsoWeekKeyText(a);
    IsoWeekKeyText(b);
    IsoWeekOrderIsChronological(a, b);
    WeekTextOrder(IsoWeekOf(a).year, IsoWeekOf(a).week, IsoWeekOf(b).year, IsoWeekOf(b).week);
  }

  lemma {:induction false} IsoWeekOfLastMonday2024()
    ensures IsoWeekOf(Date(2024, 12, 30)) == IsoWeek(2025, 1)
  {
    var d := Date(2024, 12, 30);
    assert DaysBeforeMonth(2024, 12) == 335;
    assert DaysFromEpoch(d) == 20087;
    assert WeeksInYear(2024) == 52;
  }

  lemma {:induction false} IsoWeekOfFirstMonday2024()
    ensures IsoWeekOf(Date(2024, 1, 1)) == IsoWeek(2024, 1)
  {
    assert DaysFromEpoch(Date(2024, 1, 1)) == 19723;
  }

  lemma {:induction false} IsoWeekOfSecondLastMonday2024()
    ensures IsoWeekOf(Date(2024, 12, 23)) == IsoWeek(2024, 52)
  {
    var d := Date(2024, 12, 23);
    assert DaysBeforeMonth(2024, 12) == 335;
    assert DaysFromEpoch(d) == 20080;
    assert WeeksInYear(2024) == 52;
  }

  /** Before year 10000 the key as written is the week text of the calendar
      year and the ISO week. */
  lemma {:induction false} WeekKeyAsWrittenText(d: Date)
    requires ValidDate(d) && d.year < 10000
    ensures 1 <= IsoWeekOf(d).week < 100
    ensures WeekKeyAsWritten(d) == WeekText(d.year, IsoWeekOf(d).week)
  {
    IsoWeekLocatesMonday(d);
  }

  lemma {:induction false} WeekTextsAround2024()
    ensures WeekText(2024, 1) == "2024-W01" && WeekText(2024, 52) == "2024-W52"
    ensures WeekText(2025, 1) == "2025-W01"
  {
    TwoDigits(1, '0', '1');
    TwoDigits(52, '5', '2');
    YearDigits(2024, '4');
    YearDigits(2025, '5');
  }

  lemma {:induction false} YearDigits(y: nat, last: char)
    requires 2020 <= y < 2030 && last == DigitChar(y % 10)
    ensures Pad4(y) == ['2', '0', '2', last]
  {
    TwoDigits(20, '2', '0');
    TwoDigits(y % 100, '2', last);
  }

  /** The week key as written files Monday 30 December 2024 under "2024-W01",
      the key of the week of 1 January 2024, and sorts it before the week of
      23 December 2024; the corrected key files it under "2025-W01". */
  lemma {:induction false} AsWrittenWeekKeyMisfiles()
    ensures WeekKeyAsWritten(Date(2024, 12, 30)) == WeekKeyAsWritten(Date(2024, 1, 1)) == "2024-W01"
    ensures MondayOf(Date(2024, 12, 30)) != MondayOf(Date(2024, 1, 1))
    ensures WeekKeyAsWritten(Date(2024, 12, 23)) == "2024-W52"
    ensures StrLess(WeekKeyAsWritten(Date(2024, 12, 30)), WeekKeyAsWritten(Date(2024, 12, 23)))
    ensures DateBefore(Date(2024, 12, 23), Date(2024, 12, 30))
    ensures IsoWeekKey(Date(2024, 12, 30)) == "2025-W01"
  {
    var last, first, before := Date(2024, 12, 30), Date(2024, 1, 1), Date(2024, 12, 23);
    IsoWeekOfLastMonday2024();
    IsoWeekOfFirstMonday2024();
    IsoWeekOfSecondLastMonday2024();
    SameIsoWeekIffSameMonday(last, first);
    WeekKeyAsWrittenText(last);
    WeekKeyAsWrittenText(first);
    WeekKeyAsWrittenText(before);
    IsoWeekKeyText(last);
    WeekTextsAround2024();
    WeekTextOrder(2024, 1, 2024, 52);
  }

  // ---------------------------------------------------------------------------
  // Totals per period

  /** `groupby("Periode")["Duur_min"].sum()` (already in key order, so the
      `sort_values("Periode")` that follows changes nothing). */
  function PeriodTotals(events: seq<Event>, p: Period): (r: seq<Total>)
    ensures KeysAscending(r)
    ensures Sum(r, Minutes) == Sum(events, EventMinutes)
    ensures forall k :: HasKey(r, k) <==> exists i :: 0 <= i < |events| && PeriodKey(p, Datum(events[i])) == k
  {
    var pairs := PairsOf(events, PeriodKeyOf(p), EventMinutes);
    SumPairs(events, PeriodKeyOf(p), EventMinutes);
    assert forall k :: HasKey(pairs, k) <==> exists i :: 0 <= i < |events| && PeriodKey(p, Datum(events[i])) == k by {
      forall k ensures HasKey(pairs, k) <==> exists i :: 0 <= i < |events| && PeriodKey(p, Datum(events[i])) == k {
        if HasKey(pairs, k) {
          var i :| 0 <= i < |pairs| && pairs[i].key == k;
          assert PeriodKey(p, Datum(events[i])) == k;
        }
      }
    }
    GroupSum(pairs)
  }

  /** Each period's bar is the summed minutes of the events in that period. */
  lemma {:induction false} PeriodTotalsEntries(events: seq<Event>, p: Period)
    ensures forall i :: 0 <= i < |PeriodTotals(events, p)| ==>
      PeriodTotals(events, p)[i].minutes == SumFor(PairsOf(events, PeriodKeyOf(p), EventMinutes), PeriodTotals(events, p)[i].key)
  {
    GroupSumEntries(PairsOf(events, PeriodKeyOf(p), EventMinutes));
  }

  /** Daily bars come out in calendar order: an event in an earlier bar has
      an earlier date. */
  lemma {:induction false} DayTotalsChronological(events: seq<Event>, i: nat, j: nat, x: Event, y: Event)
    requires i < j < |PeriodTotals(events, Day)|
    requires ValidDate(Datum(x)) && ValidDate(Datum(y))
    requires PeriodKey(Day, Datum(x)) == PeriodTotals(events, Day)[i].key
    requires PeriodKey(Day, Datum(y)) == PeriodTotals(events, Day)[j].key
    ensures DateBefore(Datum(x), Datum(y))
  {
    DayKeyOrder(Datum(x), Datum(y));
  }

  /** Weekly bars (corrected key) come out in calendar order: an event in an
      earlier bar lies in an earlier week. */
  lemma {:induction false} WeekTotalsChronological(events: seq<Event>, i: nat, j: nat, x: Event, y: Event)
    requires i < j < |PeriodTotals(events, Week)|
    requires ValidDate(Datum(x)) && ValidDate(Datum(y)) && Datum(x).year < 9999 && Datum(y).year < 9999
    requires PeriodKey(Week, Datum(x)) == PeriodTotals(events, Week)[i].key
    requires PeriodKey(Week, Datum(y)) == PeriodTotals(events, Week)[j].key
    ensures MondayOf(Datum(x)) < MondayOf(Datum(y))
  {
    IsoWeekKeyOrder(Datum(x), Datum(y));
  }

  function Reverse(s: seq<string>): (r: seq<string>)
    ensures |r| == |s| && forall i :: 0 <= i < |s| ==> r[i] == s[|s| - 1 - i]
  {
    if s == [] then [] else Reverse(s[1..]) + [s[0]]
  }

  /** `sorted(df["Periode"].unique(), reverse=True)`: every period once, latest key first. */
  function PeriodChoices(events: seq<Event>, p: Period): (r: seq<string>)
    ensures forall i, j :: 0 <= i < j < |r| ==> StrLess(r[j], r[i])
    ensures forall k :: k in r <==> exists i :: 0 <= i < |events| && PeriodKey(p, Datum(events[i])) == k
  {
    var totals := PeriodTotals(events, p);
    var r := Reverse(KeysOf(totals));
    assert forall k :: k in r <==> HasKey(totals, k) by {
      forall k ensures k in r <==> HasKey(totals, k) {
        if HasKey(totals, k) {
          var i :| 0 <= i < |totals| && totals[i].key == k;
          assert r[|totals| - 1 - i] == k;
        }
      }
    }
    r
  }

  // ---------------------------------------------------------------------------
  // Pareto

  datatype ParetoOutcome =
    | NoData
    | NoSelection
    | NothingRelevant
    | TopReasons(reasons: seq<Total>)

  /** The events of one period. */
  function InPeriod(events: seq<Event>, p: Period, selected: string): (r: seq<Event>)
    ensures forall i :: 0 <= i < |r| ==> r[i] in events && PeriodKey(p, Datum(r[i])) == selected
    ensures forall i :: 0 <= i < |events| && PeriodKey(p, Datum(events[i])) == selected ==> events[i] in r
  {
    Filter(events, (e: Event) => PeriodKey(p, Datum(e)) == selected)
  }

  /** `display_pareto_analysis` for the chosen period: the events of that
      period minus the excluded reasons, summed per reason, the three largest. */
  function Pareto(events: seq<Event>, p: Period, selected: string, keywords: seq<string>): (r: ParetoOutcome)
    ensures r.NoData? <==> events == []
    ensures r.NoSelection? <==> events != [] && selected == ""
    ensures r.NothingRelevant? <==> events != [] && selected != "" && Relevant(InPeriod(events, p, selected), keywords) == []
    ensures r.TopReasons? ==>
      var grouped := GroupSum(ReasonPairs(Relevant(InPeriod(events, p, selected), keywords)));
      && r.reasons == TopN(grouped, PARETO_SIZE)
      && |r.reasons| == Min(PARETO_SIZE, |grouped|)
      && 1 <= |r.reasons| <= PARETO_SIZE
      && NonIncreasing(r.reasons)
  {
    if events == [] then NoData
    else if selected == "" then NoSelection
    else
      var relevant := Relevant(InPeriod(events, p, selected), keywords);
      if relevant == [] then NothingRelevant
      else
        var grouped := GroupSum(ReasonPairs(relevant));
        assert HasKey(ReasonPairs(relevant), relevant[0].reason);
        TopReasons(TopN(grouped, PARETO_SIZE))
  }

  /** Each Pareto reason carries the summed minutes of its events in the
      period, and no reason left out has more minutes than one shown. */
  lemma {:induction false} ParetoTotals(events: seq<Event>, p: Period, selected: string, keywords: seq<string>)
    requires Pareto(events, p, selected, keywords).TopReasons?
    ensures var relevant := Relevant(InPeriod(events, p, selected), keywords);
      var top := Pareto(events, p, selected, keywords).reasons;
      && (forall i :: 0 <= i < |top| ==> top[i].minutes == SumFor(ReasonPairs(relevant), top[i].key))
      && (forall i, y :: 0 <= i < |top| && y in GroupSum(ReasonPairs(relevant)) && y !in top ==> top[i].minutes >= y.minutes)
  {
    var relevant := Relevant(InPeriod(events, p, selected), keywords);
    var grouped := GroupSum(ReasonPairs(relevant));
    var top := TopN(grouped, PARETO_SIZE);
    assert Pareto(events, p, selected, keywords).reasons == top;
    TopGroupsEntries(ReasonPairs(relevant), PARETO_SIZE);
    TopNDominates(grouped, PARETO_SIZE);
  }
}
