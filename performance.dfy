/** `display_performance_outliers` (dashboard.py:345-378): the downtime per
    calendar day, turned into a performance percentage against a fixed
    eight-hour shift, and the days whose downtime stands out. */
module Performance {
  import opened Seqs
  import opened Grouping
  import opened DowntimeLoader
  import opened PeriodAnalysis

  /** PERFORMANCE_SHIFT_MINUTES: 8 * 60. */
  const SHIFT_MINUTES: real := 480.0

  /** `groupby(strftime("%Y-%m-%d"))["Duur_min"].sum()`: the day totals, in
      ascending day key. */
  function DailyTotals(events: seq<Event>): (r: seq<Total>)
    ensures KeysAscending(r)
    ensures Sum(r, Minutes) == Sum(events, EventMinutes)
    ensures forall k :: HasKey(r, k) <==> exists i :: 0 <= i < |events| && PeriodKey(Day, Datum(events[i])) == k
  {
    PeriodTotals(events, Day)
  }

  /** `(100 * (1 - downtime / 480)).clip(lower=0)`. */
  function PerformancePct(downtime: real): (pct: real)
    ensures pct >= 0.0
    ensures downtime >= 0.0 ==> pct <= 100.0
    ensures pct == 0.0 <==> downtime >= SHIFT_MINUTES
    ensures downtime <= SHIFT_MINUTES ==> pct * SHIFT_MINUTES == 100.0 * (SHIFT_MINUTES - downtime)
  {
    var raw := 100.0 * (1.0 - downtime / SHIFT_MINUTES);
    if raw < 0.0 then 0.0 else raw
  }

  /** More downtime never means a higher performance. */
  lemma {:induction false} PerformanceAntitone(a: real, b: real)
    requires a <= b
    ensures PerformancePct(b) <= PerformancePct(a)
  {
    assert a / SHIFT_MINUTES <= b / SHIFT_MINUTES;
  }

  /** One point of the performance chart. */
  datatype DayPerformance = DayPerformance(day: string, downtime: real, pct: real)

  function PerformanceRows(daily: seq<Total>): (rows: seq<DayPerformance>)
    ensures |rows| == |daily|
    ensures forall i :: 0 <= i < |rows| ==>
      rows[i].day == daily[i].key && rows[i].downtime == daily[i].minutes
        && rows[i].pct == PerformancePct(daily[i].minutes)
  {
    seq(|daily|, i requires 0 <= i < |daily| => DayPerformance(daily[i].key, daily[i].minutes, PerformancePct(daily[i].minutes)))
  }

  // ---------------------------------------------------------------------------
  // Outliers

  function Mean(ts: seq<Total>): real
    requires ts != []
  {
    Sum(ts, Minutes) / |ts| as real
  }

  function Square(x: real): (r: real)
    ensures r >= 0.0
  {
    x * x
  }

  /** Only zero squares to zero. */
  lemma {:induction false} SquarePositive(x: real)
    requires x != 0.0
    ensures Square(x) > 0.0
  {
    if x > 0.0 {
      calc { Square(x); == x * x; > 0.0; }
    } else {
      calc { Square(x); == (-x) * (-x); > 0.0; }
    }
  }

  /** The sum of the squared deviations from `m`. */
  function SquaredDeviations(ts: seq<Total>, m: real): (r: real)
    ensures r >= 0.0
  {
    if ts == [] then 0.0 else Square(ts[0].minutes - m) + SquaredDeviations(ts[1..], m)
  }

  /** The sample variance (pandas' `std` has `ddof=1`). */
  function SampleVariance(ts: seq<Total>): (v: real)
    requires |ts| >= 2
    ensures v >= 0.0
  {
    SquaredDeviations(ts, Mean(ts)) / (|ts| - 1) as real
  }

  /** The day totals pandas' `std` is taken of: `std` is the non-negative
      square root of the sample variance. */
  predicate IsSampleStd(ts: seq<Total>, std: real) {
    |ts| >= 2 && std >= 0.0 && Square(std) == SampleVariance(ts)
  }

  /** `mean + 1` when the spread is zero, else `mean + 1.5 * std`. */
  function Threshold(mean: real, std: real): (t: real)
    ensures std >= 0.0 ==> t > mean
    ensures std > 0.0 ==> t - mean > std
    ensures std == 0.0 ==> t == mean + 1.0
  {
    if std == 0.0 then mean + 1.0 else mean + 1.5 * std
  }

  /** `Total_downtime_min > threshold`. */
  function Above(threshold: real): Total -> bool {
    (t: Total) => t.minutes > threshold
  }

  datatype OutlierReport = TooFewDays | Outliers(threshold: real, days: seq<Total>)

  /** The outlier table: too few days to judge below two days, otherwise the
      days whose downtime exceeds the threshold, in day order. */
  function OutliersOf(daily: seq<Total>, std: real): (r: OutlierReport)
    requires |daily| >= 2 ==> IsSampleStd(daily, std)
    ensures r.TooFewDays? <==> |daily| < 2
    ensures r.Outliers? ==> r.threshold == Threshold(Mean(daily), std) && r.threshold > Mean(daily)
    ensures r.Outliers? ==> forall i :: 0 <= i < |r.days| ==> r.days[i] in daily && r.days[i].minutes > r.threshold
    ensures r.Outliers? ==> forall i :: 0 <= i < |daily| && daily[i].minutes > r.threshold ==> daily[i] in r.days
  {
    if |daily| < 2 then TooFewDays
    else
      var threshold := Threshold(Mean(daily), std);
      Outliers(threshold, Filter(daily, Above(threshold)))
  }

  /** Some day is at or below the mean. */
  lemma {:induction false} SomeDayAtMostMean(ts: seq<Total>)
    requires ts != []
    ensures exists i :: 0 <= i < |ts| && ts[i].minutes <= Mean(ts)
  {
    if forall i :: 0 <= i < |ts| ==> ts[i].minutes > Mean(ts) {
      SumAbove(ts, Minutes, Mean(ts));
      assert false;
    }
  }

  /** Not every day is an outlier: a day at or below the mean never is. */
  lemma {:induction false} NotAllOutliers(daily: seq<Total>, std: real)
    requires IsSampleStd(daily, std)
    ensures exists i :: 0 <= i < |daily| && daily[i] !in OutliersOf(daily, std).days
  {
    SomeDayAtMostMean(daily);
    var i :| 0 <= i < |daily| && daily[i].minutes <= Mean(daily);
    var r := OutliersOf(daily, std);
    assert forall x :: x in r.days ==> x.minutes > r.threshold;
  }

  /** No squared deviation at all means every value is the centre. */
  lemma {:induction false} NoDeviation(ts: seq<Total>, m: real)
    requires SquaredDeviations(ts, m) == 0.0
    ensures forall i :: 0 <= i < |ts| ==> ts[i].minutes == m
  {
    if ts != [] {
      assert Square(ts[0].minutes - m) == 0.0;
      if ts[0].minutes != m {
        SquarePositive(ts[0].minutes - m);
      }
      NoDeviation(ts[1..], m);
      assert forall i :: 1 <= i < |ts| ==> ts[i] == ts[1..][i - 1];
    }
  }

  /** When the spread is zero every day has the mean downtime, so the
      threshold `mean + 1` flags nothing: a day is only ever flagged when the
      daily totals differ. */
  lemma {:induction false} ZeroSpreadFlagsNothing(daily: seq<Total>, std: real)
    requires IsSampleStd(daily, std) && std == 0.0
    ensures OutliersOf(daily, std).days == []
    ensures forall i :: 0 <= i < |daily| ==> daily[i].minutes == Mean(daily)
  {
    var n := (|daily| - 1) as real;
    assert SquaredDeviations(daily, Mean(daily)) / n == 0.0;
    assert SquaredDeviations(daily, Mean(daily)) == 0.0;
    NoDeviation(daily, Mean(daily));
    FilterNone(daily, Above(Mean(daily) + 1.0));
  }

  /** Days with equal downtime have no spread. */
  lemma {:induction false} EqualDaysNoDeviation(ts: seq<Total>, c: real)
    requires forall i :: 0 <= i < |ts| ==> ts[i].minutes == c
    ensures SquaredDeviations(ts, c) == 0.0
  {
    if ts != [] {
      assert forall i :: 0 <= i < |ts| - 1 ==> ts[1..][i] == ts[i + 1];
      EqualDaysNoDeviation(ts[1..], c);
    }
  }

  /** Equal downtime on every day: the mean is that downtime and the sample
      standard deviation is zero, so the threshold is that downtime plus one
      minute and no day is flagged. */
  lemma {:induction false} EqualDaysHaveZeroSpread(daily: seq<Total>, c: real, std: real)
    requires IsSampleStd(daily, std)
    requires forall i :: 0 <= i < |daily| ==> daily[i].minutes == c
    ensures Mean(daily) == c && std == 0.0
    ensures OutliersOf(daily, std).threshold == c + 1.0
    ensures OutliersOf(daily, std).days == []
  {
    SumAtMost(daily, Minutes, c);
    SumAtLeast(daily, Minutes, c);
    var n := |daily| as real;
    calc {
      Mean(daily);
      == Sum(daily, Minutes) / n;
      == (n * c) / n;
      == c;
    }
    EqualDaysNoDeviation(daily, c);
    assert SampleVariance(daily) == 0.0 / (n - 1.0);
    if std != 0.0 {
      SquarePositive(std);
    }
    ZeroSpreadFlagsNothing(daily, std);
  }
}
