/** `display_order_analysis` (dashboard.py:287-343): the three orders with the
    most downtime, the longest single event of each, and for every working
    day the three largest orders of that day with the reason that cost each
    of them most. Events without an order number are left out of every
    group-by on the order, as pandas drops missing keys. */
module OrderAnalysis {
  import opened Wrappers
  import opened Text
  import opened Calendar
  import opened Seqs
  import opened Grouping
  import opened Csv
  import opened DowntimeLoader
  import opened ReasonAnalysis

  const TOP_ORDERS := 3
  const WEEKDAY_NAMES: seq<string> := ["Maandag", "Dinsdag", "Woensdag", "Donderdag", "Vrijdag"]

  predicate HasOrder(e: Event) { e.order.Some? }

  function OrderKey(e: Event): string { if e.order.Some? then e.order.value else "" }

  /** The events of one order. */
  function OrderEvents(events: seq<Event>, k: string): (r: seq<Event>)
    ensures forall i :: 0 <= i < |r| ==> r[i] in events && r[i].order == Some(k)
    ensures forall i :: 0 <= i < |events| && events[i].order == Some(k) ==> events[i] in r
  {
    Filter(events, (e: Event) => e.order == Some(k))
  }

  /** The (order, minutes) pairs of the events that have an order number. */
  function OrderPairs(events: seq<Event>): seq<Total> {
    PairsOf(Filter(events, HasOrder), OrderKey, EventMinutes)
  }

  /** `groupby("Ordernummer")["Duur_min"].sum()`. */
  function OrderTotals(events: seq<Event>): (r: seq<Total>)
    ensures KeysAscending(r)
  {
    GroupSum(OrderPairs(events))
  }

  lemma {:induction false} OrderPairsSum(events: seq<Event>, k: string)
    ensures SumFor(OrderPairs(events), k) == Sum(OrderEvents(events, k), EventMinutes)
  {
    if events != [] {
      OrderPairsSum(events[1..], k);
      OrderPairsStep(events, k);
      OrderEventsStep(events, k);
    }
  }

  /** The first event adds its minutes to its own order's pairs only. */
  lemma {:induction false} OrderPairsStep(events: seq<Event>, k: string)
    requires events != []
    ensures SumFor(OrderPairs(events), k)
         == (if events[0].order == Some(k) then events[0].minutes else 0.0) + SumFor(OrderPairs(events[1..]), k)
  {
    var e := events[0];
    var w, rest := Filter(events, HasOrder), Filter(events[1..], HasOrder);
    assert w == (if HasOrder(e) then [e] else []) + rest;
    if HasOrder(e) {
      assert w[0] == e && w[1..] == rest;
      var pairs := PairsOf(w, OrderKey, EventMinutes);
      assert pairs == [Total(OrderKey(e), e.minutes)] + PairsOf(rest, OrderKey, EventMinutes);
      assert pairs[0].key == OrderKey(e) && pairs[1..] == PairsOf(rest, OrderKey, EventMinutes);
    } else {
      assert w == rest;
    }
  }

  /** The first event adds its minutes to its own order's events only. */
  lemma {:induction false} OrderEventsStep(events: seq<Event>, k: string)
    requires events != []
    ensures Sum(OrderEvents(events, k), EventMinutes)
         == (if events[0].order == Some(k) then events[0].minutes else 0.0) + Sum(OrderEvents(events[1..], k), EventMinutes)
  {
    var e := events[0];
    var head := if e.order == Some(k) then [e] else [];
    assert OrderEvents(events, k) == head + OrderEvents(events[1..], k);
    SumAppend(head, OrderEvents(events[1..], k), EventMinutes);
    assert [e][1..] == [];
  }

  /** A key has a total exactly when some event carries that order number. */
  lemma {:induction false} OrderTotalsKeys(events: seq<Event>, k: string)
    ensures HasKey(OrderTotals(events), k) <==> exists i :: 0 <= i < |events| && events[i].order == Some(k)
  {
    if HasKey(OrderPairs(events), k) {
      OrderKeyHasEvent(events, k);
    }
    if exists i :: 0 <= i < |events| && events[i].order == Some(k) {
      var i :| 0 <= i < |events| && events[i].order == Some(k);
      EventHasOrderKey(events, k, i);
    }
  }

  lemma {:induction false} OrderKeyHasEvent(events: seq<Event>, k: string)
    requires HasKey(OrderPairs(events), k)
    ensures exists i :: 0 <= i < |events| && events[i].order == Some(k)
  {
    var withOrder := Filter(events, HasOrder);
    var pairs := OrderPairs(events);
    var j :| 0 <= j < |pairs| && pairs[j].key == k;
    var i :| 0 <= i < |events| && events[i] == withOrder[j];
  }

  lemma {:induction false} EventHasOrderKey(events: seq<Event>, k: string, i: nat)
    requires i < |events| && events[i].order == Some(k)
    ensures HasKey(OrderPairs(events), k)
  {
    var withOrder := Filter(events, HasOrder);
    var j :| 0 <= j < |withOrder| && withOrder[j] == events[i];
    assert OrderPairs(events)[j].key == k;
  }

  // ---------------------------------------------------------------------------
  // Top three orders

  /** `groupby(...).sum().sort_values(ascending=False).head(3)`. */
  function TopOrders(events: seq<Event>): (r: seq<Total>)
    ensures |r| == Min(TOP_ORDERS, |OrderTotals(events)|)
    ensures NonIncreasing(r)
  {
    TopN(OrderTotals(events), TOP_ORDERS)
  }

  /** Each listed order carries the summed minutes of its events, and no
      order left out has more downtime than one listed. */
  lemma {:induction false} TopOrdersTotals(events: seq<Event>)
    ensures forall i :: 0 <= i < |TopOrders(events)| ==>
      TopOrders(events)[i].minutes == Sum(OrderEvents(events, TopOrders(events)[i].key), EventMinutes)
    ensures forall i, y :: 0 <= i < |TopOrders(events)| && y in OrderTotals(events) && y !in TopOrders(events) ==>
      TopOrders(events)[i].minutes >= y.minutes
  {
    var grouped := OrderTotals(events);
    var top := TopOrders(events);
    GroupSumEntries(OrderPairs(events));
    TopNDominates(grouped, TOP_ORDERS);
    forall i | 0 <= i < |top| ensures top[i].minutes == Sum(OrderEvents(events, top[i].key), EventMinutes) {
      assert top[i] in multiset(grouped);
      var j :| 0 <= j < |grouped| && grouped[j] == top[i];
      OrderPairsSum(events, top[i].key);
    }
  }

  /** Every listed order has events. */
  lemma {:induction false} TopOrdersHaveEvents(events: seq<Event>, i: nat)
    requires i < |TopOrders(events)|
    ensures OrderEvents(events, TopOrders(events)[i].key) != []
  {
    var grouped := OrderTotals(events);
    var t := TopOrders(events)[i];
    assert t in multiset(grouped);
    var j :| 0 <= j < |grouped| && grouped[j] == t;
    assert HasKey(grouped, t.key);
    OrderTotalsKeys(events, t.key);
    var e :| 0 <= e < |events| && events[e].order == Some(t.key);
  }


  // ---------------------------------------------------------------------------
  // Longest event per top order

  /** `idxmax` of `Duur_min` within one order: its first event with the
      largest duration. */
  function LongestEvent(events: seq<Event>, k: string): (e: Event)
    requires OrderEvents(events, k) != []
    ensures e in events && e.order == Some(k)
    ensures forall i :: 0 <= i < |events| && events[i].order == Some(k) ==> events[i].minutes <= e.minutes
  {
    var mine := OrderEvents(events, k);
    var i := FirstMax(mine, EventMinutes);
    assert forall j :: 0 <= j < |events| && events[j].order == Some(k) ==> events[j].minutes <= mine[i].minutes by {
      forall j | 0 <= j < |events| && events[j].order == Some(k) ensures events[j].minutes <= mine[i].minutes {
        var m :| 0 <= m < |mine| && mine[m] == events[j];
      }
    }
    mine[i]
  }

  /** No event of the order before the chosen one is as long. */
  lemma {:induction false} LongestEventIsFirst(events: seq<Event>, k: string)
    requires OrderEvents(events, k) != []
    ensures var mine := OrderEvents(events, k);
      exists i :: 0 <= i < |mine| && mine[i] == LongestEvent(events, k)
        && forall j :: 0 <= j < i ==> mine[j].minutes < mine[i].minutes
  {
    var mine := OrderEvents(events, k);
    var i := FirstMax(mine, EventMinutes);
    assert mine[i] == LongestEvent(events, k);
  }

  /** A total whose order is among the top three. */
  predicate InTop(top: seq<Total>, t: Total) { HasKey(top, t.key) }

  /** The top orders in ascending order number, as a group-by over their
      events lists them. */
  function TopKeys(events: seq<Event>): (ks: seq<string>)
    ensures forall i :: 0 <= i < |ks| ==> HasKey(TopOrders(events), ks[i]) && OrderEvents(events, ks[i]) != []
  {
    var top := TopOrders(events);
    var picked := Filter(OrderTotals(events), (t: Total) => InTop(top, t));
    assert forall i :: 0 <= i < |picked| ==> OrderEvents(events, picked[i].key) != [] by {
      forall i | 0 <= i < |picked| ensures OrderEvents(events, picked[i].key) != [] {
        var n :| 0 <= n < |top| && top[n].key == picked[i].key;
        TopOrdersHaveEvents(events, n);
      }
    }
    KeysOf(picked)
  }

  /** Each top order appears among the keys, and the keys ascend. */
  lemma {:induction false} TopKeysCover(events: seq<Event>)
    ensures forall i :: 0 <= i < |TopOrders(events)| ==> TopOrders(events)[i].key in TopKeys(events)
    ensures forall i, j :: 0 <= i < j < |TopKeys(events)| ==> StrLess(TopKeys(events)[i], TopKeys(events)[j])
  {
    var top := TopOrders(events);
    var grouped := OrderTotals(events);
    var inTop := (t: Total) => InTop(top, t);
    var picked := Filter(grouped, inTop);
    forall i | 0 <= i < |top| ensures top[i].key in TopKeys(events) {
      assert top[i] in multiset(grouped);
      var j :| 0 <= j < |grouped| && grouped[j] == top[i];
      var m :| 0 <= m < |picked| && picked[m] == grouped[j];
      assert KeysOf(picked)[m] == top[i].key;
    }
    FilterAscending(grouped, inTop);
  }

  /** The longest event of each order in `keys`. */
  function LongestFor(events: seq<Event>, keys: seq<string>): (r: seq<Event>)
    requires forall i :: 0 <= i < |keys| ==> OrderEvents(events, keys[i]) != []
    ensures |r| == |keys|
    ensures forall i :: 0 <= i < |r| ==> r[i] == LongestEvent(events, keys[i])
  {
    if keys == [] then [] else [LongestEvent(events, keys[0])] + LongestFor(events, keys[1..])
  }

  /** The "longest single stop" table: one event per top order, in ascending
      order number, each the first longest of its order. */
  function LongestEvents(events: seq<Event>): (r: seq<Event>)
    ensures |r| == |TopKeys(events)|
    ensures forall i :: 0 <= i < |r| ==> r[i] in events && r[i].order == Some(TopKeys(events)[i])
    ensures forall i, j :: 0 <= i < |r| && 0 <= j < |events| && events[j].order == r[i].order ==>
      events[j].minutes <= r[i].minutes
  {
    LongestFor(events, TopKeys(events))
  }

  // ---------------------------------------------------------------------------
  // Top three orders per working day

  /** What the "Reden" column of a weekday row holds: the top reason of the
      order, 'N/A' when the day has no (order, reason) pair at all, or a blank
      when the order has none (the left merge finds no match). */
  datatype ReasonCell = Top(reason: string) | NotAvailable | Blank

  /** One row of a weekday table. */
  datatype OrderRow = OrderRow(order: string, reason: ReasonCell, minutes: real, hours: real)

  /** A weekday's table; no rows when its events carry no order number. */
  datatype DayReport = DayReport(day: string, rows: seq<OrderRow>)

  /** The events that start on weekday `d` (0 is Monday). */
  function DayEvents(events: seq<Event>, d: nat): (r: seq<Event>)
    ensures forall i :: 0 <= i < |r| ==> r[i] in events && ValidDate(Datum(r[i])) && Weekday(Datum(r[i])) == d
    ensures forall i :: 0 <= i < |events| && ValidDate(Datum(events[i])) && Weekday(Datum(events[i])) == d ==> events[i] in r
  {
    Filter(events, (e: Event) => ValidDate(Datum(e)) && Weekday(Datum(e)) == d)
  }

  /** `groupby(['Ordernummer', 'Reden']).sum()` then `idxmax` per order: the
      first largest reason sum of the order, in ascending reason order. */
  function TopReason(dayEvents: seq<Event>, k: string): (cell: ReasonCell)
    ensures cell.NotAvailable? <==> Filter(dayEvents, HasOrder) == []
    ensures cell.Blank? <==> Filter(dayEvents, HasOrder) != [] && OrderEvents(dayEvents, k) == []
    ensures cell.Top? ==> HasKey(ReasonPairs(OrderEvents(dayEvents, k)), cell.reason)
  {
    if Filter(dayEvents, HasOrder) == [] then NotAvailable
    else
      var mine := OrderEvents(dayEvents, k);
      if mine == [] then Blank
      else
        var grouped := GroupSum(ReasonPairs(mine));
        assert HasKey(ReasonPairs(mine), mine[0].reason);
        var i := FirstMax(grouped, Minutes);
        assert HasKey(grouped, grouped[i].key);
        var j :| 0 <= j < |mine| && ReasonPairs(mine)[j].key == grouped[i].key;
        Top(grouped[i].key)
  }

  /** The chosen reason adds up to at least as much as any other reason of
      the order; the cell is blank only for an order without mine reasons. */
  lemma {:induction false} TopReasonIsLargest(dayEvents: seq<Event>, k: string, other: string)
    requires HasKey(ReasonPairs(OrderEvents(dayEvents, k)), other)
    ensures TopReason(dayEvents, k).Top?
    ensures var pairs := ReasonPairs(OrderEvents(dayEvents, k));
      SumFor(pairs, other) <= SumFor(pairs, TopReason(dayEvents, k).reason)
  {
    var mine := OrderEvents(dayEvents, k);
    var pairs := ReasonPairs(mine);
    var j :| 0 <= j < |pairs| && pairs[j].key == other;
    var e := mine[j];
    assert e in OrderEvents(dayEvents, k);
    var n :| 0 <= n < |dayEvents| && dayEvents[n] == e;
    assert dayEvents[n] in Filter(dayEvents, HasOrder);
    var grouped := GroupSum(pairs);
    GroupSumEntries(pairs);
    var g :| 0 <= g < |grouped| && grouped[g].key == other;
    var i := FirstMax(grouped, Minutes);
    assert TopReason(dayEvents, k) == Top(grouped[i].key);
  }

  /** `idxmax` over the reasons in ascending order picks the first largest:
      every reason before the chosen one has a strictly smaller sum. */
  lemma {:induction false} TopReasonIsFirst(dayEvents: seq<Event>, k: string, other: string)
    requires HasKey(ReasonPairs(OrderEvents(dayEvents, k)), other)
    ensures TopReason(dayEvents, k).Top?
    ensures var pairs := ReasonPairs(OrderEvents(dayEvents, k));
      StrLess(other, TopReason(dayEvents, k).reason) ==>
        SumFor(pairs, other) < SumFor(pairs, TopReason(dayEvents, k).reason)
  {
    TopReasonIsLargest(dayEvents, k, other);
    var pairs := ReasonPairs(OrderEvents(dayEvents, k));
    var grouped := GroupSum(pairs);
    GroupSumEntries(pairs);
    var g :| 0 <= g < |grouped| && grouped[g].key == other;
    var i := FirstMax(grouped, Minutes);
    assert TopReason(dayEvents, k) == Top(grouped[i].key);
    if StrLess(other, grouped[i].key) {
      AscendingKeysOrderIndices(grouped, g, i);
      assert Minutes(grouped[g]) < Minutes(grouped[i]);
    }
  }

  /** In a table with ascending keys, a smaller key sits at a smaller index. */
  lemma {:induction false} AscendingKeysOrderIndices(ts: seq<Total>, g: int, i: int)
    requires KeysAscending(ts) && 0 <= g < |ts| && 0 <= i < |ts| && StrLess(ts[g].key, ts[i].key)
    ensures g < i
  {
    if g == i {
      StrLessIrreflexive(ts[g].key);
    } else if g > i {
      StrLessAsymmetric(ts[i].key, ts[g].key);
    }
  }

  /** One day's table: its top orders, each with its top reason and its hours. */
  function DayRows(dayEvents: seq<Event>): (rows: seq<OrderRow>)
    ensures |rows| == |TopOrders(dayEvents)|
    ensures forall i :: 0 <= i < |rows| ==>
      && rows[i].order == TopOrders(dayEvents)[i].key
      && rows[i].reason == TopReason(dayEvents, rows[i].order)
      && rows[i].minutes == TopOrders(dayEvents)[i].minutes
      && rows[i].hours * 60.0 == rows[i].minutes
  {
    var top := TopOrders(dayEvents);
    seq(|top|, i requires 0 <= i < |top| =>
      OrderRow(top[i].key, TopReason(dayEvents, top[i].key), top[i].minutes, top[i].minutes / 60.0))
  }

  /** Every order in a day's table has events that day, so its reason cell
      is a reason of that order: neither 'N/A' nor blank occurs in a shown table. */
  lemma {:induction false} DayRowsHaveReasons(dayEvents: seq<Event>)
    ensures forall i :: 0 <= i < |DayRows(dayEvents)| ==>
      DayRows(dayEvents)[i].reason.Top?
      && HasKey(ReasonPairs(OrderEvents(dayEvents, DayRows(dayEvents)[i].order)), DayRows(dayEvents)[i].reason.reason)
  {
    var rows := DayRows(dayEvents);
    forall i | 0 <= i < |rows|
      ensures rows[i].reason.Top? && HasKey(ReasonPairs(OrderEvents(dayEvents, rows[i].order)), rows[i].reason.reason)
    {
      var k := rows[i].order;
      TopOrdersHaveEvents(dayEvents, i);
      var mine := OrderEvents(dayEvents, k);
      assert ReasonPairs(mine)[0].key == mine[0].reason;
      TopReasonIsLargest(dayEvents, k, mine[0].reason);
    }
  }

  /** The report of weekday `d`, when events start on it. */
  function DayReportOf(events: seq<Event>, d: nat): (r: Option<DayReport>)
    ensures r.Some? <==> d < |WEEKDAY_NAMES| && DayEvents(events, d) != []
    ensures r.Some? ==> r.value.day == WEEKDAY_NAMES[d] && r.value.rows == DayRows(DayEvents(events, d))
  {
    var day := DayEvents(events, d);
    if d >= |WEEKDAY_NAMES| || day == [] then None else Some(DayReport(WEEKDAY_NAMES[d], DayRows(day)))
  }

  /** `DayReportOf` as a function of the weekday alone. */
  function ReportOfDay(events: seq<Event>): nat -> Option<DayReport> {
    (d: nat) => DayReportOf(events, d)
  }

  /** The values present among `f(0) .. f(n - 1)`, in that order. */
  function Present<T>(f: nat -> Option<T>, n: nat): seq<T> {
    if n == 0 then [] else Present(f, n - 1) + (if f(n - 1).Some? then [f(n - 1).value] else [])
  }

  /** The reports for weekdays `0 .. n - 1`, skipping days without events. */
  function WeekdayReports(events: seq<Event>, n: nat): seq<DayReport> {
    Present(ReportOfDay(events), n)
  }

  /** Fewer arguments never present more values, and an argument with a
      value adds one. */
  lemma {:induction false} PresentGrows<T>(f: nat -> Option<T>, a: nat, b: nat)
    requires a < b
    ensures |Present(f, a)| + (if f(a).Some? then 1 else 0) <= |Present(f, b)|
  {
    if a < b - 1 {
      PresentGrows(f, a, b - 1);
    }
  }

  /** An argument with a value puts it right after the values of the
      arguments before it. */
  lemma {:induction false} PresentAt<T>(f: nat -> Option<T>, n: nat, d: nat)
    requires d < n && f(d).Some?
    ensures |Present(f, d)| < |Present(f, n)| && Present(f, n)[|Present(f, d)|] == f(d).value
  {
    if d < n - 1 {
      PresentAt(f, n - 1, d);
    }
  }

  /** Every value present comes from an argument below `n`, placed after the
      values of the arguments before it. */
  lemma {:induction false} PresentSource<T>(f: nat -> Option<T>, n: nat, i: nat) returns (d: nat)
    requires i < |Present(f, n)|
    ensures d < n && f(d) == Some(Present(f, n)[i]) && i == |Present(f, d)|
  {
    if i < |Present(f, n - 1)| {
      d := PresentSource(f, n - 1, i);
    } else {
      d := n - 1;
    }
  }

  /** Earlier values come from earlier arguments. */
  lemma {:induction false} PresentOrder<T>(f: nat -> Option<T>, n: nat, i: nat, j: nat) returns (a: nat, b: nat)
    requires i < j < |Present(f, n)|
    ensures a < b < n && f(a) == Some(Present(f, n)[i]) && f(b) == Some(Present(f, n)[j])
  {
    a := PresentSource(f, n, i);
    b := PresentSource(f, n, j);
    if b < a {
      PresentGrows(f, b, a);
    }
  }

  /** The loop over "Maandag" .. "Vrijdag". */
  method WeekdayTopOrders(events: seq<Event>) returns (reports: seq<DayReport>)
    ensures reports == WeekdayReports(events, |WEEKDAY_NAMES|)
  {
    reports := [];
    for d := 0 to |WEEKDAY_NAMES|
      invariant reports == WeekdayReports(events, d)
    {
      WeekdayReportsStep(events, d);
      var day := DayEvents(events, d);
      if day != [] {
        reports := reports + [DayReport(WEEKDAY_NAMES[d], DayRows(day))];
      }
    }
  }

  lemma {:induction false} WeekdayReportsStep(events: seq<Event>, d: nat)
    requires d < |WEEKDAY_NAMES|
    ensures var day := DayEvents(events, d);
      WeekdayReports(events, d + 1)
        == WeekdayReports(events, d) + (if day == [] then [] else [DayReport(WEEKDAY_NAMES[d], DayRows(day))])
  {
    assert ReportOfDay(events)(d) == DayReportOf(events, d);
  }

  /** The weekday names are distinct, so a name gives back its weekday. */
  lemma {:induction false} WeekdayNameIndex(d: nat)
    requires d < |WEEKDAY_NAMES|
    ensures IndexOf(WEEKDAY_NAMES, WEEKDAY_NAMES[d]) == d
  {
    var i := IndexOf(WEEKDAY_NAMES, WEEKDAY_NAMES[d]);
    assert WEEKDAY_NAMES[i] == WEEKDAY_NAMES[d];
    assert |WEEKDAY_NAMES[i]| == |WEEKDAY_NAMES[d]| && WEEKDAY_NAMES[i][0] == WEEKDAY_NAMES[d][0];
  }

  /** Every report is the report of the weekday it names, and the reports
      run Monday first, so no weekday appears twice. */
  lemma {:induction false} WeekdayReportsSources(events: seq<Event>, n: nat)
    requires n <= |WEEKDAY_NAMES|
    ensures forall i :: 0 <= i < |WeekdayReports(events, n)| ==>
      var report := WeekdayReports(events, n)[i];
      report.day in WEEKDAY_NAMES && IndexOf(WEEKDAY_NAMES, report.day) < n
        && DayReportOf(events, IndexOf(WEEKDAY_NAMES, report.day)) == Some(report)
    ensures forall i, j :: 0 <= i < j < |WeekdayReports(events, n)| ==>
      IndexOf(WEEKDAY_NAMES, WeekdayReports(events, n)[i].day) < IndexOf(WEEKDAY_NAMES, WeekdayReports(events, n)[j].day)
  {
    var f := ReportOfDay(events);
    var r := WeekdayReports(events, n);
    assert r == Present(f, n);
    forall i | 0 <= i < |r|
      ensures r[i].day in WEEKDAY_NAMES && IndexOf(WEEKDAY_NAMES, r[i].day) < n
        && DayReportOf(events, IndexOf(WEEKDAY_NAMES, r[i].day)) == Some(r[i])
    {
      var d := PresentSource(f, n, i);
      assert f(d) == DayReportOf(events, d);
      WeekdayNameIndex(d);
    }
    forall i, j | 0 <= i < j < |r|
      ensures IndexOf(WEEKDAY_NAMES, r[i].day) < IndexOf(WEEKDAY_NAMES, r[j].day)
    {
      var a, b := PresentOrder(f, n, i, j);
      assert f(a) == DayReportOf(events, a) && f(b) == DayReportOf(events, b);
      WeekdayNameIndex(a);
      WeekdayNameIndex(b);
    }
  }

  /** Every weekday below `n` on which events start has its report. */
  lemma {:induction false} WeekdayReportsComplete(events: seq<Event>, n: nat)
    requires n <= |WEEKDAY_NAMES|
    ensures forall d :: 0 <= d < n && DayEvents(events, d) != [] ==>
      exists i :: 0 <= i < |WeekdayReports(events, n)| && Some(WeekdayReports(events, n)[i]) == DayReportOf(events, d)
  {
    var f := ReportOfDay(events);
    var r := WeekdayReports(events, n);
    forall d | 0 <= d < n && DayEvents(events, d) != []
      ensures exists i :: 0 <= i < |r| && Some(r[i]) == DayReportOf(events, d)
    {
      assert f(d) == DayReportOf(events, d);
      PresentAt(f, n, d);
      assert Some(r[|Present(f, d)|]) == DayReportOf(events, d);
    }
  }
}
