/** `filter_data` (dashboard.py:161-175): the downtime events the sidebar
    selection asks for. Three masks are applied one after the other: the date
    range, the line, and, when the shift toggle is on, the working-hours
    window. */
module DowntimeFilter {
  import opened Wrappers
  import opened Calendar
  import opened Timestamps
  import opened Seqs
  import opened DowntimeLoader

  /** The selection that stands for every line of interest. */
  const ALL_LINES := "Alle lijnen"
  /** The lines the dashboard analyses. */
  const WANTED_WORKFLOWS := ["VMPT1", "VMPT5", "COSMO"]
  /** The shift runs from 07:30:00 up to, not including, 16:00:00. */
  const SHIFT_START := 7 * 3600 + 30 * 60
  const SHIFT_END := 16 * 3600

  /** Datum within the inclusive range. */
  predicate InDateRange(e: Event, from: Date, to: Date) {
    !DateBefore(Datum(e), from) && !DateBefore(to, Datum(e))
  }

  /** The line selection: one workflow, or any wanted workflow for "Alle lijnen". */
  predicate OnLine(e: Event, selection: string) {
    if selection != ALL_LINES then e.workflow == selection else e.workflow in WANTED_WORKFLOWS
  }

  /** Starts on a weekday (Monday to Friday) within the shift hours. */
  predicate InShift(e: Event) {
    && ValidDate(e.start.date)
    && Weekday(e.start.date) < 5
    && SHIFT_START <= SecondOfDay(e.start) < SHIFT_END
  }

  /** Everything a kept event satisfies, in one predicate. */
  predicate Selected(e: Event, selection: string, from: Date, to: Date, shiftOnly: bool) {
    InDateRange(e, from, to) && OnLine(e, selection) && (shiftOnly ==> InShift(e))
  }

  /** A date range the filter accepts: exactly two dates. */
  predicate ValidRange(dateRange: seq<Option<Date>>) {
    |dateRange| == 2 && dateRange[0].Some? && dateRange[1].Some?
  }

  function ByDate(events: seq<Event>, from: Date, to: Date): seq<Event> {
    Filter(events, (e: Event) => InDateRange(e, from, to))
  }

  function ByLine(events: seq<Event>, selection: string): seq<Event> {
    if selection != ALL_LINES then Filter(events, (e: Event) => e.workflow == selection)
    else Filter(events, (e: Event) => e.workflow in WANTED_WORKFLOWS)
  }

  function ByShift(events: seq<Event>, shiftOnly: bool): seq<Event> {
    if shiftOnly then Filter(events, InShift) else events
  }

  /** `filter_data`: nothing when the range is not two dates (the dashboard
      reports the range as invalid), otherwise the three masks in turn. */
  function FilterData(events: seq<Event>, selection: string, dateRange: seq<Option<Date>>, shiftOnly: bool): (r: seq<Event>)
    ensures !ValidRange(dateRange) ==> r == []
    ensures |r| <= |events|
  {
    if !ValidRange(dateRange) then []
    else
      var byDate := ByDate(events, dateRange[0].value, dateRange[1].value);
      var byLine := ByLine(byDate, selection);
      ByShift(byLine, shiftOnly)
  }

  /** The three masks in a row select exactly the events that satisfy all
      three conditions, in their original order. */
  lemma {:induction false} FilterDataSelects(events: seq<Event>, selection: string, dateRange: seq<Option<Date>>, shiftOnly: bool)
    requires ValidRange(dateRange)
    ensures FilterData(events, selection, dateRange, shiftOnly)
         == Filter(events, (e: Event) => Selected(e, selection, dateRange[0].value, dateRange[1].value, shiftOnly))
  {
    var from, to := dateRange[0].value, dateRange[1].value;
    var inRange := (e: Event) => InDateRange(e, from, to);
    var onLine := (e: Event) => OnLine(e, selection);
    var both := (e: Event) => InDateRange(e, from, to) && OnLine(e, selection);
    var all := (e: Event) => Selected(e, selection, from, to, shiftOnly);
    var byDate := Filter(events, inRange);
    if selection != ALL_LINES {
      FilterExtensional(byDate, (e: Event) => e.workflow == selection, onLine);
    } else {
      FilterExtensional(byDate, (e: Event) => e.workflow in WANTED_WORKFLOWS, onLine);
    }
    FilterFilter(events, inRange, onLine, both);
    if shiftOnly {
      FilterFilter(events, both, InShift, all);
    } else {
      FilterExtensional(events, both, all);
    }
  }

  /** Membership, both ways: an event is kept exactly when it satisfies the selection. */
  lemma {:induction false} FilterDataMembers(events: seq<Event>, selection: string, dateRange: seq<Option<Date>>, shiftOnly: bool)
    requires ValidRange(dateRange)
    ensures forall i :: 0 <= i < |FilterData(events, selection, dateRange, shiftOnly)| ==>
      var e := FilterData(events, selection, dateRange, shiftOnly)[i];
      e in events && Selected(e, selection, dateRange[0].value, dateRange[1].value, shiftOnly)
    ensures forall i :: 0 <= i < |events| && Selected(events[i], selection, dateRange[0].value, dateRange[1].value, shiftOnly) ==>
      events[i] in FilterData(events, selection, dateRange, shiftOnly)
  {
    FilterDataSelects(events, selection, dateRange, shiftOnly);
  }

  /** Filtering an already filtered table again with the same selection changes nothing. */
  lemma {:induction false} FilterDataIdempotent(events: seq<Event>, selection: string, dateRange: seq<Option<Date>>, shiftOnly: bool)
    ensures FilterData(FilterData(events, selection, dateRange, shiftOnly), selection, dateRange, shiftOnly)
         == FilterData(events, selection, dateRange, shiftOnly)
  {
    if ValidRange(dateRange) {
      var r := FilterData(events, selection, dateRange, shiftOnly);
      FilterDataSelects(events, selection, dateRange, shiftOnly);
      FilterDataSelects(r, selection, dateRange, shiftOnly);
      FilterIdempotent(events, (e: Event) => Selected(e, selection, dateRange[0].value, dateRange[1].value, shiftOnly));
    }
  }

  /** An inverted range (end before start) keeps nothing. */
  lemma {:induction false} InvertedRangeIsEmpty(events: seq<Event>, selection: string, from: Date, to: Date, shiftOnly: bool)
    requires DateBefore(to, from)
    ensures FilterData(events, selection, [Some(from), Some(to)], shiftOnly) == []
  {
    var dateRange := [Some(from), Some(to)];
    FilterDataSelects(events, selection, dateRange, shiftOnly);
  }
}
