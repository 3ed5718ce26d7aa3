/** The three key figures above the analyses (dashboard.py:179-188): total
    downtime in hours, the number of events and the longest event in minutes,
    all on the filtered table before any reason is excluded. */
module Kpi {
  import opened Seqs
  import opened DowntimeLoader

  datatype KeyFigures =
    | NoData
    | KeyFigures(totalHours: real, count: nat, longestMinutes: real)

  /** `Duur_min.max()` of a non-empty table. */
  function Longest(events: seq<Event>): (m: real)
    requires events != []
    ensures forall i :: 0 <= i < |events| ==> events[i].minutes <= m
    ensures exists i :: 0 <= i < |events| && events[i].minutes == m
  {
    if |events| == 1 then events[0].minutes
    else
      var rest := Longest(events[1..]);
      assert forall i :: 1 <= i < |events| ==> events[i] == events[1..][i - 1];
      if events[0].minutes >= rest then events[0].minutes else rest
  }

  /** `MaakKengetallenZichtbaar`: no figures for an empty table, otherwise the
      summed duration in hours, the row count and the longest duration. */
  function KeyFiguresOf(events: seq<Event>): (k: KeyFigures)
    ensures k.NoData? <==> events == []
    ensures k.KeyFigures? ==> k.count == |events| && k.longestMinutes == Longest(events)
    ensures k.KeyFigures? ==> k.totalHours * 60.0 == Sum(events, EventMinutes)
  {
    if events == [] then NoData
    else KeyFigures(Sum(events, EventMinutes) / 60.0, |events|, Longest(events))
  }

  /** For events with non-negative durations, as every cleaned event has, the
      longest event is not negative and fits in the total. */
  lemma {:induction false} LongestWithinTotal(events: seq<Event>)
    requires forall i :: 0 <= i < |events| ==> events[i].minutes >= 0.0
    requires events != []
    ensures 0.0 <= Longest(events) <= Sum(events, EventMinutes)
  {
    var i :| 0 <= i < |events| && events[i].minutes == Longest(events);
    assert forall x :: x in events ==> EventMinutes(x) >= 0.0;
    SumAtLeastEach(events, EventMinutes, i);
  }

  /** The total is at most the count times the longest event. */
  lemma {:induction false} TotalWithinCountTimesLongest(events: seq<Event>)
    requires events != []
    ensures Sum(events, EventMinutes) <= |events| as real * Longest(events)
  {
    LongestBoundsAll(events);
    SumAtMost(events, EventMinutes, Longest(events));
  }

  lemma {:induction false} LongestBoundsAll(events: seq<Event>)
    requires events != []
    ensures forall x :: x in events ==> EventMinutes(x) <= Longest(events)
  {
    forall x | x in events ensures EventMinutes(x) <= Longest(events) {
      var j :| 0 <= j < |events| && events[j] == x;
    }
  }
}
