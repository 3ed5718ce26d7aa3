/** The reason views of `display_tabbed_line_analysis` (dashboard.py:190-267):
    one tab for all lines and one per wanted line with data; in each tab the
    events whose reason names an excluded keyword are set aside, the rest is
    summed per reason and ranked, and the ranking feeds a top-10 bar list, a
    top-5 donut with an "Overige (k)" slice, a three-line legend and the
    colour of every reason. */
module ReasonAnalysis {
  import opened Wrappers
  import opened Text
  import opened Seqs
  import opened Grouping
  import opened DowntimeLoader
  import opened DowntimeFilter

  /** Reasons naming any of these words, in any case, are left out of the reason views. */
  const EXCLUDED_KEYWORDS := ["Pauze"]
  const TOP_N_IN_BARCHART := 10
  const TOP_N_IN_DONUT := 5
  const LEGEND_SIZE := 3
  /** Below this many minutes a tab shows no reason views. */
  const MINIMUM_TOTAL := 0.1
  /** The "Overige" slice is drawn only when the rest exceeds this many minutes. */
  const MINIMUM_REST := 0.01
  /** Plotly's qualitative colour sequence, cycled over the ranked reasons. */
  const PALETTE := ["#636EFA", "#EF553B", "#00CC96", "#AB63FA", "#FFA15A",
                    "#19D3F3", "#FF6692", "#B6E880", "#FF97FF", "#FECB52"]
  const OVERIGE_COLOUR := "#bdbdbd"
  /** The legend's colour for a reason the colour map lacks. */
  const FALLBACK_COLOUR := "#808080"
  /** Legend labels longer than this are cut and get "...". */
  const LABEL_WIDTH := 30

  function WorkflowOf(e: Event): string { e.workflow }
  function ReasonOf(e: Event): string { e.reason }
  predicate IsWanted(e: Event) { e.workflow in WANTED_WORKFLOWS }

  // ---------------------------------------------------------------------------
  // Tabs

  /** The wanted lines that occur in the data, each once, ascending. */
  function LinesIn(events: seq<Event>): (lines: seq<string>)
    ensures forall i, j :: 0 <= i < j < |lines| ==> StrLess(lines[i], lines[j])
    ensures forall i :: 0 <= i < |lines| ==> lines[i] in WANTED_WORKFLOWS
  {
    var wanted := Filter(events, IsWanted);
    var grouped := GroupSum(PairsOf(wanted, WorkflowOf, EventMinutes));
    assert forall i :: 0 <= i < |grouped| ==> grouped[i].key in WANTED_WORKFLOWS by {
      forall i | 0 <= i < |grouped| ensures grouped[i].key in WANTED_WORKFLOWS {
        assert HasKey(grouped, grouped[i].key);
      }
    }
    KeysOf(grouped)
  }

  /** A line gets its own tab exactly when it is wanted and some event runs on it. */
  lemma {:induction false} LinesInExactly(events: seq<Event>, w: string)
    ensures w in LinesIn(events) <==> w in WANTED_WORKFLOWS && exists i :: 0 <= i < |events| && events[i].workflow == w
  {
    var pairs := PairsOf(Filter(events, IsWanted), WorkflowOf, EventMinutes);
    assert LinesIn(events) == KeysOf(GroupSum(pairs));
    KeysOfHasKey(GroupSum(pairs), w);
    WantedLinePairs(events, w);
  }

  /** A line has a pair exactly when it is wanted and some event runs on it. */
  lemma {:induction false} WantedLinePairs(events: seq<Event>, w: string)
    ensures HasKey(PairsOf(Filter(events, IsWanted), WorkflowOf, EventMinutes), w)
        <==> w in WANTED_WORKFLOWS && exists i :: 0 <= i < |events| && events[i].workflow == w
  {
    if HasKey(PairsOf(Filter(events, IsWanted), WorkflowOf, EventMinutes), w) {
      PairedLineOccurs(events, w);
    }
    if w in WANTED_WORKFLOWS && exists i :: 0 <= i < |events| && events[i].workflow == w {
      var i :| 0 <= i < |events| && events[i].workflow == w;
      OccurringLinePaired(events, i);
    }
  }

  lemma {:induction false} PairedLineOccurs(events: seq<Event>, w: string)
    requires HasKey(PairsOf(Filter(events, IsWanted), WorkflowOf, EventMinutes), w)
    ensures w in WANTED_WORKFLOWS && exists i :: 0 <= i < |events| && events[i].workflow == w
  {
    var wanted := Filter(events, IsWanted);
    var pairs := PairsOf(wanted, WorkflowOf, EventMinutes);
    var j :| 0 <= j < |pairs| && pairs[j].key == w;
    assert pairs[j].key == WorkflowOf(wanted[j]);
    var k :| 0 <= k < |events| && events[k] == wanted[j];
  }

  lemma {:induction false} OccurringLinePaired(events: seq<Event>, i: nat)
    requires i < |events| && events[i].workflow in WANTED_WORKFLOWS
    ensures HasKey(PairsOf(Filter(events, IsWanted), WorkflowOf, EventMinutes), events[i].workflow)
  {
    var wanted := Filter(events, IsWanted);
    var pairs := PairsOf(wanted, WorkflowOf, EventMinutes);
    assert IsWanted(events[i]);
    var j :| 0 <= j < |wanted| && wanted[j] == events[i];
    assert pairs[j].key == WorkflowOf(wanted[j]);
  }

  /** `["Alle lijnen"] + lijnen_in_data`. */
  function TabNames(events: seq<Event>): (tabs: seq<string>)
    ensures |tabs| >= 1 && tabs[0] == ALL_LINES
    ensures tabs[1..] == LinesIn(events)
  {
    [ALL_LINES] + LinesIn(events)
  }

  /** The events a tab shows: all of them on "Alle lijnen", else that line's. */
  function TabData(events: seq<Event>, tab: string): (r: seq<Event>)
    ensures tab == ALL_LINES ==> r == events
    ensures tab != ALL_LINES ==>
      && (forall i :: 0 <= i < |r| ==> r[i] in events && r[i].workflow == tab)
      && (forall i :: 0 <= i < |events| && events[i].workflow == tab ==> events[i] in r)
  {
    if tab == ALL_LINES then events else Filter(events, (e: Event) => e.workflow == tab)
  }

  // ---------------------------------------------------------------------------
  // Keyword exclusion

  /** The reason contains one of the keywords, ignoring case. */
  predicate Excluded(reason: string, keywords: seq<string>) {
    exists k :: 0 <= k < |keywords| && ContainsIgnoreCase(reason, keywords[k])
  }

  /** The exclusion mask, or-ed together keyword by keyword. */
  method ExclusionMask(reasons: seq<string>, keywords: seq<string>) returns (mask: seq<bool>)
    ensures |mask| == |reasons|
    ensures forall i :: 0 <= i < |reasons| ==> (mask[i] <==> Excluded(reasons[i], keywords))
  {
    mask := seq(|reasons|, _ => false);
    for k := 0 to |keywords|
      invariant |mask| == |reasons|
      invariant forall i :: 0 <= i < |reasons| ==>
        (mask[i] <==> exists j :: 0 <= j < k && ContainsIgnoreCase(reasons[i], keywords[j]))
    {
      var keyword := keywords[k];
      mask := seq(|reasons|, i requires 0 <= i < |reasons| => mask[i] || ContainsIgnoreCase(reasons[i], keyword));
    }
  }

  /** `data[~mask_exclude]`: the events whose reason names no keyword, in order. */
  function Relevant(events: seq<Event>, keywords: seq<string>): (r: seq<Event>)
    ensures forall i :: 0 <= i < |r| ==> r[i] in events && !Excluded(r[i].reason, keywords)
    ensures forall i :: 0 <= i < |events| && !Excluded(events[i].reason, keywords) ==> events[i] in r
  {
    Filter(events, (e: Event) => !Excluded(e.reason, keywords))
  }

  /** `case=False`: whether a reason is excluded does not depend on the case
      it is written in. */
  lemma {:induction false} ExcludedIgnoresCase(reason: string, keywords: seq<string>)
    ensures Excluded(reason, keywords) <==> Excluded(Lower(reason), keywords)
    ensures Excluded(reason, keywords) <==> Excluded(Upper(reason), keywords)
  {
    LowerForgetsCase(reason);
    assert forall k :: 0 <= k < |keywords| ==>
      ContainsIgnoreCase(reason, keywords[k]) == ContainsIgnoreCase(Lower(reason), keywords[k]) == ContainsIgnoreCase(Upper(reason), keywords[k]);
  }

  /** "Pauze" is recognised whatever its case and wherever it stands. */
  lemma {:induction false} ExclusionExamples()
    ensures Excluded("Pauze", EXCLUDED_KEYWORDS)
    ensures Excluded("koffiePAUZE", EXCLUDED_KEYWORDS)
    ensures !Excluded("Storing", EXCLUDED_KEYWORDS)
  {
    var keyword := Lower(EXCLUDED_KEYWORDS[0]);
    assert keyword == "pauze";
    assert Lower("Pauze") == "pauze";
    assert OccursAt(Lower("Pauze"), keyword, 0);
    assert ContainsIgnoreCase("Pauze", EXCLUDED_KEYWORDS[0]);
    assert Lower("koffiePAUZE") == "koffiepauze";
    assert OccursAt(Lower("koffiePAUZE"), keyword, 6);
    assert ContainsIgnoreCase("koffiePAUZE", EXCLUDED_KEYWORDS[0]);
    var storing := Lower("Storing");
    assert storing == "storing";
    forall i | 0 <= i <= |storing| - |keyword| ensures !OccursAt(storing, keyword, i) {
      assert storing[i..i + |keyword|][0] == storing[i] != 'p';
    }
    assert !ContainsIgnoreCase("Storing", EXCLUDED_KEYWORDS[0]);
  }

  // ---------------------------------------------------------------------------
  // Reason totals

  function ReasonPairs(events: seq<Event>): seq<Total> {
    PairsOf(events, ReasonOf, EventMinutes)
  }

  predicate NoReason(e: Event) { e.reason == "" }
  predicate HasReason(e: Event) { e.reason != "" }

  /** `groupby("Reden").sum()` without the empty reason, in key order. */
  function NamedReasonTotals(events: seq<Event>): seq<Total> {
    WithoutKey(GroupSum(ReasonPairs(events)), "")
  }

  /** The same totals, largest first. */
  function RankedReasons(events: seq<Event>): (r: seq<Total>)
    ensures NonIncreasing(r) && DistinctKeys(r)
    ensures multiset(r) == multiset(NamedReasonTotals(events))
    ensures forall i :: 0 <= i < |r| ==> r[i].key != ""
  {
    var grouped := GroupSum(ReasonPairs(events));
    var named := NamedReasonTotals(events);
    AscendingIsDistinct(grouped);
    FilterDistinct(grouped, (t: Total) => t.key != "");
    RankDistinct(named);
    var r := Rank(named);
    assert forall i :: 0 <= i < |r| ==> r[i].key != "" by {
      forall i | 0 <= i < |r| ensures r[i].key != "" {
        assert r[i] in multiset(named);
      }
    }
    r
  }

  lemma {:induction false} SumForNoReason(events: seq<Event>)
    ensures SumFor(ReasonPairs(events), "") == Sum(Filter(events, NoReason), EventMinutes)
  {
    if events != [] {
      SumForNoReason(events[1..]);
      assert ReasonPairs(events)[1..] == ReasonPairs(events[1..]);
      var head := if NoReason(events[0]) then [events[0]] else [];
      SumAppend(head, Filter(events[1..], NoReason), EventMinutes);
      assert [events[0]][1..] == [];
    }
  }

  /** Each named reason carries the summed minutes of its events. */
  lemma {:induction false} NamedReasonEntries(events: seq<Event>)
    ensures forall t :: t in NamedReasonTotals(events) ==> t.minutes == SumFor(ReasonPairs(events), t.key)
  {
    var grouped := GroupSum(ReasonPairs(events));
    var named := NamedReasonTotals(events);
    GroupSumEntries(ReasonPairs(events));
    forall t | t in named ensures t.minutes == SumFor(ReasonPairs(events), t.key) {
      var i :| 0 <= i < |named| && named[i] == t;
      var j :| 0 <= j < |grouped| && grouped[j] == t;
    }
  }

  /** Every non-empty reason of the data is among the named totals, and nothing else. */
  lemma {:induction false} NamedReasonKeys(events: seq<Event>, k: string)
    requires k != ""
    ensures HasKey(NamedReasonTotals(events), k) <==> HasKey(ReasonPairs(events), k)
  {
    var grouped := GroupSum(ReasonPairs(events));
    var named := WithoutKey(grouped, "");
    assert HasKey(grouped, k) <==> HasKey(ReasonPairs(events), k);
    if HasKey(named, k) {
      var i :| 0 <= i < |named| && named[i].key == k;
      assert named[i] in grouped;
      var j :| 0 <= j < |grouped| && grouped[j] == named[i];
      assert grouped[j].key == k;
    }
    if HasKey(grouped, k) {
      var j :| 0 <= j < |grouped| && grouped[j].key == k;
      assert grouped[j] in named;
      var i :| 0 <= i < |named| && named[i] == grouped[j];
      assert named[i].key == k;
    }
  }

  /** Each ranked reason carries the summed minutes of its events. */
  lemma {:induction false} RankedReasonsEntries(events: seq<Event>)
    ensures forall i :: 0 <= i < |RankedReasons(events)| ==>
      RankedReasons(events)[i].minutes == SumFor(ReasonPairs(events), RankedReasons(events)[i].key)
  {
    var r := RankedReasons(events);
    NamedReasonEntries(events);
    forall i | 0 <= i < |r| ensures r[i].minutes == SumFor(ReasonPairs(events), r[i].key) {
      assert r[i] in multiset(NamedReasonTotals(events));
    }
  }

  /** Every non-empty reason of the data is ranked, and nothing else is. */
  lemma {:induction false} RankedReasonsKeys(events: seq<Event>, k: string)
    requires k != ""
    ensures HasKey(RankedReasons(events), k) <==> HasKey(ReasonPairs(events), k)
  {
    var r := RankedReasons(events);
    var named := NamedReasonTotals(events);
    NamedReasonKeys(events, k);
    forall t ensures t in r <==> t in named {
      assert t in r <==> t in multiset(r);
      assert t in named <==> t in multiset(named);
    }
    SameMembersSameKeys(r, named, k);
  }

  /** The ranked totals add up to the minutes of the events that have a reason. */
  lemma {:induction false} RankedReasonsSum(events: seq<Event>)
    ensures Sum(RankedReasons(events), Minutes) == Sum(Filter(events, HasReason), EventMinutes)
  {
    var grouped := GroupSum(ReasonPairs(events));
    assert RankedReasons(events) == Rank(NamedReasonTotals(events));
    SumWithoutKey(grouped, "");
    SumPairs(events, ReasonOf, EventMinutes);
    SumForNoReason(events);
    SumPartition(events, EventMinutes, HasReason, NoReason);
  }

  // ---------------------------------------------------------------------------
  // Percentages

  /** `percentage_totaal`: the share of the grand total, or 0 when that is not positive. */
  function Percentage(minutes: real, total: real): (pct: real)
    ensures total > 0.0 ==> pct * total == minutes * 100.0
    ensures total > 0.0 && 0.0 <= minutes <= total ==> 0.0 <= pct <= 100.0
    ensures total <= 0.0 ==> pct == 0.0
  {
    if total > 0.0 then minutes / total * 100.0 else 0.0
  }

  function PercentageSum(ts: seq<Total>, total: real): real {
    if ts == [] then 0.0 else Percentage(ts[0].minutes, total) + PercentageSum(ts[1..], total)
  }

  lemma {:induction false} PercentageSumScales(ts: seq<Total>, total: real)
    requires total > 0.0
    ensures PercentageSum(ts, total) == Sum(ts, Minutes) / total * 100.0
  {
    if ts != [] {
      PercentageSumScales(ts[1..], total);
      var a, b := ts[0].minutes, Sum(ts[1..], Minutes);
      assert a / total * 100.0 + b / total * 100.0 == (a + b) / total * 100.0;
    }
  }

  /** With a positive grand total the percentages of the ranked reasons add up to 100. */
  lemma {:induction false} PercentagesAddUp(ts: seq<Total>)
    requires Sum(ts, Minutes) > 0.0
    ensures PercentageSum(ts, Sum(ts, Minutes)) == 100.0
  {
    var total := Sum(ts, Minutes);
    PercentageSumScales(ts, total);
    assert total / total == 1.0;
  }

  // ---------------------------------------------------------------------------
  // Bar list, donut, legend and colours

  /** `head(TOP_N_IN_BARCHART)` of the ranking. */
  function Bars(ranked: seq<Total>): (bars: seq<Total>)
    ensures |bars| == Min(TOP_N_IN_BARCHART, |ranked|)
    ensures bars == ranked[..|bars|]
  {
    ranked[..Min(TOP_N_IN_BARCHART, |ranked|)]
  }

  /** A reason left off the bar list has no more minutes than any reason on it. */
  lemma {:induction false} BarsDominate(ranked: seq<Total>)
    requires NonIncreasing(ranked)
    ensures forall i, j :: 0 <= i < |Bars(ranked)| <= j < |ranked| ==> Bars(ranked)[i].minutes >= ranked[j].minutes
  {
  }

  /** The slice text `Overige (k)`, k the number of reasons beyond the top 5 (never below 0). */
  function OverigeLabel(reasonCount: nat): (text: string)
    ensures |text| >= 11 && text[..9] == "Overige (" && text[|text| - 1] == ')'
    ensures IsDecimal(text[9..|text| - 1], if reasonCount > TOP_N_IN_DONUT then reasonCount - TOP_N_IN_DONUT else 0)
  {
    var k := if reasonCount > TOP_N_IN_DONUT then reasonCount - TOP_N_IN_DONUT else 0;
    var text := "Overige (" + NatToString(k) + ")";
    assert text[9..|text| - 1] == NatToString(k);
    text
  }

  /** The donut: the full ranking for at most five reasons, otherwise the top
      five and, when the rest exceeds 0.01 minutes, one "Overige" slice with
      the rest. */
  function Donut(ranked: seq<Total>): (d: seq<Total>)
    ensures |ranked| <= TOP_N_IN_DONUT ==> d == ranked
    ensures |ranked| > TOP_N_IN_DONUT ==> |d| in {TOP_N_IN_DONUT, TOP_N_IN_DONUT + 1} && d[..TOP_N_IN_DONUT] == ranked[..TOP_N_IN_DONUT]
  {
    if |ranked| <= TOP_N_IN_DONUT then ranked
    else
      var top := ranked[..TOP_N_IN_DONUT];
      var rest := Sum(ranked[TOP_N_IN_DONUT..], Minutes);
      if rest > MINIMUM_REST then top + [Total(OverigeLabel(|ranked|), rest)] else top
  }

  /** The "Overige" slice is the grand total less the top five; with it (or
      with at most five reasons) the donut adds up to the grand total, and
      without it at most 0.01 minutes are missing. */
  lemma {:induction false} DonutAddsUp(ranked: seq<Total>)
    ensures |ranked| > TOP_N_IN_DONUT && |Donut(ranked)| == TOP_N_IN_DONUT + 1 ==>
      Donut(ranked)[TOP_N_IN_DONUT]
        == Total(OverigeLabel(|ranked|), Sum(ranked, Minutes) - Sum(ranked[..TOP_N_IN_DONUT], Minutes))
    ensures |ranked| <= TOP_N_IN_DONUT || |Donut(ranked)| == TOP_N_IN_DONUT + 1 ==>
      Sum(Donut(ranked), Minutes) == Sum(ranked, Minutes)
    ensures Sum(ranked, Minutes) - Sum(Donut(ranked), Minutes) <= MINIMUM_REST
    ensures |ranked| > TOP_N_IN_DONUT ==> (|Donut(ranked)| == TOP_N_IN_DONUT + 1 <==> Sum(ranked, Minutes) - Sum(ranked[..TOP_N_IN_DONUT], Minutes) > MINIMUM_REST)
  {
    if |ranked| > TOP_N_IN_DONUT {
      var top := ranked[..TOP_N_IN_DONUT];
      var tail := ranked[TOP_N_IN_DONUT..];
      assert ranked == top + tail;
      SumAppend(top, tail, Minutes);
      var slice := Total(OverigeLabel(|ranked|), Sum(tail, Minutes));
      SumAppend(top, [slice], Minutes);
      assert [slice][1..] == [];
    }
  }

  /** `head(3)` of the ranking. */
  function Legend(ranked: seq<Total>): (legend: seq<Total>)
    ensures |legend| == Min(LEGEND_SIZE, |ranked|) && legend == ranked[..|legend|]
  {
    ranked[..Min(LEGEND_SIZE, |ranked|)]
  }

  /** A legend text: reasons longer than 30 characters are cut to 30 and get "...". */
  function LegendLabel(reason: string): (text: string)
    ensures |text| <= LABEL_WIDTH + 3
    ensures |reason| <= LABEL_WIDTH ==> text == reason
    ensures |reason| > LABEL_WIDTH ==> text == reason[..LABEL_WIDTH] + "..."
  {
    if |reason| > LABEL_WIDTH then reason[..LABEL_WIDTH] + "..." else reason
  }

  predicate LastOccurrence(s: seq<string>, i: nat)
    requires i < |s|
  {
    forall j :: i < j < |s| ==> s[j] != s[i]
  }

  /** `{reason: palette[i % len(palette)] for i, reason in enumerate(reasons)}`:
      a later duplicate overwrites an earlier one, as in a dict comprehension. */
  function Colours(reasons: seq<string>): (m: map<string, string>)
    ensures forall x :: x in m <==> x in reasons
    ensures forall i :: 0 <= i < |reasons| && LastOccurrence(reasons, i) ==> m[reasons[i]] == PALETTE[i % |PALETTE|]
  {
    if reasons == [] then map[]
    else
      var n := |reasons| - 1;
      var m := Colours(reasons[..n]);
      DropLast(reasons);
      m[reasons[n] := PALETTE[n % |PALETTE|]]
  }

  /** What the list without its last reason holds, and the last occurrences
      it keeps. */
  lemma {:induction false} DropLast(reasons: seq<string>)
    requires reasons != []
    ensures var n := |reasons| - 1;
      forall x :: x in reasons <==> x in reasons[..n] || x == reasons[n]
    ensures var n := |reasons| - 1;
      forall i :: 0 <= i < n && LastOccurrence(reasons, i) ==>
        reasons[..n][i] == reasons[i] && LastOccurrence(reasons[..n], i)
  {
    var n := |reasons| - 1;
    assert reasons == reasons[..n] + [reasons[n]];
  }

  /** The colour map of a tab: the ranked reasons cycle through the palette
      by rank and the "Overige" text is grey. */
  function ColourMap(ranked: seq<Total>): (m: map<string, string>)
    requires DistinctKeys(ranked)
    ensures OverigeLabel(|ranked|) in m && m[OverigeLabel(|ranked|)] == OVERIGE_COLOUR
    ensures forall i :: 0 <= i < |ranked| ==> ranked[i].key in m
    ensures forall i :: 0 <= i < |ranked| && ranked[i].key != OverigeLabel(|ranked|) ==>
      m[ranked[i].key] == PALETTE[i % |PALETTE|]
  {
    var keys := KeysOf(ranked);
    assert forall i :: 0 <= i < |keys| ==> LastOccurrence(keys, i);
    Colours(keys)[OverigeLabel(|ranked|) := OVERIGE_COLOUR]
  }

  /** `color_map.get(reason, '#808080')`. */
  function LegendColour(m: map<string, string>, reason: string): (c: string)
    ensures reason in m ==> c == m[reason]
    ensures reason !in m ==> c == FALLBACK_COLOUR
  {
    if reason in m then m[reason] else FALLBACK_COLOUR
  }

  // ---------------------------------------------------------------------------
  // One tab

  /** The donut column when it is drawn: the slices and the top-3 legend
      under them. */
  datatype DonutView = DonutView(slices: seq<Total>, legend: seq<Total>)

  /** What one tab draws. The donut, and with it the legend, is drawn only
      when it has slices and the total is positive. */
  datatype ReasonView = ReasonView(ranked: seq<Total>, total: real, bars: seq<Total>,
                                   donut: Option<DonutView>, colours: map<string, string>)

  datatype TabOutcome =
    | NoLineData
    | NoRelevantData
    | Shown(view: ReasonView)

  /** One tab of `display_tabbed_line_analysis`: "no data" when the tab has no
      events, "nothing relevant" when nothing is left after the exclusion or
      the rest sums to less than 0.1 minutes, otherwise the views. */
  function TabView(events: seq<Event>, tab: string, keywords: seq<string>): (r: TabOutcome)
    ensures r.NoLineData? <==> TabData(events, tab) == []
    ensures r.NoRelevantData? <==>
      var data := Relevant(TabData(events, tab), keywords);
      TabData(events, tab) != [] && (data == [] || Sum(data, EventMinutes) < MINIMUM_TOTAL)
    ensures r.Shown? ==>
      && r.view.ranked == RankedReasons(Relevant(TabData(events, tab), keywords))
      && r.view.total == Sum(r.view.ranked, Minutes)
      && r.view.bars == Bars(r.view.ranked)
      && r.view.colours == ColourMap(r.view.ranked)
      && (r.view.donut.Some? <==> r.view.ranked != [] && r.view.total > 0.0)
      && (r.view.donut.Some? ==> r.view.donut.value == DonutView(Donut(r.view.ranked), Legend(r.view.ranked)))
  {
    var data := TabData(events, tab);
    if data == [] then NoLineData
    else
      var relevant := Relevant(data, keywords);
      if relevant == [] || Sum(relevant, EventMinutes) < MINIMUM_TOTAL then NoRelevantData
      else
        var ranked := RankedReasons(relevant);
        var total := Sum(ranked, Minutes);
        var donut := Donut(ranked);
        Shown(ReasonView(ranked, total, Bars(ranked),
                         if donut != [] && total > 0.0 then Some(DonutView(donut, Legend(ranked))) else None,
                         ColourMap(ranked)))
  }
}
