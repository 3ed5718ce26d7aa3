/** `load_data` (dashboard.py:33-57): the downtime export as read from CSV,
    checked for its column count and cleaned into downtime events. */
module DowntimeLoader {
  import opened Wrappers
  import opened Text
  import opened Calendar
  import opened Timestamps
  import opened Seqs
  import opened Csv

  const INDEX_COLUMN := "Unnamed: 0"
  const EXPECTED_COLUMN_COUNT := 12

  /** Positions, among the twelve columns, of the ones the dashboard reads:
      Ordernummer, Workflow, Reden, Starttijd and Stoptijd. */
  const ORDER_COLUMN := 1
  const WORKFLOW_COLUMN := 2
  const REASON_COLUMN := 4
  const START_COLUMN := 6
  const STOP_COLUMN := 7

  const MISSING_REASON := "Onbekend"

  datatype LoadError = UnexpectedColumnCount(count: nat)

  /** A cleaned downtime event. `Datum` is the date of `start`. */
  datatype Event = Event(order: Cell, workflow: string, reason: string, start: DateTime, stop: DateTime, minutes: real)

  function Datum(e: Event): Date { e.start.date }

  /** The `Duur_min` column. */
  function EventMinutes(e: Event): real { e.minutes }

  /** What `load_data` hands on: the events and the three counts it warns about. */
  datatype Loaded = Loaded(events: seq<Event>, startErrors: nat, stopErrors: nat, negatives: nat)

  /** Positions from `from` on whose header is not the index column. */
  function KeptColumns(header: seq<string>, from: nat): (cols: seq<nat>)
    requires from <= |header|
    ensures forall j :: 0 <= j < |cols| ==> from <= cols[j] < |header| && header[cols[j]] != INDEX_COLUMN
    ensures forall j, k :: 0 <= j < k < |cols| ==> cols[j] < cols[k]
    ensures |cols| == |header| - from - Count(header[from..], IsIndexColumn)
    decreases |header| - from
  {
    if from == |header| then []
    else
      var rest := KeptColumns(header, from + 1);
      assert header[from..][1..] == header[from + 1..];
      if header[from] == INDEX_COLUMN then rest else [from] + rest
  }

  predicate IsIndexColumn(name: string) { name == INDEX_COLUMN }

  // ---------------------------------------------------------------------------
  // Per-row stages

  /** `pd.to_datetime(column, format="%d/%m/%y %H:%M:%S", errors="coerce")` on one cell. */
  function ParseCell(c: Cell): Option<DateTime> {
    if c.None? then None else ParseTimestamp(c.value)
  }

  /** A row after the two timestamp parses and the duration in seconds
      (missing when either timestamp is). */
  datatype Staged = Staged(order: Cell, workflow: Cell, reason: Cell,
                           start: Option<DateTime>, stop: Option<DateTime>, seconds: Option<int>)

  /** The duration is present exactly when both timestamps are, and is then
      the difference of the two in seconds. */
  predicate StagedFacts(s: Staged) {
    && Consistent(s)
    && (s.start.Some? ==> ValidDateTime(s.start.value))
    && (s.stop.Some? ==> ValidDateTime(s.stop.value))
    && (s.seconds.Some? ==> s.seconds.value == EpochSeconds(s.stop.value) - EpochSeconds(s.start.value))
  }

  predicate Consistent(s: Staged) {
    s.seconds.Some? <==> s.start.Some? && s.stop.Some?
  }

  function StageRow(row: seq<Cell>, cols: seq<nat>): (s: Staged)
    requires |cols| == EXPECTED_COLUMN_COUNT
    ensures StagedFacts(s)
    ensures s.start == ParseCell(CellAt(row, cols[START_COLUMN]))
    ensures s.stop == ParseCell(CellAt(row, cols[STOP_COLUMN]))
  {
    var start := ParseCell(CellAt(row, cols[START_COLUMN]));
    var stop := ParseCell(CellAt(row, cols[STOP_COLUMN]));
    var seconds := if start.Some? && stop.Some? then Some(EpochSeconds(stop.value) - EpochSeconds(start.value)) else None;
    Staged(CellAt(row, cols[ORDER_COLUMN]), CellAt(row, cols[WORKFLOW_COLUMN]), CellAt(row, cols[REASON_COLUMN]),
           start, stop, seconds)
  }

  function StageRows(rows: seq<seq<Cell>>, cols: seq<nat>): (r: seq<Staged>)
    requires |cols| == EXPECTED_COLUMN_COUNT
    ensures |r| == |rows|
    ensures forall i :: 0 <= i < |rows| ==> r[i] == StageRow(rows[i], cols)
  {
    if rows == [] then [] else [StageRow(rows[0], cols)] + StageRows(rows[1..], cols)
  }

  /** `astype(str).str.upper().str.replace(" ", "")`; a missing workflow
      prints as "nan". */
  function NormaliseWorkflow(c: Cell): (w: string)
    ensures ' ' !in w && !HasLowerAscii(w)
    ensures w == Upper(RemoveSpaces(if c.None? then "nan" else c.value))
  {
    UpperRemoveSpacesCommute(if c.None? then "nan" else c.value);
    var u := Upper(if c.None? then "nan" else c.value);
    assert !HasLowerAscii(u);
    RemoveSpacesKeepsNoLower(u);
    RemoveSpaces(u)
  }

  /** `fillna('Onbekend').astype(str).str.strip()` */
  function CleanReason(c: Cell): (r: string)
    ensures r == [] || (!IsWhitespace(r[0]) && !IsWhitespace(r[|r| - 1]))
  {
    Strip(if c.None? then MISSING_REASON else c.value)
  }

  predicate MissingStart(s: Staged) { s.start.None? }
  predicate MissingStop(s: Staged) { s.stop.None? }
  predicate IsNegative(s: Staged) { s.seconds.Some? && s.seconds.value < 0 }
  predicate IsNonNegative(s: Staged) { s.seconds.Some? && s.seconds.value >= 0 }

  /** `df[df["Duur_sec"] >= 0]`, applied only when a negative duration was
      counted; the comparison is false on a missing duration, so those rows
      go too. */
  function DropNegative(staged: seq<Staged>): (r: seq<Staged>)
    ensures forall i :: 0 <= i < |r| ==> r[i] in staged && !IsNegative(r[i])
    ensures forall i :: 0 <= i < |staged| && IsNonNegative(staged[i]) ==> staged[i] in r
    ensures Count(staged, IsNegative) == 0 ==> r == staged
  {
    CountZero(staged, IsNegative);
    if Count(staged, IsNegative) > 0 then Filter(staged, IsNonNegative) else staged
  }

  /** Duur_min, Datum, Workflow and Reden columns, then
      `dropna(subset=["Starttijd_dt", "Datum", "Duur_min", "Reden"])`: a row
      survives when its start and its duration are present. */
  function Clean(staged: seq<Staged>): (events: seq<Event>)
    ensures |events| == Count(staged, Complete) <= |staged|
    ensures forall e :: e in events ==> exists s :: s in staged && Complete(s) && e == ToEvent(s)
  {
    if staged == [] then []
    else
      assert forall x :: x in staged[1..] ==> x in staged;
      CleanRow(staged[0]) + Clean(staged[1..])
  }

  /** The row has both timestamps and the duration. */
  predicate Complete(s: Staged) {
    s.start.Some? && s.stop.Some? && s.seconds.Some?
  }

  function CleanRow(s: Staged): seq<Event> {
    if Complete(s) then [ToEvent(s)] else []
  }

  function ToEvent(s: Staged): Event
    requires Complete(s)
  {
    Event(s.order, NormaliseWorkflow(s.workflow), CleanReason(s.reason),
          s.start.value, s.stop.value, s.seconds.value as real / 60.0)
  }

  /** `load_data` after the file has been read. */
  function LoadDowntime(t: RawTable): (r: Result<Loaded, LoadError>)
    ensures r.Failure? <==> |t.header| - Count(t.header, IsIndexColumn) != EXPECTED_COLUMN_COUNT
    ensures r.Failure? ==> r.error.count == |t.header| - Count(t.header, IsIndexColumn)
    ensures r.Success? ==> r.value.negatives == Count(StageRows(t.rows, KeptColumns(t.header, 0)), IsNegative)
    ensures r.Success? ==> r.value.startErrors == Count(StageRows(t.rows, KeptColumns(t.header, 0)), MissingStart)
    ensures r.Success? ==> r.value.stopErrors == Count(StageRows(t.rows, KeptColumns(t.header, 0)), MissingStop)
  {
    var cols := KeptColumns(t.header, 0);
    assert t.header[0..] == t.header;
    if |cols| != EXPECTED_COLUMN_COUNT then Failure(UnexpectedColumnCount(|cols|))
    else
      var staged := StageRows(t.rows, cols);
      var startErrors := Count(staged, MissingStart);
      var stopErrors := Count(staged, MissingStop);
      var negatives := Count(staged, IsNegative);
      Success(Loaded(Clean(DropNegative(staged)), startErrors, stopErrors, negatives))
  }

  // ---------------------------------------------------------------------------
  // What the cleaning guarantees

  /** A well-formed event: both timestamps parsed, stop not before start,
      minutes the difference in seconds over 60. */
  predicate WellFormed(e: Event) {
    && ValidDateTime(e.start) && ValidDateTime(e.stop)
    && EpochSeconds(e.stop) >= EpochSeconds(e.start)
    && e.minutes == (EpochSeconds(e.stop) - EpochSeconds(e.start)) as real / 60.0
    && e.minutes >= 0.0
  }

  /** The rows that survive: both timestamps parsed and a non-negative duration. */
  predicate Survives(s: Staged) {
    Complete(s) && s.seconds.value >= 0
  }

  predicate MissingDuration(s: Staged) { s.seconds.None? }

  lemma {:induction false} CleanAppend(a: seq<Staged>, b: seq<Staged>)
    ensures Clean(a + b) == Clean(a) + Clean(b)
  {
    if a == [] {
      assert a + b == b;
    } else {
      assert (a + b)[0] == a[0];
      assert (a + b)[1..] == a[1..] + b;
      CleanAppend(a[1..], b);
      var head, rest := CleanRow(a[0]), Clean(a[1..]);
      assert Clean(a + b) == head + (rest + Clean(b));
      assert head + (rest + Clean(b)) == (head + rest) + Clean(b);
    }
  }

  /** With no negative duration about, dropping the rows whose duration is
      missing keeps exactly the surviving rows. */
  lemma {:induction false} CleanSelects(staged: seq<Staged>)
    requires forall x :: x in staged ==> Consistent(x)
    requires Count(staged, IsNegative) == 0
    ensures Clean(staged) == Clean(Filter(staged, Survives))
  {
    if staged != [] {
      CleanSelects(staged[1..]);
      var s := staged[0];
      var head := if Survives(s) then [s] else [];
      CleanAppend(head, Filter(staged[1..], Survives));
      if Survives(s) {
        assert Clean(head) == [ToEvent(s)] by { assert head[1..] == []; }
      }
    }
  }

  /** Every surviving row becomes a well-formed event. */
  lemma {:induction false} CleanWellFormed(staged: seq<Staged>)
    requires forall x :: x in staged ==> StagedFacts(x) && Survives(x)
    ensures |Clean(staged)| == |staged|
    ensures forall e :: e in Clean(staged) ==> WellFormed(e)
  {
    if staged != [] {
      CleanWellFormed(staged[1..]);
      var s := staged[0];
      assert StagedFacts(s) && Survives(s);
      WellFormedEvent(s);
    }
  }

  lemma {:induction false} WellFormedEvent(s: Staged)
    requires StagedFacts(s) && Survives(s)
    ensures WellFormed(ToEvent(s))
  {
  }

  lemma {:induction false} CountCases(staged: seq<Staged>)
    requires forall x :: x in staged ==> Consistent(x)
    ensures Count(staged, Survives) + Count(staged, IsNegative) + Count(staged, MissingDuration) == |staged|
  {
    if staged != [] {
      assert Consistent(staged[0]);
      assert forall x :: x in staged[1..] ==> x in staged;
      CountCases(staged[1..]);
    }
  }

  /** The cleaning stages, on rows whose duration is present exactly when
      both timestamps are: the rows that survive are kept in order, and each
      other row was a negative duration or had a missing one. */
  lemma {:induction false} CleaningSelectsSurvivors(staged: seq<Staged>)
    requires forall x :: x in staged ==> Consistent(x)
    ensures Clean(DropNegative(staged)) == Clean(Filter(staged, Survives))
    ensures Count(staged, Survives) + Count(staged, IsNegative) + Count(staged, MissingDuration) == |staged|
  {
    if Count(staged, IsNegative) > 0 {
      FilterExtensional(staged, IsNonNegative, Survives);
    } else {
      CleanSelects(staged);
    }
    CountCases(staged);
  }

  /** The surviving rows become well-formed events, one each. */
  lemma {:induction false} SurvivorsWellFormed(staged: seq<Staged>)
    requires forall x :: x in staged ==> StagedFacts(x)
    ensures |Clean(Filter(staged, Survives))| == Count(staged, Survives)
    ensures forall e :: e in Clean(Filter(staged, Survives)) ==> WellFormed(e)
  {
    var survivors := Filter(staged, Survives);
    assert forall x :: x in survivors ==> StagedFacts(x) && Survives(x) by {
      forall x | x in survivors ensures StagedFacts(x) && Survives(x) {
        var i :| 0 <= i < |survivors| && survivors[i] == x;
      }
    }
    CleanWellFormed(survivors);
    FilterPartition(staged, Survives, NotSurvives);
  }

  predicate NotSurvives(s: Staged) { !Survives(s) }

  /** After a successful load, the events are the rows of the file whose
      start and stop both parse with stop not before start, in file order,
      each well-formed; every other row was either counted as a negative
      duration or had a timestamp that did not parse. */
  lemma {:induction false} LoadKeepsSurvivors(t: RawTable)
    requires LoadDowntime(t).Success?
    ensures var staged := StageRows(t.rows, KeptColumns(t.header, 0));
      && LoadDowntime(t).value.events == Clean(Filter(staged, Survives))
      && |LoadDowntime(t).value.events| == Count(staged, Survives)
      && LoadDowntime(t).value.negatives == Count(staged, IsNegative)
      && |LoadDowntime(t).value.events| + LoadDowntime(t).value.negatives + Count(staged, MissingDuration) == |t.rows|
      && forall e :: e in LoadDowntime(t).value.events ==> WellFormed(e)
  {
    var cols := KeptColumns(t.header, 0);
    var staged := StageRows(t.rows, cols);
    assert LoadDowntime(t).value.events == Clean(DropNegative(staged));
    StagedRowsFacts(t.rows, cols);
    CleaningSelectsSurvivors(staged);
    SurvivorsWellFormed(staged);
  }

  lemma {:induction false} StagedRowsFacts(rows: seq<seq<Cell>>, cols: seq<nat>)
    requires |cols| == EXPECTED_COLUMN_COUNT
    ensures forall x :: x in StageRows(rows, cols) ==> StagedFacts(x) && Consistent(x)
  {
    var staged := StageRows(rows, cols);
    forall x | x in staged ensures StagedFacts(x) {
      var i :| 0 <= i < |staged| && staged[i] == x;
      assert x == StageRow(rows[i], cols);
    }
  }

  // ---------------------------------------------------------------------------
  // Workflow and Reden

  /** Normalising a workflow name twice is normalising it once. */
  lemma {:induction false} NormaliseWorkflowIdempotent(c: Cell)
    ensures NormaliseWorkflow(Some(NormaliseWorkflow(c))) == NormaliseWorkflow(c)
  {
    var w := NormaliseWorkflow(c);
    UpperFixed(w);
    RemoveSpacesFixed(w);
  }

  /** The names normalisation leaves alone are those without blanks and
      without lower-case letters. */
  lemma {:induction false} NormaliseWorkflowFixed(w: string)
    ensures NormaliseWorkflow(Some(w)) == w <==> ' ' !in w && !HasLowerAscii(w)
  {
    if ' ' !in w && !HasLowerAscii(w) {
      UpperFixed(w);
      RemoveSpacesFixed(w);
    }
  }

  /** The blank goes out of a line name and lower case goes up. */
  lemma {:induction false} NormaliseWorkflowExamples()
    ensures NormaliseWorkflow(Some("VMPT 1")) == "VMPT1"
    ensures NormaliseWorkflow(Some("cosmo")) == "COSMO"
    ensures NormaliseWorkflow(None) == "NAN"
  {
    NormalisesSpacedName();
    NormalisesLowerName();
    NormalisesMissingName();
  }

  lemma {:induction false} NormalisesSpacedName()
    ensures NormaliseWorkflow(Some("VMPT 1")) == "VMPT1"
  {
    assert Upper("VMPT 1") == "VMPT 1";
    assert RemoveSpaces("VMPT 1") == "VMPT1" by {
      assert "VMPT 1"[1..] == "MPT 1";
      assert "MPT 1"[1..] == "PT 1";
      assert "PT 1"[1..] == "T 1";
      assert "T 1"[1..] == " 1";
      assert " 1"[1..] == "1";
      assert RemoveSpaces("1") == "1" by { assert "1"[1..] == ""; }
    }
  }

  lemma {:induction false} NormalisesLowerName()
    ensures NormaliseWorkflow(Some("cosmo")) == "COSMO"
  {
    assert Upper("cosmo") == "COSMO";
    RemoveSpacesFixed("COSMO");
  }

  lemma {:induction false} NormalisesMissingName()
    ensures NormaliseWorkflow(None) == "NAN"
  {
    assert Upper("nan") == "NAN";
    RemoveSpacesFixed("NAN");
  }

  /** A missing reason reads "Onbekend"; a present one is stripped of the
      whitespace around it, and cleaning it again changes nothing. */
  lemma {:induction false} CleanReasonDefaultAndStrip(c: Cell)
    ensures c.None? ==> CleanReason(c) == MISSING_REASON
    ensures c.Some? ==> CleanReason(c) == Strip(c.value)
    ensures CleanReason(Some(CleanReason(c))) == CleanReason(c)
  {
    if c.None? {
      StripKeepsTrimmed(MISSING_REASON);
    }
    StripIdempotent(if c.None? then MISSING_REASON else c.value);
  }

  /** The two timestamps of an export row parse; they are 900 seconds apart. */
  lemma {:induction false} ParseCellExample()
    ensures ParseCell(Some("01/01/24 08:00:00")) == Some(DateTime(Date(2024, 1, 1), 8, 0, 0))
    ensures ParseCell(Some("01/01/24 08:15:00")) == Some(DateTime(Date(2024, 1, 1), 8, 15, 0))
    ensures EpochSeconds(DateTime(Date(2024, 1, 1), 8, 15, 0)) - EpochSeconds(DateTime(Date(2024, 1, 1), 8, 0, 0)) == 900
  {
    ParseExampleMorning();
    ParseExampleQuarterPast();
  }
}
