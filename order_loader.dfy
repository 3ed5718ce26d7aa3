/** `load_order_data` (dashboard.py:60-114): the order export, checked for the
    five columns the target-time calculator needs, narrowed to those columns
    and cleaned of rows without a line or a quantity.

    `pd.to_numeric(errors='coerce')` and the format-less
    `pd.to_datetime(errors='coerce')` guess at their input by rules of the
    library; here they are parameters, each giving `None` where pandas gives
    NaN or NaT. */
module OrderLoader {
  import opened Wrappers
  import opened Seqs
  import opened Csv
  import opened Timestamps

  const REQUIRED_COLUMNS := ["Date", "Work Center", "WO #", "Item", "Build Qty"]

  /** One order after loading; `Work Center` is renamed `Line` and
      `Build Qty` is renamed `Quantity`. */
  datatype Order = Order(date: Option<DateTime>, line: string, workOrder: Cell, item: Cell, quantity: real)

  /** The orders, and how many rows were dropped for a missing Line or Quantity. */
  datatype OrderLoad = OrderLoad(orders: seq<Order>, dropped: nat)

  datatype OrderError = MissingColumns(names: seq<string>)

  predicate Absent(header: seq<string>, name: string) { name !in header }

  /** The required columns the header lacks, in the order they are required. */
  function MissingFrom(header: seq<string>): (missing: seq<string>)
    ensures forall i :: 0 <= i < |missing| ==> missing[i] in REQUIRED_COLUMNS && missing[i] !in header
    ensures forall i :: 0 <= i < |REQUIRED_COLUMNS| && REQUIRED_COLUMNS[i] !in header ==> REQUIRED_COLUMNS[i] in missing
  {
    Filter(REQUIRED_COLUMNS, name => Absent(header, name))
  }

  /** Where the five required columns sit in the header. */
  datatype Layout = Layout(date: nat, line: nat, workOrder: nat, item: nat, quantity: nat)

  function LayoutOf(header: seq<string>): Layout
    requires forall i :: 0 <= i < |REQUIRED_COLUMNS| ==> REQUIRED_COLUMNS[i] in header
  {
    assert REQUIRED_COLUMNS[0] in header && REQUIRED_COLUMNS[1] in header && REQUIRED_COLUMNS[2] in header;
    assert REQUIRED_COLUMNS[3] in header && REQUIRED_COLUMNS[4] in header;
    Layout(IndexOf(header, "Date"), IndexOf(header, "Work Center"), IndexOf(header, "WO #"),
           IndexOf(header, "Item"), IndexOf(header, "Build Qty"))
  }

  function Coerce<T>(c: Cell, parse: string -> Option<T>): Option<T> {
    if c.None? then None else parse(c.value)
  }

  /** A row keeps its place when its Line is present and its Quantity converts. */
  predicate Complete(row: seq<Cell>, layout: Layout, toNumber: string -> Option<real>) {
    CellAt(row, layout.line).Some? && Coerce(CellAt(row, layout.quantity), toNumber).Some?
  }

  function OrderOf(row: seq<Cell>, layout: Layout, toNumber: string -> Option<real>, toDate: string -> Option<DateTime>): Order
    requires Complete(row, layout, toNumber)
  {
    Order(Coerce(CellAt(row, layout.date), toDate), CellAt(row, layout.line).value,
          CellAt(row, layout.workOrder), CellAt(row, layout.item),
          Coerce(CellAt(row, layout.quantity), toNumber).value)
  }

  /** `dropna(subset=['Line', 'Quantity'])` after the conversions. */
  function KeepComplete(rows: seq<seq<Cell>>, layout: Layout, toNumber: string -> Option<real>,
                        toDate: string -> Option<DateTime>): (orders: seq<Order>)
    ensures |orders| <= |rows|
  {
    if rows == [] then []
    else
      var head := if Complete(rows[0], layout, toNumber) then [OrderOf(rows[0], layout, toNumber, toDate)] else [];
      head + KeepComplete(rows[1..], layout, toNumber, toDate)
  }

  /** `load_order_data` after the file has been read. */
  function LoadOrders(t: RawTable, toNumber: string -> Option<real>, toDate: string -> Option<DateTime>): (r: Result<OrderLoad, OrderError>)
    ensures r.Failure? <==> exists i :: 0 <= i < |REQUIRED_COLUMNS| && REQUIRED_COLUMNS[i] !in t.header
    ensures r.Failure? ==> r.error.names == MissingFrom(t.header) && |r.error.names| > 0
    ensures r.Success? ==> |r.value.orders| + r.value.dropped == |t.rows|
    ensures r.Success? ==> r.value.orders == KeepComplete(t.rows, LayoutOf(t.header), toNumber, toDate)
  {
    var missing := MissingFrom(t.header);
    if missing != [] then
      assert missing[0] !in t.header;
      Failure(MissingColumns(missing))
    else
      var layout := LayoutOf(t.header);
      var orders := KeepComplete(t.rows, layout, toNumber, toDate);
      Success(OrderLoad(orders, |t.rows| - |orders|))
  }

  /** The kept orders are the complete rows, in file order, with their
      converted values; every other row is counted as dropped. */
  lemma {:induction false} KeepCompleteCounts(rows: seq<seq<Cell>>, layout: Layout, toNumber: string -> Option<real>,
                                              toDate: string -> Option<DateTime>)
    ensures |KeepComplete(rows, layout, toNumber, toDate)| == Count(rows, row => Complete(row, layout, toNumber))
    ensures forall o :: o in KeepComplete(rows, layout, toNumber, toDate) ==>
      exists row :: row in rows && Complete(row, layout, toNumber) && o == OrderOf(row, layout, toNumber, toDate)
  {
    if rows != [] {
      KeepCompleteCounts(rows[1..], layout, toNumber, toDate);
      var rest := KeepComplete(rows[1..], layout, toNumber, toDate);
      forall o | o in KeepComplete(rows, layout, toNumber, toDate)
        ensures exists row :: row in rows && Complete(row, layout, toNumber) && o == OrderOf(row, layout, toNumber, toDate)
      {
        if o in rest {
          var row :| row in rows[1..] && Complete(row, layout, toNumber) && o == OrderOf(row, layout, toNumber, toDate);
          assert row in rows;
        } else {
          assert rows[0] in rows;
        }
      }
    }
  }

  /** A row whose Line is missing, or whose Quantity does not convert, is
      never among the orders; a complete row always is. */
  lemma {:induction false} KeepCompleteMembers(rows: seq<seq<Cell>>, layout: Layout, toNumber: string -> Option<real>,
                                               toDate: string -> Option<DateTime>, i: nat)
    requires i < |rows|
    ensures Complete(rows[i], layout, toNumber) ==> OrderOf(rows[i], layout, toNumber, toDate) in KeepComplete(rows, layout, toNumber, toDate)
  {
    if i > 0 {
      assert rows[1..][i - 1] == rows[i];
      KeepCompleteMembers(rows[1..], layout, toNumber, toDate, i - 1);
    }
  }

  /** The orders keep the file order: the kept orders of two consecutive
      blocks of rows are those of the first block followed by those of the
      second. */
  lemma {:induction false} KeepCompleteAppend(a: seq<seq<Cell>>, b: seq<seq<Cell>>, layout: Layout,
                                              toNumber: string -> Option<real>, toDate: string -> Option<DateTime>)
    ensures KeepComplete(a + b, layout, toNumber, toDate)
         == KeepComplete(a, layout, toNumber, toDate) + KeepComplete(b, layout, toNumber, toDate)
  {
    if a != [] {
      assert (a + b)[1..] == a[1..] + b;
      KeepCompleteAppend(a[1..], b, layout, toNumber, toDate);
    } else {
      assert a + b == b;
    }
  }
}
