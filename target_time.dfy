/** The order target-time calculator in `main` (dashboard.py:445-495): the
    loaded orders, narrowed to the line chosen in the sidebar, each with the
    minutes it should take at the effective capacity. */
module TargetTime {
  import opened Wrappers
  import opened Seqs
  import opened Csv
  import opened OrderLoader

  /** EFFECTIVE_CAPACITY, in pieces per minute. */
  const EFFECTIVE_CAPACITY: real := 19.6
  const ALL_LINES := "Alle lijnen"

  /** The order-line selection narrows the table only when it names a line:
      no selection, an empty one and "Alle lijnen" keep every order. */
  predicate NamesLine(selection: Option<string>) {
    selection.Some? && selection.value != "" && selection.value != ALL_LINES
  }

  predicate OnLine(o: Order, line: string) { o.line == line }

  function OrdersForLine(orders: seq<Order>, selection: Option<string>): (r: seq<Order>)
    ensures !NamesLine(selection) ==> r == orders
    ensures NamesLine(selection) ==>
      (forall i :: 0 <= i < |r| ==> r[i] in orders && r[i].line == selection.value)
      && (forall i :: 0 <= i < |orders| && orders[i].line == selection.value ==> orders[i] in r)
  {
    if NamesLine(selection) then Filter(orders, (o: Order) => OnLine(o, selection.value)) else orders
  }

  /** One row of the target table. */
  datatype TargetRow = TargetRow(line: string, workOrder: Cell, item: Cell, quantity: real, targetMinutes: real)

  datatype TargetError =
    | NoOrderData          // the order file could not be loaded or is empty
    | NoOrdersForLine      // nothing left after the line filter
    | NonPositiveCapacity  // the capacity guard

  /** `Quantity / capacity`: the minutes an order takes at that capacity. */
  function TargetMinutes(quantity: real, capacity: real): (t: real)
    requires capacity > 0.0
    ensures t * capacity == quantity
    ensures quantity >= 0.0 ==> t >= 0.0
  {
    quantity / capacity
  }

  /** A larger order never takes less time. */
  lemma {:induction false} TargetMonotone(a: real, b: real, capacity: real)
    requires capacity > 0.0 && a <= b
    ensures TargetMinutes(a, capacity) <= TargetMinutes(b, capacity)
  {
    var ta, tb := TargetMinutes(a, capacity), TargetMinutes(b, capacity);
    if ta > tb {
      calc { a; == ta * capacity; > tb * capacity; == b; }
    }
  }

  function Rows(orders: seq<Order>, capacity: real): (rows: seq<TargetRow>)
    requires capacity > 0.0
    ensures |rows| == |orders|
    ensures forall i :: 0 <= i < |rows| ==>
      var o := orders[i];
      rows[i].line == o.line && rows[i].workOrder == o.workOrder && rows[i].item == o.item
        && rows[i].quantity == o.quantity && rows[i].targetMinutes * capacity == o.quantity
  {
    seq(|orders|, i requires 0 <= i < |orders| =>
      var o := orders[i];
      TargetRow(o.line, o.workOrder, o.item, o.quantity, TargetMinutes(o.quantity, capacity)))
  }

  /** The calculator: a warning when there are no orders at all or none on
      the chosen line, an error when the capacity is not positive, and
      otherwise the target table. */
  function TargetTable(orders: seq<Order>, selection: Option<string>, capacity: real): (r: Result<seq<TargetRow>, TargetError>)
    ensures r == Failure(NoOrderData) <==> orders == []
    ensures r == Failure(NoOrdersForLine) <==> orders != [] && OrdersForLine(orders, selection) == []
    ensures r == Failure(NonPositiveCapacity) <==> OrdersForLine(orders, selection) != [] && capacity <= 0.0
    ensures r.Success? ==> capacity > 0.0 && OrdersForLine(orders, selection) != []
    ensures r.Success? ==> r.value == Rows(OrdersForLine(orders, selection), capacity)
  {
    if orders == [] then Failure(NoOrderData)
    else
      var kept := OrdersForLine(orders, selection);
      if kept == [] then Failure(NoOrdersForLine)
      else if capacity <= 0.0 then Failure(NonPositiveCapacity)
      else Success(Rows(kept, capacity))
  }

  /** With the configured capacity the guard never fires: every non-empty
      selection gets its table, each target being the quantity divided by 19.6. */
  lemma {:induction false} ConfiguredCapacityComputes(orders: seq<Order>, selection: Option<string>)
    requires OrdersForLine(orders, selection) != []
    ensures TargetTable(orders, selection, EFFECTIVE_CAPACITY).Success?
    ensures var rows := TargetTable(orders, selection, EFFECTIVE_CAPACITY).value;
      forall i :: 0 <= i < |rows| ==> rows[i].targetMinutes * 19.6 == rows[i].quantity
  {
  }
}
