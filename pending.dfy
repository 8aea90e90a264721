/** The pending-orders page: the searchable, date-bounded and date-sorted view of the pending
    list, the "pending over four days" counter, and the page state that the selection,
    confirm/cancel and batch handlers update. Server answers are inputs. */
module Pending {
  import opened Collections
  import opened JsBuiltins
  import opened Dates
  import opened Orders

  // ---------------------------------------------------------------- the derived view

  /** order_id.toLowerCase().includes(searchTerm.toLowerCase()) */
  predicate MatchesSearch(o: Order, term: string) {
    Contains(ToLower(o.orderId), ToLower(term))
  }

  /** The date-range test: a set bound admits only a date that compares with it, so a row
      with a null date (falsy) or an Invalid Date (every comparison false) is out as soon as
      either bound is set. A bound is a time value. */
  predicate InDateRange(d: JsDate, start: Option<int>, end: Option<int>) {
    (start.None? || (d.ValidDate? && d.time >= start.value))
    && (end.None? || (d.ValidDate? && d.time <= end.value))
  }

  /** The parsedDate the fetch attaches to a row. */
  function OrderTime(o: Order): JsDate {
    ParseCustomDate(o.orderDate)
  }

  predicate Shown(o: Order, term: string, start: Option<int>, end: Option<int>) {
    MatchesSearch(o, term) && InDateRange(OrderTime(o), start, end)
  }

  /** parsedDate?.getTime() || 0 */
  function OldestKey(o: Order): int {
    TimeOrZero(OrderTime(o))
  }

  /** The comparator (a, b) => key(b) - key(a) orders as ascending by the negated key. */
  function NewestKey(o: Order): int {
    -OldestKey(o)
  }

  function SortKey(sortOrder: string): Order -> int {
    if sortOrder == "newest" then NewestKey else OldestKey
  }

  function FilteredOrders(rows: seq<Order>, term: string, start: Option<int>, end: Option<int>): seq<Order> {
    Filter(rows, (o: Order) => Shown(o, term, start, end))
  }

  /** filteredAndSortedOrders: the shown rows, stably sorted by date, newest first for
      "newest" and oldest first otherwise. */
  function FilteredAndSorted(rows: seq<Order>, term: string, start: Option<int>, end: Option<int>, sortOrder: string): (r: seq<Order>)
    ensures |r| <= |rows|
  {
    SortByKey(FilteredOrders(rows, term, start, end), SortKey(sortOrder))
  }

  /** The view holds exactly the rows that match the search and the date bounds, each as
      often as in the list. */
  lemma FilteredAndSortedMembers(rows: seq<Order>, term: string, start: Option<int>, end: Option<int>, sortOrder: string)
    ensures multiset(FilteredAndSorted(rows, term, start, end, sortOrder)) == multiset(FilteredOrders(rows, term, start, end))
    ensures forall o :: o in FilteredAndSorted(rows, term, start, end, sortOrder) <==> o in rows && Shown(o, term, start, end)
  {
    var f := FilteredOrders(rows, term, start, end);
    var r := FilteredAndSorted(rows, term, start, end, sortOrder);
    FilterSpec(rows, (o: Order) => Shown(o, term, start, end));
    forall o ensures o in r <==> o in rows && Shown(o, term, start, end) {
      calc {
        o in r;
        o in multiset(r);
        o in multiset(f);
        o in f;
      }
      if o in f {
        assert o in multiset(rows);
      }
    }
  }

  /** With a bound set, a row whose date does not parse is never shown. */
  lemma UndatedHiddenByBound(rows: seq<Order>, term: string, start: Option<int>, end: Option<int>, sortOrder: string, o: Order)
    requires start.Some? || end.Some?
    requires !OrderTime(o).ValidDate?
    ensures o !in FilteredAndSorted(rows, term, start, end, sortOrder)
  {
    FilteredAndSortedMembers(rows, term, start, end, sortOrder);
  }

  /** "newest" lists later dates first, any other order earlier dates first; a missing or
      invalid date counts as time 0. */
  lemma FilteredAndSortedOrder(rows: seq<Order>, term: string, start: Option<int>, end: Option<int>, sortOrder: string)
    ensures var r := FilteredAndSorted(rows, term, start, end, sortOrder);
      forall i, j :: 0 <= i < j < |r| ==>
        if sortOrder == "newest" then OldestKey(r[i]) >= OldestKey(r[j]) else OldestKey(r[i]) <= OldestKey(r[j])
  {
    var key := SortKey(sortOrder);
    SortByKeySorted(FilteredOrders(rows, term, start, end), key);
  }

  /** The sort is stable: rows with equal dates keep their list order. */
  lemma FilteredAndSortedStable(rows: seq<Order>, term: string, start: Option<int>, end: Option<int>, sortOrder: string, k: int)
    ensures WithKey(FilteredAndSorted(rows, term, start, end, sortOrder), SortKey(sortOrder), k)
         == WithKey(FilteredOrders(rows, term, start, end), SortKey(sortOrder), k)
  {
    SortByKeyStable(FilteredOrders(rows, term, start, end), SortKey(sortOrder), k);
  }

  // ---------------------------------------------------------------- overdue rows

  /** A missing part of a destructured split is undefined, which a template writes as
      "undefined". */
  function PartOrUndefined(parts: seq<string>, i: nat): string {
    if i < |parts| then parts[i] else "undefined"
  }

  /** `${year}-${month}-${day}` from the first three '-' fields of a DD-MM-YYYY text. */
  function IsoText(orderDate: string): string {
    var parts := Split(orderDate, '-');
    PartOrUndefined(parts, 2) + "-" + PartOrUndefined(parts, 1) + "-" + PartOrUndefined(parts, 0)
  }

  /** showWarningForFourDaysPendingOrder: 0 for an empty date or one whose reordered text does
      not parse; otherwise the whole days from that time to now, rounded down. The text
      parse of the Date constructor is the parameter parseTime, the clock reading is now. */
  function DaysPending(orderDate: string, now: int, parseTime: string -> Option<int>): (r: int)
    ensures orderDate == "" || parseTime(IsoText(orderDate)).None? ==> r == 0
    ensures orderDate != "" && parseTime(IsoText(orderDate)).Some? ==>
      r * MsPerDay <= now - parseTime(IsoText(orderDate)).value < (r + 1) * MsPerDay
  {
    if orderDate == "" then 0
    else match parseTime(IsoText(orderDate))
      case None => 0
      case Some(t) => (now - t) / MsPerDay
  }

  /** A row is overdue exactly when its date parses and lies at least five whole days
      before now. */
  lemma OverdueIff(orderDate: string, now: int, parseTime: string -> Option<int>)
    ensures DaysPending(orderDate, now, parseTime) > 4
      <==> orderDate != "" && parseTime(IsoText(orderDate)).Some?
           && now - parseTime(IsoText(orderDate)).value >= 5 * MsPerDay
  {
    var r := DaysPending(orderDate, now, parseTime);
    if orderDate != "" && parseTime(IsoText(orderDate)).Some? {
      var d := now - parseTime(IsoText(orderDate)).value;
      if r > 4 {
        assert r * MsPerDay >= 5 * MsPerDay;
      }
      if d >= 5 * MsPerDay {
        assert (r + 1) * MsPerDay > 5 * MsPerDay;
      }
    }
  }

  function OverdueRows(rows: seq<Order>, now: int, parseTime: string -> Option<int>): seq<Order> {
    Filter(rows, (o: Order) => DaysPending(o.orderDate, now, parseTime) > 4)
  }

  /** pendingOverFourDaysCount over the shown rows. */
  function OverdueCount(rows: seq<Order>, now: int, parseTime: string -> Option<int>): (n: nat)
    ensures n <= |rows|
  {
    |OverdueRows(rows, now, parseTime)|
  }

  /** The count adds up over any split of the list. */
  lemma OverdueCountAppend(a: seq<Order>, b: seq<Order>, now: int, parseTime: string -> Option<int>)
    ensures OverdueCount(a + b, now, parseTime) == OverdueCount(a, now, parseTime) + OverdueCount(b, now, parseTime)
  {
    FilterAppend(a, b, (o: Order) => DaysPending(o.orderDate, now, parseTime) > 4);
  }

  /** The count reaches the number of rows exactly when every row is overdue. */
  lemma OverdueCountAll(rows: seq<Order>, now: int, parseTime: string -> Option<int>)
    ensures OverdueCount(rows, now, parseTime) == |rows|
        <==> forall i :: 0 <= i < |rows| ==> DaysPending(rows[i].orderDate, now, parseTime) > 4
  {
    FilterKeepsAll(rows, (o: Order) => DaysPending(o.orderDate, now, parseTime) > 4);
  }

  // ---------------------------------------------------------------- confirm and cancel

  /** The two actions the page offers on a pending order. */
  datatype Action = ConfirmAction | CancelAction

  /** The order_status the action posts. */
  function Status(a: Action): string {
    if a.ConfirmAction? then "Confirm" else "Cancel"
  }

  /** { confirming: true, error: null } or { cancelling: true, error: null } */
  function Started(a: Action): FlagUpdate {
    if a.ConfirmAction? then Confirming else Cancelling
  }

  function Completed(a: Action): FlagUpdate {
    if a.ConfirmAction? then ConfirmSucceeded else CancelSucceeded
  }

  function Failed(a: Action, message: string): FlagUpdate {
    if a.ConfirmAction? then ConfirmFailed(message) else CancelFailed(message)
  }

  /** The message a single request that did not succeed fails with. */
  function SingleFallback(a: Action): string {
    if a.ConfirmAction? then "Confirmation failed" else "Cancellation failed"
  }

  /** The message a batch whose answers were not all successful fails with. */
  function BatchFallback(a: Action): string {
    if a.ConfirmAction? then "Some orders failed to confirm" else "Some orders failed to cancel"
  }

  /** What a row's flags end as once the action is over: on success the action's done flag
      is set and its busy flag cleared, the error staying null; on failure the busy flag is
      cleared and the error holds the message. */
  function Settled(a: Action, f: Flags, failure: Option<string>): (g: Flags)
    ensures !g.confirming || (a.CancelAction? && f.confirming)
    ensures !g.cancelling || (a.ConfirmAction? && f.cancelling)
    ensures failure.None? ==> g.error.None? && (if a.ConfirmAction? then g.confirmed else g.cancelled)
    ensures failure.Some? ==> g.error == failure
  {
    match failure
    case None =>
      if a.ConfirmAction? then f.(confirmed := true, confirming := false, error := None)
      else f.(cancelled := true, cancelling := false, error := None)
    case Some(m) =>
      if a.ConfirmAction? then f.(confirming := false, error := Some(m))
      else f.(cancelling := false, error := Some(m))
  }

  /** Starting and then finishing an action leaves a row's flags settled. */
  lemma StartThenFinish(a: Action, f: Flags, failure: Option<string>)
    ensures Apply(match failure case None => Completed(a) case Some(m) => Failed(a, m), Apply(Started(a), f))
         == Settled(a, f, failure)
  {
  }

  /** The bodies the batch posts: one per selected id, in selection order, built from the
      first row carrying that id; posting stops at the first id no row carries, where reading
      the missing order throws. */
  function BatchRequests(rows: seq<Order>, ids: seq<string>, status: string): (r: seq<Payload>)
    ensures |r| <= |ids|
    ensures forall i :: 0 <= i < |r| ==> r[i].orderId == ids[i] && r[i].orderStatus == status
    ensures forall i :: 0 <= i < |r| ==> HasId(rows, ids[i]) && r[i] == PayloadOf(FindOrder(rows, ids[i]).value, status)
    ensures |r| < |ids| ==> !HasId(rows, ids[|r|])
    decreases |ids|
  {
    if |ids| == 0 then []
    else match FindOrder(rows, ids[0])
      case None => []
      case Some(o) => [PayloadOf(o, status)] + BatchRequests(rows, ids[1..], status)
  }

  /** Every selected id is posted exactly when every selected id has a row. */
  lemma {:induction false} BatchRequestsComplete(rows: seq<Order>, ids: seq<string>, status: string)
    ensures |BatchRequests(rows, ids, status)| == |ids| <==> forall i :: 0 <= i < |ids| ==> HasId(rows, ids[i])
    decreases |ids|
  {
    if |ids| > 0 {
      BatchRequestsComplete(rows, ids[1..], status);
      if FindOrder(rows, ids[0]).Some? {
        assert forall i :: 1 <= i < |ids| ==> ids[i] == ids[1..][i - 1];
      }
    }
  }

  /** The message Promise.all rejects with, if any request was rejected. Promise.all takes the
      rejection that settles first; completion order is not part of the model, so the first
      rejection in selection order stands for it. */
  function FirstRejection(responses: seq<Response>): (r: Option<string>)
    ensures r.None? <==> forall i :: 0 <= i < |responses| ==> !responses[i].Rejected?
    ensures r.Some? ==> exists i :: (0 <= i < |responses| && responses[i].Rejected? && r.value == responses[i].message
                                     && forall j :: 0 <= j < i ==> !responses[j].Rejected?)
    decreases |responses|
  {
    if |responses| == 0 then None
    else if responses[0].Rejected? then Some(responses[0].message)
    else
      var rest := FirstRejection(responses[1..]);
      assert forall i :: 1 <= i < |responses| ==> responses[i] == responses[1..][i - 1];
      assert rest.Some? ==> exists i :: (1 <= i < |responses| && responses[i].Rejected? && rest.value == responses[i].message
                                         && forall j :: 0 <= j < i ==> !responses[j].Rejected?);
      rest
  }

  /** How a batch ends: a missing order's TypeError, else the first rejection, else the
      page's own message when some answer was not a success, else no failure. */
  function BatchFailure(a: Action, rows: seq<Order>, ids: seq<string>, responses: seq<Response>): Option<string>
  {
    if |BatchRequests(rows, ids, Status(a))| < |ids| then Some(UndefinedOrderMessage)
    else match FirstRejection(responses)
      case Some(m) => Some(m)
      case None =>
        if forall i :: 0 <= i < |responses| ==> Succeeded(responses[i]) then None
        else Some(BatchFallback(a))
  }

  /** A batch succeeds exactly when every selected id has a row and every answer is a
      success. */
  lemma BatchSucceedsIff(a: Action, rows: seq<Order>, ids: seq<string>, responses: seq<Response>)
    ensures BatchFailure(a, rows, ids, responses).None?
        <==> (forall i :: 0 <= i < |ids| ==> HasId(rows, ids[i]))
             && forall j :: 0 <= j < |responses| ==> Succeeded(responses[j])
  {
    BatchRequestsComplete(rows, ids, Status(a));
    if FirstRejection(responses).Some? {
      var j :| 0 <= j < |responses| && responses[j].Rejected?;
      assert !Succeeded(responses[j]);
    }
  }

  // ---------------------------------------------------------------- the page

  /** The pending-orders page's state. Each row's parsedDate is OrderTime of the row. */
  class PendingView {
    var orders: seq<Order>
    var confirmOrders: seq<Order>
    var error: string
    var searchTerm: string
    var selectedOrders: seq<string>
    var selectAll: bool
    var startDate: Option<int>
    var endDate: Option<int>
    var sortOrder: string

    constructor ()
      ensures orders == [] && confirmOrders == [] && error == "" && searchTerm == ""
      ensures selectedOrders == [] && !selectAll && startDate.None? && endDate.None?
      ensures sortOrder == "oldest"
    {
      orders := [];
      confirmOrders := [];
      error := "";
      searchTerm := "";
      selectedOrders := [];
      selectAll := false;
      startDate := None;
      endDate := None;
      sortOrder := "oldest";
    }

    /** The rows on screen. */
    function Visible(): seq<Order>
      reads this
    {
      FilteredAndSorted(orders, searchTerm, startDate, endDate, sortOrder)
    }

    /** fetchPendingOrders after a successful GET: the rows with cleared flags, and an empty
        selection. */
    method Load(fetched: seq<Order>)
      modifies this
      ensures orders == Fetched(fetched) && selectedOrders == [] && !selectAll
      ensures InSync(orders, selectedOrders)
      ensures confirmOrders == old(confirmOrders) && error == old(error) && searchTerm == old(searchTerm)
      ensures startDate == old(startDate) && endDate == old(endDate) && sortOrder == old(sortOrder)
    {
      orders := Fetched(fetched);
      selectedOrders := [];
      selectAll := false;
    }

    /** fetchConfirmOrder after a successful GET. */
    method LoadConfirmOrders(fetched: seq<Order>)
      modifies this`confirmOrders
      ensures confirmOrders == fetched
    {
      confirmOrders := fetched;
    }

    /** toggleOrderSelection */
    method ToggleOrderSelection(id: string)
      modifies this`orders, this`selectedOrders
      ensures orders == ToggleRows(old(orders), id)
      ensures selectedOrders == ToggleIds(old(selectedOrders), id)
      ensures InSync(old(orders), old(selectedOrders)) ==> InSync(orders, selectedOrders)
    {
      if InSync(orders, selectedOrders) {
        ToggleKeepsInSync(orders, selectedOrders, id);
      }
      orders := ToggleRows(orders, id);
      selectedOrders := ToggleIds(selectedOrders, id);
    }

    /** toggleSelectAll */
    method ToggleSelectAll()
      modifies this`orders, this`selectedOrders, this`selectAll
      ensures selectAll == !old(selectAll)
      ensures orders == SelectAllRows(old(orders), selectAll)
      ensures selectedOrders == SelectAllIds(old(orders), selectAll)
      ensures InSync(orders, selectedOrders)
    {
      selectAll := !selectAll;
      SelectAllInSync(orders, selectAll);
      selectedOrders := SelectAllIds(orders, selectAll);
      orders := SelectAllRows(orders, selectAll);
    }

    /** clearDateFilters */
    method ClearDateFilters()
      modifies this`startDate, this`endDate
      ensures startDate.None? && endDate.None?
    {
      startDate := None;
      endDate := None;
    }

    /** handleConfirm / handleCancel for one order id. The answers of the window.confirm
        dialogs are userConfirms and, for a confirmation while confirmed orders are still
        waiting to ship, backlogConfirms; response is the POST's outcome. Returns the body
        posted, if any, and whether a refetch is scheduled. */
    method Act(a: Action, id: string, userConfirms: bool, backlogConfirms: bool, response: Response)
      returns (sent: Option<Payload>, refetch: bool)
      modifies this`orders, this`error
      ensures |orders| == |old(orders)|
      ensures refetch ==> sent.Some? && Succeeded(response)
      // declining a dialog, or an id no row carries, leaves the rows as they were
      ensures !userConfirms || !HasId(old(orders), id) ==> orders == old(orders) && sent.None? && !refetch
      ensures a.ConfirmAction? && userConfirms && |confirmOrders| > 0 && !backlogConfirms ==>
        orders == old(orders) && sent.None? && !refetch && error == "First mark shipped orders from confirm orders"
      ensures sent.Some? ==> sent == Some(PayloadOf(FindOrder(old(orders), id).value, Status(a))) && refetch == Succeeded(response)
      ensures sent.Some? ==> forall i :: 0 <= i < |orders| ==>
        orders[i] == (if old(orders)[i].orderId == id
                      then old(orders)[i].(flags := Settled(a, old(orders)[i].flags,
                             if Succeeded(response) then None else Some(ErrorMessage(response, SingleFallback(a)))))
                      else old(orders)[i])
      ensures sent.None? ==> orders == old(orders)
      ensures userConfirms && HasId(old(orders), id) && !(a.ConfirmAction? && |confirmOrders| > 0 && !backlogConfirms)
        ==> sent.Some?
      ensures error != old(error) ==> error == "First mark shipped orders from confirm orders"
    {
      sent, refetch := None, false;
      if !userConfirms {
        return;
      }
      if a.ConfirmAction? && |confirmOrders| > 0 && !backlogConfirms {
        error := "First mark shipped orders from confirm orders";
        return;
      }
      var matched := FindOrder(orders, id);
      if matched.None? {
        MarkNotFound(a, id);
        return;
      }
      sent, refetch := PostOne(a, id, matched.value, response);
    }

    /** The thrown "Order not found" marks the rows carrying the id as failed: there are
        none, so nothing changes. */
    method MarkNotFound(a: Action, id: string)
      requires !HasId(orders, id)
      modifies this`orders
      ensures orders == old(orders)
    {
      var before := orders;
      orders := MarkWhere(orders, [id], Failed(a, "Order not found"));
      forall i | 0 <= i < |orders| ensures orders[i] == before[i] {
        MarkWhereRow(before, [id], Failed(a, "Order not found"), i);
      }
    }

    /** The POST for an order that was found: its rows are marked started, then completed
        or failed according to the response. */
    method PostOne(a: Action, id: string, o: Order, response: Response) returns (sent: Option<Payload>, refetch: bool)
      modifies this`orders
      ensures sent == Some(PayloadOf(o, Status(a))) && refetch == Succeeded(response)
      ensures |orders| == |old(orders)|
      ensures forall i :: 0 <= i < |orders| ==>
        orders[i] == (if old(orders)[i].orderId == id
                      then old(orders)[i].(flags := Settled(a, old(orders)[i].flags,
                             if Succeeded(response) then None else Some(ErrorMessage(response, SingleFallback(a)))))
                      else old(orders)[i])
    {
      var before := orders;
      orders := MarkWhere(orders, [id], Started(a));
      sent := Some(PayloadOf(o, Status(a)));
      var failure: Option<string>;
      if Succeeded(response) {
        failure := None;
        orders := MarkWhere(orders, [id], Completed(a));
        refetch := true;
      } else {
        failure := Some(ErrorMessage(response, SingleFallback(a)));
        orders := MarkWhere(orders, [id], Failed(a, failure.value));
        refetch := false;
      }
      forall i | 0 <= i < |orders|
        ensures orders[i] == (if before[i].orderId == id then before[i].(flags := Settled(a, before[i].flags, failure)) else before[i])
      {
        MarkWhereRow(before, [id], Started(a), i);
        StartThenFinish(a, before[i].flags, failure);
      }
    }

    /** handleBatchConfirm / handleBatchCancel, with one answer per selected id. Returns the
        bodies posted and whether a refetch is scheduled. */
    method Batch(a: Action, responses: seq<Response>) returns (sent: seq<Payload>, refetch: bool)
      requires |responses| == |selectedOrders|
      modifies this`orders
      ensures |orders| == |old(orders)|
      // an empty selection only warns
      ensures selectedOrders == [] ==> orders == old(orders) && sent == [] && !refetch
      ensures selectedOrders != [] ==> sent == BatchRequests(old(orders), selectedOrders, Status(a))
      ensures selectedOrders != [] ==> refetch == BatchFailure(a, old(orders), selectedOrders, responses).None?
      // only rows whose id is selected change, and each of them is settled
      ensures selectedOrders != [] ==> forall i :: 0 <= i < |orders| ==>
        orders[i] == (if old(orders)[i].orderId in selectedOrders
                      then old(orders)[i].(flags := Settled(a, old(orders)[i].flags, BatchFailure(a, old(orders), selectedOrders, responses)))
                      else old(orders)[i])
    {
      sent, refetch := [], false;
      if |selectedOrders| == 0 {
        return;
      }
      var before := orders;
      orders := MarkWhere(orders, selectedOrders, Started(a));
      sent := BatchRequests(before, selectedOrders, Status(a));
      var failure := BatchFailure(a, before, selectedOrders, responses);
      match failure {
        case None =>
          orders := MarkWhere(orders, selectedOrders, Completed(a));
          refetch := true;
        case Some(m) =>
          orders := MarkWhere(orders, selectedOrders, Failed(a, m));
      }
      forall i | 0 <= i < |orders|
        ensures orders[i] == (if before[i].orderId in selectedOrders then before[i].(flags := Settled(a, before[i].flags, failure)) else before[i])
      {
        MarkWhereRow(before, selectedOrders, Started(a), i);
        StartThenFinish(a, before[i].flags, failure);
      }
    }

    /** exportToCSV / exportToPDF: the rows exported, or None when there is nothing to
        export and the page only warns. */
    function Exported(): (r: Option<seq<Order>>)
      reads this
      ensures r.None? <==> forall o :: o in orders ==> selectedOrders != [] && o.orderId !in selectedOrders
      ensures r.Some? ==> forall o :: o in r.value <==> o in orders && (selectedOrders == [] || o.orderId in selectedOrders)
    {
      ExportSetSpec(orders, selectedOrders);
      Export(orders, selectedOrders)
    }
  }
}
