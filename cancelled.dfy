/** The cancelled-orders page: search, selection, the bulk move of the selected orders to the
    all-orders list, and the export set. Server answers are inputs. */
module Cancelled {
  import opened Collections
  import opened JsBuiltins
  import opened Orders

  // ---------------------------------------------------------------- search

  /** The search term, lower-cased, occurs in the order id or the style number's decimal
      text, each lower-cased. */
  predicate MatchesSearch(o: Order, term: string) {
    var t := ToLower(term);
    Contains(ToLower(o.orderId), t) || Contains(ToLower(NatToString(o.styleNumber)), t)
  }

  function SearchResults(rows: seq<Order>, term: string): (r: seq<Order>)
    ensures |r| <= |rows|
  {
    Filter(rows, (o: Order) => MatchesSearch(o, term))
  }

  /** The table shows exactly the matching rows, in list order. */
  lemma SearchResultsMembers(rows: seq<Order>, term: string)
    ensures forall o :: o in SearchResults(rows, term) <==> o in rows && MatchesSearch(o, term)
  {
    FilterMembers(rows, (o: Order) => MatchesSearch(o, term));
  }

  // ---------------------------------------------------------------- bulk move

  /** The record each per-id request resolves to: a request that resolves is a success
      whatever the server answered; a rejected one carries its message. */
  datatype BulkResult = BulkResult(orderId: string, success: bool, error: string)

  function ResultOf(id: string, r: Response): BulkResult {
    match r
    case Answered(_, _) => BulkResult(id, true, "")
    case Rejected(m) => BulkResult(id, false, m)
  }

  /** One result per selected id, in selection order. */
  function BulkResults(ids: seq<string>, responses: seq<Response>): (r: seq<BulkResult>)
    requires |responses| == |ids|
    ensures |r| == |ids|
  {
    seq(|ids|, i requires 0 <= i < |ids| => ResultOf(ids[i], responses[i]))
  }

  /** Each result names its id and fails exactly when its request was rejected. */
  lemma BulkResultsAt(ids: seq<string>, responses: seq<Response>, i: nat)
    requires |responses| == |ids| && i < |ids|
    ensures BulkResults(ids, responses)[i].orderId == ids[i]
    ensures !BulkResults(ids, responses)[i].success <==> responses[i].Rejected?
  {
  }

  predicate FailedResult(r: BulkResult) {
    !r.success
  }

  function FailedCount(results: seq<BulkResult>): (n: nat)
    ensures n <= |results|
  {
    |Filter(results, FailedResult)|
  }

  /** The error toast: none when nothing failed, "All orders failed to process" when
      everything did, otherwise "k of n orders failed to process". */
  function FailureText(failed: nat, total: nat): Option<string> {
    if failed == 0 then None
    else if failed == total then Some("All orders failed to process")
    else Some(NatToString(failed) + " of " + NatToString(total) + " orders failed to process")
  }

  /** The toast is shown exactly when something failed, and it says "All" exactly when
      everything failed. */
  lemma FailureTextIff(failed: nat, total: nat)
    ensures FailureText(failed, total).None? <==> failed == 0
    ensures FailureText(failed, total) == Some("All orders failed to process") <==> failed > 0 && failed == total
  {
    if failed > 0 && failed != total {
      var m := FailureText(failed, total).value;
      assert IsDigit(NatToString(failed)[0]);
      assert m[0] == NatToString(failed)[0];
    }
  }

  /** The success toast and the refetch happen exactly when fewer requests failed than ids
      were selected, that is when some request resolved; successCount is the rest. */
  lemma BulkSuccessIff(ids: seq<string>, responses: seq<Response>)
    requires |responses| == |ids|
    ensures FailedCount(BulkResults(ids, responses)) < |ids|
        <==> exists i :: 0 <= i < |responses| && responses[i].Answered?
  {
    var results := BulkResults(ids, responses);
    FilterKeepsAll(results, FailedResult);
    assert forall i :: 0 <= i < |results| ==> (FailedResult(results[i]) <==> responses[i].Rejected?);
  }

  // ---------------------------------------------------------------- the page

  class CancelledView {
    var orders: seq<Order>
    var selectedOrders: seq<string>
    var selectAll: bool
    var searchTerm: string
    var bulkProcessing: bool

    constructor ()
      ensures orders == [] && selectedOrders == [] && !selectAll && searchTerm == "" && !bulkProcessing
    {
      orders := [];
      selectedOrders := [];
      selectAll := false;
      searchTerm := "";
      bulkProcessing := false;
    }

    function Visible(): seq<Order>
      reads this
    {
      SearchResults(orders, searchTerm)
    }

    /** fetchCancelledOrders after a successful GET: flags cleared, selection list kept. */
    method Load(fetched: seq<Order>)
      modifies this`orders
      ensures orders == Fetched(fetched)
    {
      orders := Fetched(fetched);
    }

    method ToggleOrderSelection(id: string)
      modifies this`orders, this`selectedOrders
      ensures orders == ToggleRows(old(orders), id)
      ensures selectedOrders == ToggleIds(old(selectedOrders), id)
      ensures InSync(old(orders), old(selectedOrders)) ==> InSync(orders, selectedOrders)
    {
      if InSync(orders, selectedOrders) {
        ToggleKeepsInSync(orders, selectedOrders, id);
      }
      orders := ToggleRows(orders, id);
      selectedOrders := ToggleIds(selectedOrders, id);
    }

    method ToggleSelectAll()
      modifies this`orders, this`selectedOrders, this`selectAll
      ensures selectAll == !old(selectAll)
      ensures orders == SelectAllRows(old(orders), selectAll)
      ensures selectedOrders == SelectAllIds(old(orders), selectAll)
      ensures InSync(orders, selectedOrders)
    {
      selectAll := !selectAll;
      SelectAllInSync(orders, selectAll);
      selectedOrders := SelectAllIds(orders, selectAll);
      orders := SelectAllRows(orders, selectAll);
    }

    /** handleBulkDelete, with one answer per selected id. Returns the results, the error
        toast, the number reported moved and whether the list is refetched. */
    method BulkDelete(responses: seq<Response>)
      returns (results: seq<BulkResult>, failure: Option<string>, successCount: nat, refetch: bool)
      requires |responses| == |selectedOrders|
      modifies this`bulkProcessing
      ensures selectedOrders == [] ==> results == [] && failure.None? && !refetch && bulkProcessing == old(bulkProcessing)
      ensures selectedOrders != [] ==> !bulkProcessing
      ensures selectedOrders != [] ==> results == BulkResults(selectedOrders, responses)
      ensures failure == FailureText(FailedCount(results), |selectedOrders|)
      ensures refetch <==> FailedCount(results) < |selectedOrders|
      ensures refetch ==> successCount == |selectedOrders| - FailedCount(results)
      ensures !refetch ==> successCount == 0
    {
      results, failure, successCount, refetch := [], None, 0, false;
      if |selectedOrders| == 0 {
        return;
      }
      bulkProcessing := true;
      results := BulkResults(selectedOrders, responses);
      var failed := FailedCount(results);
      failure := FailureText(failed, |selectedOrders|);
      if failed < |selectedOrders| {
        successCount := |selectedOrders| - failed;
        refetch := true;
      }
      bulkProcessing := false;
    }

    /** exportToCSV / exportToPDF: the rows exported, or None when the page only warns. */
    function Exported(): (r: Option<seq<Order>>)
      reads this
      ensures r.None? <==> forall o :: o in orders ==> selectedOrders != [] && o.orderId !in selectedOrders
      ensures r.Some? ==> forall o :: o in r.value <==> o in orders && (selectedOrders == [] || o.orderId in selectedOrders)
    {
      ExportSetSpec(orders, selectedOrders);
      Export(orders, selectedOrders)
    }
  }
}
