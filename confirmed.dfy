/** The confirmed-orders page: search, marking one order or a batch as shipped, and the
    picklist, PDF and express exports. Server answers and the colour and product catalogues
    are inputs. */
module Confirmed {
  import opened Collections
  import opened JsBuiltins
  import opened Orders

  // ---------------------------------------------------------------- search

  /** The search term, lower-cased, occurs in the order id, the style number's decimal text
      or the contact number, each lower-cased. */
  predicate MatchesSearch(o: Order, term: string) {
    var t := ToLower(term);
    Contains(ToLower(o.orderId), t) || Contains(ToLower(NatToString(o.styleNumber)), t)
    || Contains(ToLower(o.contactNumber), t)
  }

  function SearchResults(rows: seq<Order>, term: string): (r: seq<Order>)
    ensures |r| <= |rows|
  {
    Filter(rows, (o: Order) => MatchesSearch(o, term))
  }

  /** The table shows exactly the matching rows, in list order. */
  lemma SearchResultsMembers(rows: seq<Order>, term: string)
    ensures forall o :: o in SearchResults(rows, term) <==> o in rows && MatchesSearch(o, term)
  {
    FilterMembers(rows, (o: Order) => MatchesSearch(o, term));
  }

  /** An empty search shows the whole list. */
  lemma SearchEmptyShowsAll(rows: seq<Order>)
    ensures SearchResults(rows, "") == rows
  {
    FilterAll(rows, (o: Order) => MatchesSearch(o, ""));
  }

  // ---------------------------------------------------------------- refetch

  /** fetchConfirmedOrders clears every checkbox but keeps the id list, so the two agree
      after a refetch exactly when no fetched row's id is still listed. */
  lemma RefetchSelectionInSync(fetched: seq<Order>, sel: seq<string>)
    ensures InSync(Fetched(fetched), sel) <==> forall i :: 0 <= i < |fetched| ==> fetched[i].orderId !in sel
  {
    var r := Fetched(fetched);
    assert forall i :: 0 <= i < |fetched| ==> !r[i].flags.selected && r[i].orderId == fetched[i].orderId;
  }

  // ---------------------------------------------------------------- shipping

  function ShipPayload(o: Order): Payload {
    PayloadOf(o, "Shipped")
  }

  /** ordersToShip: for each selected id in turn, the first row carrying it; ids with no row
      are dropped. */
  function ShipCandidates(rows: seq<Order>, ids: seq<string>): (r: seq<Order>)
    ensures |r| <= |ids|
    decreases |ids|
  {
    if |ids| == 0 then []
    else
      (match FindOrder(rows, ids[0]) case None => [] case Some(o) => [o]) + ShipCandidates(rows, ids[1..])
  }

  /** The candidates are rows of the list whose ids are selected, and every selected id that
      some row carries has a candidate. */
  lemma {:induction false} ShipCandidatesSpec(rows: seq<Order>, ids: seq<string>)
    ensures forall k :: 0 <= k < |ShipCandidates(rows, ids)| ==>
      ShipCandidates(rows, ids)[k] in rows && ShipCandidates(rows, ids)[k].orderId in ids
    ensures forall id :: id in ids && HasId(rows, id) ==>
      exists k :: 0 <= k < |ShipCandidates(rows, ids)| && ShipCandidates(rows, ids)[k].orderId == id
    decreases |ids|
  {
    if |ids| > 0 {
      ShipCandidatesSpec(rows, ids[1..]);
      var head: seq<Order> := match FindOrder(rows, ids[0]) case None => [] case Some(o) => [o];
      var tail := ShipCandidates(rows, ids[1..]);
      assert ShipCandidates(rows, ids) == head + tail;
      forall id | id in ids && HasId(rows, id)
        ensures exists k :: 0 <= k < |head + tail| && (head + tail)[k].orderId == id
      {
        if id == ids[0] {
          assert (head + tail)[0].orderId == id;
        } else {
          assert id in ids[1..];
          var k :| 0 <= k < |tail| && tail[k].orderId == id;
          assert (head + tail)[|head| + k] == tail[k];
        }
      }
    }
  }

  /** A candidate is posted only when its style number, size, quantity, order date and
      contact number are all truthy. */
  predicate Shippable(o: Order) {
    o.styleNumber != 0 && o.size != "" && o.quantity != 0 && o.orderDate != "" && o.contactNumber != ""
  }

  predicate Unshippable(o: Order) {
    !Shippable(o)
  }

  /** validOrders and invalidOrders split the candidates. */
  lemma ShipPartition(cands: seq<Order>)
    ensures |Filter(cands, Shippable)| + |Filter(cands, Unshippable)| == |cands|
    ensures multiset(Filter(cands, Shippable)) + multiset(Filter(cands, Unshippable)) == multiset(cands)
  {
    FilterComplement(cands, Shippable, Unshippable);
  }

  function ShipPayloads(valid: seq<Order>): (r: seq<Payload>)
    ensures |r| == |valid|
  {
    Map(valid, ShipPayload)
  }

  /** A failed result: a rejected post, or an answer with success false. */
  predicate Unsuccessful(r: Response) {
    !Succeeded(r)
  }

  function FailedCount(responses: seq<Response>): (n: nat)
    ensures n <= |responses|
  {
    |Filter(responses, Unsuccessful)|
  }

  /** successCount = validOrders.length - failed.length is positive, and the list refetched,
      exactly when some post succeeded. */
  lemma ShipRefetchIff(responses: seq<Response>)
    ensures |responses| - FailedCount(responses) > 0 <==> exists j :: 0 <= j < |responses| && Succeeded(responses[j])
  {
    FilterKeepsAll(responses, Unsuccessful);
  }

  /** The ids the batch handler resets, as written: failed.some(f => f.order?.order_id ===
      order.order_id) only matches failures carrying `order`, which only the rejection handler
      attaches. */
  function RejectedIds(valid: seq<Order>, responses: seq<Response>): seq<string>
    requires |responses| == |valid|
    decreases |valid|
  {
    if |valid| == 0 then []
    else (if responses[0].Rejected? then [valid[0].orderId] else []) + RejectedIds(valid[1..], responses[1..])
  }

  /** The ids of the posted candidates whose result failed in any way. */
  function UnsuccessfulIds(valid: seq<Order>, responses: seq<Response>): seq<string>
    requires |responses| == |valid|
    decreases |valid|
  {
    if |valid| == 0 then []
    else (if Unsuccessful(responses[0]) then [valid[0].orderId] else []) + UnsuccessfulIds(valid[1..], responses[1..])
  }

  /** As written, an id is reset exactly when one of its posts was rejected. */
  lemma {:induction false} RejectedIdsSpec(valid: seq<Order>, responses: seq<Response>, id: string)
    requires |responses| == |valid|
    ensures id in RejectedIds(valid, responses)
        <==> exists j :: 0 <= j < |valid| && valid[j].orderId == id && responses[j].Rejected?
    decreases |valid|
  {
    if |valid| > 0 {
      RejectedIdsSpec(valid[1..], responses[1..], id);
      if exists j :: 0 <= j < |valid| && valid[j].orderId == id && responses[j].Rejected? {
        var j :| 0 <= j < |valid| && valid[j].orderId == id && responses[j].Rejected?;
        if j > 0 {
          assert valid[1..][j - 1] == valid[j] && responses[1..][j - 1] == responses[j];
        }
      }
    }
  }

  /** An id is in the corrected reset list exactly when one of its posts failed. */
  lemma {:induction false} UnsuccessfulIdsSpec(valid: seq<Order>, responses: seq<Response>, id: string)
    requires |responses| == |valid|
    ensures id in UnsuccessfulIds(valid, responses)
        <==> exists j :: 0 <= j < |valid| && valid[j].orderId == id && Unsuccessful(responses[j])
    decreases |valid|
  {
    if |valid| > 0 {
      UnsuccessfulIdsSpec(valid[1..], responses[1..], id);
      if exists j :: 0 <= j < |valid| && valid[j].orderId == id && Unsuccessful(responses[j]) {
        var j :| 0 <= j < |valid| && valid[j].orderId == id && Unsuccessful(responses[j]);
        if j > 0 {
          assert valid[1..][j - 1] == valid[j] && responses[1..][j - 1] == responses[j];
        }
      }
    }
  }

  const ShipFailure: string := "Failed to ship"

  /** The rows after a batch: every selected row marked shipping with its error cleared, then
      the rows whose id is in reset marked not shipping with the failure message. */
  function ShipSettled(rows: seq<Order>, sel: seq<string>, reset: seq<string>): (r: seq<Order>)
    ensures |r| == |rows|
  {
    MarkWhere(MarkWhere(rows, sel, BatchShipping), reset, ShipFailed(ShipFailure))
  }

  /** Row by row: a reset row stops shipping with the failure message, any other selected row
      is left shipping with no error, and any other row is unchanged. */
  lemma ShipSettledRow(rows: seq<Order>, sel: seq<string>, reset: seq<string>, i: nat)
    requires i < |rows|
    ensures var r := ShipSettled(rows, sel, reset)[i];
      if rows[i].orderId in reset then r == rows[i].(flags := rows[i].flags.(shipping := false, error := Some(ShipFailure)))
      else if rows[i].orderId in sel then r == rows[i].(flags := rows[i].flags.(shipping := true, error := None))
      else r == rows[i]
  {
    var marked := MarkWhere(rows, sel, BatchShipping);
    MarkWhereRow(rows, sel, BatchShipping, i);
    MarkWhereRow(marked, reset, ShipFailed(ShipFailure), i);
  }

  /** As written, when no post is rejected nothing is reset: a selected row stays marked
      shipping even when every answer for it said success: false. */
  lemma AnsweredFailureKeepsShipping(rows: seq<Order>, sel: seq<string>, valid: seq<Order>, responses: seq<Response>, i: nat)
    requires |responses| == |valid| && i < |rows| && rows[i].orderId in sel
    requires forall j :: 0 <= j < |responses| ==> responses[j].Answered?
    ensures ShipSettled(rows, sel, RejectedIds(valid, responses))[i].flags.shipping
  {
    RejectedIdsSpec(valid, responses, rows[i].orderId);
    ShipSettledRow(rows, sel, RejectedIds(valid, responses), i);
  }

  /** Corrected: a selected row ends not shipping, with the failure message, exactly when a
      post for its id failed. */
  lemma CorrectedShipSettles(rows: seq<Order>, sel: seq<string>, valid: seq<Order>, responses: seq<Response>, i: nat)
    requires |responses| == |valid| && i < |rows| && rows[i].orderId in sel
    ensures var r := ShipSettled(rows, sel, UnsuccessfulIds(valid, responses))[i];
      !r.flags.shipping <==> exists j :: 0 <= j < |valid| && valid[j].orderId == rows[i].orderId && Unsuccessful(responses[j])
    ensures var r := ShipSettled(rows, sel, UnsuccessfulIds(valid, responses))[i];
      r.flags.error.Some? <==> !r.flags.shipping
  {
    UnsuccessfulIdsSpec(valid, responses, rows[i].orderId);
    ShipSettledRow(rows, sel, UnsuccessfulIds(valid, responses), i);
  }

  /** A posted candidate carries the id of a row that passed the field check. */
  lemma {:induction false} NoValidCandidate(rows: seq<Order>, sel: seq<string>, id: string)
    requires forall k :: 0 <= k < |rows| && rows[k].orderId == id ==> Unshippable(rows[k])
    ensures var valid := Filter(ShipCandidates(rows, sel), Shippable);
      forall j :: 0 <= j < |valid| ==> valid[j].orderId != id
  {
    var cands := ShipCandidates(rows, sel);
    var valid := Filter(cands, Shippable);
    FilterSpec(cands, Shippable);
    forall j | 0 <= j < |valid| ensures valid[j].orderId != id {
      assert valid[j] in multiset(cands);
      ShippableCandidateId(rows, sel, id, valid[j]);
    }
  }

  /** A shippable candidate is a row of the list, so it does not carry an id whose rows are
      all unshippable. */
  lemma ShippableCandidateId(rows: seq<Order>, sel: seq<string>, id: string, o: Order)
    requires forall k :: 0 <= k < |rows| && rows[k].orderId == id ==> Unshippable(rows[k])
    requires o in ShipCandidates(rows, sel) && Shippable(o)
    ensures o.orderId != id
  {
    var cands := ShipCandidates(rows, sel);
    ShipCandidatesSpec(rows, sel);
    var k :| 0 <= k < |cands| && cands[k] == o;
    var m :| 0 <= m < |rows| && rows[m] == o;
  }

  /** A candidate skipped for missing data is marked shipping and never reset, even with the
      corrected reset: no post is made for it, so no failure names it. */
  lemma SkippedRowKeepsShipping(rows: seq<Order>, sel: seq<string>, responses: seq<Response>, i: nat)
    requires i < |rows| && rows[i].orderId in sel
    requires forall k :: 0 <= k < |rows| && rows[k].orderId == rows[i].orderId ==> Unshippable(rows[k])
    requires |responses| == |Filter(ShipCandidates(rows, sel), Shippable)|
    ensures ShipSettled(rows, sel, UnsuccessfulIds(Filter(ShipCandidates(rows, sel), Shippable), responses))[i].flags.shipping
  {
    var valid := Filter(ShipCandidates(rows, sel), Shippable);
    NoValidCandidate(rows, sel, rows[i].orderId);
    UnsuccessfulIdsSpec(valid, responses, rows[i].orderId);
    ShipSettledRow(rows, sel, UnsuccessfulIds(valid, responses), i);
  }

  // ---------------------------------------------------------------- exports

  /** A colour catalogue entry and a product catalogue entry, keyed by style code. */
  datatype ColorEntry = ColorEntry(styleCode: nat, color: string)
  datatype ProductEntry = ProductEntry(styleCode: nat, rackSpace: string)

  /** One picklist line: Sku Id, Rack Space and Good. */
  datatype PicklistLine = PicklistLine(skuId: string, rackSpace: string, good: nat)

  /** `s || 'N/A'` on a string. */
  function OrNotAvailable(s: string): (r: string)
    ensures r != ""
    ensures s != "" ==> r == s
    ensures s == "" ==> r == "N/A"
  {
    if s != "" then s else "N/A"
  }

  /** The colour of the first catalogue entry for the style, or N/A when there is none or its
      colour is empty. */
  function ColorFor(colors: seq<ColorEntry>, style: nat): (c: string)
    ensures c != ""
    ensures (forall i :: 0 <= i < |colors| ==> colors[i].styleCode != style) ==> c == "N/A"
    ensures forall i ::
      (0 <= i < |colors| && colors[i].styleCode == style && (forall j :: 0 <= j < i ==> colors[j].styleCode != style))
      ==> c == OrNotAvailable(colors[i].color)
  {
    match FirstIndex(colors, (e: ColorEntry) => e.styleCode == style)
    case None => "N/A"
    case Some(i) => OrNotAvailable(colors[i].color)
  }

  /** The rack space of the first product entry for the style, or Default when there is none
      or its rack space is empty. */
  function RackSpaceFor(products: seq<ProductEntry>, style: nat): (r: string)
    ensures r != ""
    ensures (forall i :: 0 <= i < |products| ==> products[i].styleCode != style) ==> r == "Default"
    ensures forall i ::
      (0 <= i < |products| && products[i].styleCode == style && (forall j :: 0 <= j < i ==> products[j].styleCode != style))
      ==> r == (if products[i].rackSpace != "" then products[i].rackSpace else "Default")
  {
    match FirstIndex(products, (e: ProductEntry) => e.styleCode == style)
    case None => "Default"
    case Some(i) => if products[i].rackSpace != "" then products[i].rackSpace else "Default"
  }

  /** style-colour-size */
  function SkuId(o: Order, colors: seq<ColorEntry>): string {
    NatToString(o.styleNumber) + "-" + ColorFor(colors, o.styleNumber) + "-" + OrNotAvailable(o.size)
  }

  /** A Sku Id splits back into style number, colour and size when neither the colour nor
      the size contains a dash. */
  lemma SkuIdSplit(o: Order, colors: seq<ColorEntry>)
    requires '-' !in ColorFor(colors, o.styleNumber) && '-' !in o.size
    ensures Split(SkuId(o, colors), '-') == [NatToString(o.styleNumber), ColorFor(colors, o.styleNumber), OrNotAvailable(o.size)]
    ensures JsNumber(Split(SkuId(o, colors), '-')[0]) == Some(o.styleNumber)
  {
    var parts := [NatToString(o.styleNumber), ColorFor(colors, o.styleNumber), OrNotAvailable(o.size)];
    NatToStringNoDash(o.styleNumber);
    assert Join(parts, '-') == SkuId(o, colors) by {
      assert Join(parts[2..], '-') == parts[2];
      assert Join(parts[1..], '-') == parts[1] + ['-'] + parts[2];
    }
    SplitJoin(parts, '-');
    NatToStringRoundTrip(o.styleNumber);
  }

  function PicklistLineOf(o: Order, colors: seq<ColorEntry>, products: seq<ProductEntry>): (l: PicklistLine)
    ensures l.good >= 1 && (o.quantity != 0 ==> l.good == o.quantity)
    ensures l.skuId == SkuId(o, colors) && l.rackSpace == RackSpaceFor(products, o.styleNumber)
    ensures l.rackSpace != ""
  {
    PicklistLine(SkuId(o, colors), RackSpaceFor(products, o.styleNumber), if o.quantity != 0 then o.quantity else 1)
  }

  /** exportToCSV: the picklist of the export set, or None when there is nothing to export. */
  function Picklist(rows: seq<Order>, sel: seq<string>, colors: seq<ColorEntry>, products: seq<ProductEntry>): (r: Option<seq<PicklistLine>>)
    ensures r.None? <==> Export(rows, sel).None?
    ensures r.Some? ==> |r.value| == |Export(rows, sel).value|
    ensures r.Some? ==> forall i :: 0 <= i < |r.value| ==>
      r.value[i] == PicklistLineOf(Export(rows, sel).value[i], colors, products)
  {
    match Export(rows, sel)
    case None => None
    case Some(chosen) =>
      Some(seq(|chosen|, i requires 0 <= i < |chosen| => PicklistLineOf(chosen[i], colors, products)))
  }

  /** shipping_method?.toLowerCase().includes("express shipping") */
  predicate IsExpress(o: Order) {
    Contains(ToLower(o.shippingMethod), "express shipping")
  }

  predicate IsStandard(o: Order) {
    !IsExpress(o)
  }

  /** exportToPDF's set as written: with a selection, `selected && standard` evaluates to its
      right operand (every array is truthy, the empty one included), so every standard row
      is exported. */
  function PdfExportSet(rows: seq<Order>, sel: seq<string>): (r: seq<Order>)
    ensures |r| <= |rows|
  {
    if |sel| > 0 then Filter(rows, IsStandard) else rows
  }

  /** As written, a standard row that is not selected is still exported while something
      else is selected. */
  lemma PdfExportIgnoresSelection(rows: seq<Order>, sel: seq<string>, i: nat)
    requires sel != [] && i < |rows| && IsStandard(rows[i]) && rows[i].orderId !in sel
    ensures rows[i] in PdfExportSet(rows, sel)
  {
    FilterSpec(rows, IsStandard);
  }

  /** The evidently intended PDF set: the selected standard rows, or every row when nothing
      is selected. */
  function SelectedStandardSet(rows: seq<Order>, sel: seq<string>): (r: seq<Order>)
    ensures |r| <= |rows|
  {
    if |sel| > 0 then Filter(rows, (o: Order) => o.orderId in sel && IsStandard(o)) else rows
  }

  /** Corrected: with a selection, a row is exported exactly when it is a selected standard
      row of the list. */
  lemma SelectedStandardSetMembers(rows: seq<Order>, sel: seq<string>)
    requires sel != []
    ensures forall o :: o in SelectedStandardSet(rows, sel) <==> o in rows && o.orderId in sel && IsStandard(o)
  {
    FilterMembers(rows, (o: Order) => o.orderId in sel && IsStandard(o));
  }

  /** exportShippingOrderToPDF: the express rows, selection ignored. */
  function ExpressSet(rows: seq<Order>): (r: seq<Order>)
    ensures |r| <= |rows|
  {
    Filter(rows, IsExpress)
  }

  /** With a selection, the PDF export as written and the express export split the list
      between them. */
  lemma PdfAndExpressSplit(rows: seq<Order>, sel: seq<string>)
    requires sel != []
    ensures multiset(PdfExportSet(rows, sel)) + multiset(ExpressSet(rows)) == multiset(rows)
  {
    FilterComplement(rows, IsStandard, IsExpress);
  }

  /** A PDF export with no rows only warns. */
  function WhenNonEmpty(chosen: seq<Order>): (r: Option<seq<Order>>)
    ensures r.None? <==> chosen == []
    ensures r.Some? ==> r.value == chosen
  {
    if |chosen| == 0 then None else Some(chosen)
  }

  /** exportToPDF with the corrected set: None (a warning) exactly when no row qualifies. */
  function PdfExport(rows: seq<Order>, sel: seq<string>): Option<seq<Order>> {
    WhenNonEmpty(SelectedStandardSet(rows, sel))
  }

  /** The corrected PDF export warns exactly when the list is empty, or, with a selection,
      when no selected row is a standard one. */
  lemma PdfExportWarnsIff(rows: seq<Order>, sel: seq<string>)
    ensures PdfExport(rows, sel).None? <==>
      rows == [] || (sel != [] && forall i :: 0 <= i < |rows| ==> !(rows[i].orderId in sel && IsStandard(rows[i])))
  {
    if sel != [] {
      SelectedStandardSetMembers(rows, sel);
      if SelectedStandardSet(rows, sel) != [] {
        var o := SelectedStandardSet(rows, sel)[0];
        assert o in rows;
        var i :| 0 <= i < |rows| && rows[i] == o;
      } else {
        forall i | 0 <= i < |rows| ensures !(rows[i].orderId in sel && IsStandard(rows[i])) {
          assert rows[i] !in SelectedStandardSet(rows, sel);
        }
      }
    }
  }

  /** exportShippingOrderToPDF: None (a warning) when no row is express. */
  function ExpressExport(rows: seq<Order>): Option<seq<Order>> {
    WhenNonEmpty(ExpressSet(rows))
  }

  /** The express export holds exactly the express rows of the list, whatever is selected,
      and warns exactly when there is none. */
  lemma ExpressExportMembers(rows: seq<Order>)
    ensures ExpressExport(rows).None? <==> forall i :: 0 <= i < |rows| ==> !IsExpress(rows[i])
    ensures ExpressExport(rows).Some? ==>
      forall o :: o in ExpressExport(rows).value <==> o in rows && IsExpress(o)
  {
    FilterSpec(rows, IsExpress);
    forall o | o in ExpressSet(rows) ensures o in rows {
      assert o in multiset(ExpressSet(rows));
    }
    if ExpressSet(rows) != [] {
      var o := ExpressSet(rows)[0];
      assert o in rows;
      var i :| 0 <= i < |rows| && rows[i] == o;
    }
  }

  // ---------------------------------------------------------------- the page

  class ConfirmedView {
    var orders: seq<Order>
    var selectedOrders: seq<string>
    var selectAll: bool
    var searchTerm: string

    constructor ()
      ensures orders == [] && selectedOrders == [] && !selectAll && searchTerm == ""
    {
      orders := [];
      selectedOrders := [];
      selectAll := false;
      searchTerm := "";
    }

    function Visible(): seq<Order>
      reads this
    {
      SearchResults(orders, searchTerm)
    }

    /** fetchConfirmedOrders after a successful GET: flags cleared, selection list kept. */
    method Load(fetched: seq<Order>)
      modifies this`orders
      ensures orders == Fetched(fetched)
    {
      orders := Fetched(fetched);
    }

    method ToggleOrderSelection(id: string)
      modifies this`orders, this`selectedOrders
      ensures orders == ToggleRows(old(orders), id)
      ensures selectedOrders == ToggleIds(old(selectedOrders), id)
      ensures InSync(old(orders), old(selectedOrders)) ==> InSync(orders, selectedOrders)
    {
      if InSync(orders, selectedOrders) {
        ToggleKeepsInSync(orders, selectedOrders, id);
      }
      orders := ToggleRows(orders, id);
      selectedOrders := ToggleIds(selectedOrders, id);
    }

    method ToggleSelectAll()
      modifies this`orders, this`selectedOrders, this`selectAll
      ensures selectAll == !old(selectAll)
      ensures orders == SelectAllRows(old(orders), selectAll)
      ensures selectedOrders == SelectAllIds(old(orders), selectAll)
      ensures InSync(orders, selectedOrders)
    {
      selectAll := !selectAll;
      SelectAllInSync(orders, selectAll);
      selectedOrders := SelectAllIds(orders, selectAll);
      orders := SelectAllRows(orders, selectAll);
    }

    /** handleMarkAsShipped: the rows carrying id are marked shipping; the first of them is
        posted; shipping stays set on success (a refetch follows) and is cleared otherwise.
        An id no row carries throws before posting, and the reset then touches no row. */
    method MarkAsShipped(id: string, response: Response) returns (sent: Option<Payload>, refetch: bool)
      modifies this`orders
      ensures sent.Some? <==> HasId(old(orders), id)
      ensures sent.Some? ==> sent.value == ShipPayload(FindOrder(old(orders), id).value)
      ensures refetch <==> sent.Some? && Succeeded(response)
      ensures |orders| == |old(orders)|
      ensures forall i :: 0 <= i < |orders| ==>
        orders[i] == (if old(orders)[i].orderId == id
                      then old(orders)[i].(flags := old(orders)[i].flags.(shipping := Succeeded(response)))
                      else old(orders)[i])
    {
      var before := orders;
      orders := MarkWhere(orders, [id], Shipping);
      var matched := FindOrder(before, id);
      if matched.None? || !Succeeded(response) {
        sent := if matched.None? then None else Some(ShipPayload(matched.value));
        refetch := false;
        orders := MarkWhere(orders, [id], ShippingReset);
      } else {
        sent := Some(ShipPayload(matched.value));
        refetch := true;
      }
      forall i | 0 <= i < |orders|
        ensures orders[i] == (if before[i].orderId == id
                              then before[i].(flags := before[i].flags.(shipping := Succeeded(response)))
                              else before[i])
      {
        MarkWhereRow(before, [id], Shipping, i);
      }
    }

    /** handleBatchShip, with one result per posted candidate and the reset corrected to
        every failed post (UnsuccessfulIds). Returns the bodies posted and whether a refetch
        is scheduled. */
    method BatchShip(responses: seq<Response>) returns (sent: seq<Payload>, refetch: bool)
      requires |responses| == |Filter(ShipCandidates(orders, selectedOrders), Shippable)|
      modifies this`orders
      ensures selectedOrders == [] ==> orders == old(orders) && sent == [] && !refetch
      ensures selectedOrders != [] ==>
        var valid := Filter(ShipCandidates(old(orders), selectedOrders), Shippable);
        sent == ShipPayloads(valid)
        && (refetch <==> exists j :: 0 <= j < |responses| && Succeeded(responses[j]))
        && orders == ShipSettled(old(orders), selectedOrders, UnsuccessfulIds(valid, responses))
    {
      sent, refetch := [], false;
      if |selectedOrders| == 0 {
        return;
      }
      var before := orders;
      orders := MarkWhere(orders, selectedOrders, BatchShipping);
      var valid := Filter(ShipCandidates(before, selectedOrders), Shippable);
      sent := ShipPayloads(valid);
      var failed := FailedCount(responses);
      ShipRefetchIff(responses);
      refetch := |valid| - failed > 0;
      var reset := UnsuccessfulIds(valid, responses);
      if failed > 0 {
        orders := MarkWhere(orders, reset, ShipFailed(ShipFailure));
      } else {
        NoFailureResetsNothing(orders, valid, responses);
      }
    }

    /** exportToCSV */
    function CsvExport(colors: seq<ColorEntry>, products: seq<ProductEntry>): (r: Option<seq<PicklistLine>>)
      reads this
      ensures r.None? <==> forall o :: o in orders ==> selectedOrders != [] && o.orderId !in selectedOrders
      ensures r.Some? ==> |r.value| == |ExportSet(orders, selectedOrders)|
      ensures r.Some? ==> forall i :: 0 <= i < |r.value| ==>
        r.value[i] == PicklistLineOf(ExportSet(orders, selectedOrders)[i], colors, products)
    {
      ExportSetSpec(orders, selectedOrders);
      Picklist(orders, selectedOrders, colors, products)
    }

    /** exportToPDF, with the selection respected */
    function PdfExported(): (r: Option<seq<Order>>)
      reads this
      ensures r.None? <==>
        (orders == [] || (selectedOrders != [] && forall i :: 0 <= i < |orders| ==> !(orders[i].orderId in selectedOrders && IsStandard(orders[i]))))
      ensures r.Some? && selectedOrders == [] ==> r.value == orders
      ensures r.Some? && selectedOrders != [] ==>
        forall o :: o in r.value <==> o in orders && o.orderId in selectedOrders && IsStandard(o)
    {
      PdfExportWarnsIff(orders, selectedOrders);
      if selectedOrders != [] then
        SelectedStandardSetMembers(orders, selectedOrders);
        PdfExport(orders, selectedOrders)
      else PdfExport(orders, selectedOrders)
    }

    /** exportShippingOrderToPDF */
    function ExpressExported(): (r: Option<seq<Order>>)
      reads this
      ensures r.None? <==> forall i :: 0 <= i < |orders| ==> !IsExpress(orders[i])
      ensures r.Some? ==> forall o :: o in r.value <==> o in orders && IsExpress(o)
    {
      ExpressExportMembers(orders);
      ExpressExport(orders)
    }
  }

  /** With no failed result, every result is a success. */
  lemma NoFailureMeansAllSucceeded(responses: seq<Response>, j: nat)
    requires j < |responses| && FailedCount(responses) == 0
    ensures Succeeded(responses[j])
  {
    FilterSpec(responses, Unsuccessful);
  }

  /** With no failed post the reset marks no row. */
  lemma NoFailureResetsNothing(rows: seq<Order>, valid: seq<Order>, responses: seq<Response>)
    requires |responses| == |valid| && FailedCount(responses) == 0
    ensures MarkWhere(rows, UnsuccessfulIds(valid, responses), ShipFailed(ShipFailure)) == rows
  {
    var reset := UnsuccessfulIds(valid, responses);
    forall i | 0 <= i < |rows| ensures MarkWhere(rows, reset, ShipFailed(ShipFailure))[i] == rows[i] {
      UnsuccessfulIdsSpec(valid, responses, rows[i].orderId);
      MarkWhereRow(rows, reset, ShipFailed(ShipFailure), i);
      if rows[i].orderId in reset {
        var j :| 0 <= j < |valid| && valid[j].orderId == rows[i].orderId && Unsuccessful(responses[j]);
        NoFailureMeansAllSucceeded(responses, j);
      }
    }
  }
}
