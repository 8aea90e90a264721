/** The order record the list pages display, the per-row transient flags they keep beside it,
    and the selection and export rules that the pending, confirmed and cancelled pages share
    (each page repeats the same code; it is stated once here). */
module Orders {
  import opened Collections
  import opened JsBuiltins

  /** The transient UI flags a page adds to each fetched order. */
  datatype Flags = Flags(
    selected: bool,
    confirming: bool,
    confirmed: bool,
    cancelling: bool,
    cancelled: bool,
    shipping: bool,
    error: Option<string>)

  /** The flags of a freshly fetched row. */
  const NoFlags: Flags := Flags(false, false, false, false, false, false, None)

  /** One order line as the API returns it, with the page's flags. Several lines of one
      customer order share an orderId. */
  datatype Order = Order(
    orderId: string,
    styleNumber: nat,
    size: string,
    quantity: nat,
    orderDate: string,
    shippingMethod: string,
    contactNumber: string,
    paymentStatus: string,
    orderStatus: string,
    createdAt: string,
    flags: Flags)

  /** The body posted to move an order to another list (add-to-confirm, add-to-cancel,
      add-to-ship). */
  datatype Payload = Payload(
    orderId: string,
    styleNumber: nat,
    size: string,
    quantity: nat,
    orderDate: string,
    shippingMethod: string,
    orderStatus: string,
    contactNumber: string,
    paymentStatus: string)

  function PayloadOf(o: Order, status: string): Payload {
    Payload(o.orderId, o.styleNumber, o.size, o.quantity, o.orderDate, o.shippingMethod,
            status, o.contactNumber, o.paymentStatus)
  }

  /** The outcome of one POST: the server answered with { success, message }, or the request
      was rejected (network error or error status) with an error message. */
  datatype Response = Answered(success: bool, message: string) | Rejected(message: string)

  predicate Succeeded(r: Response) {
    r.Answered? && r.success
  }

  /** The message of the error a single-order handler reports: the rejection's own message,
      or for an unsuccessful answer its message, or the fallback when that is empty. */
  function ErrorMessage(r: Response, fallback: string): (m: string)
    requires !Succeeded(r)
    requires fallback != ""
    ensures m != "" || (r.Rejected? && r.message == "")
    ensures r.Answered? && r.message == "" ==> m == fallback
    ensures r.Answered? && r.message != "" ==> m == r.message
    ensures r.Rejected? ==> m == r.message
  {
    if r.Rejected? then r.message
    else if r.message != "" then r.message
    else fallback
  }

  /** What reading a field of the undefined result of a failed find throws. */
  const UndefinedOrderMessage: string := "Cannot read properties of undefined (reading 'order_id')"

  /** The ids of the rows, in row order. */
  function Ids(rows: seq<Order>): seq<string> {
    seq(|rows|, i requires 0 <= i < |rows| => rows[i].orderId)
  }

  predicate HasId(rows: seq<Order>, id: string) {
    exists i :: 0 <= i < |rows| && rows[i].orderId == id
  }

  /** The first row carrying id (Array.prototype.find by order id). */
  function FindOrder(rows: seq<Order>, id: string): (r: Option<Order>)
    ensures r.Some? <==> HasId(rows, id)
    ensures r.Some? ==> r.value in rows && r.value.orderId == id
    ensures forall i ::
      (0 <= i < |rows| && rows[i].orderId == id && forall j :: 0 <= j < i ==> rows[j].orderId != id)
      ==> r == Some(rows[i])
  {
    Find(rows, (o: Order) => o.orderId == id)
  }

  // ---------------------------------------------------------------- selection

  function WithSelected(o: Order, b: bool): Order {
    o.(flags := o.flags.(selected := b))
  }

  /** The row update of toggleOrderSelection: every row carrying id has its selected flag
      flipped; every other row, and every other field, is left as it was. */
  function ToggleRows(rows: seq<Order>, id: string): (r: seq<Order>)
    ensures |r| == |rows|
    ensures forall i :: 0 <= i < |rows| && rows[i].orderId != id ==> r[i] == rows[i]
    ensures forall i :: 0 <= i < |rows| && rows[i].orderId == id ==>
      r[i].flags.selected == !rows[i].flags.selected && r[i] == WithSelected(rows[i], r[i].flags.selected)
  {
    seq(|rows|, i requires 0 <= i < |rows| =>
      if rows[i].orderId == id then WithSelected(rows[i], !rows[i].flags.selected) else rows[i])
  }

  /** The id-list update of toggleOrderSelection: an id already present is removed with all
      its occurrences, an absent one is appended. Membership of id flips and no other id's
      membership changes. */
  function ToggleIds(sel: seq<string>, id: string): (r: seq<string>)
    ensures id in r <==> id !in sel
    ensures forall x :: x != id ==> (x in r <==> x in sel)
  {
    if id in sel then
      var r := Filter(sel, (x: string) => x != id);
      FilterSpec(sel, (x: string) => x != id);
      assert forall x :: x != id && x in sel ==> x in r by {
        forall x | x != id && x in sel ensures x in r {
          var i :| 0 <= i < |sel| && sel[i] == x;
        }
      }
      assert forall x :: x in r ==> x in sel by {
        forall x | x in r ensures x in sel {
          assert x in multiset(r);
        }
      }
      r
    else sel + [id]
  }

  /** Toggling an id that was not selected, and then toggling it again, gives back the very
      same selection list. */
  lemma ToggleIdsTwiceAbsent(sel: seq<string>, id: string)
    requires id !in sel
    ensures ToggleIds(ToggleIds(sel, id), id) == sel
  {
    var p := (x: string) => x != id;
    FilterAppend(sel, [id], p);
    FilterAll(sel, p);
    assert Filter([id], p) == [] by {
      FilterNone([id], p);
    }
  }

  /** Toggling the same id twice gives back a selection with the same ids. */
  lemma ToggleIdsTwiceSameIds(sel: seq<string>, id: string, x: string)
    ensures x in ToggleIds(ToggleIds(sel, id), id) <==> x in sel
  {
  }

  /** A duplicate-free selection stays duplicate-free under toggling. */
  lemma ToggleIdsNoDup(sel: seq<string>, id: string)
    requires NoDup(sel)
    ensures NoDup(ToggleIds(sel, id))
  {
    if id in sel {
      FilterNoDup(sel, (x: string) => x != id);
    }
  }

  /** toggleOrderSelection applied twice to the rows restores them exactly. */
  lemma ToggleRowsTwice(rows: seq<Order>, id: string)
    ensures ToggleRows(ToggleRows(rows, id), id) == rows
  {
    var r := ToggleRows(ToggleRows(rows, id), id);
    forall i | 0 <= i < |rows| ensures r[i] == rows[i] {
      if rows[i].orderId == id {
        assert rows[i].flags.(selected := rows[i].flags.selected) == rows[i].flags;
      }
    }
  }

  /** The checkboxes agree with the id list: a row is selected exactly when its id is. */
  predicate InSync(rows: seq<Order>, sel: seq<string>) {
    forall i :: 0 <= i < |rows| ==> (rows[i].flags.selected <==> rows[i].orderId in sel)
  }

  /** toggleOrderSelection keeps the checkboxes and the id list in agreement. */
  lemma ToggleKeepsInSync(rows: seq<Order>, sel: seq<string>, id: string)
    requires InSync(rows, sel)
    ensures InSync(ToggleRows(rows, id), ToggleIds(sel, id))
  {
  }

  /** The row update of toggleSelectAll: every row's selected flag becomes b. */
  function SelectAllRows(rows: seq<Order>, b: bool): (r: seq<Order>)
    ensures |r| == |rows|
    ensures forall i :: 0 <= i < |rows| ==> r[i] == WithSelected(rows[i], b)
  {
    seq(|rows|, i requires 0 <= i < |rows| => WithSelected(rows[i], b))
  }

  /** The id-list update of toggleSelectAll: one id per row when selecting, else empty. */
  function SelectAllIds(rows: seq<Order>, b: bool): (r: seq<string>)
    ensures b ==> |r| == |rows| && forall i :: 0 <= i < |rows| ==> r[i] == rows[i].orderId
    ensures !b ==> r == []
  {
    if b then Ids(rows) else []
  }

  /** toggleSelectAll leaves the checkboxes and the id list in agreement. */
  lemma SelectAllInSync(rows: seq<Order>, b: bool)
    ensures InSync(SelectAllRows(rows, b), SelectAllIds(rows, b))
  {
    var r := SelectAllRows(rows, b);
    var sel := SelectAllIds(rows, b);
    forall i | 0 <= i < |r| ensures r[i].flags.selected <==> r[i].orderId in sel {
      if b {
        assert sel[i] == r[i].orderId;
      }
    }
  }

  /** Select-all can list an id twice: two lines of one order put their shared id twice into
      the selection. */
  lemma SelectAllDuplicates(rows: seq<Order>, i: nat, j: nat)
    requires i < j < |rows| && rows[i].orderId == rows[j].orderId
    ensures !NoDup(SelectAllIds(rows, true))
  {
    var sel := SelectAllIds(rows, true);
    assert sel[i] == sel[j];
  }

  // ---------------------------------------------------------------- flag updates

  /** The flag changes the handlers make to a row, each as written in the handler's object
      spread. */
  datatype FlagUpdate =
    | Confirming               // { confirming: true, error: null }
    | ConfirmSucceeded         // { confirmed: true, confirming: false }
    | ConfirmFailed(message: string)   // { confirming: false, error: message }
    | Cancelling               // { cancelling: true, error: null }
    | CancelSucceeded          // { cancelled: true, cancelling: false }
    | CancelFailed(message: string)    // { cancelling: false, error: message }
    | Shipping                 // { shipping: true }
    | BatchShipping            // { shipping: true, error: null }
    | ShippingReset            // { shipping: false }
    | ShipFailed(message: string)      // { shipping: false, error: message }

  function Apply(u: FlagUpdate, f: Flags): Flags {
    match u
    case Confirming => f.(confirming := true, error := None)
    case ConfirmSucceeded => f.(confirmed := true, confirming := false)
    case ConfirmFailed(m) => f.(confirming := false, error := Some(m))
    case Cancelling => f.(cancelling := true, error := None)
    case CancelSucceeded => f.(cancelled := true, cancelling := false)
    case CancelFailed(m) => f.(cancelling := false, error := Some(m))
    case Shipping => f.(shipping := true)
    case BatchShipping => f.(shipping := true, error := None)
    case ShippingReset => f.(shipping := false)
    case ShipFailed(m) => f.(shipping := false, error := Some(m))
  }

  /** Applies u to the flags of every row whose id is in ids, as the handlers do with
      ids.includes(order.order_id) (or order.order_id === id for a single order): the
      other rows, and every field other than the flags, are left as they were. */
  function MarkWhere(rows: seq<Order>, ids: seq<string>, u: FlagUpdate): (r: seq<Order>)
    ensures |r| == |rows|
  {
    seq(|rows|, i requires 0 <= i < |rows| =>
      if rows[i].orderId in ids then rows[i].(flags := Apply(u, rows[i].flags)) else rows[i])
  }

  /** Row by row: a row whose id is listed gets its flags updated, any other row is unchanged. */
  lemma MarkWhereRow(rows: seq<Order>, ids: seq<string>, u: FlagUpdate, i: nat)
    requires i < |rows|
    ensures rows[i].orderId in ids ==> MarkWhere(rows, ids, u)[i] == rows[i].(flags := Apply(u, rows[i].flags))
    ensures rows[i].orderId !in ids ==> MarkWhere(rows, ids, u)[i] == rows[i]
  {
  }

  /** Marking keeps the ids, and so the set of rows any id selects. */
  lemma MarkWhereIds(rows: seq<Order>, ids: seq<string>, u: FlagUpdate)
    ensures Ids(MarkWhere(rows, ids, u)) == Ids(rows)
  {
  }

  /** The flags of a fetched row: every transient flag cleared. */
  function Fetched(rows: seq<Order>): (r: seq<Order>)
    ensures |r| == |rows|
    ensures Ids(r) == Ids(rows)
    ensures forall i :: 0 <= i < |rows| ==> r[i].flags == NoFlags && r[i].(flags := rows[i].flags) == rows[i]
  {
    seq(|rows|, i requires 0 <= i < |rows| => rows[i].(flags := NoFlags))
  }

  // ---------------------------------------------------------------- export

  /** The rows an export covers: the rows whose id is selected when anything is selected,
      otherwise every row, in list order. */
  function ExportSet(rows: seq<Order>, sel: seq<string>): (r: seq<Order>)
    ensures |r| <= |rows|
  {
    if |sel| > 0 then Filter(rows, (o: Order) => o.orderId in sel) else rows
  }

  /** The export holds only rows of the list whose id is selected (any row when nothing is),
      and every such row. */
  lemma ExportSetSpec(rows: seq<Order>, sel: seq<string>)
    ensures multiset(ExportSet(rows, sel)) <= multiset(rows)
    ensures forall i :: 0 <= i < |ExportSet(rows, sel)| ==> sel == [] || ExportSet(rows, sel)[i].orderId in sel
    ensures forall i :: 0 <= i < |rows| && (sel == [] || rows[i].orderId in sel) ==> rows[i] in ExportSet(rows, sel)
    ensures forall o :: o in ExportSet(rows, sel) <==> o in rows && (sel == [] || o.orderId in sel)
  {
    if |sel| > 0 {
      FilterSpec(rows, (o: Order) => o.orderId in sel);
      FilterMembers(rows, (o: Order) => o.orderId in sel);
    }
  }

  /** An export with nothing to export only warns. */
  function Export(rows: seq<Order>, sel: seq<string>): (r: Option<seq<Order>>)
    ensures r.None? <==> forall i :: 0 <= i < |rows| ==> sel != [] && rows[i].orderId !in sel
    ensures r.None? <==> ExportSet(rows, sel) == []
    ensures r.Some? ==> |r.value| > 0 && r.value == ExportSet(rows, sel)
    ensures r.Some? ==> forall o :: o in r.value <==> o in rows && (sel == [] || o.orderId in sel)
  {
    var chosen := ExportSet(rows, sel);
    ExportSetSpec(rows, sel);
    if |chosen| == 0 then None
    else
      assert chosen[0] in multiset(rows);
      var j :| 0 <= j < |rows| && rows[j] == chosen[0];
      Some(chosen)
  }

  /** While the checkboxes agree with the id list, a non-empty selection exports exactly the
      checked rows. */
  lemma ExportSetIsChecked(rows: seq<Order>, sel: seq<string>)
    requires InSync(rows, sel) && sel != []
    ensures ExportSet(rows, sel) == Filter(rows, (o: Order) => o.flags.selected)
  {
    FilterCongruent(rows, (o: Order) => o.orderId in sel, (o: Order) => o.flags.selected);
  }

  /** One line of a PDF report: its serial number and the printed fields. */
  datatype ReportLine = ReportLine(
    serial: nat,
    orderId: string,
    styleNumber: nat,
    size: string,
    quantity: nat,
    paymentStatus: string,
    shippingMethod: string,
    orderDate: string)

  /** The PDF report body: one line per exported order in the same order, numbered 1..n. */
  function ReportLines(rows: seq<Order>): (r: seq<ReportLine>)
    ensures |r| == |rows|
    ensures forall i :: 0 <= i < |r| ==> r[i].serial == i + 1 && r[i].orderId == rows[i].orderId
  {
    seq(|rows|, i requires 0 <= i < |rows| =>
      var o := rows[i];
      ReportLine(i + 1, o.orderId, o.styleNumber, o.size, o.quantity, o.paymentStatus,
                 o.shippingMethod, o.orderDate))
  }
}
