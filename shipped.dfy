/** The shipped (all-orders) page: the search effect that rewrites the filtered list and
    resets the page, and the pagination of the filtered list in pages of fifty. */
module Shipped {
  import opened Collections
  import opened JsBuiltins
  import opened Orders

  const OrdersPerPage: nat := 50

  // ---------------------------------------------------------------- search

  /** A non-blank term matches the id or the style number's text, lower-cased; a non-empty
      size, lower-cased; or the text of a non-zero quantity, with the term as typed. */
  predicate MatchesSearch(o: Order, term: string) {
    var t := ToLower(term);
    Contains(ToLower(o.orderId), t) || Contains(ToLower(NatToString(o.styleNumber)), t)
    || (o.size != "" && Contains(ToLower(o.size), t))
    || (o.quantity != 0 && Contains(NatToString(o.quantity), term))
  }

  /** The list the search effect stores: everything for a blank term, else the matches. */
  function SearchResults(rows: seq<Order>, term: string): (r: seq<Order>)
    ensures |r| <= |rows|
  {
    if IsBlank(term) then rows else Filter(rows, (o: Order) => MatchesSearch(o, term))
  }

  /** A blank term keeps the whole list; any other term keeps exactly the matching rows, in
      list order. */
  lemma SearchResultsMembers(rows: seq<Order>, term: string)
    ensures IsBlank(term) ==> SearchResults(rows, term) == rows
    ensures !IsBlank(term) ==> forall o :: o in SearchResults(rows, term) <==> o in rows && MatchesSearch(o, term)
  {
    if !IsBlank(term) {
      FilterMembers(rows, (o: Order) => MatchesSearch(o, term));
    }
  }

  // ---------------------------------------------------------------- pagination

  /** Math.ceil(n / 50) */
  function TotalPages(n: nat): (t: nat)
    ensures (t - 1) * OrdersPerPage < n <= t * OrdersPerPage || (n == 0 && t == 0)
  {
    (n + OrdersPerPage - 1) / OrdersPerPage
  }

  /** currentOrders: slice((p - 1) * 50, p * 50) of the filtered list. */
  function PageOf<T>(rows: seq<T>, page: int): (r: seq<T>)
    ensures |r| <= OrdersPerPage
  {
    Slice(rows, page * OrdersPerPage - OrdersPerPage, page * OrdersPerPage)
  }

  /** Every row appears on exactly the page its position says, at the matching slot. */
  lemma PageHolds<T>(rows: seq<T>, k: nat)
    requires k < |rows|
    ensures var p := k / OrdersPerPage + 1;
      1 <= p <= TotalPages(|rows|) && k % OrdersPerPage < |PageOf(rows, p)|
      && PageOf(rows, p)[k % OrdersPerPage] == rows[k]
  {
    var p := k / OrdersPerPage + 1;
    assert p * OrdersPerPage - OrdersPerPage == k - k % OrdersPerPage;
  }

  /** A page within range is never empty, and only the last can be short. */
  lemma PageSize<T>(rows: seq<T>, page: nat)
    requires 1 <= page <= TotalPages(|rows|)
    ensures |PageOf(rows, page)| > 0
    ensures page < TotalPages(|rows|) ==> |PageOf(rows, page)| == OrdersPerPage
  {
  }

  /** The "Showing a to b" labels. */
  function ShowingFrom(page: int): int {
    page * OrdersPerPage - OrdersPerPage + 1
  }

  function ShowingTo(page: int, n: nat): int {
    if page * OrdersPerPage < n then page * OrdersPerPage else n
  }

  /** For a page within range the label counts exactly the rows on the page, and names their
      one-based positions. */
  lemma ShowingMatchesPage<T>(rows: seq<T>, page: nat)
    requires 1 <= page <= TotalPages(|rows|)
    ensures 1 <= ShowingFrom(page) <= ShowingTo(page, |rows|) <= |rows|
    ensures ShowingTo(page, |rows|) - ShowingFrom(page) + 1 == |PageOf(rows, page)|
    ensures PageOf(rows, page) == rows[ShowingFrom(page) - 1..ShowingTo(page, |rows|)]
  {
  }

  /** The pagination bar is drawn only for more than one page's worth of rows. */
  predicate PaginationShown(n: nat) {
    n > OrdersPerPage
  }

  lemma PaginationShownIff(n: nat)
    ensures PaginationShown(n) <==> TotalPages(n) >= 2
  {
  }

  predicate PreviousDisabled(page: int) {
    page == 1
  }

  predicate NextDisabled(page: int, n: nat) {
    page == TotalPages(n)
  }

  // ---------------------------------------------------------------- the page

  class ShippedView {
    var shippedOrders: seq<Order>
    var filteredOrders: seq<Order>
    var searchTerm: string
    var currentPage: int

    /** The search effect has run and the current page is one of the list's pages (page 1
        for an empty list). */
    predicate Valid()
      reads this
    {
      filteredOrders == SearchResults(shippedOrders, searchTerm)
      && 1 <= currentPage && (currentPage <= TotalPages(|filteredOrders|) || currentPage == 1)
    }

    constructor ()
      ensures Valid()
      ensures shippedOrders == [] && filteredOrders == [] && searchTerm == "" && currentPage == 1
    {
      shippedOrders := [];
      filteredOrders := [];
      searchTerm := "";
      currentPage := 1;
    }

    /** currentOrders: the rows of the current page, which on a valid, non-empty list are
        exactly the rows the "Showing a to b" label counts. */
    function CurrentOrders(): (r: seq<Order>)
      reads this
      ensures |r| <= OrdersPerPage
      ensures r == PageOf(filteredOrders, currentPage)
      ensures Valid() && |filteredOrders| > 0 ==>
        r == filteredOrders[ShowingFrom(currentPage) - 1..ShowingTo(currentPage, |filteredOrders|)]
    {
      if Valid() && |filteredOrders| > 0 then
        ShowingMatchesPage(filteredOrders, currentPage);
        PageOf(filteredOrders, currentPage)
      else PageOf(filteredOrders, currentPage)
    }

    /** The effect on [searchTerm, shippedOrders]: recompute the list, back to page 1. */
    method SearchEffect()
      modifies this`filteredOrders, this`currentPage
      ensures filteredOrders == SearchResults(shippedOrders, searchTerm) && currentPage == 1
      ensures Valid()
    {
      filteredOrders := SearchResults(shippedOrders, searchTerm);
      currentPage := 1;
    }

    /** fetchShippedOrder after a successful GET, followed by the effect it triggers. */
    method Load(fetched: seq<Order>)
      modifies this
      ensures shippedOrders == fetched && searchTerm == old(searchTerm)
      ensures filteredOrders == SearchResults(fetched, searchTerm) && currentPage == 1
      ensures Valid()
    {
      shippedOrders := fetched;
      filteredOrders := fetched;
      SearchEffect();
    }

    /** Typing in the search box, followed by the effect it triggers. */
    method SetSearchTerm(term: string)
      modifies this
      ensures searchTerm == term && shippedOrders == old(shippedOrders)
      ensures filteredOrders == SearchResults(shippedOrders, term) && currentPage == 1
      ensures Valid()
    {
      searchTerm := term;
      SearchEffect();
    }

    /** The Previous button: it does nothing while disabled. */
    method Previous()
      requires Valid()
      modifies this`currentPage
      ensures Valid()
      ensures currentPage == if PreviousDisabled(old(currentPage)) then old(currentPage) else old(currentPage) - 1
    {
      if !PreviousDisabled(currentPage) {
        currentPage := currentPage - 1;
      }
    }

    /** The Next button, drawn only with the pagination bar: it does nothing while disabled. */
    method Next()
      requires Valid() && PaginationShown(|filteredOrders|)
      modifies this`currentPage
      ensures Valid()
      ensures currentPage == if NextDisabled(old(currentPage), |filteredOrders|) then old(currentPage) else old(currentPage) + 1
    {
      if !NextDisabled(currentPage, |filteredOrders|) {
        currentPage := currentPage + 1;
      }
    }

    /** A numbered page button. */
    method GoTo(number: int)
      requires Valid() && 1 <= number <= TotalPages(|filteredOrders|)
      modifies this`currentPage
      ensures Valid() && currentPage == number
    {
      currentPage := number;
    }
  }
}
