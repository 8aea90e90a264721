/** The dashboard: the search and date filters over all orders, the status tabs, the counts
    and percentages on the cards, and the display date format. The Date string parser is the
    parameter parseText (a time value, or None for an Invalid Date); a picked date is a time
    value, and calendarOf gives a time value's local calendar fields (getFullYear, getMonth()
    + 1, getDate()). */
module Dashboard {
  import opened Collections
  import opened JsBuiltins
  import opened Dates
  import opened Orders

  // ---------------------------------------------------------------- dates

  /** A Date built from text: Invalid Date when the parser rejects it. */
  function TextDate(s: string, parseText: string -> Option<int>): (d: JsDate)
    ensures !d.NullDate?
  {
    match parseText(s)
    case None => InvalidDate
    case Some(t) => ValidDate(t)
  }

  /** The dashboard's parseCustomDate: null for "" or unless the text has exactly three
      '-' fields; otherwise the text year-month-day, rebuilt from them, parsed as a Date. */
  function DashParse(s: string, parseText: string -> Option<int>): (d: JsDate)
    ensures d.NullDate? <==> s == "" || |Split(s, '-')| != 3
  {
    if s == "" then NullDate
    else
      var parts := Split(s, '-');
      if |parts| != 3 then NullDate
      else TextDate(parts[2] + "-" + parts[1] + "-" + parts[0], parseText)
  }

  /** parseCustomDate(order_date) || new Date(createdAt): an Invalid Date is truthy, so the
      creation time stands in only when the order date gives null. */
  function EffectiveDate(o: Order, parseText: string -> Option<int>): (d: JsDate)
    ensures !d.NullDate?
    ensures !DashParse(o.orderDate, parseText).NullDate? ==> d == DashParse(o.orderDate, parseText)
    ensures DashParse(o.orderDate, parseText).NullDate? ==> d == TextDate(o.createdAt, parseText)
  {
    var d := DashParse(o.orderDate, parseText);
    if d.NullDate? then TextDate(o.createdAt, parseText) else d
  }

  /** The day number of a time value: new Date(getFullYear(), getMonth(), getDate()), the
      date-only Date rebuilt from its calendar fields. */
  function DayOf(t: int, calendarOf: int -> CalendarDate): int {
    var c := calendarOf(t);
    DateConstructorDay(c.year, c.month as int - 1, c.day)
  }

  /** The date filter on date-only values, inclusive at both ends, one-sided when only one
      bound is set; an Invalid Date fails every comparison. */
  predicate InDays(d: JsDate, start: Option<int>, end: Option<int>, calendarOf: int -> CalendarDate) {
    if start.None? && end.None? then true
    else
      d.ValidDate?
      && (start.None? || DayOf(d.time, calendarOf) >= DayOf(start.value, calendarOf))
      && (end.None? || DayOf(d.time, calendarOf) <= DayOf(end.value, calendarOf))
  }

  /** Only the day counts: a bound admits every time of its own day. */
  lemma InDaysIgnoresTimeOfDay(t: int, start: Option<int>, end: Option<int>, calendarOf: int -> CalendarDate)
    requires start.Some? ==> DayOf(start.value, calendarOf) == DayOf(t, calendarOf)
    requires end.Some? ==> DayOf(end.value, calendarOf) == DayOf(t, calendarOf)
    ensures InDays(ValidDate(t), start, end, calendarOf)
  {
  }

  /** The rebuilt Date reads a year from 0 to 99 as 1900 + year: an order dated in the year
      25 passes a range that is exactly the same day and month of 1925. */
  lemma TwoDigitYearIn1900s(t: int, s: int, calendarOf: int -> CalendarDate)
    requires calendarOf(t).year <= 99
    requires calendarOf(s) == calendarOf(t).(year := calendarOf(t).year + 1900)
    ensures DayOf(t, calendarOf) == DayOf(s, calendarOf)
    ensures InDays(ValidDate(t), Some(s), Some(s), calendarOf)
  {
    var c := calendarOf(t);
    TwoDigitYear(c.year, c.month as int - 1, c.day);
  }

  // ---------------------------------------------------------------- filters

  /** The filter controls. */
  datatype Filters = Filters(searchTerm: string, startDate: Option<int>, endDate: Option<int>, activeTab: string)

  /** The term, lower-cased, occurs in the id, the style number's text or the size,
      lower-cased, or the term as typed occurs in the quantity's text. */
  predicate MatchesSearch(o: Order, term: string) {
    var t := ToLower(term);
    Contains(ToLower(o.orderId), t) || Contains(ToLower(NatToString(o.styleNumber)), t)
    || Contains(ToLower(o.size), t) || Contains(NatToString(o.quantity), term)
  }

  predicate InDateRange(o: Order, f: Filters, parseText: string -> Option<int>, calendarOf: int -> CalendarDate) {
    InDays(EffectiveDate(o, parseText), f.startDate, f.endDate, calendarOf)
  }

  function Searched(all: seq<Order>, f: Filters): seq<Order> {
    if !IsBlank(f.searchTerm) then Filter(all, (o: Order) => MatchesSearch(o, f.searchTerm)) else all
  }

  /** applyFilters: the search step when the term is not blank, then the date step when a
      bound is set. */
  function ApplyFilters(all: seq<Order>, f: Filters, parseText: string -> Option<int>, calendarOf: int -> CalendarDate): (r: seq<Order>)
    ensures |r| <= |all|
  {
    var searched := Searched(all, f);
    if f.startDate.Some? || f.endDate.Some? then Filter(searched, (o: Order) => InDateRange(o, f, parseText, calendarOf))
    else searched
  }

  /** The search step keeps exactly the orders matching a non-blank term. */
  lemma SearchedMembers(all: seq<Order>, f: Filters)
    ensures multiset(Searched(all, f)) <= multiset(all)
    ensures forall o :: o in Searched(all, f) <==> (o in all && (IsBlank(f.searchTerm) || MatchesSearch(o, f.searchTerm)))
  {
    if !IsBlank(f.searchTerm) {
      FilterMembers(all, (o: Order) => MatchesSearch(o, f.searchTerm));
    }
  }

  /** An order survives the filters exactly when it matches a non-blank term and lies in the
      date range; each survivor appears no more often than in the list. */
  lemma ApplyFiltersMembers(all: seq<Order>, f: Filters, parseText: string -> Option<int>, calendarOf: int -> CalendarDate)
    ensures multiset(ApplyFilters(all, f, parseText, calendarOf)) <= multiset(all)
    ensures forall o :: o in ApplyFilters(all, f, parseText, calendarOf) <==>
      (o in all && (IsBlank(f.searchTerm) || MatchesSearch(o, f.searchTerm)) && InDateRange(o, f, parseText, calendarOf))
  {
    var searched := Searched(all, f);
    SearchedMembers(all, f);
    if f.startDate.Some? || f.endDate.Some? {
      FilterMembers(searched, (o: Order) => InDateRange(o, f, parseText, calendarOf));
    }
  }

  // ---------------------------------------------------------------- tabs

  predicate IsShippedStatus(o: Order) {
    ToLower(o.orderStatus) == "shipped"
  }

  predicate IsCancelStatus(o: Order) {
    ToLower(o.orderStatus) == "cancel"
  }

  /** Which rows a tab admits: by status for "shipped" and "cancel", by membership in the
      pending list for "pending", all rows for any other tab. */
  predicate TabAdmits(tab: string, o: Order, pendingIds: seq<string>) {
    if tab == "shipped" then IsShippedStatus(o)
    else if tab == "cancel" then IsCancelStatus(o)
    else if tab == "pending" then o.orderId in pendingIds
    else true
  }

  /** The tab effect's list. */
  function TabView(filtered: seq<Order>, tab: string, pendingIds: seq<string>): (r: seq<Order>)
    ensures |r| <= |filtered|
  {
    if tab == "shipped" then Filter(filtered, IsShippedStatus)
    else if tab == "cancel" then Filter(filtered, IsCancelStatus)
    else if tab == "pending" then Filter(filtered, (o: Order) => o.orderId in pendingIds)
    else filtered
  }

  /** A tab shows exactly the filtered rows it admits. */
  lemma TabViewMembers(filtered: seq<Order>, tab: string, pendingIds: seq<string>)
    ensures forall o :: o in TabView(filtered, tab, pendingIds) <==> o in filtered && TabAdmits(tab, o, pendingIds)
  {
    var p := (o: Order) => TabAdmits(tab, o, pendingIds);
    FilterCongruent(filtered, p, if tab == "shipped" then IsShippedStatus
                                 else if tab == "cancel" then IsCancelStatus
                                 else if tab == "pending" then (o: Order) => o.orderId in pendingIds
                                 else p);
    if tab == "shipped" || tab == "cancel" || tab == "pending" {
      FilterMembers(filtered, p);
    }
  }

  /** The rows on screen: an order is shown exactly when it passes the search and date
      filters and the active tab admits it. */
  function DisplayedOrders(all: seq<Order>, pending: seq<Order>, f: Filters, parseText: string -> Option<int>, calendarOf: int -> CalendarDate): (r: seq<Order>)
    ensures |r| <= |all|
    ensures forall o :: o in r <==>
      (o in all && (IsBlank(f.searchTerm) || MatchesSearch(o, f.searchTerm)) && InDateRange(o, f, parseText, calendarOf)
       && TabAdmits(f.activeTab, o, Ids(pending)))
  {
    ApplyFiltersMembers(all, f, parseText, calendarOf);
    TabViewMembers(ApplyFilters(all, f, parseText, calendarOf), f.activeTab, Ids(pending));
    TabView(ApplyFilters(all, f, parseText, calendarOf), f.activeTab, Ids(pending))
  }

  // ---------------------------------------------------------------- counts

  datatype Counts = Counts(total: nat, shipped: nat, cancelled: nat, pending: nat)

  /** getFilteredCounts: total, shipped and cancelled over the filtered rows; pending is the
      length of the whole pending list. */
  function FilteredCounts(all: seq<Order>, pending: seq<Order>, f: Filters, parseText: string -> Option<int>, calendarOf: int -> CalendarDate): (c: Counts)
    ensures c.shipped + c.cancelled <= c.total <= |all|
    ensures c.pending == |pending|
  {
    var filtered := ApplyFilters(all, f, parseText, calendarOf);
    FilterDisjoint(filtered, IsShippedStatus, IsCancelStatus);
    Counts(|filtered|, |Filter(filtered, IsShippedStatus)|, |Filter(filtered, IsCancelStatus)|, |pending|)
  }

  /** No row is both shipped and cancelled, so those two cards never add up to more than the
      total; each card agrees with its tab. */
  lemma CountsBound(all: seq<Order>, pending: seq<Order>, f: Filters, parseText: string -> Option<int>, calendarOf: int -> CalendarDate)
    ensures var c := FilteredCounts(all, pending, f, parseText, calendarOf);
      c.shipped + c.cancelled <= c.total
    ensures var c := FilteredCounts(all, pending, f, parseText, calendarOf);
      var filtered := ApplyFilters(all, f, parseText, calendarOf);
      c.total == |TabView(filtered, "all", Ids(pending))|
      && c.shipped == |TabView(filtered, "shipped", Ids(pending))|
      && c.cancelled == |TabView(filtered, "cancel", Ids(pending))|
  {
    FilterDisjoint(ApplyFilters(all, f, parseText, calendarOf), IsShippedStatus, IsCancelStatus);
  }

  /** The card percentage: 0 for an empty total, otherwise count / total * 100 rounded. */
  function Percentage(count: nat, total: nat): (r: nat)
    ensures total == 0 ==> r == 0
    ensures total > 0 ==> 2 * total * r <= 200 * count + total < 2 * total * (r + 1)
    ensures count <= total ==> r <= 100
  {
    if total > 0 then
      RoundedPercentNearest(count, total);
      if count <= total then
        RoundedPercentAtMost100(count, total);
        RoundedPercent(count, total)
      else RoundedPercent(count, total)
    else 0
  }

  /** The shipped and cancelled percentages never exceed 100. */
  lemma CardPercentAtMost100(all: seq<Order>, pending: seq<Order>, f: Filters, parseText: string -> Option<int>, calendarOf: int -> CalendarDate)
    ensures var c := FilteredCounts(all, pending, f, parseText, calendarOf);
      Percentage(c.shipped, c.total) <= 100 && Percentage(c.cancelled, c.total) <= 100
  {
    var c := FilteredCounts(all, pending, f, parseText, calendarOf);
    CountsBound(all, pending, f, parseText, calendarOf);
    if c.total > 0 {
      RoundedPercentAtMost100(c.shipped, c.total);
      RoundedPercentAtMost100(c.cancelled, c.total);
    }
  }

  /** The pending card divides the whole pending list by the filtered total, so it passes
      100 once the pending list is at least half a percent longer than a non-empty filtered
      list. */
  lemma PendingPercentOver100(all: seq<Order>, pending: seq<Order>, f: Filters, parseText: string -> Option<int>, calendarOf: int -> CalendarDate)
    requires 0 < |ApplyFilters(all, f, parseText, calendarOf)| && 201 * |ApplyFilters(all, f, parseText, calendarOf)| <= 200 * |pending|
    ensures var c := FilteredCounts(all, pending, f, parseText, calendarOf);
      Percentage(c.pending, c.total) > 100
  {
    var c := FilteredCounts(all, pending, f, parseText, calendarOf);
    PercentOver100(c.pending, c.total);
  }

  lemma PercentOver100(count: nat, total: nat)
    requires 0 < total && 201 * total <= 200 * count
    ensures RoundedPercent(count, total) > 100
  {
    RoundedPercentNearest(count, total);
    var r := RoundedPercent(count, total);
    if r <= 100 {
      MulMonotone(2 * total, r + 1, 101);
      assert false;
    }
  }

  // ---------------------------------------------------------------- reset and display

  /** resetFilters */
  function ResetFilters(): Filters {
    Filters("", None, None, "all")
  }

  /** After a reset every order is on screen, in list order. */
  lemma ResetShowsAll(all: seq<Order>, pending: seq<Order>, parseText: string -> Option<int>, calendarOf: int -> CalendarDate)
    ensures DisplayedOrders(all, pending, ResetFilters(), parseText, calendarOf) == all
  {
    assert IsBlank(ResetFilters().searchTerm);
  }

  /** formatDisplayDate: N/A for a missing date, NaN fields for an Invalid Date, otherwise
      the zero-padded DD-MM-YYYY of the date's calendar fields (calendarOf). */
  function FormatDisplayDate(date: string, parseText: string -> Option<int>, calendarOf: int -> CalendarDate): (r: string)
    ensures date == "" ==> r == "N/A"
    ensures date != "" && parseText(date).None? ==> r == "NaN-NaN-NaN"
    ensures date != "" && parseText(date).Some? ==>
      var c := calendarOf(parseText(date).value);
      Split(r, '-') == [Pad2(c.day), Pad2(c.month), NatToString(c.year)]
  {
    if date == "" then "N/A"
    else match parseText(date)
      case None => "NaN-NaN-NaN"
      case Some(t) =>
        FormatDMYSplit(calendarOf(t));
        FormatDMY(calendarOf(t))
  }

  /** A displayed date reads back through the dashboard's parseCustomDate: its three fields
      are reassembled as year-MM-DD. */
  lemma DisplayDateReadsBack(date: string, parseText: string -> Option<int>, calendarOf: int -> CalendarDate)
    requires date != "" && parseText(date).Some?
    ensures var c := calendarOf(parseText(date).value);
      DashParse(FormatDisplayDate(date, parseText, calendarOf), parseText)
        == TextDate(NatToString(c.year) + "-" + Pad2(c.month) + "-" + Pad2(c.day), parseText)
  {
    FormatDMYSplit(calendarOf(parseText(date).value));
  }
}
