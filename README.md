# Order dashboard pages, modelled in Dafny

This project models the browser logic of a small order-management front end for a Shopify
store. The front end has six pages:

- **Upload**: reads a Shopify order export. It groups the line items by order number and
  back-fills each order's shared fields from its first complete line. It projects every line
  onto the nine required columns. It then sends the confirmed orders one by one and the
  pending orders as one batch, while a progress counter advances.
- **Pending orders**: a searchable, date-bounded and date-sorted view of the pending list,
  with a counter of orders pending for more than four days. Single and batch confirm and
  cancel handlers update each row's transient flags.
- **Confirmed orders**: search, marking one order or a batch as shipped, and the picklist,
  PDF and express-PDF exports.
- **Cancelled orders**: search and the bulk move of the selected orders back to the
  all-orders list, with its failure report.
- **Shipped orders**: the search effect, and pagination in pages of fifty.
- **Dashboard**: search and date filters over all orders, the status tabs, the count cards
  with their percentages, and the display date format.

Each page is one module:

| module | file | page |
|---|---|---|
| `Upload` | `upload.dfy` | Upload |
| `Pending` | `pending.dfy` | Pending orders |
| `Confirmed` | `confirmed.dfy` | Confirmed orders |
| `Cancelled` | `cancelled.dfy` | Cancelled orders |
| `Shipped` | `shipped.dfy` | Shipped orders |
| `Dashboard` | `dashboard.dfy` | Dashboard |

Four shared modules support them:

- `Orders`: the order record and its flags, selection, flag updates, exports and report
  numbering.
- `Dates`: dates and the DD-MM-YYYY format.
- `JsBuiltins`: the JavaScript string, number and rounding built-ins the pages rely on.
- `Collections`: filter, find, slice and a stable sort.

The model keeps the source's form:

- Derived views (filters, sorts, counts, payloads, formats) are functions with lemmas.
- Each page's state is a class whose seq fields the handlers reassign. The handlers are
  methods with `modifies` clauses, and each method's `ensures` ties the new state to those
  functions.
- The upload page's grouping and posting loops are `while`/`for` loops, proved equal to the
  functional definitions.
- Server answers, dialog answers, the clock and the JavaScript Date string parser are
  parameters.

## Model

| member | source | states |
|---|---|---|
| Upload.GroupKeys | src/pages/UploadOrderList.jsx:74-82 | the order numbers of groupedOrders: no key twice, and every row's key is present |
| Upload.GroupKeysOccur | src/pages/UploadOrderList.jsx:74-82 | every key comes from some row, so no empty group is made |
| Upload.GroupOf | src/pages/UploadOrderList.jsx:74-82 | a group holds only rows of its key, taken from the input, and every input row with that key |
| Upload.GroupOfInInputOrder | src/pages/UploadOrderList.jsx:76-81 | a group is exactly the input rows carrying its key, in input order |
| Upload.GroupOfAbsent | src/pages/UploadOrderList.jsx:74-82 | a key no row carries has no rows |
| Upload.GroupMapGroups | src/pages/UploadOrderList.jsx:75-82 | the dictionary the loop builds has exactly the group keys, each mapped to its group |
| Upload.GroupRows | src/pages/UploadOrderList.jsx:75-82 | the forEach loop builds that dictionary and its key order |
| Upload.SharedValue | src/pages/UploadOrderList.jsx:89-98 | a shared field is never empty; with a base row (the first row with any shared field filled) it is that row's value, or "NA" when the value is empty; without one it is "NA" |
| Upload.ProjectRow | src/pages/UploadOrderList.jsx:101-111 | a filled row has exactly the nine required columns; shared ones come from the group, the others are the row's own cell or "" |
| Upload.FillRow | src/pages/UploadOrderList.jsx:102-109 | the column loop builds exactly that projected row |
| Upload.NormalizeGroupRow | src/pages/UploadOrderList.jsx:87-112 | each row of a normalised group has the required columns, the group's shared values and its own other cells |
| Upload.SharedFieldsUniform | src/pages/UploadOrderList.jsx:93-111 | all rows of one order carry the same non-empty value in each shared column |
| Upload.NormalizeColumns | src/pages/UploadOrderList.jsx:87-112 | every uploaded row has exactly the required columns |
| Upload.NormalizeLength | src/pages/UploadOrderList.jsx:74-112 | normalisation emits exactly one row per input row |
| Upload.GroupsContiguous | src/pages/UploadOrderList.jsx:84-112 | each order's rows form one contiguous block of the output, with earlier groups before it and later groups after it |
| Upload.PushGroup | src/pages/UploadOrderList.jsx:101-111 | the push loop appends the normalised group to finalData |
| Upload.NormalizeRows | src/pages/UploadOrderList.jsx:84-112 | the nested loops produce exactly the normalised list |
| Upload.ClassificationPartition | src/pages/UploadOrderList.jsx:132-142 | confirmed and pending rows split the data: together they are the data, and each row is in one of them |
| Upload.ExtractSize | src/pages/UploadOrderList.jsx:264-274 | a size never contains '-' and is already upper case; it is "" iff the SKU's last '-' field is empty |
| Upload.ExtractSizeOfField | src/pages/UploadOrderList.jsx:264-274 | a dash-free SKU gives 2XL for XXL or 2XL, 3XL for XXXL or 3XL, and otherwise itself in upper case |
| Upload.ExtractSizeIdempotent | src/pages/UploadOrderList.jsx:264-274 | extracting the size of a size changes nothing |
| Upload.ExtractSizeOfSuffix | src/pages/UploadOrderList.jsx:264-274 | only the last '-' field of the SKU decides the size |
| Upload.FormatDate | src/pages/UploadOrderList.jsx:250-261 | "" exactly for an empty or unparsable date, otherwise DD-MM-YYYY of the parsed date |
| Upload.UploadedDateReadBack | src/pages/UploadOrderList.jsx:250-261 | the pending page's parser reads an uploaded date back as that calendar day |
| Upload.OrderDate | src/pages/UploadOrderList.jsx:158 | an order date is never empty: the formatted "Created at" when it formats, otherwise DD-MM-YYYY of today |
| Upload.ToPayload | src/pages/UploadOrderList.jsx:155-163 | every payload has a date and a size without '-' |
| Upload.PostableIff | src/pages/UploadOrderList.jsx:155-166 | a row is posted iff it has a name, a non-zero style number, a non-empty size field and a non-zero quantity; the date never stops it |
| Upload.PostedAll | src/pages/UploadOrderList.jsx:153-196 | every posted payload has all required fields, and all confirmed rows are posted iff none lacks one |
| Upload.PendingMessage | src/pages/UploadOrderList.jsx:214-224 | the pending part of the message is empty exactly when there was no pending batch |
| Upload.UploadPage.constructor | src/pages/UploadOrderList.jsx:21-29 | the page starts with no data, no error and no progress |
| Upload.UploadPage.HandleFileUpload | src/pages/UploadOrderList.jsx:33-120 | without a file nothing changes; a non-.csv name, a parse error or a read failure each leave no data and their own message; a clean parse stores the normalised rows |
| Upload.UploadPage.SendBatches | src/pages/UploadOrderList.jsx:153-239 | with data present: the postable confirmed payloads are posted in order, the pending payloads go as one batch, the progress counts the posts plus one for a batch, and the message is the "Processed ..." line followed by the batch's outcome |
| Upload.UploadPage.SendOrders | src/pages/UploadOrderList.jsx:122-247 | empty data only reports "No data to send"; otherwise the postable confirmed payloads are posted in order, the pending rows go as one batch, the progress total and completed count and the final message are as stated |
| Upload.UploadPage.PostConfirmed | src/pages/UploadOrderList.jsx:153-196 | the loop posts exactly the postable payloads in order and advances the progress once per post |
| Upload.UploadPage.SendPending | src/pages/UploadOrderList.jsx:198-236 | with pending rows, their payloads go as one batch, the message records whether the server took it and the progress advances once with its percentage kept in step; without pending rows nothing changes |
| Upload.ProgressCompletes | src/pages/UploadOrderList.jsx:144-193 | the progress reaches its total iff no confirmed row was skipped |
| Upload.ProgressWithinTotal | src/pages/UploadOrderList.jsx:186-193 | the completed count never passes the total, so the percentage stays at most 100 |
| Dates.ParseCustomDate | src/pages/PendingOrders.jsx:53-58 | the parsed date is null exactly for an empty string |
| Dates.ParseFormatDMY | src/pages/PendingOrders.jsx:53-58 | a DD-MM-YYYY text parses to that calendar day |
| Dates.ParseFormatDMYSameMonth | src/pages/PendingOrders.jsx:53-58 | within one month, parsed dates compare as their day numbers do |
| Dates.Pad2 | src/pages/UploadOrderList.jsx:255-256 | padStart(2, '0'): two digits below 100, and Number() reads the number back |
| Dates.FormatDMYSplit | src/pages/UploadOrderList.jsx:256-260 | a formatted date splits on '-' into day, month and year |
| Pending.FilteredAndSortedMembers | src/pages/PendingOrders.jsx:105-119 | the view holds exactly the rows that match the search and both date bounds, each as often as in the list |
| Pending.UndatedHiddenByBound | src/pages/PendingOrders.jsx:112-116 | once a bound is set, a row with a null or invalid date is never shown |
| Pending.FilteredAndSortedOrder | src/pages/PendingOrders.jsx:120-127 | "newest" lists later dates first, any other order earlier first; a missing date counts as 0 |
| Pending.FilteredAndSortedStable | src/pages/PendingOrders.jsx:120-127 | rows with equal dates keep their list order |
| Pending.DaysPending | src/pages/PendingOrders.jsx:543-557 | 0 for an empty or unparsable date, otherwise the floor of the elapsed whole days |
| Pending.OverdueIff | src/pages/PendingOrders.jsx:543-563 | a row counts as over four days iff its date parses and is at least five whole days before now |
| Pending.OverdueCount | src/pages/PendingOrders.jsx:561-563 | the count never exceeds the shown rows |
| Pending.OverdueCountAppend | src/pages/PendingOrders.jsx:561-563 | the count adds up over any split of the list |
| Pending.OverdueCountAll | src/pages/PendingOrders.jsx:561-563 | the count equals the number of rows iff every row is overdue |
| Pending.Settled | src/pages/PendingOrders.jsx:183-228 | after an action, the busy flag is cleared; on success the done flag is set with no error; on failure the error holds the message |
| Pending.StartThenFinish | src/pages/PendingOrders.jsx:183-228 | the start update followed by the success or failure update gives the settled flags |
| Pending.BatchRequests | src/pages/PendingOrders.jsx:312-326 | body i is the payload of the first row carrying selected id i, with the action's status; the list stops exactly at the first selected id no row carries, and covers every id when all have rows |
| Pending.BatchRequestsComplete | src/pages/PendingOrders.jsx:312-326 | every selected id is posted iff every selected id has a row |
| Pending.FirstRejection | src/pages/PendingOrders.jsx:312-329 | Promise.all fails iff some request was rejected; its message is the message of the first rejected request in selection order |
| Pending.BatchSucceedsIff | src/pages/PendingOrders.jsx:297-361 | a batch succeeds iff every selected id has a row and every answer is a success |
| Pending.PendingView.Exported | src/pages/PendingOrders.jsx:431-442 | the CSV and PDF exports warn iff no row qualifies, else hold exactly the selected rows (every row when nothing is selected) |
| Pending.PendingView.constructor | src/pages/PendingOrders.jsx:25-36 | the page starts empty, unselected and unfiltered, sorted "oldest" |
| Pending.PendingView.Load | src/pages/PendingOrders.jsx:78-102 | the fetched rows replace the list with flags cleared; the selection is emptied and agrees with the checkboxes |
| Pending.PendingView.LoadConfirmOrders | src/pages/PendingOrders.jsx:62-73 | the confirmed list is replaced by the fetched one |
| Pending.PendingView.ToggleOrderSelection | src/pages/PendingOrders.jsx:130-143 | the rows and the id list are toggled, and their agreement is kept |
| Pending.PendingView.ToggleSelectAll | src/pages/PendingOrders.jsx:146-159 | select-all flips, every checkbox follows, the id list becomes all ids or none, and both agree |
| Pending.PendingView.ClearDateFilters | src/pages/PendingOrders.jsx:565-568 | both date bounds are cleared |
| Pending.PendingView.Act | src/pages/PendingOrders.jsx:162-294 | a declined dialog or a missing id changes no row; a declined backlog dialog only sets its error; otherwise (a confirmed id with a row, unless the backlog dialog declines) a request is always sent: the first matching row is posted and every row with the id is settled with the answer |
| Pending.PendingView.PostOne | src/pages/PendingOrders.jsx:183-227 | the found order's payload is posted with the action's status, a refetch follows exactly on success, and every row with the id is settled with the answer while the other rows are unchanged |
| Pending.PendingView.MarkNotFound | src/pages/PendingOrders.jsx:216-227 | for an id no row carries, marking the rows with that id as failed leaves the list unchanged |
| Pending.PendingView.Batch | src/pages/PendingOrders.jsx:297-428 | an empty selection only warns; otherwise the batch bodies are posted, only selected rows change, each settled with the batch outcome, and a refetch follows iff the batch succeeds |
| Orders.FindOrder | src/pages/PendingOrders.jsx:178-181 | find succeeds iff some row carries the id, and returns the first row of the list with that id |
| Orders.ErrorMessage | src/pages/PendingOrders.jsx:213-224 | an answered failure reports its own message when it has one and the fallback text otherwise; a rejection reports its message |
| Orders.ToggleRows | src/pages/PendingOrders.jsx:131-136 | exactly the rows carrying the id have their checkbox flipped |
| Orders.ToggleIds | src/pages/PendingOrders.jsx:138-142 | the id is in the new list iff it was not before; other ids stay as they were |
| Orders.ToggleIdsTwiceAbsent | src/pages/PendingOrders.jsx:138-142 | selecting then deselecting an unselected id restores the exact list |
| Orders.ToggleIdsTwiceSameIds | src/pages/PendingOrders.jsx:138-142 | toggling an id twice keeps the same set of ids |
| Orders.ToggleIdsNoDup | src/pages/PendingOrders.jsx:138-142 | a duplicate-free selection stays duplicate-free under toggling |
| Orders.ToggleRowsTwice | src/pages/PendingOrders.jsx:131-136 | toggling the rows twice restores them |
| Orders.ToggleKeepsInSync | src/pages/PendingOrders.jsx:130-143 | toggling keeps checkboxes and id list in agreement |
| Orders.SelectAllRows | src/pages/PendingOrders.jsx:150-154 | every row's checkbox takes the new select-all value |
| Orders.SelectAllIds | src/pages/PendingOrders.jsx:156-158 | the id list is every row's id in row order, or empty |
| Orders.SelectAllInSync | src/pages/PendingOrders.jsx:146-159 | after select-all, checkboxes and id list agree |
| Orders.SelectAllDuplicates | src/pages/PendingOrders.jsx:156-158 | two lines of one order put their id into the list twice |
| Orders.MarkWhereRow | src/pages/PendingOrders.jsx:183-189 | a row whose id is listed gets the update, any other row is unchanged |
| Orders.MarkWhereIds | src/pages/PendingOrders.jsx:183-189 | a flag update keeps every row's id |
| Orders.Fetched | src/pages/PendingOrders.jsx:82-93 | a fetched list is the answer row for row, every field kept, with all transient flags cleared |
| Orders.ExportSetSpec | src/pages/PendingOrders.jsx:431-442 | the export holds only listed rows whose id is selected (any row without a selection), and all of them |
| Orders.Export | src/pages/PendingOrders.jsx:431-442 | the export only warns iff no row qualifies; otherwise it holds exactly the selected rows (every row when nothing is selected) |
| Orders.ExportSetIsChecked | src/pages/PendingOrders.jsx:473-484 | while checkboxes and id list agree, a selection exports exactly the checked rows |
| Orders.ReportLines | src/pages/PendingOrders.jsx:510-519 | one report line per exported order, same order, numbered from 1 |
| Confirmed.SearchResultsMembers | src/pages/ConfirmedOrders.jsx:67-71 | the table shows exactly the rows whose id, style number or contact number contains the term, ignoring case |
| Confirmed.SearchEmptyShowsAll | src/pages/ConfirmedOrders.jsx:67-71 | an empty search shows the whole list |
| Confirmed.RefetchSelectionInSync | src/pages/ConfirmedOrders.jsx:49-64 | a refetch clears the checkboxes but keeps the id list, so the two agree iff no fetched id is still selected |
| Confirmed.ShipCandidatesSpec | src/pages/ConfirmedOrders.jsx:206-208 | candidates are listed rows with selected ids, and every selected id some row carries has one |
| Confirmed.ShipPartition | src/pages/ConfirmedOrders.jsx:210-222 | valid and invalid candidates split the candidates |
| Confirmed.ShipRefetchIff | src/pages/ConfirmedOrders.jsx:238-244 | the success toast and refetch happen iff some post succeeded |
| Confirmed.RejectedIdsSpec | src/pages/ConfirmedOrders.jsx:246-255 | as written, an id is reset iff one of its posts was rejected |
| Confirmed.UnsuccessfulIdsSpec | src/pages/ConfirmedOrders.jsx:246-255 | corrected, an id is reset iff one of its posts failed in any way |
| Confirmed.ShipSettledRow | src/pages/ConfirmedOrders.jsx:200-255 | a reset row stops shipping with "Failed to ship"; another selected row stays shipping with no error; other rows are unchanged |
| Confirmed.AnsweredFailureKeepsShipping | src/pages/ConfirmedOrders.jsx:246-255 | as written, when no post is rejected a selected row stays shipping even if every answer said success: false |
| Confirmed.CorrectedShipSettles | src/pages/ConfirmedOrders.jsx:246-255 | corrected, a selected row stops shipping iff a post for its id failed, and has an error iff it stopped |
| Confirmed.SkippedRowKeepsShipping | src/pages/ConfirmedOrders.jsx:200-222 | a selected row skipped for missing data is left marked shipping |
| Confirmed.NoFailureMeansAllSucceeded | src/pages/ConfirmedOrders.jsx:238-246 | with no failed result, every result is a success |
| Confirmed.NoFailureResetsNothing | src/pages/ConfirmedOrders.jsx:246-255 | with no failed post, the failure reset marks no row |
| Confirmed.SkuIdSplit | src/pages/ConfirmedOrders.jsx:281 | a Sku Id splits back into style number, colour and size |
| Confirmed.OrNotAvailable | src/pages/ConfirmedOrders.jsx:281 | the text itself when not empty, else N/A |
| Confirmed.ColorFor | src/pages/ConfirmedOrders.jsx:281 | the colour of the first catalogue entry with the style code (N/A when empty), or N/A when no entry has it |
| Confirmed.RackSpaceFor | src/pages/ConfirmedOrders.jsx:282 | the rack space of the first product with the style code (Default when empty), or Default when no product has it |
| Confirmed.PicklistLineOf | src/pages/ConfirmedOrders.jsx:280-284 | Sku Id is style-colour-size from the colour catalogue, Rack Space the product catalogue's rack space, and Good the quantity or 1 for a zero quantity |
| Confirmed.Picklist | src/pages/ConfirmedOrders.jsx:270-284 | the picklist only warns iff the export set is empty; otherwise line i is the line of exported order i |
| Confirmed.PdfExportIgnoresSelection | src/pages/ConfirmedOrders.jsx:300-303 | as written, with something selected an unselected standard row is still exported |
| Confirmed.SelectedStandardSetMembers | src/pages/ConfirmedOrders.jsx:300-303 | corrected, with a selection a row is exported iff it is selected and not express |
| Confirmed.PdfExportWarnsIff | src/pages/ConfirmedOrders.jsx:300-308 | the corrected PDF export only warns iff no row qualifies |
| Confirmed.PdfAndExpressSplit | src/pages/ConfirmedOrders.jsx:300-355 | with a selection, the PDF export as written and the express export split the list between them |
| Confirmed.ExpressExportMembers | src/pages/ConfirmedOrders.jsx:348-355 | the express export holds exactly the express rows, ignores the selection, and only warns iff there is none |
| Confirmed.ConfirmedView.CsvExport | src/pages/ConfirmedOrders.jsx:270-284 | the page's picklist warns iff no row is exported, else has the line of each exported row in order |
| Confirmed.ConfirmedView.PdfExported | src/pages/ConfirmedOrders.jsx:300-308 | corrected: warns iff nothing qualifies; with a selection exactly the selected standard rows, without one every row |
| Confirmed.ConfirmedView.ExpressExported | src/pages/ConfirmedOrders.jsx:348-355 | exactly the express rows of the page, whatever is selected, warning iff there is none |
| Confirmed.ConfirmedView.constructor | src/pages/ConfirmedOrders.jsx:14-19 | the page starts empty and unselected |
| Confirmed.ConfirmedView.Load | src/pages/ConfirmedOrders.jsx:49-64 | the fetched rows replace the list with flags cleared; the id list is kept |
| Confirmed.ConfirmedView.ToggleOrderSelection | src/pages/ConfirmedOrders.jsx:74-86 | rows and id list are toggled, agreement kept |
| Confirmed.ConfirmedView.ToggleSelectAll | src/pages/ConfirmedOrders.jsx:88-99 | select-all flips and checkboxes and id list follow and agree |
| Confirmed.ConfirmedView.MarkAsShipped | src/pages/ConfirmedOrders.jsx:101-139 | a body is sent iff the id has a row; every row with the id ends shipping iff the post succeeded; a refetch follows iff it succeeded |
| Confirmed.ConfirmedView.BatchShip | src/pages/ConfirmedOrders.jsx:192-266 | an empty selection only warns; otherwise the valid candidates are posted, the rows end as the corrected settlement states, and a refetch follows iff some post succeeded |
| Cancelled.SearchResultsMembers | src/pages/CancelOrders.jsx:39-42 | the table shows exactly the rows whose id or style number contains the term, ignoring case |
| Cancelled.BulkResultsAt | src/pages/CancelOrders.jsx:82-97 | one result per selected id, failing iff its request was rejected |
| Cancelled.FailureTextIff | src/pages/CancelOrders.jsx:100-108 | the error toast appears iff something failed, and says "All" iff everything failed |
| Cancelled.BulkSuccessIff | src/pages/CancelOrders.jsx:111-115 | the success toast and refetch happen iff some request resolved |
| Cancelled.CancelledView.Exported | src/pages/CancelOrders.jsx:124-132 | the CSV and PDF exports warn iff no row qualifies, else hold exactly the selected rows (every row when nothing is selected) |
| Cancelled.CancelledView.constructor | src/pages/CancelOrders.jsx:14-20 | the page starts empty, unselected and idle |
| Cancelled.CancelledView.Load | src/pages/CancelOrders.jsx:22-36 | the fetched rows replace the list with flags cleared |
| Cancelled.CancelledView.ToggleOrderSelection | src/pages/CancelOrders.jsx:45-57 | rows and id list are toggled, agreement kept |
| Cancelled.CancelledView.ToggleSelectAll | src/pages/CancelOrders.jsx:59-70 | select-all flips and checkboxes and id list follow and agree |
| Cancelled.CancelledView.BulkDelete | src/pages/CancelOrders.jsx:73-122 | an empty selection only warns; otherwise the results, failure text, success count and refetch follow the failures, and processing ends idle |
| Shipped.SearchResultsMembers | src/pages/ShippedOrders.jsx:33-47 | a blank term keeps the list; any other term keeps exactly the rows whose id, style, non-empty size or non-zero quantity matches |
| Shipped.TotalPages | src/pages/ShippedOrders.jsx:57 | the page count is the least number of 50-row pages holding the list |
| Shipped.PageOf | src/pages/ShippedOrders.jsx:54-56 | a page never holds more than 50 rows |
| Shipped.PageHolds | src/pages/ShippedOrders.jsx:54-57 | every row appears on the page its position names, at the matching slot |
| Shipped.PageSize | src/pages/ShippedOrders.jsx:54-57 | a page in range is non-empty, and only the last may be short |
| Shipped.ShowingMatchesPage | src/pages/ShippedOrders.jsx:191-193 | the "Showing a to b" label counts exactly the page's rows and names their positions |
| Shipped.PaginationShownIff | src/pages/ShippedOrders.jsx:170 | the pagination bar appears iff there are at least two pages |
| Shipped.ShippedView.constructor | src/pages/ShippedOrders.jsx:10-15 | the page starts empty on page 1 |
| Shipped.ShippedView.CurrentOrders | src/pages/ShippedOrders.jsx:53-55 | the current page holds at most 50 rows: the filtered rows from "showing" through "to", as the footer reports them |
| Shipped.ShippedView.SearchEffect | src/pages/ShippedOrders.jsx:33-47 | the filtered list is recomputed and the page resets to 1 |
| Shipped.ShippedView.Load | src/pages/ShippedOrders.jsx:18-30 | the fetched rows replace the list, and the effect then filters and resets |
| Shipped.ShippedView.SetSearchTerm | src/pages/ShippedOrders.jsx:33-47 | typing a term refilters and resets to page 1 |
| Shipped.ShippedView.Previous | src/pages/ShippedOrders.jsx:175 | moves back one page unless on page 1, and keeps the page in range |
| Shipped.ShippedView.Next | src/pages/ShippedOrders.jsx:182 | moves forward one page unless on the last, and keeps the page in range |
| Shipped.ShippedView.GoTo | src/pages/ShippedOrders.jsx:59 | a numbered button sets that page |
| Dashboard.DashParse | src/pages/Dashboard.jsx:46-52 | null iff the text is empty or does not have exactly three '-' fields |
| Dashboard.EffectiveDate | src/pages/Dashboard.jsx:84 | an order always has a date: the parsed order date whenever it is not null (an Invalid Date included), otherwise the creation time read as a Date |
| Dashboard.InDaysIgnoresTimeOfDay | src/pages/Dashboard.jsx:84-97 | only the calendar day counts: a bound admits every time of its own day |
| Dashboard.SearchedMembers | src/pages/Dashboard.jsx:73-80 | a non-blank term keeps exactly the matching orders |
| Dashboard.ApplyFiltersMembers | src/pages/Dashboard.jsx:71-100 | an order survives iff it matches a non-blank term and its rebuilt date-only day lies within the rebuilt bounds |
| Dashboard.TwoDigitYearIn1900s | src/pages/Dashboard.jsx:85-87 | rebuilding the date reads a year from 0 to 99 as 1900 + year, so such an order falls on the same day as its 1900s twin |
| Dates.TwoDigitYear | src/pages/Dashboard.jsx:85-87 | new Date(y, m, d) gives the same day for a year y from 0 to 99 as for 1900 + y |
| Dashboard.TabViewMembers | src/pages/Dashboard.jsx:102-116 | a tab shows exactly the filtered orders it admits |
| Dashboard.DisplayedOrders | src/pages/Dashboard.jsx:102-116 | an order is on screen iff it passes the search and the date filter on rebuilt date-only days and the active tab admits it |
| Dashboard.FilteredCounts | src/pages/Dashboard.jsx:122-134 | shipped plus cancelled is at most the total, which is at most the number of orders; pending is the whole pending list's length |
| Dashboard.Percentage | src/pages/Dashboard.jsx:262-300 | 0 for an empty total, else count/total*100 rounded to the nearest integer with halves up, and at most 100 for a count within the total |
| Dashboard.FormatDisplayDate | src/pages/Dashboard.jsx:136-140 | N/A for a missing date, NaN fields for an unparsable one, else the zero-padded day, month and year fields |
| Dashboard.CountsBound | src/pages/Dashboard.jsx:118-134 | shipped plus cancelled never exceeds the total, and each count matches its tab |
| Dashboard.CardPercentAtMost100 | src/pages/Dashboard.jsx:262-281 | the shipped and cancelled percentages never exceed 100 |
| Dashboard.PendingPercentOver100 | src/pages/Dashboard.jsx:300 | the pending card passes 100% once the pending list is half a percent longer than the filtered total |
| Dashboard.ResetShowsAll | src/pages/Dashboard.jsx:169-174 | after a reset every order is on screen, in list order |
| Dashboard.DisplayDateReadsBack | src/pages/Dashboard.jsx:136-140 | a displayed date reads back through the page's parser as the same calendar day |
| JsBuiltins.RoundedPercentNearest | src/pages/Dashboard.jsx:262 | Math.round of count/total*100 is the nearest integer, halves rounding up |
| JsBuiltins.RoundedPercentAtMost100 | src/pages/Dashboard.jsx:262 | a share of at most the total rounds to at most 100 |
| JsBuiltins.FloorDivBounds | src/pages/Dashboard.jsx:262 | the quotient behind the rounding is the floor of n / d: d times it is at most n and d times its successor exceeds n |
| JsBuiltins.NatToStringRoundTrip | src/pages/UploadOrderList.jsx:155 | Number() reads a style number's text back as the number |
| JsBuiltins.SplitJoin | src/pages/UploadOrderList.jsx:266-267 | splitting a '-'-joined list of dash-free parts gives the parts back |

## Left out

- HTTP requests, toasts, `window.confirm`, timers, `console` logging, loading spinners, and
  navigation (`window.location.href` after the pending batch) are left out. Server answers and
  dialog answers are parameters.
- Generating files (XLSX, CSV and PDF bytes, file names with today's date) is left out. The
  model keeps the rows each export covers and the lines it prints.
- The JavaScript Date string parser, time zones and `toLocaleString` are left out: the
  parser is a parameter (`parseDate`, `parseTime`, `parseText`), the clock is a parameter
  (`now`, `today`), and so are a time value's local calendar fields (`calendarOf`). Only the
  numeric constructor `new Date(y, m, d)` is computed, years 0-99 read as 1900-1999, at local
  midnight without daylight saving.
- Papaparse itself is left out. The upload takes its outcome (rows, an error count or a read
  error) as a parameter.
- Upload.UploadPage.SendOrders: assumes the pending batch's answer has a truthy `data`. The
  outer catch at UploadOrderList.jsx:241-243 cannot be reached once the rows are normalised,
  so it is not modelled.
- JsBuiltins.JsNumber: reads decimal digits only; whitespace trimming, signs, decimals and
  exponents are not modelled. A text that is not all digits is NaN, which `|| 0` turns into 0.
- JsBuiltins.RoundedPercent: exact rational arithmetic; floating-point rounding of the
  quotient is not modelled.
- Lower- and upper-casing are ASCII only.
- Pending.FirstRejection: Promise.all rejects with the rejection that settles first in time.
  Completion order is not modelled, so the first rejection in selection order stands for it.
- Upload grouping assumes that `Object.values` yields the groups in first-appearance order.
  This holds for non-numeric order numbers; integer-like keys would be sorted first, and that
  is not modelled.
- The edit dialog (`handleEdit`, `edit`, `editingOrderId`) is not part of this model: it
  only opens a form.
- Confirmed.ConfirmedView.BatchShip: states the rows with the corrected reset (see Findings).
  The reset as written is stated by Confirmed.AnsweredFailureKeepsShipping.
- Confirmed.ConfirmedView.PdfExported: uses the corrected PDF set (see Findings).
  The set as written is Confirmed.PdfExportSet.
- The product and colour catalogue fetches are left out. Their contents are parameters of the
  picklist.
- The dashboard's charts (pie and bar data, chart tooltip percentages) are left out.
- Where the written behaviour and the intended one differ, the code is followed:
  - the confirmed and cancelled refetches keep the selection list while clearing every
    checkbox (Confirmed.RefetchSelectionInSync);
  - select-all can list one id twice (Orders.SelectAllDuplicates);
  - a cancelled bulk move counts any request that resolves as a success, whatever the server
    answered (Cancelled.BulkResultsAt).

## Findings

| source | as written | input that shows it | evidently intended | confidence | as-written member | corrected member |
|---|---|---|---|---|---|---|
| src/pages/ConfirmedOrders.jsx:246-255 | after a batch ship, only failures carrying `order` (rejected posts) reset `shipping`; an answer with `success: false` is counted as failed but its row stays marked shipping | one valid selected order whose POST answers `{ success: false }` | every failed post clears `shipping` and shows "Failed to ship" on its row | not executed | Confirmed.AnsweredFailureKeepsShipping | Confirmed.CorrectedShipSettles |
| src/pages/ConfirmedOrders.jsx:300-303 | with a selection, `selected && standard` evaluates to the standard list, so the PDF exports every non-express row whether selected or not | selection `["A"]` and a standard row `"B"` that is not selected: `"B"` is exported | export the selected rows that are not express | not executed | Confirmed.PdfExportIgnoresSelection | Confirmed.SelectedStandardSetMembers |
