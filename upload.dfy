/** The order-upload page: a Shopify order export, already parsed into rows keyed by column
    header, is grouped by order number ("Name"), each group's shared fields are back-filled
    from its first complete row, every row is projected onto the nine required columns, and
    the rows are then split into confirmed orders (posted one by one) and pending orders
    (posted as one batch) while a progress counter advances. */
module Upload {
  import opened Collections
  import opened JsBuiltins
  import opened Dates
  import opened Orders

  /** A parsed CSV row: column header to cell text; an absent key is a column the file lacks. */
  type CsvRow = map<string, string>

  const RequiredColumns: seq<string> := [
    "Name", "Lineitem sku", "Lineitem quantity", "Financial Status", "Payment Method",
    "Tags", "Created at", "Billing Phone", "Shipping Method"]

  /** The columns whose value is shared by all rows of one order. */
  const SharedColumns: seq<string> := ["Financial Status", "Billing Phone", "Tags", "Shipping Method"]

  /** row[col] || "": an absent or empty cell reads as "". */
  function Field(row: CsvRow, col: string): string {
    if col in row then row[col] else ""
  }

  /** The property key a row is grouped under: a row without a "Name" column lands under the
      key "undefined", as the missing value is turned into a property name. */
  function GroupKey(row: CsvRow): string {
    if "Name" in row then row["Name"] else "undefined"
  }

  // ---------------------------------------------------------------- grouping

  /** The distinct group keys in order of first appearance (the order Object.values yields
      for keys that do not look like array indices). */
  function GroupKeys(rows: seq<CsvRow>): (keys: seq<string>)
    ensures NoDup(keys)
    ensures forall i :: 0 <= i < |rows| ==> GroupKey(rows[i]) in keys
    decreases |rows|
  {
    if |rows| == 0 then []
    else
      var front := rows[..|rows| - 1];
      var k := GroupKey(rows[|rows| - 1]);
      var keys := GroupKeys(front);
      assert forall i :: 0 <= i < |rows| - 1 ==> rows[i] == front[i];
      if k in keys then keys else keys + [k]
  }

  /** Every group key is the key of some row. */
  lemma {:induction false} GroupKeysOccur(rows: seq<CsvRow>, j: nat)
    requires j < |GroupKeys(rows)|
    ensures exists i :: 0 <= i < |rows| && GroupKey(rows[i]) == GroupKeys(rows)[j]
    decreases |rows|
  {
    var front := rows[..|rows| - 1];
    var keys := GroupKeys(front);
    if j < |keys| {
      GroupKeysOccur(front, j);
      var i :| 0 <= i < |front| && GroupKey(front[i]) == keys[j];
      assert rows[i] == front[i];
    } else {
      assert GroupKey(rows[|rows| - 1]) == GroupKeys(rows)[j];
    }
  }

  /** The rows of one group, in input order. */
  function GroupOf(rows: seq<CsvRow>, key: string): (g: seq<CsvRow>)
    ensures |g| <= |rows|
    ensures forall i :: 0 <= i < |g| ==> GroupKey(g[i]) == key
    ensures multiset(g) <= multiset(rows)
    ensures forall i :: 0 <= i < |rows| && GroupKey(rows[i]) == key ==> rows[i] in g
    decreases |rows|
  {
    if |rows| == 0 then []
    else
      var last := rows[|rows| - 1];
      assert rows == rows[..|rows| - 1] + [last];
      GroupOf(rows[..|rows| - 1], key) + (if GroupKey(last) == key then [last] else [])
  }

  /** A non-empty group belongs to a key that some row carries. */
  lemma GroupOfNonEmpty(rows: seq<CsvRow>, key: string)
    requires GroupOf(rows, key) != []
    ensures key in GroupKeys(rows)
  {
    var g := GroupOf(rows, key);
    assert g[0] in multiset(rows);
  }

  /** A key that no row carries has an empty group. */
  lemma GroupOfAbsent(rows: seq<CsvRow>, key: string)
    requires key !in GroupKeys(rows)
    ensures GroupOf(rows, key) == []
  {
    if GroupOf(rows, key) != [] {
      GroupOfNonEmpty(rows, key);
    }
  }

  // ---------------------------------------------------------------- back-filling

  /** A row that has any of the four shared fields filled in. */
  predicate IsBaseRow(row: CsvRow) {
    Field(row, "Financial Status") != "" || Field(row, "Billing Phone") != ""
    || Field(row, "Tags") != "" || Field(row, "Shipping Method") != ""
  }

  /** The value every row of the group gets for a shared column: the column's value in the
      group's first base row, or "NA" when that is empty or the group has no base row. */
  function SharedValue(group: seq<CsvRow>, col: string): (v: string)
    ensures v != ""
    ensures (forall i :: 0 <= i < |group| ==> !IsBaseRow(group[i])) ==> v == "NA"
    ensures v != "NA" ==> exists i :: (0 <= i < |group| && IsBaseRow(group[i])
      && (forall j :: 0 <= j < i ==> !IsBaseRow(group[j])) && v == Field(group[i], col))
    ensures forall i ::
      (0 <= i < |group| && IsBaseRow(group[i]) && (forall j :: 0 <= j < i ==> !IsBaseRow(group[j])))
      ==> v == (if Field(group[i], col) != "" then Field(group[i], col) else "NA")
  {
    match FirstIndex(group, (r: CsvRow) => IsBaseRow(r))
    case None => "NA"
    case Some(i) => if Field(group[i], col) != "" then Field(group[i], col) else "NA"
  }

  /** commonFields: the four shared columns with their group-wide values. */
  function CommonFields(group: seq<CsvRow>): map<string, string> {
    map c | c in SharedColumns :: SharedValue(group, c)
  }

  /** The value of a column in a projected row. */
  function CellValue(row: CsvRow, common: map<string, string>, col: string): string {
    if col in common then common[col] else Field(row, col)
  }

  function RequiredColumnSet(): set<string> {
    set c | c in RequiredColumns
  }

  /** filteredRow: exactly the required columns, the shared ones from the group and the
      others from the row itself ("" when absent or empty). */
  function ProjectRow(row: CsvRow, common: map<string, string>): (r: CsvRow)
    ensures r.Keys == RequiredColumnSet()
    ensures forall c :: c in RequiredColumns && c !in common ==> r[c] == Field(row, c)
    ensures forall c :: c in RequiredColumns && c in common ==> r[c] == common[c]
  {
    map c | c in RequiredColumns :: CellValue(row, common, c)
  }

  /** One group normalised: every row projected with the group's common fields, in order. */
  function NormalizeGroup(group: seq<CsvRow>): (r: seq<CsvRow>)
    ensures |r| == |group|
  {
    var common := CommonFields(group);
    seq(|group|, i requires 0 <= i < |group| => ProjectRow(group[i], common))
  }

  /** Row i of a normalised group has exactly the nine required columns; each shared column
      holds the group's shared value and every other column the row's own cell. */
  lemma NormalizeGroupRow(group: seq<CsvRow>, i: nat)
    requires i < |group|
    ensures NormalizeGroup(group)[i].Keys == RequiredColumnSet()
    ensures forall c :: c in SharedColumns ==> c in NormalizeGroup(group)[i] && NormalizeGroup(group)[i][c] == SharedValue(group, c)
    ensures forall c :: c in RequiredColumns && c !in SharedColumns ==>
      c in NormalizeGroup(group)[i] && NormalizeGroup(group)[i][c] == Field(group[i], c)
  {
    var common := CommonFields(group);
    assert NormalizeGroup(group)[i] == ProjectRow(group[i], common);
    assert forall c :: c in SharedColumns ==> c in RequiredColumns;
  }

  /** The groups of the given keys normalised one after the other. */
  function NormalizeKeys(rows: seq<CsvRow>, keys: seq<string>): seq<CsvRow>
    decreases |keys|
  {
    if |keys| == 0 then []
    else NormalizeKeys(rows, keys[..|keys| - 1]) + NormalizeGroup(GroupOf(rows, keys[|keys| - 1]))
  }

  /** finalData: the groups in first-appearance order, each normalised. */
  function Normalize(rows: seq<CsvRow>): seq<CsvRow> {
    NormalizeKeys(rows, GroupKeys(rows))
  }

  /** Every row the normalisation emits has exactly the nine required columns. */
  lemma {:induction false} NormalizeKeysColumns(rows: seq<CsvRow>, keys: seq<string>, i: nat)
    requires i < |NormalizeKeys(rows, keys)|
    ensures NormalizeKeys(rows, keys)[i].Keys == RequiredColumnSet()
    decreases |keys|
  {
    var front := NormalizeKeys(rows, keys[..|keys| - 1]);
    if i < |front| {
      NormalizeKeysColumns(rows, keys[..|keys| - 1], i);
    } else {
      NormalizeGroupRow(GroupOf(rows, keys[|keys| - 1]), i - |front|);
    }
  }

  lemma NormalizeColumns(rows: seq<CsvRow>, i: nat)
    requires i < |Normalize(rows)|
    ensures Normalize(rows)[i].Keys == RequiredColumnSet()
  {
    NormalizeKeysColumns(rows, GroupKeys(rows), i);
  }

  /** Adding a row whose key is among a duplicate-free key list adds one output row. */
  lemma {:induction false} NormalizeKeysAppendRow(rows: seq<CsvRow>, x: CsvRow, keys: seq<string>)
    requires NoDup(keys)
    ensures |NormalizeKeys(rows + [x], keys)| == |NormalizeKeys(rows, keys)| + (if GroupKey(x) in keys then 1 else 0)
    decreases |keys|
  {
    if |keys| > 0 {
      var front := keys[..|keys| - 1];
      var k := keys[|keys| - 1];
      assert NoDup(front);
      assert k !in front;
      assert GroupKey(x) in keys <==> GroupKey(x) in front || GroupKey(x) == k;
      NormalizeKeysAppendRow(rows, x, front);
      assert (rows + [x])[..|rows + [x]| - 1] == rows;
    }
  }

  /** Adding a key whose group is empty adds no output row. */
  lemma NormalizeKeysAppendEmptyKey(rows: seq<CsvRow>, keys: seq<string>, k: string)
    requires GroupOf(rows, k) == []
    ensures |NormalizeKeys(rows, keys + [k])| == |NormalizeKeys(rows, keys)|
  {
    assert (keys + [k])[..|keys|] == keys;
  }

  /** Normalisation emits exactly one row per input row. */
  lemma {:induction false} NormalizeLength(rows: seq<CsvRow>)
    ensures |Normalize(rows)| == |rows|
    decreases |rows|
  {
    if |rows| > 0 {
      var front := rows[..|rows| - 1];
      var x := rows[|rows| - 1];
      assert rows == front + [x];
      NormalizeLength(front);
      var keys := GroupKeys(front);
      NormalizeKeysAppendRow(front, x, keys);
      if GroupKey(x) !in keys {
        GroupOfAbsent(front, GroupKey(x));
        var ks := keys + [GroupKey(x)];
        assert NoDup(ks);
        NormalizeKeysAppendRow(front, x, ks);
        NormalizeKeysAppendEmptyKey(front, keys, GroupKey(x));
      }
    }
  }

  /** Within a group, every output row carries the same value in each shared column, and that
      value is never empty. */
  lemma SharedFieldsUniform(group: seq<CsvRow>, i: nat, j: nat, c: string)
    requires i < |group| && j < |group| && c in SharedColumns
    ensures c in NormalizeGroup(group)[i] && c in NormalizeGroup(group)[j]
    ensures NormalizeGroup(group)[i][c] == NormalizeGroup(group)[j][c] != ""
  {
    NormalizeGroupRow(group, i);
    NormalizeGroupRow(group, j);
  }

  // ---------------------------------------------------------------- the loops

  /** The dictionary the first loop builds: each key mapped to its rows so far. */
  function GroupMap(rows: seq<CsvRow>): map<string, seq<CsvRow>>
    decreases |rows|
  {
    if |rows| == 0 then map[]
    else
      var m := GroupMap(rows[..|rows| - 1]);
      var x := rows[|rows| - 1];
      var key := GroupKey(x);
      m[key := (if key in m then m[key] else []) + [x]]
  }

  /** The dictionary's keys are exactly the group keys. */
  lemma {:induction false} GroupMapKeys(rows: seq<CsvRow>)
    ensures forall k :: k in GroupMap(rows) <==> k in GroupKeys(rows)
    decreases |rows|
  {
    if |rows| > 0 {
      var front := rows[..|rows| - 1];
      var x := rows[|rows| - 1];
      assert rows == front + [x];
      GroupMapKeys(front);
      GroupKeysSnoc(front, x);
    }
  }

  /** The dictionary holds exactly the group keys, each with its group. */
  lemma {:induction false} GroupMapGroups(rows: seq<CsvRow>)
    ensures forall k :: k in GroupMap(rows) <==> k in GroupKeys(rows)
    ensures forall k :: k in GroupMap(rows) ==> GroupMap(rows)[k] == GroupOf(rows, k)
    decreases |rows|
  {
    GroupMapKeys(rows);
    if |rows| > 0 {
      var front := rows[..|rows| - 1];
      var x := rows[|rows| - 1];
      assert rows == front + [x];
      GroupMapGroups(front);
      forall k | k in GroupMap(rows) ensures GroupMap(rows)[k] == GroupOf(rows, k) {
        GroupOfSnoc(front, x, k);
        if k == GroupKey(x) && k !in GroupMap(front) {
          GroupOfAbsent(front, k);
        }
      }
    }
  }

  lemma GroupKeysSnoc(rows: seq<CsvRow>, x: CsvRow)
    ensures GroupKeys(rows + [x]) == if GroupKey(x) in GroupKeys(rows) then GroupKeys(rows) else GroupKeys(rows) + [GroupKey(x)]
  {
    assert (rows + [x])[..|rows|] == rows;
  }

  lemma GroupOfSnoc(rows: seq<CsvRow>, x: CsvRow, key: string)
    ensures GroupOf(rows + [x], key) == GroupOf(rows, key) + (if GroupKey(x) == key then [x] else [])
  {
    assert (rows + [x])[..|rows|] == rows;
  }

  /** The REQUIRED_COLUMNS loop that builds one output row. */
  method FillRow(row: CsvRow, common: map<string, string>) returns (filtered: CsvRow)
    ensures filtered == ProjectRow(row, common)
  {
    filtered := map[];
    for k := 0 to |RequiredColumns|
      invariant filtered == map c | c in RequiredColumns[..k] :: CellValue(row, common, c)
    {
      var col := RequiredColumns[k];
      ProjectStep(row, common, RequiredColumns[..k], col);
      assert RequiredColumns[..k + 1] == RequiredColumns[..k] + [col];
      if col in common {
        filtered := filtered[col := common[col]];
      } else {
        filtered := filtered[col := Field(row, col)];
      }
    }
    assert RequiredColumns[..|RequiredColumns|] == RequiredColumns;
  }

  /** Projecting onto one more column adds that column's cell. */
  lemma ProjectStep(row: CsvRow, common: map<string, string>, cols: seq<string>, col: string)
    ensures (map c | c in cols + [col] :: CellValue(row, common, c))
         == (map c | c in cols :: CellValue(row, common, c))[col := CellValue(row, common, col)]
  {
  }

  /** The first loop of the upload handler: collects the rows of each order id in a
      dictionary, remembering the order in which the keys were added. */
  method GroupRows(rows: seq<CsvRow>) returns (grouped: map<string, seq<CsvRow>>, keys: seq<string>)
    ensures grouped == GroupMap(rows)
    ensures keys == GroupKeys(rows)
  {
    grouped, keys := map[], [];
    for i := 0 to |rows|
      invariant grouped == GroupMap(rows[..i])
      invariant keys == GroupKeys(rows[..i])
    {
      var key := GroupKey(rows[i]);
      assert rows[..i + 1] == rows[..i] + [rows[i]];
      GroupKeysSnoc(rows[..i], rows[i]);
      GroupMapKeys(rows[..i]);
      assert rows[..i + 1][..i] == rows[..i];
      // a key seen for the first time starts an empty group and is remembered in order
      var group := if key in grouped then grouped[key] else [];
      if key !in grouped {
        keys := keys + [key];
      }
      grouped := grouped[key := group + [rows[i]]];
    }
    assert rows[..|rows|] == rows;
  }

  /** The inner loop of the second step: pushes every row of one group, projected. */
  method PushGroup(finalData: seq<CsvRow>, group: seq<CsvRow>) returns (out: seq<CsvRow>)
    ensures out == finalData + NormalizeGroup(group)
  {
    out := finalData;
    var common := CommonFields(group);
    for m := 0 to |group|
      invariant out == finalData + NormalizeGroup(group)[..m]
    {
      var filtered := FillRow(group[m], common);
      assert NormalizeGroup(group)[..m + 1] == NormalizeGroup(group)[..m] + [filtered];
      out := out + [filtered];
    }
    assert NormalizeGroup(group)[..|group|] == NormalizeGroup(group);
  }

  /** The upload handler's normalisation: group the rows, then walk the groups in key order
      and push each projected row onto finalData. */
  method NormalizeRows(rows: seq<CsvRow>) returns (finalData: seq<CsvRow>)
    ensures finalData == Normalize(rows)
  {
    var grouped, keys := GroupRows(rows);
    finalData := [];
    for j := 0 to |keys|
      invariant finalData == NormalizeKeys(rows, keys[..j])
    {
      GroupMapAt(rows, j);
      NormalizeKeysPrefix(rows, keys, j);
      finalData := PushGroup(finalData, grouped[keys[j]]);
    }
    assert keys[..|keys|] == keys;
  }

  /** The dictionary holds the group of each key of the list. */
  lemma GroupMapAt(rows: seq<CsvRow>, j: nat)
    requires j < |GroupKeys(rows)|
    ensures GroupKeys(rows)[j] in GroupMap(rows)
    ensures GroupMap(rows)[GroupKeys(rows)[j]] == GroupOf(rows, GroupKeys(rows)[j])
  {
    GroupMapGroups(rows);
  }

  /** One more key of the list adds its normalised group at the end. */
  lemma NormalizeKeysPrefix(rows: seq<CsvRow>, keys: seq<string>, j: nat)
    requires j < |keys|
    ensures NormalizeKeys(rows, keys[..j + 1]) == NormalizeKeys(rows, keys[..j]) + NormalizeGroup(GroupOf(rows, keys[j]))
  {
    assert keys[..j + 1][..j] == keys[..j];
  }

  /** A group is exactly the subsequence of the input rows that carry its key, so its rows
      keep their input order. */
  lemma {:induction false} GroupOfInInputOrder(rows: seq<CsvRow>, key: string)
    ensures GroupOf(rows, key) == Filter(rows, (r: CsvRow) => GroupKey(r) == key)
    decreases |rows|
  {
    if |rows| > 0 {
      GroupOfInInputOrder(rows[..|rows| - 1], key);
    }
  }

  /** Normalising a list of keys is normalising each part of the list in turn. */
  lemma {:induction false} NormalizeKeysConcat(rows: seq<CsvRow>, a: seq<string>, b: seq<string>)
    ensures NormalizeKeys(rows, a + b) == NormalizeKeys(rows, a) + NormalizeKeys(rows, b)
    decreases |b|
  {
    if |b| > 0 {
      var front := b[..|b| - 1];
      assert (a + b)[..|a + b| - 1] == a + front;
      NormalizeKeysConcat(rows, a, front);
    } else {
      assert a + b == a;
    }
  }

  /** The output holds each group as one contiguous block: the groups of the earlier keys,
      then this key's group normalised, then the groups of the later keys. */
  lemma GroupsContiguous(rows: seq<CsvRow>, j: nat)
    requires j < |GroupKeys(rows)|
    ensures var keys := GroupKeys(rows);
      Normalize(rows) == NormalizeKeys(rows, keys[..j]) + NormalizeGroup(GroupOf(rows, keys[j]))
                         + NormalizeKeys(rows, keys[j + 1..])
  {
    var keys := GroupKeys(rows);
    assert keys == keys[..j + 1] + keys[j + 1..];
    NormalizeKeysConcat(rows, keys[..j + 1], keys[j + 1..]);
    NormalizeKeysPrefix(rows, keys, j);
  }

  // ---------------------------------------------------------------- classification

  /** Tags mention "COD Confirmed" or the order is paid. */
  predicate IsConfirmedRow(row: CsvRow) {
    Contains(Field(row, "Tags"), "COD Confirmed") || ToLower(Field(row, "Financial Status")) == "paid"
  }

  predicate IsPendingRow(row: CsvRow) {
    !Contains(Field(row, "Tags"), "COD Confirmed") && ToLower(Field(row, "Financial Status")) != "paid"
  }

  function ConfirmedRows(data: seq<CsvRow>): seq<CsvRow> {
    Filter(data, IsConfirmedRow)
  }

  function PendingRows(data: seq<CsvRow>): seq<CsvRow> {
    Filter(data, IsPendingRow)
  }

  /** The confirmed and pending lists split the data: every row lands in exactly one of
      them, so the two counts add up to the number of rows. */
  lemma ClassificationPartition(data: seq<CsvRow>)
    ensures |ConfirmedRows(data)| + |PendingRows(data)| == |data|
    ensures multiset(ConfirmedRows(data)) + multiset(PendingRows(data)) == multiset(data)
    ensures forall i :: 0 <= i < |data| ==> (data[i] in ConfirmedRows(data) || data[i] in PendingRows(data))
  {
    FilterComplement(data, IsConfirmedRow, IsPendingRow);
    FilterSpec(data, IsConfirmedRow);
    FilterSpec(data, IsPendingRow);
  }

  // ---------------------------------------------------------------- fields of a payload

  /** extractSize: "" for an empty SKU; otherwise the SKU's last '-' field in upper case, with
      XXL and 2XL written 2XL and XXXL and 3XL written 3XL. */
  function ExtractSize(sku: string): (r: string)
    ensures '-' !in r
    ensures ToUpper(r) == r
    ensures sku == "" ==> r == ""
    ensures r == "" <==> Last(Split(sku, '-')) == ""
  {
    if sku == "" then ""
    else
      var part := ToUpper(Last(Split(sku, '-')));
      ToUpperKeepsDash(Last(Split(sku, '-')));
      ToUpperIdempotent(Last(Split(sku, '-')));
      if part == "XXL" || part == "2XL" then "2XL"
      else if part == "XXXL" || part == "3XL" then "3XL"
      else part
  }

  /** A size already extracted is extracted to itself. */
  lemma ExtractSizeIdempotent(sku: string)
    ensures ExtractSize(ExtractSize(sku)) == ExtractSize(sku)
  {
    var r := ExtractSize(sku);
    if r != "" {
      SplitNoSeparator(r, '-');
      assert Last(Split(r, '-')) == r;
      var up := ToUpper(r);
      assert ExtractSize(r) == if up == "XXL" || up == "2XL" then "2XL"
                               else if up == "XXXL" || up == "3XL" then "3XL" else up;
      if r == "2XL" || r == "3XL" {
        assert up == r;
      } else {
        var part := ToUpper(Last(Split(sku, '-')));
        assert r == part && part != "XXL" && part != "XXXL";
        ToUpperIdempotent(Last(Split(sku, '-')));
        assert up == r;
      }
    }
  }

  /** A dash-free SKU is its own size field: XXL and 2XL become 2XL, XXXL and 3XL become 3XL,
      and anything else is returned upper-cased. With ExtractSizeOfSuffix this determines
      ExtractSize on every SKU. */
  lemma ExtractSizeOfField(size: string)
    requires '-' !in size
    ensures ToUpper(size) == "XXL" || ToUpper(size) == "2XL" ==> ExtractSize(size) == "2XL"
    ensures ToUpper(size) == "XXXL" || ToUpper(size) == "3XL" ==> ExtractSize(size) == "3XL"
    ensures ToUpper(size) !in ["XXL", "2XL", "XXXL", "3XL"] ==> ExtractSize(size) == ToUpper(size)
  {
    if size != "" {
      SplitNoSeparator(size, '-');
      assert Last(Split(size, '-')) == size;
    }
  }

  /** The last '-' field of the SKU decides the size, whatever precedes it. */
  lemma ExtractSizeOfSuffix(prefix: string, size: string)
    requires '-' !in size && size != ""
    ensures ExtractSize(prefix + "-" + size) == ExtractSize(size)
  {
    SplitNoSeparator(size, '-');
    var parts := Split(prefix, '-');
    JoinSplit(prefix, '-');
    var all := parts + [size];
    assert forall i :: 0 <= i < |all| ==> '-' !in all[i];
    JoinAppend(parts, size);
    SplitJoin(all, '-');
  }

  lemma {:induction false} JoinAppend(parts: seq<string>, s: string)
    requires |parts| >= 1
    ensures Join(parts + [s], '-') == Join(parts, '-') + "-" + s
    decreases |parts|
  {
    if |parts| == 1 {
      assert (parts + [s])[1..] == [s];
    } else {
      assert (parts + [s])[1..] == parts[1..] + [s];
      JoinAppend(parts[1..], s);
    }
  }

  /** Number(sku.split("-")[0]) || 0. */
  function StyleNumber(sku: string): nat {
    NumberOrZero(Split(sku, '-')[0])
  }

  /** formatDate: "" for an empty or unparseable text, else its calendar date as DD-MM-YYYY.
      The text-to-date parse of the Date constructor is the parameter parseDate. */
  function FormatDate(s: string, parseDate: string -> Option<CalendarDate>): (r: string)
    ensures r == "" <==> s == "" || parseDate(s).None?
    ensures r != "" ==> r == FormatDMY(parseDate(s).value)
  {
    if s == "" then ""
    else match parseDate(s)
      case None => ""
      case Some(d) => FormatDMY(d)
  }

  /** Every date the upload writes is read back by the pending-orders page as that date. */
  lemma UploadedDateReadBack(s: string, parseDate: string -> Option<CalendarDate>)
    requires FormatDate(s, parseDate) != ""
    ensures ParseCustomDate(FormatDate(s, parseDate))
         == ValidDate(DateConstructorDay(parseDate(s).value.year, parseDate(s).value.month as int - 1,
                                         parseDate(s).value.day) * MsPerDay)
  {
    var d := parseDate(s).value;
    assert FormatDate(s, parseDate) == FormatDMY(d);
    ParseFormatDMY(d);
  }

  /** The order date sent: the row's "Created at" formatted, or today's date when that gives "". */
  function OrderDate(row: CsvRow, parseDate: string -> Option<CalendarDate>, today: CalendarDate): (r: string)
    ensures r != ""
    ensures FormatDate(Field(row, "Created at"), parseDate) != "" ==> r == FormatDate(Field(row, "Created at"), parseDate)
    ensures FormatDate(Field(row, "Created at"), parseDate) == "" ==> r == FormatDMY(today)
  {
    var d := FormatDate(Field(row, "Created at"), parseDate);
    if d != "" then d else FormatDMY(today)
  }

  /** value || "NA" */
  function OrNA(s: string): string {
    if s != "" then s else "NA"
  }

  /** The payload built for one row, confirmed or pending. */
  function ToPayload(row: CsvRow, parseDate: string -> Option<CalendarDate>, today: CalendarDate): (p: Payload)
    ensures p.orderDate != ""
    ensures '-' !in p.size
  {
    Payload(
      Field(row, "Name"),
      StyleNumber(Field(row, "Lineitem sku")),
      ExtractSize(Field(row, "Lineitem sku")),
      NumberOrZero(Field(row, "Lineitem quantity")),
      OrderDate(row, parseDate, today),
      OrNA(Field(row, "Shipping Method")),
      OrNA(Field(row, "Tags")),
      OrNA(Field(row, "Billing Phone")),
      OrNA(Field(row, "Financial Status")))
  }

  /** A confirmed row is posted only when its id, style number, size, quantity and date are
      all truthy. */
  predicate Postable(p: Payload) {
    p.orderId != "" && p.styleNumber != 0 && p.size != "" && p.quantity != 0 && p.orderDate != ""
  }

  /** A row's payload is posted exactly when the row has an order name, a SKU whose first
      '-' field reads as a non-zero number and whose last '-' field is not empty, and a
      non-zero quantity; the date never stops it, since today's date stands in. */
  lemma PostableIff(row: CsvRow, parseDate: string -> Option<CalendarDate>, today: CalendarDate)
    ensures var sku := Field(row, "Lineitem sku");
      Postable(ToPayload(row, parseDate, today)) <==>
        Field(row, "Name") != "" && NumberOrZero(Split(sku, '-')[0]) != 0 && Last(Split(sku, '-')) != ""
        && NumberOrZero(Field(row, "Lineitem quantity")) != 0
  {
  }

  /** The payload of each row, in order. */
  function Payloads(rows: seq<CsvRow>, parseDate: string -> Option<CalendarDate>, today: CalendarDate): (r: seq<Payload>)
    ensures |r| == |rows|
  {
    if rows == [] then [] else [ToPayload(rows[0], parseDate, today)] + Payloads(rows[1..], parseDate, today)
  }

  /** Each payload is built from the row at the same position. */
  lemma {:induction false} PayloadsAt(rows: seq<CsvRow>, parseDate: string -> Option<CalendarDate>, today: CalendarDate)
    ensures forall i :: 0 <= i < |rows| ==> Payloads(rows, parseDate, today)[i] == ToPayload(rows[i], parseDate, today)
  {
    if rows != [] {
      PayloadsAt(rows[1..], parseDate, today);
    }
  }

  /** The payloads posted for the confirmed rows, in order, skipping the rows not postable. */
  function PostedPayloads(rows: seq<CsvRow>, parseDate: string -> Option<CalendarDate>, today: CalendarDate): seq<Payload> {
    Filter(Payloads(rows, parseDate, today), Postable)
  }

  /** Every confirmed row is posted exactly when none of them is skipped, and no payload
      that is posted lacks a required field. */
  lemma PostedAll(rows: seq<CsvRow>, parseDate: string -> Option<CalendarDate>, today: CalendarDate)
    ensures |PostedPayloads(rows, parseDate, today)| <= |rows|
    ensures forall i :: 0 <= i < |PostedPayloads(rows, parseDate, today)| ==> Postable(PostedPayloads(rows, parseDate, today)[i])
    ensures |PostedPayloads(rows, parseDate, today)| == |rows|
        <==> forall i :: 0 <= i < |rows| ==> Postable(ToPayload(rows[i], parseDate, today))
  {
    var ps := Payloads(rows, parseDate, today);
    PayloadsAt(rows, parseDate, today);
    FilterKeepsAll(ps, Postable);
    FilterSpec(ps, Postable);
    assert forall i :: 0 <= i < |rows| ==> ps[i] == ToPayload(rows[i], parseDate, today);
  }

  /** The body of the pending batch: one payload per pending row, in order. */
  function PendingPayloads(rows: seq<CsvRow>, parseDate: string -> Option<CalendarDate>, today: CalendarDate): seq<Payload> {
    Payloads(rows, parseDate, today)
  }

  /** What the pending batch leaves in the message: nothing when there was no batch, else
      whether the server took it. */
  function PendingMessage(pending: nat, outcome: PendingOutcome): (m: string)
    ensures m == "" <==> pending == 0
  {
    if pending == 0 then ""
    else match outcome
      case PendingAccepted => "Successfully sent " + NatToString(pending) + " pending orders."
      case PendingFailed(msg) => "Failed to process pending orders: " + msg
  }

  /** The message the page shows once everything was sent: the counts, then, after a space,
      the outcome of the pending batch if there was one. */
  function SendReport(confirmed: nat, pending: nat, outcome: PendingOutcome): string {
    Processed(confirmed, pending, PendingMessage(pending, outcome))
  }

  /** The counts line, followed after a space by the pending step's message when it left one. */
  function Processed(confirmed: nat, pending: nat, m: string): string {
    "Processed " + NatToString(confirmed) + " confirmed and " + NatToString(pending) + " pending orders."
    + (if m != "" then " " + m else "")
  }

  /** The progress total: one step per confirmed row and one for the pending batch. */
  function TotalOperations(data: seq<CsvRow>): nat {
    |ConfirmedRows(data)| + (if |PendingRows(data)| > 0 then 1 else 0)
  }

  /** Math.round(completed / total * 100), 0 before any step. */
  function ProgressPercentage(completed: nat, total: nat): nat {
    if total == 0 then 0 else RoundedPercent(completed, total)
  }

  /** The outcome of the pending batch's POST. */
  datatype PendingOutcome = PendingAccepted | PendingFailed(message: string)

  /** The outcome papaparse reports for the chosen file. */
  datatype ParseOutcome = Parsed(rows: seq<CsvRow>, errorCount: nat) | ReadFailed(message: string)

  /** The upload page's state. */
  class UploadPage {
    var data: seq<CsvRow>
    var error: string
    var sending: bool
    var progressTotal: nat
    var progressCompleted: nat
    var progressPercentage: nat

    constructor ()
      ensures data == [] && error == "" && !sending
      ensures progressTotal == 0 && progressCompleted == 0 && progressPercentage == 0
    {
      data := [];
      error := "";
      sending := false;
      progressTotal := 0;
      progressCompleted := 0;
      progressPercentage := 0;
    }

    /** handleFileUpload: nothing happens without a file; otherwise the page is reset, a file
        not named *.csv is refused, a parse with errors or a read failure is reported, and a
        clean parse replaces the data with its normalised rows. */
    method HandleFileUpload(fileName: Option<string>, outcome: ParseOutcome)
      modifies this
      ensures fileName.None? ==> (data == old(data) && error == old(error) && progressTotal == old(progressTotal)
        && progressCompleted == old(progressCompleted) && progressPercentage == old(progressPercentage))
      ensures fileName.Some? ==> progressTotal == 0 && progressCompleted == 0 && progressPercentage == 0
      ensures fileName.Some? && !EndsWith(fileName.value, ".csv") ==> data == [] && error == "Please upload a valid CSV file."
      ensures fileName.Some? && EndsWith(fileName.value, ".csv") ==>
        match outcome
        case ReadFailed(msg) => data == [] && error == "Error reading file: " + msg
        case Parsed(rows, errorCount) =>
          if errorCount > 0 then data == [] && error == "Error parsing CSV file."
          else data == Normalize(rows) && error == ""
      ensures sending == old(sending)
    {
      if fileName.None? {
        return;
      }
      error := "";
      data := [];
      progressTotal, progressCompleted, progressPercentage := 0, 0, 0;
      if !EndsWith(fileName.value, ".csv") {
        error := "Please upload a valid CSV file.";
        return;
      }
      match outcome {
        case ReadFailed(msg) =>
          error := "Error reading file: " + msg;
        case Parsed(rows, errorCount) =>
          if errorCount > 0 {
            error := "Error parsing CSV file.";
          } else {
            data := NormalizeRows(rows);
          }
      }
    }

    /** sendOrdersToBackend: posts every postable confirmed row in order, advancing the
        progress after each post whatever its outcome (a skipped row does not advance it),
        then posts the pending rows as one batch and advances once more. */
    method SendOrders(parseDate: string -> Option<CalendarDate>, today: CalendarDate, pendingOutcome: PendingOutcome)
      returns (posted: seq<Payload>, pendingBatch: seq<Payload>)
      modifies this
      ensures data == old(data) && !sending
      ensures old(data) == [] ==> (posted == [] && pendingBatch == [] && error == "No data to send"
        && progressTotal == old(progressTotal) && progressCompleted == old(progressCompleted)
        && progressPercentage == old(progressPercentage))
      ensures old(data) != [] ==>
        && posted == PostedPayloads(ConfirmedRows(data), parseDate, today)
        && pendingBatch == PendingPayloads(PendingRows(data), parseDate, today)
        && progressTotal == TotalOperations(data)
        && progressCompleted == |posted| + (if |pendingBatch| > 0 then 1 else 0)
        && progressPercentage == ProgressPercentage(progressCompleted, progressTotal)
        && error == SendReport(|ConfirmedRows(data)|, |PendingRows(data)|, pendingOutcome)
    {
      posted, pendingBatch := [], [];
      if data == [] {
        error := "No data to send";
        sending := false;
        return;
      }
      sending := true;
      error := "";
      var confirmed := ConfirmedRows(data);
      var pending := PendingRows(data);
      progressTotal := |confirmed| + (if |pending| > 0 then 1 else 0);
      progressCompleted := 0;
      progressPercentage := 0;

      posted, pendingBatch := SendBatches(confirmed, pending, parseDate, today, pendingOutcome);
      sending := false;
    }

    /** The two sending steps once the page has data: the confirmed rows one by one, then the
        pending rows as one batch, and the message that sums them up. */
    method SendBatches(confirmed: seq<CsvRow>, pending: seq<CsvRow>, parseDate: string -> Option<CalendarDate>,
                       today: CalendarDate, pendingOutcome: PendingOutcome)
      returns (posted: seq<Payload>, pendingBatch: seq<Payload>)
      requires error == "" && progressCompleted == 0 && progressPercentage == 0
      requires progressTotal == |confirmed| + (if |pending| > 0 then 1 else 0)
      modifies this
      ensures data == old(data) && sending == old(sending) && progressTotal == old(progressTotal)
      ensures posted == PostedPayloads(confirmed, parseDate, today)
      ensures pendingBatch == PendingPayloads(pending, parseDate, today)
      ensures progressCompleted == |posted| + (if |pendingBatch| > 0 then 1 else 0)
      ensures progressPercentage == ProgressPercentage(progressCompleted, progressTotal)
      ensures error == SendReport(|confirmed|, |pending|, pendingOutcome)
    {
      posted := PostConfirmed(Payloads(confirmed, parseDate, today));
      pendingBatch := SendPending(pending, parseDate, today, pendingOutcome);
      error := Processed(|confirmed|, |pending|, error);
    }

    /** The pending step: posts the pending rows as one batch when there are any, records
        the batch's message and advances the progress once; nothing happens otherwise. */
    method SendPending(pending: seq<CsvRow>, parseDate: string -> Option<CalendarDate>, today: CalendarDate,
                       pendingOutcome: PendingOutcome)
      returns (pendingBatch: seq<Payload>)
      requires error == "" && (|pending| > 0 ==> progressTotal > 0)
      requires progressPercentage == ProgressPercentage(progressCompleted, progressTotal)
      modifies this
      ensures data == old(data) && sending == old(sending) && progressTotal == old(progressTotal)
      ensures pendingBatch == PendingPayloads(pending, parseDate, today)
      ensures error == PendingMessage(|pending|, pendingOutcome)
      ensures |pendingBatch| == |pending|
      ensures progressCompleted == old(progressCompleted) + (if |pending| > 0 then 1 else 0)
      ensures progressPercentage == ProgressPercentage(progressCompleted, progressTotal)
    {
      pendingBatch := [];
      if |pending| > 0 {
        pendingBatch := PendingPayloads(pending, parseDate, today);
        match pendingOutcome {
          case PendingAccepted =>
            error := "Successfully sent " + NatToString(|pending|) + " pending orders.";
          case PendingFailed(msg) =>
            error := "Failed to process pending orders: " + msg;
        }
        progressCompleted := progressCompleted + 1;
        progressPercentage := RoundedPercent(progressCompleted, progressTotal);
      }
    }

    /** The loop over the confirmed rows' payloads: skips a payload with a falsy required
        field, and otherwise posts it and advances the progress by one step. */
    method PostConfirmed(payloads: seq<Payload>) returns (posted: seq<Payload>)
      requires progressCompleted == 0 && progressPercentage == 0 && |payloads| <= progressTotal
      modifies this
      ensures data == old(data) && error == old(error) && sending == old(sending) && progressTotal == old(progressTotal)
      ensures posted == Filter(payloads, Postable)
      ensures progressCompleted == |posted| <= |payloads|
      ensures progressPercentage == ProgressPercentage(progressCompleted, progressTotal)
    {
      posted := [];
      for k := 0 to |payloads|
        invariant data == old(data) && error == old(error) && sending == old(sending) && progressTotal == old(progressTotal)
        invariant posted == Filter(payloads[..k], Postable)
        invariant progressCompleted == |posted| <= k
        invariant progressPercentage == ProgressPercentage(progressCompleted, progressTotal)
      {
        assert payloads[..k + 1][..k] == payloads[..k];
        var p := payloads[k];
        if !Postable(p) {
          continue;
        }
        posted := posted + [p];
        progressCompleted := progressCompleted + 1;
        progressPercentage := RoundedPercent(progressCompleted, progressTotal);
      }
      assert payloads[..|payloads|] == payloads;
    }
  }

  /** The progress reaches its total exactly when no confirmed row was skipped. */
  lemma ProgressCompletes(data: seq<CsvRow>, parseDate: string -> Option<CalendarDate>, today: CalendarDate)
    ensures |PostedPayloads(ConfirmedRows(data), parseDate, today)| + (if |PendingRows(data)| > 0 then 1 else 0)
            == TotalOperations(data)
        <==> forall i :: 0 <= i < |ConfirmedRows(data)| ==> Postable(ToPayload(ConfirmedRows(data)[i], parseDate, today))
  {
    PostedAll(ConfirmedRows(data), parseDate, today);
  }

  /** The progress never passes its total, so the bar never passes 100 percent. */
  lemma ProgressWithinTotal(data: seq<CsvRow>, parseDate: string -> Option<CalendarDate>, today: CalendarDate)
    ensures var done := |PostedPayloads(ConfirmedRows(data), parseDate, today)| + (if |PendingRows(data)| > 0 then 1 else 0);
      done <= TotalOperations(data) && ProgressPercentage(done, TotalOperations(data)) <= 100
  {
    PostedAll(ConfirmedRows(data), parseDate, today);
    var done := |PostedPayloads(ConfirmedRows(data), parseDate, today)| + (if |PendingRows(data)| > 0 then 1 else 0);
    if TotalOperations(data) > 0 {
      RoundedPercentAtMost100(done, TotalOperations(data));
    }
  }
}
