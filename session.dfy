/** The per-session cache both pages share (`st.session_state`): the
    records read from worksheet 1, the product catalogue read from
    worksheet 2, and the worksheets themselves as the app writes them. */
module SessionCache {
  import opened Wrappers
  import opened Text
  import opened DateTimes
  import opened Records
  import opened Submissions

  /** The columns of worksheet 1, left to right. */
  const SheetHeader: seq<Column> :=
    [CaseNumber, Customer, Product, DoNumber, Quantity, Cost, DefectType, Description,
     Action, Submitter, Timestamp, Status, Comments, ClosedBy, DateClosed, Account]

  /** A worksheet row as `get_all_records` would key it. */
  function SheetValues(r: Row): (vs: seq<Cell>)
    requires FullRow(r)
    ensures |vs| == |SheetHeader|
    ensures forall j | 0 <= j < |vs| :: vs[j] == r[SheetHeader[j]]
  {
    seq(|SheetHeader|, j requires 0 <= j < |SheetHeader| => r[SheetHeader[j]])
  }

  /** The value of cell `j` of a worksheet row; cells past its end are
      empty. */
  function CellAt(values: seq<Cell>, j: nat): Cell {
    if j < |values| then values[j] else Str("")
  }

  /** The 0-based position of a column in the header. */
  function ColumnIndex(k: Column): (j: nat)
    ensures j < |SheetHeader| && SheetHeader[j] == k
  {
    match k
    case CaseNumber => 0 case Customer => 1 case Product => 2 case DoNumber => 3
    case Quantity => 4 case Cost => 5 case DefectType => 6 case Description => 7
    case Action => 8 case Submitter => 9 case Timestamp => 10 case Status => 11
    case Comments => 12 case ClosedBy => 13 case DateClosed => 14 case Account => 15
  }

  /** `get_all_records` on one worksheet row: each header key maps to the
      value in its column. */
  function ReadBack(values: seq<Cell>): (r: Row)
    ensures FullRow(r)
    ensures forall j | 0 <= j < |SheetHeader| :: r[SheetHeader[j]] == CellAt(values, j)
  {
    HeaderPositions();
    map k: Column | true :: CellAt(values, ColumnIndex(k))
  }

  /** Each header column sits at its own position. */
  lemma HeaderPositions()
    ensures forall j | 0 <= j < |SheetHeader| :: ColumnIndex(SheetHeader[j]) == j
  {
    forall j | 0 <= j < |SheetHeader| ensures ColumnIndex(SheetHeader[j]) == j {
      var k := SheetHeader[j];
      assert SheetHeader[ColumnIndex(k)] == k;
    }
  }

  /** Reading back the values a full row is written as gives the row. */
  lemma ReadBackSheetValues(r: Row)
    requires FullRow(r)
    ensures ReadBack(SheetValues(r)) == r
  {
    var b := ReadBack(SheetValues(r));
    forall k: Column ensures b[k] == r[k] {
      assert SheetHeader[ColumnIndex(k)] == k;
    }
  }

  /** The ten values `submit_defect` appends fill the first ten columns, so
      read back under the header the product sits under "Customer", each
      later value one column to the left of its own, and "Timestamp",
      "Status" and "Account" are empty: a later session cannot parse the
      record's timestamp and does not list it for any account. */
  lemma ReloadedSubmission(cn: string, data: seq<Cell>)
    requires |data| == 9
    ensures var r := ReadBack([Str(cn)] + data);
      && r[CaseNumber] == Str(cn) && r[Customer] == data[0] && r[Product] == data[1]
      && r[Submitter] == data[8]
      && r[Timestamp] == Str("") && r[Status] == Str("") && r[Account] == Str("")
      && RowDateTime(r) == None
  {
    var r := ReadBack([Str(cn)] + data);
    assert SheetHeader[1] == Customer && SheetHeader[9] == Submitter;
    assert SheetHeader[10] == Timestamp && SheetHeader[11] == Status && SheetHeader[15] == Account;
  }

  /** What every cached row satisfies: a cache row, and a full worksheet row
      whenever it carries an "Account" (rows appended by `submit_defect`
      carry none). */
  predicate SessionRow(r: Row) {
    CacheRow(r) && (Account in r ==> FullRow(r))
  }

  /** `sheet1.update_cell(row, col, value)` on the values of one worksheet
      row: column `col` counts from 1, and a row shorter than `col` is
      padded with empty cells. */
  function UpdateCell(row: seq<Cell>, col: nat, v: Cell): (r: seq<Cell>)
    requires col >= 1
    ensures |r| == if |row| >= col then |row| else col
    ensures r[col - 1] == v
    ensures forall j | 0 <= j < |r| && j != col - 1 :: r[j] == if j < |row| then row[j] else Str("")
  {
    if col <= |row| then row[col - 1 := v]
    else row + seq(col - 1 - |row|, _ => Str("")) + [v]
  }

  /** The four `update_cell` calls of the close action: columns 12 to 15
      get "Closed", the comment, the closer and the closing date. */
  function WriteClosure(row: seq<Cell>, comment: string, closedBy: string, dateClosed: string): seq<Cell> {
    UpdateCell(UpdateCell(UpdateCell(UpdateCell(row, 12, Str("Closed")), 13, Str(comment)),
      14, Str(closedBy)), 15, Str(dateClosed))
  }

  /** After the writes, columns 12 to 15 hold the closure, the first eleven
      columns are untouched and nothing after column 15 changes. */
  lemma WriteClosureCells(row: seq<Cell>, comment: string, closedBy: string, dateClosed: string)
    ensures var w := WriteClosure(row, comment, closedBy, dateClosed);
      && |w| == (if |row| >= 15 then |row| else 15)
      && w[11] == Str("Closed") && w[12] == Str(comment)
      && w[13] == Str(closedBy) && w[14] == Str(dateClosed)
      && (forall j | 0 <= j < 11 :: w[j] == if j < |row| then row[j] else Str(""))
      && (forall j | 15 <= j < |row| :: w[j] == row[j])
  {
    var w1 := UpdateCell(row, 12, Str("Closed"));
    var w2 := UpdateCell(w1, 13, Str(comment));
    var w3 := UpdateCell(w2, 14, Str(closedBy));
    var w := UpdateCell(w3, 15, Str(dateClosed));
    assert w == WriteClosure(row, comment, closedBy, dateClosed);
  }

  /** The row the close action rewrites: one of the signed-in account's rows
      with the selected case number. */
  predicate ClosesRow(r: Row, email: string, caseNo: string) {
    Account in r && Owns(r, email) && CaseNumber in r && r[CaseNumber] == Str(caseNo)
  }

  /** The cache after the close action's loop. */
  function CloseMatching(rows: seq<Row>, email: string, caseNo: string,
                         comment: string, closedBy: string, dateClosed: string): (out: seq<Row>)
    ensures |out| == |rows|
  {
    seq(|rows|, i requires 0 <= i < |rows| =>
      if ClosesRow(rows[i], email, caseNo) then CloseRow(rows[i], comment, closedBy, dateClosed)
      else rows[i])
  }

  /** Closing a row keeps it a session row. */
  lemma CloseRowKeepsSessionRow(r: Row, comment: string, closedBy: string, dateClosed: string)
    requires SessionRow(r)
    ensures SessionRow(CloseRow(r, comment, closedBy, dateClosed))
  {
    var c := CloseRow(r, comment, closedBy, dateClosed);
    assert c[Timestamp] == r[Timestamp];
  }

  predicate SessionRows(rows: seq<Row>) {
    forall i {:trigger rows[i]} | 0 <= i < |rows| :: SessionRow(rows[i])
  }

  lemma SessionRowsAreCacheRows(rows: seq<Row>)
    requires SessionRows(rows)
    ensures CacheRows(rows)
  {
    forall i | 0 <= i < |rows| ensures CacheRow(rows[i]) {
      assert SessionRow(rows[i]);
    }
  }

  /** The loop of the close action over the cached rows. */
  method CloseRows(rows: seq<Row>, email: string, caseNo: string, comment: string,
                   closedBy: string, dateClosed: string) returns (out: seq<Row>)
    requires SessionRows(rows)
    ensures out == CloseMatching(rows, email, caseNo, comment, closedBy, dateClosed)
    ensures SessionRows(out)
  {
    ghost var expected := CloseMatching(rows, email, caseNo, comment, closedBy, dateClosed);
    out := rows;
    var i := 0;
    while i < |out|
      invariant 0 <= i <= |out| == |expected|
      invariant forall j | 0 <= j < i :: out[j] == expected[j]
      invariant forall j | i <= j < |out| :: out[j] == rows[j]
      invariant SessionRows(out)
    {
      if ClosesRow(out[i], email, caseNo) {
        CloseRowKeepsSessionRow(out[i], comment, closedBy, dateClosed);
        out := out[i := CloseRow(out[i], comment, closedBy, dateClosed)];
      }
      i := i + 1;
    }
    assert out == expected;
  }

  class Session {
    /** `st.session_state["sheet1_records"]` */
    var records: seq<Row>
    /** `st.session_state["existing_categories"]` */
    var categories: seq<string>
    /** The rows of worksheet 1 below its header, as values left to right. */
    ghost var sheet: seq<seq<Cell>>
    /** Column 1 of worksheet 2. */
    ghost var catalog: seq<string>

    predicate Valid()
      reads this
    {
      SessionRows(records)
    }

    /** The first page load: the cache is what `get_all_records` and
        `col_values(1)` read. */
    constructor (sheetRows: seq<Row>, catalogColumn: seq<string>)
      requires forall i | 0 <= i < |sheetRows| :: FullRow(sheetRows[i]) && sheetRows[i][Timestamp].Str?
      ensures Valid()
      ensures records == sheetRows && categories == catalogColumn
      ensures sheet == seq(|sheetRows|, i requires 0 <= i < |sheetRows| => SheetValues(sheetRows[i]))
      ensures catalog == catalogColumn
    {
      records := sheetRows;
      categories := catalogColumn;
      sheet := seq(|sheetRows|, i requires 0 <= i < |sheetRows| => SheetValues(sheetRows[i]));
      catalog := catalogColumn;
    }

    /** `submit_defect(data)`: the case number goes in front of the nine
        values, the row is appended to worksheet 1, and then a dict of the
        ten submission keys is appended to the cache. */
    method SubmitDefect(data: seq<Cell>, today: Date) returns (caseNumber: string)
      requires Valid() && ValidDate(today)
      requires |data| == 9 && data[8].Str?
      modifies this
      ensures Valid()
      ensures caseNumber == GenerateCaseNumber(old(records), today)
      ensures sheet == old(sheet) + [[Str(caseNumber)] + data]
      ensures records == old(records) + [SubmittedRow(caseNumber, data)]
      ensures categories == old(categories) && catalog == old(catalog)
    {
      SessionRowsAreCacheRows(records);
      caseNumber := GenerateCaseNumber(records, today);
      var row := [Str(caseNumber)] + data;
      sheet := sheet + [row];
      records := records + [SubmittedRow(caseNumber, data)];
      assert forall i | 0 <= i < |records| - 1 :: records[i] == old(records)[i];
    }

    /** A new product name goes to worksheet 2 and to the cached catalogue. */
    method AddCategory(name: string)
      modifies this
      ensures categories == old(categories) + [name] && catalog == old(catalog) + [name]
      ensures records == old(records) && sheet == old(sheet)
      ensures Valid() == old(Valid())
    {
      catalog := catalog + [name];
      categories := categories + [name];
    }

    /** The close action once its checks pass: every cached row of the
        account with the case number is marked closed, and only then, if
        `sheet1.find` located the case (`found`), is that worksheet row
        written.  Nothing else changes. */
    method CloseCase(email: string, caseNo: string, comment: string, closedBy: string,
                     dateClosed: string, found: Option<nat>)
      requires Valid()
      requires found.Some? ==> found.value < |sheet|
      modifies this
      ensures Valid()
      ensures records == CloseMatching(old(records), email, caseNo, comment, closedBy, dateClosed)
      ensures sheet == if found.Some?
        then old(sheet)[found.value := WriteClosure(old(sheet)[found.value], comment, closedBy, dateClosed)]
        else old(sheet)
      ensures categories == old(categories) && catalog == old(catalog)
    {
      records := CloseRows(records, email, caseNo, comment, closedBy, dateClosed);
      if found.Some? {
        var r := found.value;
        sheet := sheet[r := WriteClosure(sheet[r], comment, closedBy, dateClosed)];
      }
    }
  }
}
