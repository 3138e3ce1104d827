/** The rows of the defect worksheet as the pages hold them: dictionaries
    keyed by the worksheet's header, whose values are Python strings,
    integers or floats. */
module Records {
  import opened Wrappers
  import opened Text
  import opened DateTimes

  /** The header of the defect worksheet, left to right: "Case Number",
      "Customer", "Product", "DO Number", "Quantity", "Cost", "Type",
      "Description", "Action", "Submitter", "Timestamp", "Status",
      "Comments", "Closed By", "Date Closed", "Account". */
  datatype Column =
    | CaseNumber | Customer | Product | DoNumber | Quantity | Cost | DefectType
    | Description | Action | Submitter | Timestamp | Status | Comments
    | ClosedBy | DateClosed | Account

  /** A dictionary value: a `str`, an `int`, or a `float` (held as a whole
      number of cents). */
  datatype Cell = Str(s: string) | Int(n: int) | Float(cents: int)

  /** One record: a Python dict from header names to values.  A key may be
      missing (Python then raises `KeyError`). */
  type Row = map<Column, Cell>

  /** Python's `==` between two values: numbers compare by value across
      `int` and `float`, and a `str` never equals a number. */
  predicate PyEq(a: Cell, b: Cell) {
    match (a, b)
    case (Str(x), Str(y)) => x == y
    case (Int(x), Int(y)) => x == y
    case (Float(x), Float(y)) => x == y
    case (Int(x), Float(y)) => 100 * x == y
    case (Float(x), Int(y)) => x == 100 * y
    case _ => false
  }

  /** `==` is an equivalence, and against a string it is plain equality. */
  lemma PyEqIsEquivalence(a: Cell, b: Cell, c: Cell, t: string)
    ensures PyEq(a, a)
    ensures PyEq(a, b) ==> PyEq(b, a)
    ensures PyEq(a, b) && PyEq(b, c) ==> PyEq(a, c)
    ensures PyEq(a, Str(t)) <==> a == Str(t)
  {
  }

  /** `float(value)` in cents; `None` where Python raises `ValueError`
      (and for text whose value is no whole number of cents). */
  function CentsOf(c: Cell): Option<int> {
    match c
    case Int(n) => Some(100 * n)
    case Float(x) => Some(x)
    case Str(s) => FloatCents(s)
  }

  /** `int(value)`: a float is truncated toward zero, a string must be
      a signed integer; `None` where Python raises `ValueError`. */
  function IntOf(c: Cell): Option<int> {
    match c
    case Int(n) => Some(n)
    case Float(x) => Some(if x >= 0 then x / 100 else -((-x) / 100))
    case Str(s) => ParseInt(s)
  }

  /** What the sheet hands back as text reads as the value that was
      written: integer text under `int()` and `float()`, the forms' money
      text under `float()`, with or without white space around it. */
  lemma ReadBackCells(n: int, cents: int, w1: string, w2: string)
    requires Blank(w1) && Blank(w2)
    ensures IntOf(Str(w1 + IntegerText(n) + w2)) == Some(n)
    ensures CentsOf(Str(w1 + IntegerText(n) + w2)) == Some(100 * n)
    ensures CentsOf(Str(w1 + FormatCents(cents) + w2)) == Some(cents)
  {
    ParseIntegerText(n, w1, w2);
    FloatOfIntegerText(n, w1, w2);
    ParseFormatCents(cents);
    FloatOfMoney(FormatCents(cents), w1, w2);
  }

  /** What every row of the session cache carries: the ten submission keys,
      with the timestamp held as text. */
  predicate CacheRow(r: Row) {
    && CaseNumber in r && Product in r && DoNumber in r && Quantity in r && Cost in r
    && DefectType in r && Description in r && Action in r && Submitter in r
    && Timestamp in r && r[Timestamp].Str?
  }

  /** Every row of a list is a cache row. */
  predicate CacheRows(rows: seq<Row>) {
    forall i {:trigger rows[i]} | 0 <= i < |rows| :: CacheRow(rows[i])
  }

  /** What `get_all_records` gives for a worksheet row: every header key. */
  predicate FullRow(r: Row) {
    forall k: Column :: k in r
  }

  /** `datetime.strptime(row["Timestamp"], "%d/%m/%Y %H:%M:%S")` */
  function RowDateTime(r: Row): Option<DateTime>
    requires Timestamp in r && r[Timestamp].Str?
  {
    ParseDateTime(r[Timestamp].s)
  }

  /** `row["Account"] == email`: the row belongs to the signed-in account. */
  predicate Owns(r: Row, email: string)
    requires Account in r
  {
    PyEq(r[Account], Str(email))
  }

  /** The four assignments the close action makes to a row dict. */
  function CloseRow(r: Row, comment: string, closedBy: string, dateClosed: string): (c: Row)
    ensures c.Keys == r.Keys + {Status, Comments, ClosedBy, DateClosed}
    ensures c[Status] == Str("Closed") && c[Comments] == Str(comment)
    ensures c[ClosedBy] == Str(closedBy) && c[DateClosed] == Str(dateClosed)
    ensures forall k | k in r && k !in {Status, Comments, ClosedBy, DateClosed} :: c[k] == r[k]
  {
    r[Status := Str("Closed")][Comments := Str(comment)][ClosedBy := Str(closedBy)][DateClosed := Str(dateClosed)]
  }
}
