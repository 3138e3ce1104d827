/** The read-only helpers of the submit page: the case number a new record
    gets (`generate_case_number`), the list of values a valid form turns
    into, and the same-day duplicate test (`is_duplicate_submission`). */
module Submissions {
  import opened Wrappers
  import opened Text
  import opened DateTimes
  import opened Records
  import opened DefectForm

  /** `s[:n]` */
  function Prefix(s: string, n: nat): (p: string)
    ensures |p| <= n && p <= s
    ensures |s| >= n ==> |p| == n
  {
    if |s| <= n then s else s[..n]
  }

  // ---------------------------------------------------------------------
  // Case numbers
  // ---------------------------------------------------------------------

  /** The row was submitted on `today`: `row["Timestamp"][:10] == today`. */
  predicate StampedOn(r: Row, today: Date)
    requires CacheRow(r) && ValidDate(today)
  {
    Prefix(r[Timestamp].s, 10) == DateText(today)
  }

  /** How many cached rows were submitted on `today`. */
  function TodayCount(rows: seq<Row>, today: Date): (n: nat)
    requires ValidDate(today)
    requires CacheRows(rows)
    ensures n <= |rows|
  {
    if rows == [] then 0
    else TodayCount(rows[..|rows| - 1], today) + (if StampedOn(rows[|rows| - 1], today) then 1 else 0)
  }

  /** The count is the number of positions holding a row stamped today. */
  lemma TodayCountIsCardinality(rows: seq<Row>, today: Date)
    requires ValidDate(today)
    requires CacheRows(rows)
    ensures TodayCount(rows, today) == |StampedPositions(rows, today)|
  {
    var flags := StampedFlags(rows, today);
    TodayCountIsCountTrue(rows, today);
    CountTrueIsCardinality(flags);
    assert StampedPositions(rows, today) == set i | 0 <= i < |flags| && flags[i];
  }

  /** Row by row, whether the row was submitted on `today`. */
  function StampedFlags(rows: seq<Row>, today: Date): (flags: seq<bool>)
    requires ValidDate(today)
    requires CacheRows(rows)
    ensures |flags| == |rows|
    ensures forall i | 0 <= i < |rows| :: flags[i] == StampedOn(rows[i], today)
  {
    seq(|rows|, i requires 0 <= i < |rows| => StampedOn(rows[i], today))
  }

  /** The number of true flags. */
  function CountTrue(flags: seq<bool>): nat {
    if flags == [] then 0
    else CountTrue(flags[..|flags| - 1]) + (if flags[|flags| - 1] then 1 else 0)
  }

  lemma {:induction false} TodayCountIsCountTrue(rows: seq<Row>, today: Date)
    requires ValidDate(today)
    requires CacheRows(rows)
    ensures TodayCount(rows, today) == CountTrue(StampedFlags(rows, today))
  {
    if rows != [] {
      var n := |rows|;
      var flags := StampedFlags(rows, today);
      TodayCountIsCountTrue(rows[..n - 1], today);
      assert flags[..n - 1] == StampedFlags(rows[..n - 1], today);
    }
  }

  lemma {:induction false} CountTrueIsCardinality(flags: seq<bool>)
    ensures CountTrue(flags) == |set i | 0 <= i < |flags| && flags[i]|
  {
    var n := |flags|;
    if n > 0 {
      var front := flags[..n - 1];
      CountTrueIsCardinality(front);
      var a := set i | 0 <= i < |front| && front[i];
      var b := set i | 0 <= i < n && flags[i];
      assert forall i | 0 <= i < n - 1 :: front[i] == flags[i];
      if flags[n - 1] {
        assert n - 1 !in a;
        assert b == a + {n - 1};
      } else {
        assert b == a;
      }
    }
  }

  /** The positions of the rows stamped `today`. */
  ghost function StampedPositions(rows: seq<Row>, today: Date): set<int>
    requires ValidDate(today)
    requires CacheRows(rows)
  {
    set i | 0 <= i < |rows| && StampedOn(rows[i], today)
  }

  /** Appending a row adds one to the count exactly when it is stamped today. */
  lemma TodayCountAppend(rows: seq<Row>, r: Row, today: Date)
    requires ValidDate(today) && CacheRow(r)
    requires CacheRows(rows)
    ensures TodayCount(rows + [r], today) == TodayCount(rows, today) + (if StampedOn(r, today) then 1 else 0)
  {
    assert (rows + [r])[..|rows|] == rows;
  }

  /** `f"{today[:2]}{today[3:5]}{today[6:10]}-{count + 1:02d}"` */
  function CaseNumberFor(today: Date, count: nat): string
    requires ValidDate(today)
  {
    var t := DateText(today);
    t[..2] + t[3..5] + t[6..10] + "-" + Pad2(count + 1)
  }

  /** `generate_case_number()` */
  function GenerateCaseNumber(rows: seq<Row>, today: Date): string
    requires ValidDate(today)
    requires CacheRows(rows)
  {
    CaseNumberFor(today, TodayCount(rows, today))
  }

  /** A case number is DDMMYYYY, a dash, and the day's sequence number
      zero-padded to at least two digits. */
  lemma CaseNumberLayout(today: Date, count: nat)
    requires ValidDate(today)
    ensures var cn := CaseNumberFor(today, count);
      && |cn| >= 11
      && cn[0..2] == Pad2(today.day) && cn[2..4] == Pad2(today.month) && cn[4..8] == Year4(today.year)
      && cn[8] == '-'
      && AllDigits(cn[9..]) && ParseDigits(cn[9..]) == count + 1
      && (count < 99 ==> |cn| == 11)
  {
    var t := DateText(today);
    DateTextFields(today);
    var dd, mm, yyyy, n := t[..2], t[3..5], t[6..10], Pad2(count + 1);
    var cn := CaseNumberFor(today, count);
    assert cn == dd + mm + yyyy + "-" + n;
    assert |dd| == 2 && |mm| == 2 && |yyyy| == 4;
    assert cn[0..2] == dd && cn[2..4] == mm && cn[4..8] == yyyy && cn[9..] == n;
  }

  /** Different days, or different counts on one day, give different case
      numbers. */
  lemma CaseNumberInjective(d1: Date, c1: nat, d2: Date, c2: nat)
    requires ValidDate(d1) && ValidDate(d2)
    requires CaseNumberFor(d1, c1) == CaseNumberFor(d2, c2)
    ensures d1 == d2 && c1 == c2
  {
    CaseNumberLayout(d1, c1);
    CaseNumberLayout(d2, c2);
    var cn := CaseNumberFor(d1, c1);
    assert ParseDigits(cn[0..2]) == d1.day == d2.day;
    assert ParseDigits(cn[2..4]) == d1.month == d2.month;
    assert ParseDigits(cn[4..8]) == d1.year == d2.year;
  }

  // ---------------------------------------------------------------------
  // The values a valid form turns into
  // ---------------------------------------------------------------------

  /** `data_to_append` before the case number goes in front: the product
      (the new name for "Add New Product"), DO number, quantity, total cost,
      type, descriptions, submitter and the submission time `stamp`.  The total is
      text `f"{total_price:.2f}"` for a new product and a float otherwise. */
  function Candidate(f: Form, stamp: string): (c: seq<Cell>)
    ensures |c| == 9 && c[8] == Str(stamp)
  {
    var total := f.quantity * f.costCents;
    var newProduct := f.option == AddNewProduct;
    [ Str(if newProduct then f.newCategory else f.option)
    , Str(f.doNumber)
    , Int(f.quantity)
    , if newProduct then Str(FormatCents(total)) else Float(total)
    , Str(f.defectType)
    , Str(f.description)
    , Str(f.action)
    , Str(f.submitter)
    , Str(stamp) ]
  }

  /** The cache row `submit_defect` builds: `dict(zip(keys, data))` over
      the ten keys "Case Number", "Product", "DO Number", "Quantity",
      "Cost", "Type", "Description", "Action", "Submitter", "Timestamp",
      with the case number in front of the nine values. */
  function SubmittedRow(caseNumber: string, data: seq<Cell>): (r: Row)
    requires |data| == 9 && data[8].Str?
    ensures CacheRow(r) && r[CaseNumber] == Str(caseNumber) && r[Timestamp] == data[8]
    ensures r[Product] == data[0] && r[DoNumber] == data[1] && r[Quantity] == data[2]
    ensures r[Cost] == data[3] && r[DefectType] == data[4] && r[Description] == data[5]
    ensures r[Action] == data[6] && r[Submitter] == data[7]
    ensures Account !in r && Customer !in r && Status !in r
    ensures Comments !in r && ClosedBy !in r && DateClosed !in r
  {
    map[CaseNumber := Str(caseNumber), Product := data[0], DoNumber := data[1],
        Quantity := data[2], Cost := data[3], DefectType := data[4],
        Description := data[5], Action := data[6], Submitter := data[7],
        Timestamp := data[8]]
  }

  /** The next count's case number keeps the date part and adds one to the
      sequence number. */
  lemma CaseNumberSuccessor(today: Date, n: nat)
    requires ValidDate(today)
    ensures CaseNumberFor(today, n)[..9] == CaseNumberFor(today, n + 1)[..9]
    ensures ParseDigits(CaseNumberFor(today, n + 1)[9..]) == ParseDigits(CaseNumberFor(today, n)[9..]) + 1
  {
    var t := DateText(today);
    var a, b := CaseNumberFor(today, n), CaseNumberFor(today, n + 1);
    var head := t[..2] + t[3..5] + t[6..10] + "-";
    assert a == head + Pad2(n + 1) && b == head + Pad2(n + 2);
    assert |head| == 9;
    assert a[..9] == head && b[..9] == head;
    assert a[9..] == Pad2(n + 1) && b[9..] == Pad2(n + 2);
  }

  /** Two submissions on one day get consecutive sequence numbers: the row
      the first appends is stamped today, so the second counts it. */
  lemma ConsecutiveCaseNumbers(rows: seq<Row>, data: seq<Cell>, today: Date)
    requires ValidDate(today) && CacheRows(rows)
    requires |data| == 9 && data[8].Str? && Prefix(data[8].s, 10) == DateText(today)
    ensures var next := rows + [SubmittedRow(GenerateCaseNumber(rows, today), data)];
      && CacheRows(next)
      && GenerateCaseNumber(next, today) == CaseNumberFor(today, TodayCount(rows, today) + 1)
  {
    var r := SubmittedRow(GenerateCaseNumber(rows, today), data);
    var next := rows + [r];
    assert forall i | 0 <= i < |rows| :: next[i] == rows[i];
    assert next[|rows|] == r;
    TodayCountAppend(rows, r, today);
  }

  // ---------------------------------------------------------------------
  // Duplicates
  // ---------------------------------------------------------------------

  /** The test `is_duplicate_submission` applies to one cached row whose
      timestamp parsed: the row's date is today, the eight business fields
      are `==` to the candidate's first eight values, and the candidate's own
      timestamp starts with the same date. */
  predicate DuplicateOf(r: Row, cand: seq<Cell>, today: Date)
    requires CacheRow(r) && RowDateTime(r).Some?
    requires |cand| == 9 && cand[8].Str? && ValidDate(today)
  {
    var rowDate := DateText(RowDateTime(r).value.date);
    && rowDate == DateText(today)
    && PyEq(r[Product], cand[0]) && PyEq(r[DoNumber], cand[1])
    && PyEq(r[Quantity], cand[2]) && PyEq(r[Cost], cand[3])
    && PyEq(r[DefectType], cand[4]) && PyEq(r[Description], cand[5])
    && PyEq(r[Action], cand[6]) && PyEq(r[Submitter], cand[7])
    && rowDate == Prefix(cand[8].s, 10)
  }

  /** What the scan makes of one row. */
  datatype Verdict = BadTimestamp | Duplicate | NotDuplicate

  function VerdictOf(r: Row, cand: seq<Cell>, today: Date): Verdict
    requires CacheRow(r)
    requires |cand| == 9 && cand[8].Str? && ValidDate(today)
  {
    if RowDateTime(r).None? then BadTimestamp
    else if DuplicateOf(r, cand, today) then Duplicate
    else NotDuplicate
  }

  /** `is_duplicate_submission`: scans the cache in order, parsing each
      timestamp first; `None` is the `ValueError` of a timestamp that does
      not parse, reached before any duplicate. */
  function DuplicateScan(rows: seq<Row>, cand: seq<Cell>, today: Date): Option<bool>
    requires CacheRows(rows)
    requires |cand| == 9 && cand[8].Str? && ValidDate(today)
  {
    if rows == [] then Some(false)
    else match VerdictOf(rows[0], cand, today)
      case BadTimestamp => None
      case Duplicate => Some(true)
      case NotDuplicate => DuplicateScan(rows[1..], cand, today)
  }

  /** The scan over the rows' verdicts: the first row that is not a plain
      non-duplicate decides. */
  function ScanVerdicts(vs: seq<Verdict>): Option<bool> {
    if vs == [] then Some(false)
    else if vs[0] == BadTimestamp then None
    else if vs[0] == Duplicate then Some(true)
    else ScanVerdicts(vs[1..])
  }

  /** The verdicts of the cached rows, in order. */
  function Verdicts(rows: seq<Row>, cand: seq<Cell>, today: Date): (vs: seq<Verdict>)
    requires CacheRows(rows)
    requires |cand| == 9 && cand[8].Str? && ValidDate(today)
    ensures |vs| == |rows|
    ensures forall i | 0 <= i < |rows| :: vs[i] == VerdictOf(rows[i], cand, today)
  {
    seq(|rows|, i requires 0 <= i < |rows| => VerdictOf(rows[i], cand, today))
  }

  /** Row by row, the duplicate scan is the scan of the verdicts. */
  lemma {:induction false} DuplicateScanIsVerdictScan(rows: seq<Row>, cand: seq<Cell>, today: Date)
    requires CacheRows(rows)
    requires |cand| == 9 && cand[8].Str? && ValidDate(today)
    ensures DuplicateScan(rows, cand, today) == ScanVerdicts(Verdicts(rows, cand, today))
  {
    if rows != [] {
      var vs, tl := Verdicts(rows, cand, today), rows[1..];
      DuplicateScanIsVerdictScan(tl, cand, today);
      assert vs[1..] == Verdicts(tl, cand, today);
    }
  }

  /** Every verdict before position `i` is a plain non-duplicate. */
  predicate ClearBefore(vs: seq<Verdict>, i: int)
    requires i <= |vs|
  {
    forall j | 0 <= j < i :: vs[j] == NotDuplicate
  }

  /** The scan stops at position `i` with verdict `v`. */
  predicate DecidedAt(vs: seq<Verdict>, i: int, v: Verdict) {
    0 <= i < |vs| && vs[i] == v && ClearBefore(vs, i)
  }

  lemma DecidedAtShift(vs: seq<Verdict>, i: int, v: Verdict)
    requires |vs| > 0 && vs[0] == NotDuplicate && v != NotDuplicate
    ensures DecidedAt(vs, i + 1, v) <==> DecidedAt(vs[1..], i, v)
  {
    if 0 <= i < |vs| - 1 {
      assert forall j | 0 <= j < i :: vs[1..][j] == vs[j + 1];
      if DecidedAt(vs[1..], i, v) {
        forall j | 0 <= j < i + 1 ensures vs[j] == NotDuplicate {
          if j > 0 { assert vs[j] == vs[1..][j - 1]; }
        }
      }
    }
  }

  /** The scan stops with verdict `v` (a duplicate, or a timestamp that does
      not parse) exactly when `v` is the first verdict that is not a plain
      non-duplicate. */
  lemma {:induction false} ScanStopsAtFirstDecision(vs: seq<Verdict>, v: Verdict)
    requires v != NotDuplicate
    ensures ScanVerdicts(vs) == (if v == Duplicate then Some(true) else None)
        <==> exists i :: DecidedAt(vs, i, v)
  {
    if vs != [] {
      if vs[0] == NotDuplicate {
        ScanStopsAtFirstDecision(vs[1..], v);
        if exists i :: DecidedAt(vs, i, v) {
          var i :| DecidedAt(vs, i, v);
          DecidedAtShift(vs, i - 1, v);
        }
        if exists i :: DecidedAt(vs[1..], i, v) {
          var i :| DecidedAt(vs[1..], i, v);
          DecidedAtShift(vs, i, v);
        }
      } else {
        assert DecidedAt(vs, 0, vs[0]);
        if vs[0] != v {
          forall i ensures !DecidedAt(vs, i, v) {
            if 0 < i < |vs| { assert vs[0] != NotDuplicate; }
          }
        }
      }
    }
  }

  /** The scan answers "no duplicate" exactly when every verdict is a plain
      non-duplicate; in particular on an empty cache. */
  lemma {:induction false} ScanFindsNothing(vs: seq<Verdict>)
    ensures ScanVerdicts(vs) == Some(false) <==> ClearBefore(vs, |vs|)
  {
    if vs != [] {
      ScanFindsNothing(vs[1..]);
      assert ClearBefore(vs, |vs|) <==> vs[0] == NotDuplicate && ClearBefore(vs[1..], |vs| - 1) by {
        assert forall j | 1 <= j < |vs| :: vs[j] == vs[1..][j - 1];
      }
    }
  }

  /** A row stamped at `t` is a duplicate of a candidate exactly when `t` is
      on `today`, the candidate is stamped today and the eight business
      values are `==` one by one. */
  lemma DuplicateOfStamped(r: Row, t: DateTime, cand: seq<Cell>, today: Date)
    requires CacheRow(r) && RowDateTime(r) == Some(t)
    requires |cand| == 9 && cand[8].Str? && ValidDate(today)
    ensures DuplicateOf(r, cand, today) <==>
      && t.date == today
      && Prefix(cand[8].s, 10) == DateText(today)
      && PyEq(r[Product], cand[0]) && PyEq(r[DoNumber], cand[1])
      && PyEq(r[Quantity], cand[2]) && PyEq(r[Cost], cand[3])
      && PyEq(r[DefectType], cand[4]) && PyEq(r[Description], cand[5])
      && PyEq(r[Action], cand[6]) && PyEq(r[Submitter], cand[7])
  {
    if DateText(t.date) == DateText(today) {
      DateTextInjective(t.date, today);
    }
  }

  lemma CacheRowsAppend(rows: seq<Row>, r: Row)
    requires CacheRows(rows) && CacheRow(r)
    ensures CacheRows(rows + [r])
  {
    var next := rows + [r];
    assert forall i | 0 <= i < |rows| :: next[i] == rows[i];
    assert next[|rows|] == r;
  }

  /** The scan over a cache with one more row: the new row is reached
      only when the old cache gives "no duplicate". */
  lemma {:induction false} ScanAppend(rows: seq<Row>, r: Row, cand: seq<Cell>, today: Date)
    requires CacheRows(rows) && CacheRow(r)
    requires |cand| == 9 && cand[8].Str? && ValidDate(today)
    ensures CacheRows(rows + [r])
    ensures DuplicateScan(rows + [r], cand, today) ==
      if DuplicateScan(rows, cand, today) == Some(false) then DuplicateScan([r], cand, today)
      else DuplicateScan(rows, cand, today)
  {
    CacheRowsAppend(rows, r);
    if rows != [] {
      var next := rows + [r];
      assert next[1..] == rows[1..] + [r];
      assert next[0] == rows[0];
      CacheRowsAppend(rows[1..], r);
      ScanAppend(rows[1..], r, cand, today);
    }
  }

  /** Appending a row that parses and is no duplicate leaves the scan's
      answer as it was; appending a duplicate turns "no duplicate" into
      "duplicate". */
  lemma ScanAppendDecided(rows: seq<Row>, r: Row, cand: seq<Cell>, today: Date)
    requires CacheRows(rows) && CacheRow(r) && RowDateTime(r).Some?
    requires |cand| == 9 && cand[8].Str? && ValidDate(today)
    ensures CacheRows(rows + [r])
    ensures !DuplicateOf(r, cand, today) ==> DuplicateScan(rows + [r], cand, today) == DuplicateScan(rows, cand, today)
    ensures DuplicateOf(r, cand, today) && DuplicateScan(rows, cand, today) == Some(false) ==>
      DuplicateScan(rows + [r], cand, today) == Some(true)
  {
    ScanAppend(rows, r, cand, today);
    assert [r][1..] == [];
  }

  /** Two candidates with the same eight business values and the same date
      in their stamps get the same answer from the scan. */
  lemma {:induction false} ScanSameDay(rows: seq<Row>, c1: seq<Cell>, c2: seq<Cell>, today: Date)
    requires CacheRows(rows) && ValidDate(today)
    requires |c1| == 9 && c1[8].Str? && |c2| == 9 && c2[8].Str?
    requires c1[..8] == c2[..8] && Prefix(c1[8].s, 10) == Prefix(c2[8].s, 10)
    ensures DuplicateScan(rows, c1, today) == DuplicateScan(rows, c2, today)
  {
    if rows != [] {
      forall j | 0 <= j < 8 ensures c1[j] == c2[j] {
        assert c1[j] == c1[..8][j];
      }
      assert VerdictOf(rows[0], c1, today) == VerdictOf(rows[0], c2, today);
      ScanSameDay(rows[1..], c1, c2, today);
    }
  }

  /** Submitting the same form twice on one day through an existing
      product: the record the first press appends is a duplicate of the
      second candidate, so when the first press got past the scan, the
      second press's scan answers "duplicate". */
  lemma SameExistingProductFlagged(rows: seq<Row>, f: Form, cn: string, first: string, second: string)
    requires CacheRows(rows)
    requires f.option != AddNewProduct
    requires ParseDateTime(first).Some? && ParseDateTime(second).Some?
    requires ParseDateTime(first).value.date == ParseDateTime(second).value.date
    requires DuplicateScan(rows, Candidate(f, first), ParseDateTime(first).value.date) == Some(false)
    ensures var r := SubmittedRow(cn, Candidate(f, first));
      && DuplicateOf(r, Candidate(f, second), ParseDateTime(second).value.date)
      && CacheRows(rows + [r])
      && DuplicateScan(rows + [r], Candidate(f, second), ParseDateTime(second).value.date) == Some(true)
  {
    var c1, c2 := Candidate(f, first), Candidate(f, second);
    var r := SubmittedRow(cn, c1);
    var today := ParseDateTime(second).value.date;
    DuplicateOfStamped(r, ParseDateTime(first).value, c2, today);
    ParsedDatePrefix(first);
    ParsedDatePrefix(second);
    assert c1[..8] == c2[..8];
    forall j | 0 <= j < 8 ensures c1[j] == c2[j] {
      assert c1[j] == c1[..8][j];
    }
    ScanSameDay(rows, c1, c2, today);
    ScanAppendDecided(rows, r, c2, today);
  }

  /** A record submitted with a new product name stores its total as text,
      while the same form resubmitted once that name is in the catalogue
      carries a float: the two are never `==`, so the new record never
      makes the resubmission's scan answer "duplicate" where it did not
      before, whenever it is made. */
  lemma NewProductResubmissionNotFlagged(rows: seq<Row>, f: Form, cn: string, first: string, second: string,
                                         today: Date)
    requires CacheRows(rows)
    requires f.option == AddNewProduct && f.newCategory != AddNewProduct
    requires ParseDateTime(first).Some? && ValidDate(today)
    ensures var r := SubmittedRow(cn, Candidate(f, first));
      var c2 := Candidate(f.(option := f.newCategory), second);
      && !DuplicateOf(r, c2, today)
      && CacheRows(rows + [r])
      && DuplicateScan(rows + [r], c2, today) == DuplicateScan(rows, c2, today)
  {
    var c2 := Candidate(f.(option := f.newCategory), second);
    var r := SubmittedRow(cn, Candidate(f, first));
    NewProductRecordDiffers(f, cn, first, second, today);
    ScanAppendDecided(rows, r, c2, today);
  }

  /** The text total of the new-product record is never `==` the float
      total of the resubmission. */
  lemma NewProductRecordDiffers(f: Form, cn: string, first: string, second: string, today: Date)
    requires f.option == AddNewProduct && f.newCategory != AddNewProduct
    requires ParseDateTime(first).Some? && ValidDate(today)
    ensures !DuplicateOf(SubmittedRow(cn, Candidate(f, first)), Candidate(f.(option := f.newCategory), second), today)
  {
    var c1, c2 := Candidate(f, first), Candidate(f.(option := f.newCategory), second);
    var r := SubmittedRow(cn, c1);
    DuplicateOfStamped(r, ParseDateTime(first).value, c2, today);
    assert c1[3].Str? && c2[3].Float?;
  }
}
