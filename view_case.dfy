/** Tab 2 of the "View Submissions" page: choosing one of the account's
    cases, showing it, and the Open-to-Closed transition. */
module ViewCase {
  import opened Wrappers
  import opened Text
  import opened DateTimes
  import opened Records
  import opened Submissions
  import opened SessionCache
  import opened ViewFilter

  /** The case-number dropdown after "None": the owned rows' case numbers,
      last row first. */
  function CaseChoices(owned: seq<Row>): (choices: seq<Cell>)
    requires PageRows(owned)
    ensures |choices| == |owned|
    ensures forall k | 0 <= k < |owned| :: choices[k] == owned[|owned| - 1 - k][CaseNumber]
  {
    seq(|owned|, k requires 0 <= k < |owned| => owned[|owned| - 1 - k][CaseNumber])
  }

  /** `[row for row in all_records if row["Case Number"] == c][0]` as a
      position: the first owned row with that case number; `None` where
      the list is empty and Python raises `IndexError`. */
  function FindCase(owned: seq<Row>, c: Cell): (found: Option<nat>)
    requires PageRows(owned)
    ensures found.Some? ==> found.value < |owned| && PyEq(owned[found.value][CaseNumber], c)
    ensures found.Some? ==> forall j | 0 <= j < found.value :: !PyEq(owned[j][CaseNumber], c)
    ensures found.None? ==> forall j | 0 <= j < |owned| :: !PyEq(owned[j][CaseNumber], c)
  {
    if owned == [] then None
    else if PyEq(owned[0][CaseNumber], c) then Some(0)
    else
      assert forall j | 0 <= j < |owned| - 1 :: owned[1..][j] == owned[j + 1];
      match FindCase(owned[1..], c)
      case None => None
      case Some(i) => Some(i + 1)
  }

  /** Every case number the dropdown offers is found. */
  lemma ChoicesAreFound(owned: seq<Row>, k: nat)
    requires PageRows(owned) && k < |owned|
    ensures FindCase(owned, CaseChoices(owned)[k]).Some?
  {
    var c := CaseChoices(owned)[k];
    var i := |owned| - 1 - k;
    PyEqIsEquivalence(c, c, c, "");
    assert PyEq(owned[i][CaseNumber], c);
  }

  /** The detail table of the selected case. */
  datatype CaseView = CaseView(
    customer: Cell, partCode: Cell, doNumber: Cell, quantity: Cell, totalCost: string,
    defectType: Cell, description: Cell, action: Cell, submitter: Cell,
    submissionDate: string)

  /** The table, with the cost written to two decimals and the date the
      first ten characters of the timestamp; `None` where `float(cost)`
      raises. */
  function CaseDetails(r: Row): (v: Option<CaseView>)
    requires PageRow(r)
    ensures v.Some? <==> CentsOf(r[Cost]).Some?
    ensures v.Some? ==> ParseCents(v.value.totalCost) == CentsOf(r[Cost])
  {
    match CentsOf(r[Cost])
    case None => None
    case Some(c) =>
      ParseFormatCents(c);
      Some(CaseView(r[Customer], r[Product], r[DoNumber], r[Quantity], FormatCents(c),
                    r[DefectType], r[Description], r[Action], r[Submitter],
                    Prefix(r[Timestamp].s, 10)))
  }

  /** For a row tab 1 lists, tab 2 shows the same submission date. */
  lemma CaseDateMatchesListing(r: Row, f: Filters)
    requires PageRow(r) && Selected(r, f) && EntryFor(r, f).Some?
    ensures CaseDetails(r).Some?
    ensures CaseDetails(r).value.submissionDate == Display(EntryFor(r, f).value).submissionDate
  {
    DisplayedSubmissionDate(r, f);
  }

  /** The close form is shown only for an open case. */
  predicate CloseOffered(r: Row)
    requires PageRow(r)
  {
    PyEq(r[Status], Str("Open"))
  }

  /** The checks of "Mark as Closed", stopping at the first that fails. */
  function CloseCheck(comment: string, closedBy: string, checkbox: bool): Option<string> {
    if !Blank(comment) && !HasAlnumLine(comment) then
      Some("Additional comments cannot have no letters or numbers.")
    else if Blank(closedBy) then Some("Enter name in case closed by.")
    else if !HasAlnumLine(closedBy) then Some("Name cannot have no letters or numbers.")
    else if !checkbox then Some("Check the checkbox first.")
    else None
  }

  /** A close goes ahead exactly when the comment is blank or has a letter
      or digit on its one line, the closer's name has one, and the box is
      ticked. */
  lemma CloseCheckPasses(comment: string, closedBy: string, checkbox: bool)
    ensures CloseCheck(comment, closedBy, checkbox).None? <==>
      (Blank(comment) || HasAlnumLine(comment)) && HasAlnumLine(closedBy) && checkbox
  {
    if HasAlnumLine(closedBy) {
      AlnumLineNotBlank(closedBy);
    }
  }

  /** The comment check wins over the others, and an empty comment always
      passes it (it is then stored empty). */
  lemma CloseCheckOrder(comment: string, closedBy: string, checkbox: bool)
    ensures !Blank(comment) && !HasAlnumLine(comment) ==>
      CloseCheck(comment, closedBy, checkbox) == Some("Additional comments cannot have no letters or numbers.")
    ensures CloseCheck("", closedBy, checkbox).None? <==> HasAlnumLine(closedBy) && checkbox
  {
    CloseCheckPasses("", closedBy, checkbox);
  }

  /** How "Mark as Closed" ends. */
  datatype CloseOutcome =
    | PageError          // the page raised before the form (KeyError, ValueError or IndexError)
    | NotOffered         // the case is not open, so there is no close form
    | Rejected(message: string)
    | Closed(written: bool)   // `written`: `sheet1.find` located the case

  /** One press of "Mark as Closed" for case `caseNo` by the account
      `email` on `today`; `found` is what `sheet1.find` returns. */
  method MarkAsClosed(s: Session, email: string, caseNo: string, comment: string, closedBy: string,
                      checkbox: bool, today: Date, found: Option<nat>) returns (outcome: CloseOutcome)
    requires s.Valid() && ValidDate(today)
    requires found.Some? ==> found.value < |s.sheet|
    modifies s
    ensures s.Valid()
    ensures outcome.Closed? ==>
      && s.records == CloseMatching(old(s.records), email, caseNo, comment, closedBy, DateText(today))
      && s.sheet == (if found.Some?
           then old(s.sheet)[found.value := WriteClosure(old(s.sheet)[found.value], comment, closedBy, DateText(today))]
           else old(s.sheet))
      && outcome.written == found.Some?
    ensures !outcome.Closed? ==> s.records == old(s.records) && s.sheet == old(s.sheet)
    ensures s.categories == old(s.categories) && s.catalog == old(s.catalog)
    ensures outcome == CloseDecision(old(s.records), email, caseNo, comment, closedBy, checkbox, found)
  {
    var owned := OwnedRecords(s.records, email);
    if owned.None? {
      return PageError;
    }
    OwnedArePageRows(s.records, email);
    var years := YearsWithData(owned.value);
    if years.None? {
      return PageError;
    }
    var at := FindCase(owned.value, Str(caseNo));
    if at.None? {
      return PageError;
    }
    var row := owned.value[at.value];
    if CaseDetails(row).None? {
      return PageError;
    }
    if !CloseOffered(row) {
      return NotOffered;
    }
    var error := CloseCheck(comment, closedBy, checkbox);
    if error.Some? {
      return Rejected(error.value);
    }
    s.CloseCase(email, caseNo, comment, closedBy, DateText(today), found);
    return Closed(found.Some?);
  }

  /** The outcome of "Mark as Closed" as a function of the cache before it. */
  function CloseDecision(rows: seq<Row>, email: string, caseNo: string, comment: string,
                         closedBy: string, checkbox: bool, found: Option<nat>): CloseOutcome
    requires forall i | 0 <= i < |rows| :: SessionRow(rows[i])
  {
    match OwnedRecords(rows, email)
    case None => PageError
    case Some(owned) =>
      OwnedArePageRows(rows, email);
      if YearsWithData(owned).None? then PageError
      else match FindCase(owned, Str(caseNo))
        case None => PageError
        case Some(i) =>
          if CaseDetails(owned[i]).None? then PageError
          else if !CloseOffered(owned[i]) then NotOffered
          else match CloseCheck(comment, closedBy, checkbox)
            case Some(e) => Rejected(e)
            case None => Closed(found.Some?)
  }

  /** The owned rows once the case is closed. */
  function ClosedOwned(owned: seq<Row>, caseNo: string, comment: string, closedBy: string,
                       dateClosed: string): (after: seq<Row>)
    ensures |after| == |owned|
  {
    seq(|owned|, i requires 0 <= i < |owned| =>
      if CaseNumber in owned[i] && owned[i][CaseNumber] == Str(caseNo)
      then CloseRow(owned[i], comment, closedBy, dateClosed) else owned[i])
  }

  /** The cache after the close, split at its last row. */
  lemma CloseMatchingLast(rows: seq<Row>, email: string, caseNo: string, comment: string,
                          closedBy: string, dateClosed: string)
    requires rows != []
    ensures var after := CloseMatching(rows, email, caseNo, comment, closedBy, dateClosed);
      && after[..|rows| - 1] == CloseMatching(rows[..|rows| - 1], email, caseNo, comment, closedBy, dateClosed)
      && after[|rows| - 1] == if ClosesRow(rows[|rows| - 1], email, caseNo)
           then CloseRow(rows[|rows| - 1], comment, closedBy, dateClosed) else rows[|rows| - 1]
  {
    var prefix := rows[..|rows| - 1];
    assert forall k | 0 <= k < |prefix| :: prefix[k] == rows[k];
  }

  lemma ClosedOwnedAppend(o: seq<Row>, r: Row, caseNo: string, comment: string,
                          closedBy: string, dateClosed: string)
    ensures ClosedOwned(o + [r], caseNo, comment, closedBy, dateClosed)
         == ClosedOwned(o, caseNo, comment, closedBy, dateClosed)
            + [if CaseNumber in r && r[CaseNumber] == Str(caseNo) then CloseRow(r, comment, closedBy, dateClosed) else r]
  {
    assert forall k | 0 <= k < |o| :: (o + [r])[k] == o[k];
  }

  /** Closing leaves the row's owner as it was. */
  lemma CloseKeepsOwner(r: Row, email: string, caseNo: string, comment: string,
                        closedBy: string, dateClosed: string)
    requires Account in r
    ensures var c := if ClosesRow(r, email, caseNo) then CloseRow(r, comment, closedBy, dateClosed) else r;
      Account in c && c[Account] == r[Account]
  {
  }

  /** The owner scoping of a cache with one more row. */
  lemma OwnedRecordsSnoc(rows: seq<Row>, r: Row, email: string)
    ensures OwnedRecords(rows + [r], email) ==
      match OwnedRecords(rows, email)
      case None => None
      case Some(o) => if Account !in r then None else if Owns(r, email) then Some(o + [r]) else Some(o)
  {
    assert (rows + [r])[..|rows|] == rows;
  }

  /** Closing a case in the cache closes it among the account's rows and
      changes nothing else the page reads. */
  lemma {:induction false} OwnedAfterClose(rows: seq<Row>, email: string, caseNo: string, comment: string,
                                           closedBy: string, dateClosed: string)
    requires OwnedRecords(rows, email).Some?
    ensures OwnedRecords(CloseMatching(rows, email, caseNo, comment, closedBy, dateClosed), email)
         == Some(ClosedOwned(OwnedRecords(rows, email).value, caseNo, comment, closedBy, dateClosed))
  {
    if rows != [] {
      var n := |rows|;
      var prefix, last := rows[..n - 1], rows[n - 1];
      var closedPrefix := CloseMatching(prefix, email, caseNo, comment, closedBy, dateClosed);
      var closedLast := if ClosesRow(last, email, caseNo) then CloseRow(last, comment, closedBy, dateClosed) else last;
      CloseMatchingLast(rows, email, caseNo, comment, closedBy, dateClosed);
      var after := CloseMatching(rows, email, caseNo, comment, closedBy, dateClosed);
      assert after == closedPrefix + [closedLast];
      assert rows == prefix + [last];
      OwnedRecordsSnoc(prefix, last, email);
      OwnedAfterClose(prefix, email, caseNo, comment, closedBy, dateClosed);
      var o := OwnedRecords(prefix, email).value;
      var o2 := ClosedOwned(o, caseNo, comment, closedBy, dateClosed);
      assert OwnedRecords(closedPrefix, email) == Some(o2);
      OwnedRecordsSnoc(closedPrefix, closedLast, email);
      CloseKeepsOwner(last, email, caseNo, comment, closedBy, dateClosed);
      ClosedOwnedAppend(o, last, caseNo, comment, closedBy, dateClosed);
      if Owns(last, email) {
        assert OwnedRecords(after, email) == Some(o2 + [closedLast]);
      } else {
        assert OwnedRecords(after, email) == Some(o2);
      }
    }
  }

  /** Closing keeps every row's timestamp and case number. */
  lemma ClosedOwnedKeeps(o: seq<Row>, caseNo: string, comment: string, closedBy: string,
                         dateClosed: string)
    requires PageRows(o)
    ensures var o2 := ClosedOwned(o, caseNo, comment, closedBy, dateClosed);
      && PageRows(o2)
      && forall i | 0 <= i < |o| :: YearOfRow(o2[i]) == YearOfRow(o[i]) && o2[i][CaseNumber] == o[i][CaseNumber]
  {
    var o2 := ClosedOwned(o, caseNo, comment, closedBy, dateClosed);
    forall i | 0 <= i < |o|
      ensures PageRow(o2[i]) && o2[i][Timestamp] == o[i][Timestamp] && o2[i][CaseNumber] == o[i][CaseNumber]
    {
    }
  }

  /** Rows with the same timestamps give the same year list. */
  lemma YearsFollowStamps(a: seq<Row>, b: seq<Row>)
    requires PageRows(a) && PageRows(b) && |a| == |b|
    requires forall i | 0 <= i < |a| :: YearOfRow(a[i]) == YearOfRow(b[i])
    ensures YearsWithData(a).Some? == YearsWithData(b).Some?
  {
  }

  /** Where one list's lookup finds the case, a list with the same case
      numbers finds it no later. */
  lemma FindCaseNoLater(a: seq<Row>, b: seq<Row>, c: Cell)
    requires PageRows(a) && PageRows(b) && |a| == |b|
    requires forall i | 0 <= i < |a| :: a[i][CaseNumber] == b[i][CaseNumber]
    ensures FindCase(a, c).Some? ==> FindCase(b, c).Some? && FindCase(b, c).value <= FindCase(a, c).value
  {
    var fa := FindCase(a, c);
    if fa.Some? {
      assert b[fa.value][CaseNumber] == a[fa.value][CaseNumber];
    }
  }

  /** The case lookup reads only the case numbers. */
  lemma FindCaseByCaseNumbers(a: seq<Row>, b: seq<Row>, c: Cell)
    requires PageRows(a) && PageRows(b) && |a| == |b|
    requires forall i | 0 <= i < |a| :: a[i][CaseNumber] == b[i][CaseNumber]
    ensures FindCase(a, c) == FindCase(b, c)
  {
    FindCaseNoLater(a, b, c);
    FindCaseNoLater(b, a, c);
  }

  /** Among the account's rows, the closed case is found where it was,
      with the same cost and timestamps, and is no longer open. */
  lemma ClosedOwnedLookup(o: seq<Row>, caseNo: string, comment: string, closedBy: string,
                          dateClosed: string)
    requires PageRows(o) && FindCase(o, Str(caseNo)).Some?
    ensures var o2 := ClosedOwned(o, caseNo, comment, closedBy, dateClosed);
      var k := FindCase(o, Str(caseNo)).value;
      && PageRows(o2)
      && YearsWithData(o2).Some? == YearsWithData(o).Some?
      && FindCase(o2, Str(caseNo)) == Some(k)
      && o2[k][Cost] == o[k][Cost]
      && !CloseOffered(o2[k])
  {
    var o2 := ClosedOwned(o, caseNo, comment, closedBy, dateClosed);
    ClosedOwnedKeeps(o, caseNo, comment, closedBy, dateClosed);
    YearsFollowStamps(o2, o);
    FindCaseByCaseNumbers(o, o2, Str(caseNo));
    var k := FindCase(o, Str(caseNo)).value;
    PyEqIsEquivalence(o[k][CaseNumber], o[k][CaseNumber], o[k][CaseNumber], caseNo);
    assert o2[k] == CloseRow(o[k], comment, closedBy, dateClosed);
  }

  /** Closing keeps every cached row a session row. */
  lemma CloseMatchingKeepsSessionRows(rows: seq<Row>, email: string, caseNo: string, comment: string,
                                      closedBy: string, dateClosed: string)
    requires forall i | 0 <= i < |rows| :: SessionRow(rows[i])
    ensures var after := CloseMatching(rows, email, caseNo, comment, closedBy, dateClosed);
      forall i | 0 <= i < |after| :: SessionRow(after[i])
  {
    var after := CloseMatching(rows, email, caseNo, comment, closedBy, dateClosed);
    forall i | 0 <= i < |after| ensures SessionRow(after[i]) {
      if ClosesRow(rows[i], email, caseNo) {
        CloseRowKeepsSessionRow(rows[i], comment, closedBy, dateClosed);
      }
    }
  }

  /** Once "Mark as Closed" has closed a case, pressing it again on the
      same case, with any form input, finds the case closed and offers no
      close form. */
  lemma ClosedCaseNotReoffered(rows: seq<Row>, email: string, caseNo: string, comment: string,
                               closedBy: string, checkbox: bool, today: Date, found: Option<nat>,
                               comment2: string, closedBy2: string, checkbox2: bool, found2: Option<nat>)
    requires forall i | 0 <= i < |rows| :: SessionRow(rows[i])
    requires ValidDate(today)
    requires CloseDecision(rows, email, caseNo, comment, closedBy, checkbox, found).Closed?
    ensures var after := CloseMatching(rows, email, caseNo, comment, closedBy, DateText(today));
      && (forall i | 0 <= i < |after| :: SessionRow(after[i]))
      && CloseDecision(after, email, caseNo, comment2, closedBy2, checkbox2, found2) == NotOffered
  {
    var dc := DateText(today);
    var after := CloseMatching(rows, email, caseNo, comment, closedBy, dc);
    CloseMatchingKeepsSessionRows(rows, email, caseNo, comment, closedBy, dc);
    OwnedAfterClose(rows, email, caseNo, comment, closedBy, dc);
    OwnedArePageRows(rows, email);
    var o := OwnedRecords(rows, email).value;
    ClosedOwnedLookup(o, caseNo, comment, closedBy, dc);
    var o2 := ClosedOwned(o, caseNo, comment, closedBy, dc);
    var k := FindCase(o, Str(caseNo)).value;
    assert OwnedRecords(after, email) == Some(o2);
    assert CaseDetails(o2[k]).Some?;
  }
}
