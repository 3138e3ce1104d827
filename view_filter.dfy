/** Tab 1 of the "View Submissions" page: the signed-in account's records,
    filtered by product, defect type, case status and date, sorted newest
    first, summed, and labelled. */
module ViewFilter {
  import opened Wrappers
  import opened Text
  import opened DateTimes
  import opened Records
  import opened Submissions
  import opened SessionCache

  /** `[row for row in records if row["Account"] == email]`, in cache order;
      `None` where a row has no "Account" key and Python raises `KeyError`. */
  function OwnedRecords(rows: seq<Row>, email: string): (owned: Option<seq<Row>>)
    ensures owned.Some? <==> forall i | 0 <= i < |rows| :: Account in rows[i]
    ensures owned.Some? ==> |owned.value| <= |rows|
    ensures owned.Some? ==> forall r :: r in owned.value <==> r in rows && Account in r && Owns(r, email)
  {
    if rows == [] then Some([])
    else
      var last := rows[|rows| - 1];
      assert rows == rows[..|rows| - 1] + [last];
      match OwnedRecords(rows[..|rows| - 1], email)
      case None => None
      case Some(o) =>
        if Account !in last then None
        else if Owns(last, email) then Some(o + [last]) else Some(o)
  }

  /** Which rows the comprehension of `OwnedRecords` keeps. */
  function OwnedFlags(rows: seq<Row>, email: string): (bs: seq<bool>)
    ensures |bs| == |rows|
    ensures forall i | 0 <= i < |rows| :: bs[i] == (Account in rows[i] && Owns(rows[i], email))
  {
    seq(|rows|, i requires 0 <= i < |rows| => Account in rows[i] && Owns(rows[i], email))
  }

  /** The owned records are the owned rows in cache order: the `k`-th
      record is the row at the `k`-th owned position, every owned position
      is taken once, and the positions increase. */
  lemma OwnedRecordsInOrder(rows: seq<Row>, email: string)
    requires OwnedRecords(rows, email).Some?
    ensures var idx := TrueIndices(OwnedFlags(rows, email));
      && (forall i | 0 <= i < |rows| :: i in idx <==> Owns(rows[i], email))
      && (forall j, k | 0 <= j < k < |idx| :: idx[j] < idx[k])
      && OwnedRecords(rows, email).value == seq(|idx|, k requires 0 <= k < |idx| => rows[idx[k]])
  {
    OwnedRecordsSelect(rows, email);
  }

  lemma {:induction false} OwnedRecordsSelect(rows: seq<Row>, email: string)
    requires OwnedRecords(rows, email).Some?
    ensures OwnedRecords(rows, email).value == Select(rows, OwnedFlags(rows, email))
  {
    if rows != [] {
      var n := |rows| - 1;
      assert rows == rows[..n] + [rows[n]];
      assert OwnedFlags(rows, email)[..n] == OwnedFlags(rows[..n], email);
      OwnedRecordsSelect(rows[..n], email);
    }
  }

  /** A row appended by a submission in this session has no "Account", so
      from then on the page raises `KeyError` for every account until the
      cache is reloaded. */
  lemma SubmissionHidesRecords(rows: seq<Row>, caseNumber: string, data: seq<Cell>, email: string)
    requires |data| == 9 && data[8].Str?
    ensures OwnedRecords(rows + [SubmittedRow(caseNumber, data)], email) == None
  {
    var next := rows + [SubmittedRow(caseNumber, data)];
    assert Account !in next[|rows|];
  }

  /** What tab 1 reads from each owned row: every header key, and the
      timestamp as text. */
  predicate PageRow(r: Row) {
    FullRow(r) && r[Timestamp].Str?
  }

  predicate PageRows(rows: seq<Row>) {
    forall i {:trigger rows[i]} | 0 <= i < |rows| :: PageRow(rows[i])
  }

  /** The owned rows of a valid session are all page rows. */
  lemma OwnedArePageRows(rows: seq<Row>, email: string)
    requires forall i | 0 <= i < |rows| :: SessionRow(rows[i])
    requires OwnedRecords(rows, email).Some?
    ensures PageRows(OwnedRecords(rows, email).value)
  {
    var owned := OwnedRecords(rows, email).value;
    forall i | 0 <= i < |owned| ensures PageRow(owned[i]) {
      assert owned[i] in rows;
      var k :| 0 <= k < |rows| && rows[k] == owned[i];
      assert SessionRow(rows[k]);
    }
  }

  /** The filter widgets of tab 1. */
  datatype Filters = Filters(
    products: seq<string>,   // the product multiselect; empty means every product
    defectType: string,      // "All", "Rework" or "Scrap"
    caseStatus: string,      // "All", "Open" or "Closed"
    year: Option<int>,       // None is the "None" choice
    month: Option<int>,      // 1 to 12 (the index of the month's name)
    day: Option<int>)

  /** `not product_filter or part_code in product_filter` */
  predicate MatchProduct(partCode: Cell, products: seq<string>) {
    products == [] || (partCode.Str? && partCode.s in products)
  }

  /** `choice == "All" or value == choice` */
  predicate MatchChoice(value: Cell, choice: string) {
    choice == "All" || PyEq(value, Str(choice))
  }

  /** The year, month and day tests, each skipped when its filter is "None". */
  predicate MatchDate(t: DateTime, f: Filters) {
    && (f.year.None? || t.date.year == f.year.value)
    && (f.month.None? || t.date.month == f.month.value)
    && (f.day.None? || t.date.day == f.day.value)
  }

  /** A row tab 1 keeps: its timestamp parses and every filter accepts it. */
  predicate Selected(r: Row, f: Filters)
    requires PageRow(r)
  {
    match RowDateTime(r)
    case None => false
    case Some(t) =>
      && MatchProduct(r[Product], f.products)
      && MatchChoice(r[DefectType], f.defectType)
      && MatchChoice(r[Status], f.caseStatus)
      && MatchDate(t, f)
  }

  /** One dict of `filtered`. */
  datatype Entry = Entry(
    caseNumber: Cell, customer: Cell, partCode: Cell, doNumber: Cell, quantity: Cell,
    totalCost: string, defectType: Cell, description: Cell, action: Cell,
    submitter: Cell, caseStatus: Cell, timestamp: DateTime)

  /** The entry for a kept row, with the cost written to two decimals;
      `None` where `float(cost)` raises `ValueError`. */
  function EntryFor(r: Row, f: Filters): (e: Option<Entry>)
    requires PageRow(r) && Selected(r, f)
    ensures e.Some? <==> CentsOf(r[Cost]).Some?
    ensures e.Some? ==> ValidDateTime(e.value.timestamp) && Some(e.value.timestamp) == RowDateTime(r)
    ensures e.Some? ==> ParseCents(e.value.totalCost) == CentsOf(r[Cost])
  {
    match CentsOf(r[Cost])
    case None => None
    case Some(c) =>
      ParseFormatCents(c);
      Some(Entry(r[CaseNumber], r[Customer], r[Product], r[DoNumber], r[Quantity], FormatCents(c),
                 r[DefectType], r[Description], r[Action], r[Submitter], r[Status], RowDateTime(r).value))
  }

  /** The list the loop of tab 1 builds, row by row. */
  function FilterResult(rows: seq<Row>, f: Filters): Option<seq<Entry>>
    requires PageRows(rows)
  {
    if rows == [] then Some([])
    else
      var r := rows[|rows| - 1];
      match FilterResult(rows[..|rows| - 1], f)
      case None => None
      case Some(es) =>
        if !Selected(r, f) then Some(es)
        else match EntryFor(r, f)
          case None => None
          case Some(e) => Some(es + [e])
  }

  /** Once the loop has raised it stays raised. */
  lemma {:induction false} FilterResultFailureSticks(rows: seq<Row>, k: nat, f: Filters)
    requires PageRows(rows) && k <= |rows|
    requires FilterResult(rows[..k], f) == None
    ensures FilterResult(rows, f) == None
    decreases |rows| - k
  {
    if k < |rows| {
      assert rows[..k + 1][..k] == rows[..k];
      FilterResultFailureSticks(rows, k + 1, f);
    } else {
      assert rows[..k] == rows;
    }
  }

  /** The loop of tab 1 over the owned records: a row whose timestamp does
      not parse is skipped, a kept row is appended as an entry. */
  method FilterRecords(rows: seq<Row>, f: Filters) returns (filtered: Option<seq<Entry>>)
    requires PageRows(rows)
    ensures filtered == FilterResult(rows, f)
  {
    var es: seq<Entry> := [];
    var i := 0;
    while i < |rows|
      invariant 0 <= i <= |rows|
      invariant FilterResult(rows[..i], f) == Some(es)
    {
      var r := rows[i];
      assert rows[..i + 1][..i] == rows[..i] && rows[..i + 1][i] == r;
      var stamp := RowDateTime(r);
      if stamp.Some? {
        if MatchProduct(r[Product], f.products) && MatchChoice(r[DefectType], f.defectType)
           && MatchChoice(r[Status], f.caseStatus) && MatchDate(stamp.value, f)
        {
          var e := EntryFor(r, f);
          if e.None? {
            FilterResultFailureSticks(rows, i + 1, f);
            return None;
          }
          es := es + [e.value];
        }
      }
      i := i + 1;
    }
    assert rows[..i] == rows;
    return Some(es);
  }

  /** The positions holding `true`, in increasing order. */
  function TrueIndices(bs: seq<bool>): (idx: seq<int>)
    ensures forall j | 0 <= j < |idx| :: 0 <= idx[j] < |bs| && bs[idx[j]]
    ensures forall i | 0 <= i < |bs| && bs[i] :: i in idx
    ensures forall j, k | 0 <= j < k < |idx| :: idx[j] < idx[k]
  {
    if bs == [] then []
    else
      var p := TrueIndices(bs[..|bs| - 1]);
      if bs[|bs| - 1] then p + [|bs| - 1] else p
  }

  /** `[x for x, b in zip(xs, bs) if b]`: the elements at the true
      positions, in order. */
  function Select<T>(xs: seq<T>, bs: seq<bool>): (ys: seq<T>)
    requires |xs| == |bs|
    ensures |ys| == |TrueIndices(bs)|
    ensures forall k | 0 <= k < |ys| :: ys[k] == xs[TrueIndices(bs)[k]]
  {
    if xs == [] then []
    else
      var n := |xs| - 1;
      var p := Select(xs[..n], bs[..n]);
      if bs[n] then p + [xs[n]] else p
  }

  /** Which rows tab 1 keeps. */
  function Kept(rows: seq<Row>, f: Filters): (bs: seq<bool>)
    requires PageRows(rows)
    ensures |bs| == |rows|
    ensures forall i | 0 <= i < |rows| :: bs[i] == Selected(rows[i], f)
  {
    seq(|rows|, i requires 0 <= i < |rows| => Selected(rows[i], f))
  }

  /** The positions of the kept rows, in cache order. */
  function SelectedIndices(rows: seq<Row>, f: Filters): (idx: seq<int>)
    requires PageRows(rows)
    ensures forall j | 0 <= j < |idx| :: 0 <= idx[j] < |rows| && Selected(rows[idx[j]], f)
    ensures forall i | 0 <= i < |rows| && Selected(rows[i], f) :: i in idx
    ensures forall j, k | 0 <= j < k < |idx| :: idx[j] < idx[k]
  {
    TrueIndices(Kept(rows, f))
  }

  /** What the loop does with one row. */
  datatype Step = Skip | Raise | Keep(e: Entry)

  function StepOf(r: Row, f: Filters): Step
    requires PageRow(r)
  {
    if !Selected(r, f) then Skip
    else match EntryFor(r, f)
      case None => Raise
      case Some(e) => Keep(e)
  }

  function Steps(rows: seq<Row>, f: Filters): (ss: seq<Step>)
    requires PageRows(rows)
    ensures |ss| == |rows|
  {
    seq(|rows|, i requires 0 <= i < |rows| => StepOf(rows[i], f))
  }

  /** The loop over the steps alone. */
  function RunSteps(ss: seq<Step>): Option<seq<Entry>> {
    if ss == [] then Some([])
    else match RunSteps(ss[..|ss| - 1])
      case None => None
      case Some(es) =>
        match ss[|ss| - 1]
        case Skip => Some(es)
        case Raise => None
        case Keep(e) => Some(es + [e])
  }

  lemma {:induction false} FilterResultIsRunSteps(rows: seq<Row>, f: Filters)
    requires PageRows(rows)
    ensures FilterResult(rows, f) == RunSteps(Steps(rows, f))
  {
    if rows != [] {
      var prefix := rows[..|rows| - 1];
      assert forall k | 0 <= k < |prefix| :: prefix[k] == rows[k];
      assert Steps(rows, f)[..|rows| - 1] == Steps(prefix, f);
      FilterResultIsRunSteps(prefix, f);
    }
  }

  /** Positions of the steps that are not skips. */
  function Taken(ss: seq<Step>): (bs: seq<bool>)
    ensures |bs| == |ss|
    ensures forall i | 0 <= i < |ss| :: bs[i] == !ss[i].Skip?
  {
    seq(|ss|, i requires 0 <= i < |ss| => !ss[i].Skip?)
  }

  /** The run fails exactly when some step raises. */
  lemma {:induction false} RunStepsFails(ss: seq<Step>)
    ensures RunSteps(ss).Some? <==> forall i | 0 <= i < |ss| :: !ss[i].Raise?
  {
    if ss != [] {
      var prefix := ss[..|ss| - 1];
      RunStepsFails(prefix);
      assert forall i | 0 <= i < |prefix| :: prefix[i] == ss[i];
    }
  }

  /** A run that does not raise lists the kept entries in order. */
  lemma {:induction false} RunStepsMeaning(ss: seq<Step>)
    requires RunSteps(ss).Some?
    ensures var idx := TrueIndices(Taken(ss));
      && |RunSteps(ss).value| == |idx|
      && forall j | 0 <= j < |idx| :: ss[idx[j]] == Keep(RunSteps(ss).value[j])
  {
    if ss != [] {
      var n := |ss|;
      var prefix := ss[..n - 1];
      RunStepsMeaning(prefix);
      assert Taken(ss)[..n - 1] == Taken(prefix);
      var es := RunSteps(prefix).value;
      var idx := TrueIndices(Taken(ss));
      var p := TrueIndices(Taken(prefix));
      forall j | 0 <= j < |p| ensures ss[p[j]] == Keep(es[j]) {
        assert prefix[p[j]] == ss[p[j]];
      }
      match ss[n - 1]
      case Skip =>
        assert idx == p;
      case Keep(e) =>
        assert idx == p + [n - 1];
        assert RunSteps(ss).value == es + [e];
    }
  }

  /** Tab 1's list is the entries of the kept rows in cache order: every
      entry comes from a kept row, every kept row gives an entry, and the
      loop raises exactly when a kept row's cost does not convert. */
  lemma FilterResultMeaning(rows: seq<Row>, f: Filters)
    requires PageRows(rows)
    ensures var idx := SelectedIndices(rows, f);
      && (FilterResult(rows, f).Some? <==> forall j | 0 <= j < |idx| :: CentsOf(rows[idx[j]][Cost]).Some?)
      && (FilterResult(rows, f).Some? ==>
            && |FilterResult(rows, f).value| == |idx|
            && forall j | 0 <= j < |idx| :: Some(FilterResult(rows, f).value[j]) == EntryFor(rows[idx[j]], f))
  {
    var ss := Steps(rows, f);
    FilterResultIsRunSteps(rows, f);
    RunStepsFails(ss);
    if RunSteps(ss).Some? {
      RunStepsMeaning(ss);
    }
    assert Taken(ss) == Kept(rows, f);
    var idx := SelectedIndices(rows, f);
    forall i | 0 <= i < |rows| ensures ss[i].Raise? <==> Selected(rows[i], f) && CentsOf(rows[i][Cost]).None? {
    }
    if FilterResult(rows, f).Some? {
      forall j | 0 <= j < |idx| ensures CentsOf(rows[idx[j]][Cost]).Some? {
        assert !ss[idx[j]].Raise?;
      }
    } else {
      var i :| 0 <= i < |rows| && ss[i].Raise?;
      assert i in idx;
    }
  }

  /** `e` placed after the entries strictly later than it and before the
      rest: one step of `sorted(..., key=timestamp, reverse=True)`. */
  function Insert(e: Entry, s: seq<Entry>): (r: seq<Entry>)
    ensures multiset(r) == multiset(s) + multiset{e}
  {
    if s == [] then [e]
    else if Later(s[0].timestamp, e.timestamp) then
      assert s == [s[0]] + s[1..];
      [s[0]] + Insert(e, s[1..])
    else [e] + s
  }

  /** `sorted(filtered, key=lambda x: x["Timestamp"], reverse=True)` */
  function SortNewestFirst(es: seq<Entry>): (sorted: seq<Entry>)
    ensures multiset(sorted) == multiset(es)
  {
    if es == [] then []
    else
      assert es == [es[0]] + es[1..];
      Insert(es[0], SortNewestFirst(es[1..]))
  }

  /** No entry is later than one before it. */
  predicate NewestFirst(s: seq<Entry>) {
    forall i, j | 0 <= i < j < |s| :: !Later(s[j].timestamp, s[i].timestamp)
  }

  /** No entry of `s` is later than `t`. */
  predicate NotAfter(s: seq<Entry>, t: DateTime) {
    forall i | 0 <= i < |s| :: !Later(s[i].timestamp, t)
  }

  /** An entry no later than `t` keeps a list bounded by `t` bounded. */
  lemma InsertNotAfter(e: Entry, s: seq<Entry>, t: DateTime)
    requires NotAfter(s, t) && !Later(e.timestamp, t)
    ensures NotAfter(Insert(e, s), t)
  {
    var r := Insert(e, s);
    forall i | 0 <= i < |r| ensures !Later(r[i].timestamp, t) {
      assert r[i] in multiset(r);
      if r[i] != e {
        assert r[i] in multiset(s);
        var k :| 0 <= k < |s| && s[k] == r[i];
      }
    }
  }

  /** A list sorted newest first is bounded by its first entry. */
  lemma NewestFirstHead(s: seq<Entry>)
    requires NewestFirst(s) && s != []
    ensures NotAfter(s, s[0].timestamp)
  {
    LaterIsStrictTotalOrder(s[0].timestamp, s[0].timestamp, s[0].timestamp);
  }

  /** An entry no earlier than a sorted list may go in front of it. */
  lemma NewestFirstCons(x: Entry, r: seq<Entry>)
    requires NewestFirst(r) && NotAfter(r, x.timestamp)
    ensures NewestFirst([x] + r)
  {
    var s := [x] + r;
    forall i, j | 0 <= i < j < |s| ensures !Later(s[j].timestamp, s[i].timestamp) {
      assert s[j] == r[j - 1];
      if i > 0 {
        assert s[i] == r[i - 1];
      }
    }
  }

  lemma {:induction false} InsertNewestFirst(e: Entry, s: seq<Entry>)
    requires NewestFirst(s)
    ensures NewestFirst(Insert(e, s))
  {
    if s == [] {
      assert Insert(e, s) == [e];
    } else if Later(s[0].timestamp, e.timestamp) {
      var x, tl := s[0], s[1..];
      assert NewestFirst(tl) by {
        forall i, j | 0 <= i < j < |tl| ensures !Later(tl[j].timestamp, tl[i].timestamp) {
          assert tl[i] == s[i + 1] && tl[j] == s[j + 1];
        }
      }
      InsertNewestFirst(e, tl);
      NewestFirstHead(s);
      assert NotAfter(tl, x.timestamp) by {
        forall i | 0 <= i < |tl| ensures !Later(tl[i].timestamp, x.timestamp) {
          assert tl[i] == s[i + 1];
        }
      }
      LaterIsStrictTotalOrder(x.timestamp, e.timestamp, e.timestamp);
      InsertNotAfter(e, tl, x.timestamp);
      assert Insert(e, s) == [x] + Insert(e, tl);
      NewestFirstCons(x, Insert(e, tl));
    } else {
      NewestFirstHead(s);
      forall i | 0 <= i < |s| ensures !Later(s[i].timestamp, e.timestamp) {
        LaterIsStrictTotalOrder(s[i].timestamp, s[0].timestamp, e.timestamp);
      }
      assert Insert(e, s) == [e] + s;
      NewestFirstCons(e, s);
    }
  }

  /** The sorted list runs from the newest timestamp to the oldest. */
  lemma {:induction false} SortIsNewestFirst(es: seq<Entry>)
    ensures NewestFirst(SortNewestFirst(es))
  {
    if es != [] {
      SortIsNewestFirst(es[1..]);
      InsertNewestFirst(es[0], SortNewestFirst(es[1..]));
    }
  }

  /** The entries stamped with `t`, in order. */
  function StampedAt(s: seq<Entry>, t: DateTime): seq<Entry> {
    if s == [] then []
    else (if s[0].timestamp == t then [s[0]] else []) + StampedAt(s[1..], t)
  }

  lemma StampedAtCons(x: Entry, s: seq<Entry>, t: DateTime)
    ensures StampedAt([x] + s, t) == (if x.timestamp == t then [x] else []) + StampedAt(s, t)
  {
    assert ([x] + s)[1..] == s;
  }

  /** Entries with different timestamps can trade places without changing
      what is stamped with `t`. */
  lemma StampedAtSwap(x: Entry, e: Entry, r: seq<Entry>, s: seq<Entry>, t: DateTime)
    requires x.timestamp != e.timestamp
    requires StampedAt(r, t) == (if e.timestamp == t then [e] else []) + StampedAt(s, t)
    ensures StampedAt([x] + r, t) == (if e.timestamp == t then [e] else []) + StampedAt([x] + s, t)
  {
    StampedAtCons(x, r, t);
    StampedAtCons(x, s, t);
    if e.timestamp == t {
      assert StampedAt([x] + r, t) == [e] + StampedAt(s, t);
    }
  }

  lemma {:induction false} InsertStampedAt(e: Entry, s: seq<Entry>, t: DateTime)
    ensures StampedAt(Insert(e, s), t) == (if e.timestamp == t then [e] else []) + StampedAt(s, t)
  {
    if s == [] {
      StampedAtCons(e, s, t);
    } else if Later(s[0].timestamp, e.timestamp) {
      var x, tl := s[0], s[1..];
      InsertStampedAt(e, tl, t);
      LaterIsStrictTotalOrder(e.timestamp, e.timestamp, e.timestamp);
      assert Insert(e, s) == [x] + Insert(e, tl);
      assert s == [x] + tl;
      StampedAtSwap(x, e, Insert(e, tl), tl, t);
    } else {
      assert Insert(e, s) == [e] + s;
      StampedAtCons(e, s, t);
    }
  }

  /** The sort is stable: entries with the same timestamp keep their order. */
  lemma {:induction false} SortIsStable(es: seq<Entry>, t: DateTime)
    ensures StampedAt(SortNewestFirst(es), t) == StampedAt(es, t)
  {
    if es != [] {
      SortIsStable(es[1..], t);
      InsertStampedAt(es[0], SortNewestFirst(es[1..]), t);
    }
  }

  /** `float(entry["Total Cost ($)"])` can be read for every entry. */
  predicate Priced(es: seq<Entry>) {
    forall e | e in es :: ParseCents(e.totalCost).Some?
  }

  /** `sum(float(entry["Total Cost ($)"]) for entry in filtered)`, in cents. */
  function TotalCost(es: seq<Entry>): int
    requires Priced(es)
  {
    if es == [] then 0 else ParseCents(es[0].totalCost).value + TotalCost(es[1..])
  }

  /** `sum(1 for entry in filtered if entry["Case Status"] == "Open")` */
  function OpenCases(es: seq<Entry>): nat {
    if es == [] then 0
    else (if PyEq(es[0].caseStatus, Str("Open")) then 1 else 0) + OpenCases(es[1..])
  }

  lemma {:induction false} TotalsAppend(es: seq<Entry>, e: Entry)
    requires Priced(es) && ParseCents(e.totalCost).Some?
    ensures Priced(es + [e])
    ensures TotalCost(es + [e]) == TotalCost(es) + ParseCents(e.totalCost).value
    ensures OpenCases(es + [e]) == OpenCases(es) + (if PyEq(e.caseStatus, Str("Open")) then 1 else 0)
  {
    if es != [] {
      assert (es + [e])[1..] == es[1..] + [e];
      TotalsAppend(es[1..], e);
    }
  }

  lemma {:induction false} TotalsInsert(e: Entry, s: seq<Entry>)
    requires Priced(s) && ParseCents(e.totalCost).Some?
    ensures Priced(Insert(e, s))
    ensures TotalCost(Insert(e, s)) == ParseCents(e.totalCost).value + TotalCost(s)
    ensures OpenCases(Insert(e, s)) == (if PyEq(e.caseStatus, Str("Open")) then 1 else 0) + OpenCases(s)
  {
    if s != [] && Later(s[0].timestamp, e.timestamp) {
      TotalsInsert(e, s[1..]);
      assert ([s[0]] + Insert(e, s[1..]))[1..] == Insert(e, s[1..]);
    } else if s != [] {
      assert ([e] + s)[1..] == s;
    }
  }

  /** Sorting changes neither total. */
  lemma {:induction false} SortKeepsTotals(es: seq<Entry>)
    requires Priced(es)
    ensures Priced(SortNewestFirst(es))
    ensures TotalCost(SortNewestFirst(es)) == TotalCost(es)
    ensures OpenCases(SortNewestFirst(es)) == OpenCases(es)
  {
    if es != [] {
      SortKeepsTotals(es[1..]);
      TotalsInsert(es[0], SortNewestFirst(es[1..]));
    }
  }

  /** The costs of the kept rows, added up as stored. */
  function KeptCost(rows: seq<Row>, f: Filters): int
    requires PageRows(rows) && FilterResult(rows, f).Some?
  {
    if rows == [] then 0
    else
      var prefix := rows[..|rows| - 1];
      var r := rows[|rows| - 1];
      KeptCost(prefix, f) + if Selected(r, f) then CentsOf(r[Cost]).value else 0
  }

  /** The number of kept rows whose status is "Open". */
  function KeptOpen(rows: seq<Row>, f: Filters): nat
    requires PageRows(rows)
  {
    if rows == [] then 0
    else
      var r := rows[|rows| - 1];
      KeptOpen(rows[..|rows| - 1], f) + if Selected(r, f) && PyEq(r[Status], Str("Open")) then 1 else 0
  }

  /** The totals tab 1 shows are the kept rows' stored costs (written to two
      decimals and read back without loss) and their open cases. */
  lemma {:induction false} SummaryTotals(rows: seq<Row>, f: Filters)
    requires PageRows(rows) && FilterResult(rows, f).Some?
    ensures Priced(FilterResult(rows, f).value)
    ensures TotalCost(FilterResult(rows, f).value) == KeptCost(rows, f)
    ensures OpenCases(FilterResult(rows, f).value) == KeptOpen(rows, f)
  {
    if rows != [] {
      var prefix := rows[..|rows| - 1];
      assert forall k | 0 <= k < |prefix| :: prefix[k] == rows[k];
      SummaryTotals(prefix, f);
      var r := rows[|rows| - 1];
      var es := FilterResult(prefix, f).value;
      if Selected(r, f) {
        var e := EntryFor(r, f).value;
        TotalsAppend(es, e);
      }
    }
  }

  /** An entry of the table, with "Submission Date" in place of the
      timestamp. */
  datatype DisplayRow = DisplayRow(
    caseNumber: Cell, customer: Cell, partCode: Cell, doNumber: Cell, quantity: Cell,
    totalCost: string, defectType: Cell, description: Cell, action: Cell,
    submitter: Cell, caseStatus: Cell, submissionDate: string)

  function Display(e: Entry): DisplayRow
    requires ValidDate(e.timestamp.date)
  {
    DisplayRow(e.caseNumber, e.customer, e.partCode, e.doNumber, e.quantity, e.totalCost,
               e.defectType, e.description, e.action, e.submitter, e.caseStatus,
               DateText(e.timestamp.date))
  }

  /** The submission date shown is the first ten characters of the row's
      timestamp text. */
  lemma DisplayedSubmissionDate(r: Row, f: Filters)
    requires PageRow(r) && Selected(r, f) && EntryFor(r, f).Some?
    ensures Display(EntryFor(r, f).value).submissionDate == r[Timestamp].s[..10]
  {
    ParsedDatePrefix(r[Timestamp].s);
  }

  predicate Dated(es: seq<Entry>) {
    forall e | e in es :: ValidDate(e.timestamp.date)
  }

  /** What a press of "View ... Submissions" shows: the sorted table, the
      total cost in cents and the number of open cases. */
  datatype Shown = Shown(table: seq<DisplayRow>, totalCost: int, openCases: nat)

  /** The listed entries can be totalled and dated, before and after the
      sort. */
  lemma ListedEntriesUsable(owned: seq<Row>, f: Filters)
    requires PageRows(owned) && FilterResult(owned, f).Some?
    ensures Priced(FilterResult(owned, f).value)
    ensures Dated(SortNewestFirst(FilterResult(owned, f).value))
  {
    SummaryTotals(owned, f);
    EntriesDated(owned, f);
    SortKeepsDated(FilterResult(owned, f).value);
  }

  lemma EntriesDated(owned: seq<Row>, f: Filters)
    requires PageRows(owned) && FilterResult(owned, f).Some?
    ensures Dated(FilterResult(owned, f).value)
  {
    var es := FilterResult(owned, f).value;
    FilterResultMeaning(owned, f);
    var idx := SelectedIndices(owned, f);
    forall e | e in es ensures ValidDate(e.timestamp.date) {
      var j :| 0 <= j < |es| && es[j] == e;
      assert Some(e) == EntryFor(owned[idx[j]], f);
    }
  }

  lemma SortKeepsDated(es: seq<Entry>)
    requires Dated(es)
    ensures Dated(SortNewestFirst(es))
  {
    var sorted := SortNewestFirst(es);
    assert forall e | e in sorted :: e in multiset(es);
  }

  /** A press of the button; `None` where the page raises, either in the
      page-level year list before the tabs or in the filter loop. */
  function ShowSubmissions(owned: seq<Row>, f: Filters): (shown: Option<Shown>)
    requires PageRows(owned)
    ensures shown.Some? <==> YearsWithData(owned).Some? && FilterResult(owned, f).Some?
  {
    if YearsWithData(owned).None? then None
    else match FilterResult(owned, f)
    case None => None
    case Some(es) =>
      ListedEntriesUsable(owned, f);
      var sorted := SortNewestFirst(es);
      Some(Shown(seq(|sorted|, i requires 0 <= i < |sorted| => Display(sorted[i])),
                 TotalCost(es), OpenCases(es)))
  }

  /** Once the page-level year list has been built, the only rows the
      filter loop skips for their timestamp are rows with an empty one: the
      `continue` on `ValueError` never meets a malformed stamp. */
  lemma SkippedStampsAreEmpty(owned: seq<Row>, f: Filters)
    requires PageRows(owned) && ShowSubmissions(owned, f).Some?
    ensures forall i | 0 <= i < |owned| :: RowDateTime(owned[i]).None? <==> owned[i][Timestamp].s == ""
  {
    forall i | 0 <= i < |owned| ensures RowDateTime(owned[i]).None? <==> owned[i][Timestamp].s == "" {
      assert !YearOfRow(owned[i]).BadStamp?;
      if owned[i][Timestamp].s == "" {
        assert ParseDateTime("").None?;
      }
    }
  }

  /** The table has one line per kept row, and the totals are those of the
      kept rows. */
  lemma ShownSummary(owned: seq<Row>, f: Filters)
    requires PageRows(owned) && ShowSubmissions(owned, f).Some?
    ensures var shown := ShowSubmissions(owned, f).value;
      && |shown.table| == |SelectedIndices(owned, f)|
      && shown.totalCost == KeptCost(owned, f)
      && shown.openCases == KeptOpen(owned, f)
  {
    var es := FilterResult(owned, f).value;
    FilterResultMeaning(owned, f);
    SummaryTotals(owned, f);
    assert |SortNewestFirst(es)| == |multiset(SortNewestFirst(es))| == |multiset(es)| == |es|;
  }

  /** A product, type or status filter is active. */
  predicate ContentFiltered(f: Filters) {
    f.products != [] || f.defectType != "All" || f.caseStatus != "All"
  }

  /** The date part of `filter_display`: " in " and the selected date,
      unless no year is selected or a day is selected without a month. */
  function DateScope(f: Filters): (scope: string)
    requires f.month.Some? ==> 1 <= f.month.value <= 12
    ensures scope == "" <==> f.year.None? || (f.month.None? && f.day.Some?)
    ensures scope != "" ==> |scope| > 4 && scope[..4] == " in "
  {
    if f.year.Some? && f.month.None? && f.day.None? then " in " + IntegerText(f.year.value)
    else if f.year.Some? && f.month.Some? && f.day.None? then
      " in " + MonthName(f.month.value) + " " + IntegerText(f.year.value)
    else if f.year.Some? && f.month.Some? && f.day.Some? then
      " in " + IntegerText(f.day.value) + " " + MonthName(f.month.value) + " " + IntegerText(f.year.value)
    else ""
  }

  const MatchedSuffix := " that matched your filters"

  /** `filter_display`: empty unless a product, type or status filter is
      active, whatever the dates say; otherwise the date scope followed by
      " that matched your filters".  It is never "Invalid", so the page's
      "Showing the latest records" branch cannot be reached. */
  function FilterLabel(f: Filters): (text: string)
    requires f.month.Some? ==> 1 <= f.month.value <= 12
    ensures text == "" <==> !ContentFiltered(f)
    ensures ContentFiltered(f) ==>
      |text| >= |MatchedSuffix| && text[|text| - |MatchedSuffix|..] == MatchedSuffix
    ensures ContentFiltered(f) && DateScope(f) != "" ==> text[..4] == " in "
    ensures text != "Invalid"
  {
    if ContentFiltered(f) then
      var scope := DateScope(f);
      assert (scope + MatchedSuffix)[|scope|..] == MatchedSuffix;
      assert scope != "" ==> (scope + MatchedSuffix)[..4] == scope[..4];
      scope + MatchedSuffix
    else
      assert |"Invalid"| == 7;
      ""
  }

  /** The word on the search button. */
  function ButtonName(f: Filters): string {
    if ContentFiltered(f) || f.year.Some? then "Filtered" else "All"
  }

  /** A year alone makes the button say "Filtered" while the label stays
      empty. */
  lemma LabelAndButtonDisagree(f: Filters)
    requires f.month.Some? ==> 1 <= f.month.value <= 12
    ensures !ContentFiltered(f) && f.year.Some? ==> ButtonName(f) == "Filtered" && FilterLabel(f) == ""
    ensures !ContentFiltered(f) && f.year.None? ==> ButtonName(f) == "All"
  {
  }

  /** The filter states the widgets can be in: the month is chosen only
      under a year and the day only under a month, since changing the year
      or month back to "None" recreates the later widgets at "None". */
  predicate WidgetState(f: Filters) {
    && (f.year.None? ==> f.month.None?)
    && (f.month.None? ==> f.day.None?)
  }

  /** In a widget state, a button that says "All" lists every owned row
      whose timestamp parses: no filter is in force. */
  lemma AllButtonKeepsEveryRow(f: Filters, r: Row)
    requires WidgetState(f) && PageRow(r)
    requires ButtonName(f) == "All"
    ensures Selected(r, f) <==> RowDateTime(r).Some?
  {
  }

  /** Each value is larger than every later one. */
  predicate Decreasing(s: seq<int>) {
    forall i, j | 0 <= i < j < |s| :: s[i] > s[j]
  }

  /** `y` added to a decreasing list of distinct values, keeping it so. */
  function InsertDescending(y: int, s: seq<int>): (r: seq<int>)
    requires Decreasing(s)
    ensures Decreasing(r)
    ensures forall x :: x in r <==> x == y || x in s
  {
    if s == [] then [y]
    else if y > s[0] then [y] + s
    else if y == s[0] then s
    else
      assert Decreasing(s[1..]) by {
        forall i, j | 0 <= i < j < |s[1..]| ensures s[1..][i] > s[1..][j] {
          assert s[1..][i] == s[i + 1] && s[1..][j] == s[j + 1];
        }
      }
      var rest := InsertDescending(y, s[1..]);
      forall x | x in rest ensures x < s[0] {
        if x != y {
          var k :| 0 <= k < |s[1..]| && s[1..][k] == x;
          assert s[k + 1] == x;
        }
      }
      DecreasingCons(s[0], rest);
      [s[0]] + rest
  }

  lemma DecreasingCons(x: int, r: seq<int>)
    requires Decreasing(r) && forall z | z in r :: z < x
    ensures Decreasing([x] + r)
  {
    var s := [x] + r;
    forall i, j | 0 <= i < j < |s| ensures s[i] > s[j] {
      assert s[j] == r[j - 1] && s[j] in r;
      if i > 0 {
        assert s[i] == r[i - 1];
      }
    }
  }

  /** What the year list of the view page gets from one row's timestamp: nothing for an empty
      one, `ValueError` for one that does not parse, else its year. */
  datatype YearOf = NoStamp | BadStamp | YearIs(year: int)

  function YearOfStamp(stamp: string): YearOf {
    if stamp == "" then NoStamp
    else match ParseDateTime(stamp)
      case None => BadStamp
      case Some(t) => YearIs(t.date.year)
  }

  function YearOfRow(r: Row): YearOf
    requires PageRow(r)
  {
    YearOfStamp(r[Timestamp].s)
  }

  /** The year list over per-row outcomes. */
  function YearsFrom(ys: seq<YearOf>): (years: Option<seq<int>>)
    ensures years.Some? <==> forall i | 0 <= i < |ys| :: !ys[i].BadStamp?
    ensures years.Some? ==> Decreasing(years.value)
    ensures years.Some? ==> forall y :: y in years.value <==> YearIs(y) in ys
  {
    if ys == [] then Some([])
    else
      var prefix := ys[..|ys| - 1];
      assert ys == prefix + [ys[|ys| - 1]];
      match YearsFrom(prefix)
      case None => None
      case Some(s) =>
        match ys[|ys| - 1]
        case NoStamp => Some(s)
        case BadStamp => None
        case YearIs(y) => Some(InsertDescending(y, s))
  }

  /** `years_with_data`: the distinct years of the owned rows with a
      non-empty timestamp, newest first; `None` where a non-empty timestamp
      does not parse and `strptime` raises. */
  function YearsWithData(owned: seq<Row>): (years: Option<seq<int>>)
    requires PageRows(owned)
    ensures years.Some? <==> forall i | 0 <= i < |owned| :: !YearOfRow(owned[i]).BadStamp?
    ensures years.Some? ==> Decreasing(years.value)
    ensures years.Some? ==>
      forall y :: y in years.value <==> exists i | 0 <= i < |owned| :: YearOfRow(owned[i]) == YearIs(y)
  {
    var ys := seq(|owned|, i requires 0 <= i < |owned| => YearOfRow(owned[i]));
    var years := YearsFrom(ys);
    assert forall i | 0 <= i < |owned| :: ys[i].BadStamp? == YearOfRow(owned[i]).BadStamp?;
    assert forall y :: YearIs(y) in ys <==> exists i | 0 <= i < |owned| :: YearOfRow(owned[i]) == YearIs(y) by {
      forall y ensures YearIs(y) in ys <==> exists i | 0 <= i < |owned| :: YearOfRow(owned[i]) == YearIs(y) {
        if YearIs(y) in ys {
          var i :| 0 <= i < |ys| && ys[i] == YearIs(y);
          assert YearOfRow(owned[i]) == YearIs(y);
        }
      }
    }
    years
  }
}
