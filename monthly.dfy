/** The "Chart Visualization" tab of the view page: the owned records of
    one year, rolled up per calendar month into the defect quantity, the
    defect cost and the number of submissions.  Drawing the charts is not
    part of this model; only the twelve monthly figures that feed them are. */
module MonthlyChart {
  import opened Wrappers
  import opened DateTimes
  import opened Records
  import opened ViewFilter

  /** The year of a row as this tab reads it: `strptime` with no guard, so
      an empty or malformed timestamp is a `ValueError` here. */
  function ChartYearOf(r: Row): YearOf
    requires PageRow(r)
  {
    match RowDateTime(r)
    case None => BadStamp
    case Some(t) => YearIs(t.date.year)
  }

  /** The year choices of this tab, newest first; `None` where some owned
      timestamp does not parse and the page raises `ValueError`. */
  function ChartYears(owned: seq<Row>): (years: Option<seq<int>>)
    requires PageRows(owned)
    ensures years.Some? <==> forall i | 0 <= i < |owned| :: RowDateTime(owned[i]).Some?
    ensures years.Some? ==> Decreasing(years.value)
    ensures years.Some? ==>
      forall y :: y in years.value <==> exists i | 0 <= i < |owned| :: ChartYearOf(owned[i]) == YearIs(y)
  {
    var ys := seq(|owned|, i requires 0 <= i < |owned| => ChartYearOf(owned[i]));
    assert forall i | 0 <= i < |owned| :: ys[i].BadStamp? == RowDateTime(owned[i]).None?;
    assert forall y :: YearIs(y) in ys <==> exists i | 0 <= i < |owned| :: ChartYearOf(owned[i]) == YearIs(y) by {
      forall y ensures YearIs(y) in ys <==> exists i | 0 <= i < |owned| :: ChartYearOf(owned[i]) == YearIs(y) {
        if YearIs(y) in ys {
          var i :| 0 <= i < |ys| && ys[i] == YearIs(y);
          assert ChartYearOf(owned[i]) == YearIs(y);
        }
      }
    }
    YearsFrom(ys)
  }

  /** A timestamp that parses is not empty, so the two readings of a row's
      year agree on it. */
  lemma ParsedRowYear(r: Row)
    requires PageRow(r) && RowDateTime(r).Some?
    ensures YearOfRow(r) == ChartYearOf(r)
  {
    assert r[Timestamp].s != "";
  }

  /** Where every timestamp parses, this tab offers the same years as the
      year filter of the "All Submissions" tab. */
  lemma ChartYearsAgree(owned: seq<Row>)
    requires PageRows(owned)
    requires ChartYears(owned).Some?
    ensures YearsWithData(owned) == ChartYears(owned)
  {
    var a := seq(|owned|, i requires 0 <= i < |owned| => YearOfRow(owned[i]));
    var b := seq(|owned|, i requires 0 <= i < |owned| => ChartYearOf(owned[i]));
    forall i | 0 <= i < |owned| ensures a[i] == b[i] {
      ParsedRowYear(owned[i]);
    }
    assert a == b;
  }

  /** `strptime(...).year == selected_year`; no row matches when there is
      no year to select. */
  predicate InYear(r: Row, year: Option<int>)
    requires PageRow(r)
  {
    match RowDateTime(r)
    case None => false
    case Some(t) => year == Some(t.date.year)
  }

  /** `chart_records`: the owned rows of the selected year, in cache order;
      `None` where some owned timestamp does not parse. */
  function ChartRecords(owned: seq<Row>, year: Option<int>): (chart: Option<seq<Row>>)
    requires PageRows(owned)
    ensures chart.Some? <==> forall i | 0 <= i < |owned| :: RowDateTime(owned[i]).Some?
    ensures chart.Some? ==> PageRows(chart.value) && |chart.value| <= |owned|
    ensures chart.Some? ==> forall r :: r in chart.value <==> r in owned && PageRow(r) && InYear(r, year)
  {
    if owned == [] then Some([])
    else
      var last := owned[|owned| - 1];
      assert owned == owned[..|owned| - 1] + [last];
      match ChartRecords(owned[..|owned| - 1], year)
      case None => None
      case Some(c) =>
        if RowDateTime(last).None? then None
        else if InYear(last, year) then Some(c + [last]) else Some(c)
  }

  /** Which owned rows the comprehension of `ChartRecords` keeps. */
  function YearFlags(owned: seq<Row>, year: Option<int>): (bs: seq<bool>)
    requires PageRows(owned)
    ensures |bs| == |owned|
    ensures forall i | 0 <= i < |owned| :: bs[i] == InYear(owned[i], year)
  {
    seq(|owned|, i requires 0 <= i < |owned| => InYear(owned[i], year))
  }

  /** The chart records are the rows of the selected year in cache order:
      the `k`-th record is the row at the `k`-th position of that year,
      every such position is taken once, and the positions increase. */
  lemma ChartRecordsInOrder(owned: seq<Row>, year: Option<int>)
    requires PageRows(owned)
    requires ChartRecords(owned, year).Some?
    ensures var idx := TrueIndices(YearFlags(owned, year));
      && (forall i | 0 <= i < |owned| :: i in idx <==> InYear(owned[i], year))
      && (forall j, k | 0 <= j < k < |idx| :: idx[j] < idx[k])
      && ChartRecords(owned, year).value == seq(|idx|, k requires 0 <= k < |idx| => owned[idx[k]])
  {
    ChartRecordsSelect(owned, year);
  }

  lemma {:induction false} ChartRecordsSelect(owned: seq<Row>, year: Option<int>)
    requires PageRows(owned)
    requires ChartRecords(owned, year).Some?
    ensures ChartRecords(owned, year).value == Select(owned, YearFlags(owned, year))
  {
    if owned != [] {
      var n := |owned| - 1;
      assert owned == owned[..n] + [owned[n]];
      assert YearFlags(owned, year)[..n] == YearFlags(owned[..n], year);
      ChartRecordsSelect(owned[..n], year);
    }
  }

  /** What one chart record contributes: its month (`strftime("%b")`, held
      as the month's number), `int(row["Quantity"])` and
      `float(row["Cost"])` in cents. */
  datatype Sample = Sample(month: int, quantity: int, cents: int)

  /** The sample of a record; `None` where one of the three conversions
      raises `ValueError`. */
  function SampleOf(r: Row): (x: Option<Sample>)
    requires PageRow(r)
    ensures x.Some? <==> RowDateTime(r).Some? && IntOf(r[Quantity]).Some? && CentsOf(r[Cost]).Some?
    ensures x.Some? ==> 1 <= x.value.month <= 12
  {
    match (RowDateTime(r), IntOf(r[Quantity]), CentsOf(r[Cost]))
    case (Some(t), Some(q), Some(c)) => Some(Sample(t.date.month, q, c))
    case _ => None
  }

  /** The `month`, `quantity` and `defect_cost` lists zipped together. */
  function Samples(chart: seq<Row>): (s: Option<seq<Sample>>)
    requires PageRows(chart)
    ensures s.Some? <==> forall i | 0 <= i < |chart| :: SampleOf(chart[i]).Some?
    ensures s.Some? ==> |s.value| == |chart|
    ensures s.Some? ==> forall i | 0 <= i < |chart| :: Some(s.value[i]) == SampleOf(chart[i])
  {
    if chart == [] then Some([])
    else
      var last := chart[|chart| - 1];
      assert chart == chart[..|chart| - 1] + [last];
      match (Samples(chart[..|chart| - 1]), SampleOf(last))
      case (Some(s), Some(x)) => Some(s + [x])
      case _ => None
  }

  /** Every sample falls in a calendar month. */
  predicate InCalendar(s: seq<Sample>) {
    forall i | 0 <= i < |s| :: 1 <= s[i].month <= 12
  }

  lemma SamplesInCalendar(chart: seq<Row>)
    requires PageRows(chart) && Samples(chart).Some?
    ensures InCalendar(Samples(chart).value)
  {
    var s := Samples(chart).value;
    forall i | 0 <= i < |s| ensures 1 <= s[i].month <= 12 {
      assert Some(s[i]) == SampleOf(chart[i]);
    }
  }

  /** The three figures the tab charts. */
  datatype Measure = Units | Cents | Submissions

  function Amount(x: Sample, k: Measure): int {
    match k
    case Units => x.quantity
    case Cents => x.cents
    case Submissions => 1
  }

  /** The figure over the samples of one month. */
  function MonthSum(s: seq<Sample>, month: int, k: Measure): int {
    if s == [] then 0
    else
      var x := s[|s| - 1];
      MonthSum(s[..|s| - 1], month, k) + (if x.month == month then Amount(x, k) else 0)
  }

  /** The figure over all the samples of the year. */
  function Total(s: seq<Sample>, k: Measure): int {
    if s == [] then 0 else Total(s[..|s| - 1], k) + Amount(s[|s| - 1], k)
  }

  /** The twelve monthly figures, January first. */
  function Months(s: seq<Sample>, k: Measure): (totals: seq<int>)
    ensures |totals| == 12
    ensures forall m | 1 <= m <= 12 :: totals[m - 1] == MonthSum(s, m, k)
  {
    seq(12, j requires 0 <= j < 12 => MonthSum(s, j + 1, k))
  }

  function Sum(xs: seq<int>): int {
    if xs == [] then 0 else Sum(xs[..|xs| - 1]) + xs[|xs| - 1]
  }

  /** `defaultdict.get(month, 0)` */
  function Get(acc: map<int, int>, month: int): int {
    if month in acc then acc[month] else 0
  }

  /** One accumulation loop of the tab (`month_quantity[m] += q`, likewise
      for the cost and the `Counter`), followed by the dictionary that
      fills every month without data with 0 in January..December order. */
  method Accumulate(s: seq<Sample>, k: Measure) returns (totals: seq<int>)
    requires InCalendar(s)
    ensures totals == Months(s, k)
  {
    var acc: map<int, int> := map[];
    var i := 0;
    while i < |s|
      invariant 0 <= i <= |s|
      invariant forall m | 1 <= m <= 12 :: Get(acc, m) == MonthSum(s[..i], m, k)
    {
      var x := s[i];
      assert s[..i + 1] == s[..i] + [x];
      acc := acc[x.month := Get(acc, x.month) + Amount(x, k)];
      i := i + 1;
    }
    assert s[..i] == s;
    totals := seq(12, j requires 0 <= j < 12 => Get(acc, j + 1));
  }

  /** The three monthly series the charts draw. */
  datatype Chart = Chart(quantity: seq<int>, cost: seq<int>, submissions: seq<int>)

  /** The data preparation of the tab for the selected year: the records of
      that year, their samples, and the three monthly roll-ups; `None` where
      the page raises `ValueError` on the way. */
  method MonthlyCharts(owned: seq<Row>, year: Option<int>) returns (chart: Option<Chart>)
    requires PageRows(owned)
    ensures chart.Some? <==>
      ChartRecords(owned, year).Some? && Samples(ChartRecords(owned, year).value).Some?
    ensures chart.Some? ==>
      var records := ChartRecords(owned, year).value;
      var s := Samples(records).value;
      && chart.value == Chart(Months(s, Units), Months(s, Cents), Months(s, Submissions))
      && Sum(chart.value.quantity) == Total(s, Units)
      && Sum(chart.value.cost) == Total(s, Cents)
      && Sum(chart.value.submissions) == |records|
  {
    var records := ChartRecords(owned, year);
    if records.None? {
      return None;
    }
    var samples := Samples(records.value);
    if samples.None? {
      return None;
    }
    var s := samples.value;
    SamplesInCalendar(records.value);
    var quantity := Accumulate(s, Units);
    var cost := Accumulate(s, Cents);
    var submissions := Accumulate(s, Submissions);
    MonthsAddUp(s, Units);
    MonthsAddUp(s, Cents);
    MonthsAddUp(s, Submissions);
    SubmissionsCount(s);
    chart := Some(Chart(quantity, cost, submissions));
  }

  /** Raising one entry raises the sum by as much. */
  lemma {:induction false} SumUpdate(xs: seq<int>, j: nat, d: int)
    requires j < |xs|
    ensures Sum(xs[j := xs[j] + d]) == Sum(xs) + d
  {
    var n := |xs|;
    var ys := xs[j := xs[j] + d];
    if j < n - 1 {
      assert ys[..n - 1] == xs[..n - 1][j := xs[j] + d];
      SumUpdate(xs[..n - 1], j, d);
    } else {
      assert ys[..n - 1] == xs[..n - 1];
    }
  }

  lemma {:induction false} SumOfZeros(xs: seq<int>)
    requires forall i | 0 <= i < |xs| :: xs[i] == 0
    ensures Sum(xs) == 0
  {
    if xs != [] {
      SumOfZeros(xs[..|xs| - 1]);
    }
  }

  /** A further sample changes only the figure of its own month. */
  lemma MonthsStep(s: seq<Sample>, x: Sample, k: Measure)
    requires 1 <= x.month <= 12
    ensures Months(s + [x], k) == Months(s, k)[x.month - 1 := Months(s, k)[x.month - 1] + Amount(x, k)]
  {
    assert (s + [x])[..|s|] == s;
  }

  /** The twelve monthly figures add up to the figure of the whole year. */
  lemma {:induction false} MonthsAddUp(s: seq<Sample>, k: Measure)
    requires InCalendar(s)
    ensures Sum(Months(s, k)) == Total(s, k)
  {
    if s == [] {
      SumOfZeros(Months(s, k));
    } else {
      var p, x := s[..|s| - 1], s[|s| - 1];
      assert s == p + [x];
      MonthsAddUp(p, k);
      MonthsStep(p, x, k);
      SumUpdate(Months(p, k), x.month - 1, Amount(x, k));
    }
  }

  /** Every sample counts one submission. */
  lemma {:induction false} SubmissionsCount(s: seq<Sample>)
    ensures Total(s, Submissions) == |s|
  {
    if s != [] {
      SubmissionsCount(s[..|s| - 1]);
    }
  }

  /** A month in which no record was submitted shows 0 in all three charts. */
  lemma {:induction false} EmptyMonthIsZero(s: seq<Sample>, month: int, k: Measure)
    requires forall i | 0 <= i < |s| :: s[i].month != month
    ensures MonthSum(s, month, k) == 0
  {
    if s != [] {
      EmptyMonthIsZero(s[..|s| - 1], month, k);
    }
  }

  /** A month's figure is the figure of the year's samples in that month. */
  lemma {:induction false} MonthIsItsSamples(s: seq<Sample>, month: int, k: Measure)
    ensures MonthSum(s, month, k) == Total(OfMonth(s, month), k)
  {
    if s != [] {
      var p, x := s[..|s| - 1], s[|s| - 1];
      MonthIsItsSamples(p, month, k);
      if x.month == month {
        var m := OfMonth(s, month);
        assert m == OfMonth(p, month) + [x];
        assert m[..|m| - 1] == OfMonth(p, month);
        assert Total(m, k) == Total(OfMonth(p, month), k) + Amount(x, k);
        assert MonthSum(s, month, k) == MonthSum(p, month, k) + Amount(x, k);
      } else {
        assert OfMonth(s, month) == OfMonth(p, month);
      }
    }
  }

  /** The samples of one month, in order. */
  function OfMonth(s: seq<Sample>, month: int): (m: seq<Sample>)
    ensures forall i | 0 <= i < |m| :: m[i].month == month
    ensures forall x :: x in m <==> x in s && x.month == month
  {
    if s == [] then []
    else
      var x := s[|s| - 1];
      assert s == s[..|s| - 1] + [x];
      OfMonth(s[..|s| - 1], month) + (if x.month == month then [x] else [])
  }
}
