/** Calendar dates and date-times as Python's `datetime` holds them, their
    text form `DD/MM/YYYY HH:MM:SS` (the format both pages pass to
    `strftime` and `strptime`) and their order in time. */
module DateTimes {
  import opened Wrappers
  import opened Text

  datatype Date = Date(day: int, month: int, year: int)

  datatype DateTime = DateTime(date: Date, hour: int, minute: int, second: int)

  predicate IsLeapYear(year: int) {
    year % 4 == 0 && (year % 100 != 0 || year % 400 == 0)
  }

  function DaysInMonth(month: int, year: int): (days: int)
    requires 1 <= month <= 12
    ensures 28 <= days <= 31
  {
    if month == 2 then (if IsLeapYear(year) then 29 else 28)
    else if month in {4, 6, 9, 11} then 30
    else 31
  }

  /** The dates `datetime.date` accepts. */
  predicate ValidDate(d: Date) {
    && 1 <= d.year <= 9999
    && 1 <= d.month <= 12
    && 1 <= d.day <= DaysInMonth(d.month, d.year)
  }

  predicate ValidDateTime(t: DateTime) {
    && ValidDate(t.date)
    && 0 <= t.hour < 24 && 0 <= t.minute < 60 && 0 <= t.second < 60
  }

  /** `strftime("%d/%m/%Y")` */
  function DateText(d: Date): (s: string)
    requires ValidDate(d)
    ensures |s| == 10 && s[2] == '/' && s[5] == '/'
  {
    Pad2(d.day) + "/" + Pad2(d.month) + "/" + Year4(d.year)
  }

  /** Where the fields of a formatted date sit in its text. */
  lemma DateTextFields(d: Date)
    requires ValidDate(d)
    ensures var s := DateText(d);
      s[0..2] == Pad2(d.day) && s[3..5] == Pad2(d.month) && s[6..10] == Year4(d.year)
  {
  }

  /** `strftime("%d/%m/%Y %H:%M:%S")` */
  function DateTimeText(t: DateTime): (s: string)
    requires ValidDateTime(t)
    ensures |s| == 19
  {
    DateText(t.date) + " " + TimeText(t)
  }

  /** `strftime("%H:%M:%S")` */
  function TimeText(t: DateTime): (s: string)
    requires ValidDateTime(t)
    ensures |s| == 8 && s[2] == ':' && s[5] == ':'
  {
    Pad2(t.hour) + ":" + Pad2(t.minute) + ":" + Pad2(t.second)
  }

  /** Where the fields of a formatted time sit in its text. */
  lemma TimeTextFields(t: DateTime)
    requires ValidDateTime(t)
    ensures var s := TimeText(t);
      s[0..2] == Pad2(t.hour) && s[3..5] == Pad2(t.minute) && s[6..8] == Pad2(t.second)
  {
  }

  /** `strptime(s, "%d/%m/%Y %H:%M:%S")` for text laid out exactly as
      `DateTimeText` writes it; `None` where Python raises `ValueError`. */
  function ParseDateTime(s: string): (r: Option<DateTime>)
    ensures r.Some? ==> ValidDateTime(r.value)
  {
    if && |s| == 19
       && s[2] == '/' && s[5] == '/' && s[10] == ' ' && s[13] == ':' && s[16] == ':'
       && AllDigits(s[0..2]) && AllDigits(s[3..5]) && AllDigits(s[6..10])
       && AllDigits(s[11..13]) && AllDigits(s[14..16]) && AllDigits(s[17..19])
    then
      var t := DateTime(Date(ParseDigits(s[0..2]), ParseDigits(s[3..5]), ParseDigits(s[6..10])),
                        ParseDigits(s[11..13]), ParseDigits(s[14..16]), ParseDigits(s[17..19]));
      if ValidDateTime(t) then Some(t) else None
    else
      None
  }

  /** Where the fields of a formatted date-time sit in its text. */
  lemma DateTimeTextFields(t: DateTime)
    requires ValidDateTime(t)
    ensures var s := DateTimeText(t);
      && s[0..2] == Pad2(t.date.day) && s[3..5] == Pad2(t.date.month) && s[6..10] == Year4(t.date.year)
      && s[11..13] == Pad2(t.hour) && s[14..16] == Pad2(t.minute) && s[17..19] == Pad2(t.second)
      && s[2] == '/' && s[5] == '/' && s[10] == ' ' && s[13] == ':' && s[16] == ':'
      && s[..10] == DateText(t.date)
  {
    var d, u := DateText(t.date), TimeText(t);
    DateTextFields(t.date);
    TimeTextFields(t);
    var s := DateTimeText(t);
    assert s[..10] == d && s[11..] == u;
    assert s[0..2] == d[0..2] && s[3..5] == d[3..5] && s[6..10] == d[6..10];
    assert s[11..13] == u[0..2] && s[14..16] == u[3..5] && s[17..19] == u[6..8];
  }

  /** Every date-time the app writes is read back unchanged. */
  lemma ParseFormattedDateTime(t: DateTime)
    requires ValidDateTime(t)
    ensures ParseDateTime(DateTimeText(t)) == Some(t)
  {
    DateTimeTextFields(t);
  }

  /** Every text that parses is exactly the canonical text of its value. */
  lemma FormatParsedDateTime(s: string)
    requires ParseDateTime(s).Some?
    ensures DateTimeText(ParseDateTime(s).value) == s
  {
    var t := ParseDateTime(s).value;
    Pad2OfTwoDigits(s[0..2]);
    Pad2OfTwoDigits(s[3..5]);
    Year4OfFourDigits(s[6..10]);
    Pad2OfTwoDigits(s[11..13]);
    Pad2OfTwoDigits(s[14..16]);
    Pad2OfTwoDigits(s[17..19]);
    DateTimeTextFields(t);
    SameLayout(DateTimeText(t), s);
  }

  /** Two 19-character texts agreeing on every field and separator of the
      timestamp layout are equal. */
  lemma SameLayout(u: string, s: string)
    requires |u| == 19 && |s| == 19
    requires u[0..2] == s[0..2] && u[3..5] == s[3..5] && u[6..10] == s[6..10]
    requires u[11..13] == s[11..13] && u[14..16] == s[14..16] && u[17..19] == s[17..19]
    requires u[2] == s[2] && u[5] == s[5] && u[10] == s[10] && u[13] == s[13] && u[16] == s[16]
    ensures u == s
  {
    assert s == s[0..2] + [s[2]] + s[3..5] + [s[5]] + s[6..10] + [s[10]] + s[11..13] + [s[13]] + s[14..16] + [s[16]] + s[17..19];
    assert u == u[0..2] + [u[2]] + u[3..5] + [u[5]] + u[6..10] + [u[10]] + u[11..13] + [u[13]] + u[14..16] + [u[16]] + u[17..19];
  }

  /** The first ten characters of a parseable timestamp are its date. */
  lemma ParsedDatePrefix(s: string)
    requires ParseDateTime(s).Some?
    ensures s[..10] == DateText(ParseDateTime(s).value.date)
  {
    FormatParsedDateTime(s);
    DateTimeTextFields(ParseDateTime(s).value);
  }

  /** Two dates with the same text are the same date. */
  lemma DateTextInjective(a: Date, b: Date)
    requires ValidDate(a) && ValidDate(b)
    requires DateText(a) == DateText(b)
    ensures a == b
  {
    var s := DateText(a);
    DateTextFields(a);
    DateTextFields(b);
    assert s[0..2] == Pad2(a.day) == Pad2(b.day);
    assert s[3..5] == Pad2(a.month) == Pad2(b.month);
    assert s[6..10] == Year4(a.year) == Year4(b.year);
  }

  /** `a > b` on `datetime` values: `a` is strictly later in time. */
  predicate Later(a: DateTime, b: DateTime) {
    || a.date.year > b.date.year
    || (a.date.year == b.date.year && a.date.month > b.date.month)
    || (a.date.year == b.date.year && a.date.month == b.date.month && a.date.day > b.date.day)
    || (a.date == b.date && a.hour > b.hour)
    || (a.date == b.date && a.hour == b.hour && a.minute > b.minute)
    || (a.date == b.date && a.hour == b.hour && a.minute == b.minute && a.second > b.second)
  }

  /** `Later` is a strict total order on date-times. */
  lemma LaterIsStrictTotalOrder(a: DateTime, b: DateTime, c: DateTime)
    ensures !Later(a, a)
    ensures Later(a, b) ==> !Later(b, a)
    ensures Later(a, b) && Later(b, c) ==> Later(a, c)
    ensures a != b ==> Later(a, b) || Later(b, a)
    ensures !Later(a, b) && !Later(b, c) ==> !Later(a, c)
  {
  }

  /** `calendar.month_name[1:]` */
  const MonthNames: seq<string> :=
    ["January", "February", "March", "April", "May", "June", "July",
     "August", "September", "October", "November", "December"]

  /** `calendar.month_name[month]` */
  function MonthName(month: int): string
    requires 1 <= month <= 12
  {
    MonthNames[month - 1]
  }

  /** The first position of `x` in `xs`; `None` where `list.index` raises
      `ValueError`. */
  function Position<T(==)>(xs: seq<T>, x: T): (p: Option<int>)
    ensures p.Some? <==> x in xs
    ensures p.Some? ==> 0 <= p.value < |xs| && xs[p.value] == x && x !in xs[..p.value]
  {
    if xs == [] then None
    else if xs[0] == x then Some(0)
    else match Position(xs[1..], x)
      case None => None
      case Some(q) => assert xs[..q + 1] == [xs[0]] + xs[1..][..q]; Some(q + 1)
  }

  /** `list(calendar.month_name).index(name)`: the list starts with an
      empty name, so the months are numbered from 1. */
  function MonthNumber(name: string): Option<int> {
    Position([""] + MonthNames, name)
  }

  /** Converting the chosen month's name back to a number gives the month. */
  lemma MonthNumberOfName(month: int)
    requires 1 <= month <= 12
    ensures MonthNumber(MonthName(month)) == Some(month)
  {
    var names := [""] + MonthNames;
    var p := MonthNumber(MonthName(month)).value;
    assert names[month] == MonthName(month) == names[p];
    if p != month {
      MonthNamesDistinct(if p < month then p else month, if p < month then month else p);
    }
  }

  /** No two months share a name, and none is empty: the length and the
      first and third letters already tell them apart. */
  lemma MonthNamesDistinct(i: int, j: int)
    requires 0 <= i < j <= 12
    ensures ([""] + MonthNames)[i] != ([""] + MonthNames)[j]
  {
    var names := [""] + MonthNames;
    var a, b := names[i], names[j];
    if |a| == |b| && |a| >= 3 {
      assert a[0] != b[0] || a[2] != b[2];
    }
  }
}
