/** Character classes, decimal text, money text and the two regular
    expressions the forms test fields against.  Strings are `seq<char>`;
    only the ASCII behaviour of Python's `str` methods is modelled. */
module Text {
  import opened Wrappers

  // ---------------------------------------------------------------------
  // Character classes
  // ---------------------------------------------------------------------

  /** `[0-9]` */
  predicate IsDigit(c: char) { '0' <= c <= '9' }

  /** `[A-Za-z0-9]` */
  predicate IsAsciiAlnum(c: char) { 'a' <= c <= 'z' || 'A' <= c <= 'Z' || IsDigit(c) }

  /** Python's `str.isspace()` for one character: exactly the characters
      that `str.strip()` with no argument removes. */
  predicate IsSpace(c: char) {
    || '\t' <= c <= '\r'
    || '\U{1C}' <= c <= ' '
    || c == '\U{85}' || c == '\U{A0}' || c == '\U{1680}'
    || '\U{2000}' <= c <= '\U{200A}'
    || c == '\U{2028}' || c == '\U{2029}' || c == '\U{202F}' || c == '\U{205F}' || c == '\U{3000}'
  }

  predicate AllDigits(s: string) { forall i | 0 <= i < |s| :: IsDigit(s[i]) }

  /** `not s.strip()`: the text is empty once surrounding white space is removed. */
  predicate Blank(s: string) { forall i | 0 <= i < |s| :: IsSpace(s[i]) }

  /** Python's `str.lower()` restricted to ASCII letters. */
  function AsciiLower(s: string): (r: string)
    ensures |r| == |s|
    ensures forall i | 0 <= i < |s| :: r[i] == (if 'A' <= s[i] <= 'Z' then (s[i] as int + 32) as char else s[i])
  {
    if s == [] then []
    else [if 'A' <= s[0] <= 'Z' then (s[0] as int + 32) as char else s[0]] + AsciiLower(s[1..])
  }

  /** The position of the first `c` in `s`, or `|s|` when there is none. */
  function IndexOf(s: string, c: char): (k: nat)
    ensures k <= |s|
    ensures k < |s| ==> s[k] == c
    ensures forall i | 0 <= i < k :: s[i] != c
  {
    if s == [] then 0 else if s[0] == c then 0 else 1 + IndexOf(s[1..], c)
  }

  // ---------------------------------------------------------------------
  // The two "has a letter or number" tests
  // ---------------------------------------------------------------------

  /** `re.search(r"[A-Za-z0-9]", s)`: some ASCII letter or digit anywhere. */
  predicate HasAlnum(s: string) { exists i | 0 <= i < |s| :: IsAsciiAlnum(s[i]) }

  /** `re.match(r"^(?=.*[A-Za-z0-9]).*$", s)`.  Because `.` stops at a
      newline and `$` also matches just before a final newline, this holds
      iff the first line has an ASCII letter or digit and the only newline,
      if any, is the last character. */
  predicate HasAlnumLine(s: string) {
    var k := IndexOf(s, '\n');
    HasAlnum(s[..k]) && k + 1 >= |s|
  }

  /** The same pattern read as regular-expression semantics: the look-ahead
      finds a letter or digit at some `j` reached by `.*` from the start, and
      `.*` reaches some end `p` at which `$` holds. */
  ghost predicate AlnumLineRegex(s: string) {
    && (exists j | 0 <= j < |s| :: '\n' !in s[..j] && IsAsciiAlnum(s[j]))
    && (exists p | 0 <= p <= |s| :: '\n' !in s[..p] && (p == |s| || (p == |s| - 1 && s[p] == '\n')))
  }

  lemma AlnumLineMatchesRegex(s: string)
    ensures HasAlnumLine(s) <==> AlnumLineRegex(s)
  {
    var k := IndexOf(s, '\n');
    assert '\n' !in s[..k];
    if HasAlnumLine(s) {
      var j :| 0 <= j < k && IsAsciiAlnum(s[..k][j]);
      assert s[..j] == s[..k][..j];
      assert '\n' !in s[..j] && IsAsciiAlnum(s[j]);
      var p := if k == |s| then |s| else k;
      assert s[..p] == s[..k];
    }
    if AlnumLineRegex(s) {
      var j :| 0 <= j < |s| && '\n' !in s[..j] && IsAsciiAlnum(s[j]);
      assert forall i | 0 <= i < j :: s[..j][i] == s[i];
      assert j < k;
      assert s[..k][j] == s[j];
      var p :| 0 <= p <= |s| && '\n' !in s[..p] && (p == |s| || (p == |s| - 1 && s[p] == '\n'));
      assert forall i | 0 <= i < p :: s[..p][i] == s[i];
      assert p <= k;
    }
  }

  /** A field that passes the match test is never blank. */
  lemma AlnumLineNotBlank(s: string)
    requires HasAlnumLine(s)
    ensures !Blank(s)
  {
    var k := IndexOf(s, '\n');
    var j :| 0 <= j < k && IsAsciiAlnum(s[..k][j]);
    assert s[j] == s[..k][j] && !IsSpace(s[j]);
  }

  /** The match test is stricter than the search test. */
  lemma AlnumLineHasAlnum(s: string)
    requires HasAlnumLine(s)
    ensures HasAlnum(s)
  {
    var k := IndexOf(s, '\n');
    var j :| 0 <= j < k && IsAsciiAlnum(s[..k][j]);
    assert s[j] == s[..k][j];
  }

  // ---------------------------------------------------------------------
  // Decimal numbers
  // ---------------------------------------------------------------------

  function DigitChar(d: nat): (c: char)
    requires d < 10
    ensures IsDigit(c)
  {
    ('0' as int + d) as char
  }

  function DigitValue(c: char): (d: nat)
    requires IsDigit(c)
    ensures d < 10 && DigitChar(d) == c
  {
    c as int - '0' as int
  }

  lemma DigitRoundTrip(d: nat)
    requires d < 10
    ensures DigitValue(DigitChar(d)) == d
  {
  }

  /** The value of a two-digit string, digit by digit. */
  lemma ParseTwoDigits(s: string)
    requires |s| == 2 && AllDigits(s)
    ensures ParseDigits(s) == 10 * DigitValue(s[0]) + DigitValue(s[1])
  {
    var t := s[..1];
    assert ParseDigits(s) == 10 * ParseDigits(t) + DigitValue(s[1]);
    assert t[..0] == [];
    assert ParseDigits(t) == 10 * ParseDigits(t[..0]) + DigitValue(t[0]);
  }

  /** Appending two digits shifts the value by two decimal places. */
  lemma ParseAppendTwoDigits(x: string, y: string)
    requires AllDigits(x) && |y| == 2 && AllDigits(y)
    ensures AllDigits(x + y)
    ensures ParseDigits(x + y) == 100 * ParseDigits(x) + ParseDigits(y)
  {
    var z := x + y;
    var w := x + [y[0]];
    assert z[..|z| - 1] == w;
    assert w[..|w| - 1] == x;
    assert ParseDigits(z) == 10 * ParseDigits(w) + DigitValue(y[1]);
    assert ParseDigits(w) == 10 * ParseDigits(x) + DigitValue(y[0]);
    ParseTwoDigits(y);
  }

  /** `str(n)` for a non-negative integer. */
  function NatToString(n: nat): (s: string)
    ensures 1 <= |s| && AllDigits(s)
    ensures n >= 10 ==> 2 <= |s|
  {
    if n < 10 then [DigitChar(n)] else NatToString(n / 10) + [DigitChar(n % 10)]
  }

  /** `int(s)` for a string of ASCII digits (the empty string gives 0). */
  function ParseDigits(s: string): nat
    requires AllDigits(s)
  {
    if s == [] then 0 else 10 * ParseDigits(s[..|s| - 1]) + DigitValue(s[|s| - 1])
  }

  lemma {:induction false} ParseNatToString(n: nat)
    ensures ParseDigits(NatToString(n)) == n
  {
    if n >= 10 {
      var s := NatToString(n / 10);
      ParseNatToString(n / 10);
      var t := s + [DigitChar(n % 10)];
      assert t[..|t| - 1] == s;
    }
  }

  /** `f"{n:02d}"`: the decimal digits of `n`, zero-padded to at least two. */
  function Pad2(n: nat): (s: string)
    ensures 2 <= |s| && AllDigits(s)
    ensures ParseDigits(s) == n
    ensures n < 100 ==> |s| == 2
  {
    if n < 10 then
      var s := [DigitChar(0), DigitChar(n)];
      ParseTwoDigits(s);
      s
    else
      ParseNatToString(n);
      NatToString(n)
  }

  /** A two-digit field reads back as the same text after formatting. */
  lemma Pad2OfTwoDigits(s: string)
    requires |s| == 2 && AllDigits(s)
    ensures Pad2(ParseDigits(s)) == s
  {
    ParseTwoDigits(s);
    var v := ParseDigits(s);
    if v >= 10 {
      assert v / 10 == DigitValue(s[0]) && v % 10 == DigitValue(s[1]);
      assert NatToString(v / 10) == [s[0]];
    }
  }

  /** `strftime("%Y")` for years 1000 to 9999: a year as four digits. */
  function Year4(y: nat): (s: string)
    requires y < 10000
    ensures |s| == 4 && AllDigits(s)
    ensures ParseDigits(s) == y
  {
    ParseAppendTwoDigits(Pad2(y / 100), Pad2(y % 100));
    Pad2(y / 100) + Pad2(y % 100)
  }

  /** A four-digit field reads back as the same text after formatting. */
  lemma Year4OfFourDigits(s: string)
    requires |s| == 4 && AllDigits(s)
    ensures ParseDigits(s) < 10000 && Year4(ParseDigits(s)) == s
  {
    var hi, lo := s[..2], s[2..];
    assert s == hi + lo;
    ParseAppendTwoDigits(hi, lo);
    ParseTwoDigits(hi);
    ParseTwoDigits(lo);
    var y := ParseDigits(s);
    assert y / 100 == ParseDigits(hi) && y % 100 == ParseDigits(lo);
    Pad2OfTwoDigits(hi);
    Pad2OfTwoDigits(lo);
  }

  // ---------------------------------------------------------------------
  // Money, held in cents
  // ---------------------------------------------------------------------

  /** `f"{x:.2f}"` for an amount of `cents` hundredths. */
  function FormatCents(cents: int): string {
    if cents < 0 then "-" + UnsignedMoney(-cents) else UnsignedMoney(cents)
  }

  /** The money text of an amount without its sign: the whole units, a
      point and two decimals. */
  function UnsignedMoney(a: nat): string {
    NatToString(a / 100) + "." + Pad2(a % 100)
  }

  /** `float(s)` in cents for the money text the forms write, exactly
      `[-]digits.dd`; any other text gives `None`.  `FloatCents` below
      reads the wider decimal forms and agrees with it here. */
  function ParseCents(s: string): Option<int> {
    if |s| > 0 && s[0] == '-' then
      match ParseUnsignedCents(s[1..])
      case Some(a) => Some(-a)
      case None => None
    else
      ParseUnsignedCents(s)
  }

  function ParseUnsignedCents(s: string): (r: Option<int>)
    ensures r.Some? ==> r.value >= 0
  {
    if 4 <= |s| && s[|s| - 3] == '.' && AllDigits(s[..|s| - 3]) && AllDigits(s[|s| - 2..])
    then Some(100 * ParseDigits(s[..|s| - 3]) + ParseDigits(s[|s| - 2..]))
    else None
  }

  /** Whole units and two decimals read back as their amount. */
  lemma ParseUnsignedParts(whole: nat, frac: nat)
    requires frac < 100
    ensures ParseUnsignedCents(NatToString(whole) + "." + Pad2(frac)) == Some(100 * whole + frac)
  {
    var w, f := NatToString(whole), Pad2(frac);
    var u := w + "." + f;
    assert u[..|u| - 3] == w && u[|u| - 2..] == f && u[|u| - 3] == '.';
    ParseNatToString(whole);
  }

  /** The unsigned part of money text reads back as its amount. */
  lemma ParseUnsignedFormat(a: nat)
    ensures ParseUnsignedCents(NatToString(a / 100) + "." + Pad2(a % 100)) == Some(a)
  {
    ParseUnsignedParts(a / 100, a % 100);
  }

  lemma ParsePlainMoney(a: nat)
    ensures ParseCents(UnsignedMoney(a)) == Some(a)
  {
    ParseUnsignedFormat(a);
    assert UnsignedMoney(a)[0] == NatToString(a / 100)[0];
  }

  lemma ParseNegativeMoney(a: nat)
    ensures ParseCents("-" + UnsignedMoney(a)) == Some(-(a as int))
  {
    ParseUnsignedFormat(a);
    assert ("-" + UnsignedMoney(a))[1..] == UnsignedMoney(a);
  }

  /** Money text written by the forms reads back as the same amount. */
  lemma ParseFormatCents(cents: int)
    ensures ParseCents(FormatCents(cents)) == Some(cents)
  {
    if cents < 0 {
      var a: nat := -cents;
      var u := UnsignedMoney(a);
      assert FormatCents(cents) == "-" + u;
      ParseNegativeMoney(a);
      assert ParseCents("-" + u) == Some(cents);
    } else {
      ParsePlainMoney(cents);
    }
  }

  // ---------------------------------------------------------------------
  // Lines
  // ---------------------------------------------------------------------

  /** `"\n".join(lines)` */
  function JoinLines(lines: seq<string>): string
    requires |lines| >= 1
  {
    if |lines| == 1 then lines[0] else lines[0] + "\n" + JoinLines(lines[1..])
  }

  /** `s.split("\n")` */
  function SplitLines(s: string): (lines: seq<string>)
    ensures |lines| >= 1
    decreases |s|
  {
    var k := IndexOf(s, '\n');
    if k == |s| then [s] else [s[..k]] + SplitLines(s[k + 1..])
  }

  /** The first occurrence of `c` in `a + [c] + b` when `a` lacks it. */
  lemma IndexOfJoin(a: string, c: char, b: string)
    requires c !in a
    ensures IndexOf(a + [c] + b, c) == |a|
    ensures (a + [c] + b)[..|a|] == a && (a + [c] + b)[|a| + 1..] == b
  {
    var s := a + [c] + b;
    assert s[|a|] == c;
  }

  /** Joining lines that hold no newline can be undone by splitting. */
  lemma {:induction false} SplitJoinLines(lines: seq<string>)
    requires |lines| >= 1
    requires forall i | 0 <= i < |lines| :: '\n' !in lines[i]
    ensures SplitLines(JoinLines(lines)) == lines
  {
    var l := lines[0];
    if |lines| == 1 {
      assert IndexOf(l, '\n') == |l|;
    } else {
      var rest := JoinLines(lines[1..]);
      assert JoinLines(lines) == l + ['\n'] + rest;
      IndexOfJoin(l, '\n', rest);
      SplitJoinLines(lines[1..]);
      assert lines == [l] + lines[1..];
    }
  }

  // ---------------------------------------------------------------------
  // Numbers read from cell text: `int(s)` and `float(s)`
  // ---------------------------------------------------------------------

  /** The number of white-space characters at the start of `s`. */
  function LeadingSpace(s: string): (n: nat)
    ensures n <= |s| && Blank(s[..n])
    ensures n < |s| ==> !IsSpace(s[n])
  {
    if s != [] && IsSpace(s[0]) then
      var m := LeadingSpace(s[1..]);
      assert s[..1 + m] == [s[0]] + s[1..][..m];
      1 + m
    else 0
  }

  /** The number of white-space characters at the end of `s`. */
  function TrailingSpace(s: string): (n: nat)
    ensures n <= |s| && Blank(s[|s| - n..])
    ensures n < |s| ==> !IsSpace(s[|s| - n - 1])
  {
    if s != [] && IsSpace(s[|s| - 1]) then
      var p := s[..|s| - 1];
      var m := TrailingSpace(p);
      assert s[|s| - 1 - m..] == p[|p| - m..] + [s[|s| - 1]];
      1 + m
    else 0
  }

  /** `s.strip()`, as `int()` and `float()` apply it: the text without its
      leading and trailing white space. */
  function Strip(s: string): (t: string)
    ensures t == [] <==> Blank(s)
    ensures t != [] ==> !IsSpace(t[0]) && !IsSpace(t[|t| - 1])
  {
    var i := LeadingSpace(s);
    var rest := s[i..];
    var j := TrailingSpace(rest);
    if rest == [] then
      assert s == s[..i];
      []
    else
      assert !IsSpace(rest[0]);
      assert j < |rest|;
      assert !Blank(s) by { assert s[i] == rest[0]; }
      rest[..|rest| - j]
  }

  /** Stripping undoes surrounding a text that starts and ends with no
      white space by white space. */
  lemma StripPadded(w1: string, t: string, w2: string)
    requires Blank(w1) && Blank(w2)
    requires t != [] ==> !IsSpace(t[0]) && !IsSpace(t[|t| - 1])
    ensures Strip(w1 + t + w2) == t
  {
    var s := w1 + t + w2;
    var i := LeadingSpace(s);
    assert forall k | 0 <= k < |w1| :: s[k] == w1[k];
    if t == [] {
      assert forall k | 0 <= k < |s| :: IsSpace(s[k]) by {
        forall k | 0 <= k < |s| ensures IsSpace(s[k]) {
          if k >= |w1| { assert s[k] == w2[k - |w1|]; }
        }
      }
    } else {
      assert forall k | 0 <= k < i :: IsSpace(s[k]) by {
        forall k | 0 <= k < i ensures IsSpace(s[k]) { assert s[..i][k] == s[k]; }
      }
      assert s[|w1|] == t[0];
      if i < |w1| {
        assert false;
      } else if i > |w1| {
        assert false;
      }
      var rest := s[i..];
      assert rest == t + w2;
      var j := TrailingSpace(rest);
      assert forall k | |rest| - j <= k < |rest| :: IsSpace(rest[k]) by {
        forall k | |rest| - j <= k < |rest| ensures IsSpace(rest[k]) {
          assert rest[|rest| - j..][k - (|rest| - j)] == rest[k];
        }
      }
      assert forall k | |t| <= k < |rest| :: rest[k] == w2[k - |t|];
      assert rest[|t| - 1] == t[|t| - 1];
      if j < |w2| {
        assert false;
      } else if j > |w2| {
        assert false;
      }
      assert rest[..|rest| - j] == t;
    }
  }

  /** `str(n)` for an integer. */
  function IntegerText(n: int): (s: string)
    ensures |s| >= 1 && !IsSpace(s[0]) && !IsSpace(s[|s| - 1])
  {
    if n < 0 then "-" + NatToString(-n) else NatToString(n)
  }

  /** An optional sign and one or more digits. */
  function SignedDigits(t: string): Option<int> {
    if |t| > 0 && (t[0] == '-' || t[0] == '+') then
      if |t| > 1 && AllDigits(t[1..]) then
        Some(if t[0] == '-' then -(ParseDigits(t[1..]) as int) else ParseDigits(t[1..]))
      else None
    else if |t| > 0 && AllDigits(t) then Some(ParseDigits(t))
    else None
  }

  /** `int(s)` for text: an optional sign and one or more digits, with
      white space around them; `None` where Python raises `ValueError`. */
  function ParseInt(s: string): Option<int> {
    SignedDigits(Strip(s))
  }

  /** `int(str(n))` is `n`, with or without white space around the text. */
  lemma ParseIntegerText(n: int, w1: string, w2: string)
    requires Blank(w1) && Blank(w2)
    ensures ParseInt(w1 + IntegerText(n) + w2) == Some(n)
  {
    StripPadded(w1, IntegerText(n), w2);
    SignedDigitsOfIntegerText(n);
  }

  lemma SignedDigitsOfIntegerText(n: int)
    ensures SignedDigits(IntegerText(n)) == Some(n)
  {
    var t := IntegerText(n);
    if n < 0 {
      var d := NatToString(-n);
      assert t == "-" + d;
      assert t[1..] == d;
      ParseNatToString(-n);
    } else {
      assert IsDigit(t[0]);
      ParseNatToString(n);
    }
  }

  predicate AllZeros(s: string) { forall i | 0 <= i < |s| :: s[i] == '0' }

  /** The cents of the decimals after the point: the first two digits. */
  function FracCents(frac: string): (c: nat)
    requires AllDigits(frac)
    ensures c < 100
  {
    if |frac| == 0 then 0
    else if |frac| == 1 then 10 * DigitValue(frac[0])
    else 10 * DigitValue(frac[0]) + DigitValue(frac[1])
  }

  /** Unsigned decimal text (`digits`, `digits.`, `digits.digits` or
      `.digits`) in cents.  Digits past the second decimal must be zeros:
      any other value is no whole number of cents, and gives `None`. */
  function DecimalCents(s: string): (r: Option<nat>) {
    var k := IndexOf(s, '.');
    var whole := s[..k];
    var frac := if k < |s| then s[k + 1..] else "";
    if AllDigits(whole) && AllDigits(frac) && |whole| + |frac| >= 1
       && AllZeros(frac[if |frac| < 2 then |frac| else 2..])
    then Some(100 * ParseDigits(whole) + FracCents(frac))
    else None
  }

  /** An optional sign and unsigned decimal text, in cents. */
  function SignedDecimal(t: string): Option<int> {
    if |t| > 0 && (t[0] == '-' || t[0] == '+') then
      match DecimalCents(t[1..])
      case None => None
      case Some(a) => Some(if t[0] == '-' then -(a as int) else a)
    else DecimalCents(t)
  }

  /** `float(s)` in cents for text: an optional sign and decimal text,
      with white space around them. */
  function FloatCents(s: string): Option<int> {
    SignedDecimal(Strip(s))
  }

  /** Digit text holds no point, so it is all whole units. */
  lemma DecimalOfDigits(d: string)
    requires |d| >= 1 && AllDigits(d)
    ensures DecimalCents(d) == Some(100 * ParseDigits(d))
  {
    assert '.' !in d by {
      forall i | 0 <= i < |d| ensures d[i] != '.' { assert IsDigit(d[i]); }
    }
    assert d[..|d|] == d;
  }

  /** `float(str(n))` is `n` units, with or without white space around. */
  lemma FloatOfIntegerText(n: int, w1: string, w2: string)
    requires Blank(w1) && Blank(w2)
    ensures FloatCents(w1 + IntegerText(n) + w2) == Some(100 * n)
  {
    StripPadded(w1, IntegerText(n), w2);
    SignedDecimalOfIntegerText(n);
  }

  lemma SignedDecimalOfIntegerText(n: int)
    ensures SignedDecimal(IntegerText(n)) == Some(100 * n)
  {
    var t := IntegerText(n);
    if n < 0 {
      var d := NatToString(-n);
      assert t == "-" + d;
      assert t[1..] == d;
      DecimalOfDigits(d);
      ParseNatToString(-n);
    } else {
      assert IsDigit(t[0]);
      DecimalOfDigits(t);
      ParseNatToString(n);
    }
  }

  /** On money text the general reader agrees with the money reader. */
  lemma DecimalOfMoney(u: string)
    requires ParseUnsignedCents(u).Some?
    ensures DecimalCents(u) == ParseUnsignedCents(u)
  {
    var whole, dd := u[..|u| - 3], u[|u| - 2..];
    assert u == whole + ['.'] + dd;
    assert '.' !in whole by {
      forall i | 0 <= i < |whole| ensures whole[i] != '.' { assert IsDigit(whole[i]); }
    }
    IndexOfJoin(whole, '.', dd);
    ParseTwoDigits(dd);
  }

  /** The signed reader agrees with the money reader on money text. */
  lemma SignedDecimalOfMoney(s: string)
    requires ParseCents(s).Some?
    ensures SignedDecimal(s) == ParseCents(s)
  {
    if s[0] == '-' {
      DecimalOfMoney(s[1..]);
    } else {
      assert IsDigit(s[0]);
      DecimalOfMoney(s);
    }
  }

  /** `float()` reads money text such as the page writes, with or without
      white space around it, as the same amount: the general reader
      extends the money reader. */
  lemma FloatOfMoney(s: string, w1: string, w2: string)
    requires Blank(w1) && Blank(w2) && ParseCents(s).Some?
    ensures FloatCents(w1 + s + w2) == ParseCents(s)
  {
    if s[0] == '-' {
      var u := s[1..];
      assert s[|s| - 1] == u[|u| - 1];
    }
    assert IsDigit(s[|s| - 1]);
    StripPadded(w1, s, w2);
    SignedDecimalOfMoney(s);
  }
}
