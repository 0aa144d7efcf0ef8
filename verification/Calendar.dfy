/** Gregorian dates as `YYYY-MM-DD` strings, and the loop over a range of them.
    Full-date syntax and the days of each month follow RFC 3339, section 5.6,
    section 5.7 and Appendix C. */
module Calendar {

  import opened Wrappers

  datatype Date = Date(y: nat, m: nat, d: nat)

  predicate Leap(y: nat) {
    y % 4 == 0 && (y % 100 != 0 || y % 400 == 0)
  }

  function DaysIn(y: nat, m: nat): nat {
    if m == 2 then (if Leap(y) then 29 else 28)
    else if m == 4 || m == 6 || m == 9 || m == 11 then 30
    else 31
  }

  predicate Valid(t: Date) {
    1 <= t.m <= 12 && 1 <= t.d <= DaysIn(t.y, t.m)
  }

  /** AddDate(0, 0, 1): the carry of an overflowing day into month and year. */
  function NextDay(t: Date): (n: Date)
    requires Valid(t)
    ensures Valid(n)
  {
    if t.d < DaysIn(t.y, t.m) then t.(d := t.d + 1)
    else if t.m < 12 then Date(t.y, t.m + 1, 1)
    else Date(t.y + 1, 1, 1)
  }

  /** Before, on instants at midnight. */
  predicate Before(a: Date, b: Date) {
    a.y < b.y || (a.y == b.y && (a.m < b.m || (a.m == b.m && a.d < b.d)))
  }

  // ---------------------------------------------------------------- day numbers

  function DaysOfYear(y: nat): nat { if Leap(y) then 366 else 365 }

  function YearStart(y: nat): nat {
    if y == 0 then 0 else YearStart(y - 1) + DaysOfYear(y - 1)
  }

  /** Days of year y before month m. */
  function MonthStart(y: nat, m: nat): nat {
    if m <= 1 then 0 else MonthStart(y, m - 1) + DaysIn(y, m - 1)
  }

  /** The number of days since 0000-01-01: an independent count of the calendar. */
  function DayNum(t: Date): int {
    YearStart(t.y) + MonthStart(t.y, t.m) + t.d - 1
  }

  /** Rounding up x / k grows exactly after a multiple of k. */
  lemma CeilStep4(x: nat)
    ensures (x + 4) / 4 == (x + 3) / 4 + if x % 4 == 0 then 1 else 0
  {
    var q, r := x / 4, x % 4;
    assert x == 4 * q + r;
  }

  lemma CeilStep100(x: nat)
    ensures (x + 100) / 100 == (x + 99) / 100 + if x % 100 == 0 then 1 else 0
  {
    var q, r := x / 100, x % 100;
    assert x == 100 * q + r;
  }

  lemma CeilStep400(x: nat)
    ensures (x + 400) / 400 == (x + 399) / 400 + if x % 400 == 0 then 1 else 0
  {
    var q, r := x / 400, x % 400;
    assert x == 400 * q + r;
  }

  lemma CenturyLeaps(y: nat)
    ensures y % 400 == 0 ==> y % 100 == 0
    ensures y % 100 == 0 ==> y % 4 == 0
  {
    if y % 400 == 0 {
      var q := y / 400;
      assert y == 100 * (4 * q);
    }
    if y % 100 == 0 {
      var q := y / 100;
      assert y == 4 * (25 * q);
    }
  }

  /** The count agrees with the closed Gregorian formula. */
  lemma {:induction false} YearStartClosed(y: nat)
    ensures YearStart(y) == 365 * y + (y + 3) / 4 - (y + 99) / 100 + (y + 399) / 400
  {
    if y > 0 {
      YearStartClosed(y - 1);
      CeilStep4(y - 1);
      CeilStep100(y - 1);
      CeilStep400(y - 1);
      CenturyLeaps(y - 1);
    }
  }

  lemma YearLength(y: nat)
    ensures MonthStart(y, 12) + DaysIn(y, 12) == DaysOfYear(y)
  {
    assert MonthStart(y, 2) == DaysIn(y, 1);
    assert MonthStart(y, 3) == DaysIn(y, 1) + DaysIn(y, 2);
    assert MonthStart(y, 5) == MonthStart(y, 3) + DaysIn(y, 3) + DaysIn(y, 4);
    assert MonthStart(y, 7) == MonthStart(y, 5) + DaysIn(y, 5) + DaysIn(y, 6);
    assert MonthStart(y, 9) == MonthStart(y, 7) + DaysIn(y, 7) + DaysIn(y, 8);
    assert MonthStart(y, 11) == MonthStart(y, 9) + DaysIn(y, 9) + DaysIn(y, 10);
    assert MonthStart(y, 12) == MonthStart(y, 11) + DaysIn(y, 11);
  }

  /** Main result: the days before each month, without reference to their lengths: the
      usual table of the Gregorian calendar as one formula. */
  lemma MonthTable(y: nat, m: nat)
    requires 1 <= m <= 12
    ensures MonthStart(y, m) ==
      if m <= 2 then 31 * (m - 1)
      else 59 + (if y % 4 == 0 && (y % 100 != 0 || y % 400 == 0) then 1 else 0) + (153 * (m - 3) + 2) / 5
  {
    if m > 1 {
      MonthTable(y, m - 1);
      assert MonthStart(y, m) == MonthStart(y, m - 1) + DaysIn(y, m - 1);
    }
  }

  /** The length of every month. */
  lemma MonthLength(y: nat, m: nat)
    requires 1 <= m <= 12
    ensures DaysIn(y, m) == [31, if y % 4 == 0 && (y % 100 != 0 || y % 400 == 0) then 29 else 28,
                             31, 30, 31, 30, 31, 31, 30, 31, 30, 31][m - 1]
  {
  }

  /** The day number in closed form. */
  lemma DayNumClosed(t: Date)
    requires Valid(t)
    ensures DayNum(t) ==
      365 * t.y + (t.y + 3) / 4 - (t.y + 99) / 100 + (t.y + 399) / 400 + t.d - 1 +
      if t.m <= 2 then 31 * (t.m - 1)
      else 59 + (if t.y % 4 == 0 && (t.y % 100 != 0 || t.y % 400 == 0) then 1 else 0) + (153 * (t.m - 3) + 2) / 5
  {
    YearStartClosed(t.y);
    MonthTable(t.y, t.m);
  }

  /** Carrying day by day counts day by day. */
  lemma NextDayNum(t: Date)
    requires Valid(t)
    ensures DayNum(NextDay(t)) == DayNum(t) + 1
  {
    YearLength(t.y);
  }

  lemma {:induction false} MonthsGrow(y: nat, m: nat, n: nat)
    requires 1 <= m < n <= 12
    ensures MonthStart(y, m) + DaysIn(y, m) <= MonthStart(y, n)
  {
    if m + 1 < n { MonthsGrow(y, m, n - 1); }
  }

  lemma {:induction false} YearsGrow(y: nat, z: nat)
    requires y < z
    ensures YearStart(y) + DaysOfYear(y) <= YearStart(z)
  {
    if y + 1 < z { YearsGrow(y, z - 1); }
  }

  lemma BeforeCounts(a: Date, b: Date)
    requires Valid(a) && Valid(b) && Before(a, b)
    ensures DayNum(a) < DayNum(b)
  {
    if a.y < b.y {
      YearsGrow(a.y, b.y);
      YearLength(a.y);
      if a.m < 12 { MonthsGrow(a.y, a.m, 12); }
    } else if a.m < b.m {
      MonthsGrow(a.y, a.m, b.m);
    }
  }

  /** Calendar order is the order of day numbers, and the number determines the date. */
  lemma OrderIsDayNum(a: Date, b: Date)
    requires Valid(a) && Valid(b)
    ensures Before(a, b) <==> DayNum(a) < DayNum(b)
    ensures a == b <==> DayNum(a) == DayNum(b)
  {
    if Before(a, b) { BeforeCounts(a, b); }
    if Before(b, a) { BeforeCounts(b, a); }
  }

  // ---------------------------------------------------------------- strings

  predicate IsDigit(c: char) { '0' <= c <= '9' }

  function DigitValue(c: char): nat
    requires IsDigit(c)
  {
    c as int - '0' as int
  }

  function Digit(n: nat): (c: char)
    requires n < 10
    ensures IsDigit(c) && DigitValue(c) == n
  {
    ('0' as int + n) as char
  }

  /** The regular expression ^\d{4}-\d{2}-\d{2}$. */
  predicate MatchesDate(s: string) {
    && |s| == 10 && s[4] == '-' && s[7] == '-'
    && forall i :: 0 <= i < 10 && i != 4 && i != 7 ==> IsDigit(s[i])
  }

  function Two(s: string, i: nat): nat
    requires i + 1 < |s| && IsDigit(s[i]) && IsDigit(s[i + 1])
  {
    10 * DigitValue(s[i]) + DigitValue(s[i + 1])
  }

  /** time.Parse with layout 2006-01-02. */
  function Parse(s: string): Option<Date> {
    if !MatchesDate(s) then None
    else
      var t := Date(100 * Two(s, 0) + Two(s, 2), Two(s, 5), Two(s, 8));
      if Valid(t) then Some(t) else None
  }

  function Pad2(n: nat): (s: string)
    requires n < 100
    ensures |s| == 2 && IsDigit(s[0]) && IsDigit(s[1]) && Two(s, 0) == n
  {
    [Digit(n / 10), Digit(n % 10)]
  }

  function Format(t: Date): (s: string)
    requires Valid(t) && t.y <= 9999
    ensures |s| == 10
  {
    Pad2(t.y / 100) + Pad2(t.y % 100) + "-" + Pad2(t.m) + "-" + Pad2(t.d)
  }

  /** Printing and parsing are inverse to each other. */
  lemma {:induction false} ParseFormat(t: Date)
    requires Valid(t) && t.y <= 9999
    ensures Parse(Format(t)) == Some(t)
  {
    var s := Format(t);
    assert s[0..2] == Pad2(t.y / 100) && s[2..4] == Pad2(t.y % 100);
    assert s[5..7] == Pad2(t.m) && s[8..10] == Pad2(t.d);
    assert Two(s, 0) == Two(s[0..2], 0) && Two(s, 2) == Two(s[2..4], 0);
    assert Two(s, 5) == Two(s[5..7], 0) && Two(s, 8) == Two(s[8..10], 0);
  }

  lemma DigitsBack(s: string, i: nat)
    requires i + 1 < |s| && IsDigit(s[i]) && IsDigit(s[i + 1])
    ensures Two(s, i) < 100 && Two(s, i) / 10 == DigitValue(s[i]) && Two(s, i) % 10 == DigitValue(s[i + 1])
  {
  }

  lemma Pad2Two(s: string, i: nat)
    requires i + 1 < |s| && IsDigit(s[i]) && IsDigit(s[i + 1])
    ensures Two(s, i) < 100
    ensures Pad2(Two(s, i))[0] == s[i] && Pad2(Two(s, i))[1] == s[i + 1]
  {
    DigitsBack(s, i);
    DigitBack(s[i]);
    DigitBack(s[i + 1]);
  }

  lemma DigitBack(c: char)
    requires IsDigit(c)
    ensures DigitValue(c) < 10 && Digit(DigitValue(c)) == c
  {
  }

  lemma FormatChars(t: Date)
    requires Valid(t) && t.y <= 9999
    ensures Format(t)[0] == Pad2(t.y / 100)[0] && Format(t)[1] == Pad2(t.y / 100)[1]
    ensures Format(t)[2] == Pad2(t.y % 100)[0] && Format(t)[3] == Pad2(t.y % 100)[1]
    ensures Format(t)[4] == '-' && Format(t)[7] == '-'
    ensures Format(t)[5] == Pad2(t.m)[0] && Format(t)[6] == Pad2(t.m)[1]
    ensures Format(t)[8] == Pad2(t.d)[0] && Format(t)[9] == Pad2(t.d)[1]
  {
  }

  lemma {:induction false} FormatParse(s: string)
    requires Parse(s).Some?
    ensures Valid(Parse(s).value) && Parse(s).value.y <= 9999 && Format(Parse(s).value) == s
  {
    var t := Parse(s).value;
    Pad2Two(s, 0);
    Pad2Two(s, 2);
    Pad2Two(s, 5);
    Pad2Two(s, 8);
    YearParts(Two(s, 0), Two(s, 2));
    FormatChars(t);
    forall i | 0 <= i < 10 ensures Format(t)[i] == s[i] {}
  }

  lemma YearParts(a: nat, b: nat)
    requires a < 100 && b < 100
    ensures (100 * a + b) / 100 == a && (100 * a + b) % 100 == b
  {
  }

  predicate AllDigits(s: string) { forall i :: 0 <= i < |s| ==> '0' <= s[i] <= '9' }

  /** The decimal number that a string of digits stands for. */
  function Number(s: string): nat
    requires AllDigits(s)
  {
    if s == "" then 0 else 10 * Number(s[..|s| - 1]) + (s[|s| - 1] as int - '0' as int)
  }

  lemma NumberSnoc(s: string, c: char)
    requires AllDigits(s) && '0' <= c <= '9'
    ensures AllDigits(s + [c]) && Number(s + [c]) == 10 * Number(s) + (c as int - '0' as int)
  {
    assert (s + [c])[..|s|] == s;
  }

  lemma NumberOfTwo(s: string)
    requires |s| == 2 && AllDigits(s)
    ensures Number(s) == Two(s, 0)
  {
    NumberSnoc("", s[0]);
    NumberSnoc("" + [s[0]], s[1]);
    assert s == ("" + [s[0]]) + [s[1]];
  }

  lemma NumberOfFour(s: string)
    requires |s| == 4 && AllDigits(s)
    ensures Number(s) == 100 * Two(s, 0) + Two(s, 2)
  {
    NumberOfTwo(s[..2]);
    assert Two(s[..2], 0) == Two(s, 0);
    NumberSnoc(s[..2], s[2]);
    NumberSnoc(s[..2] + [s[2]], s[3]);
    assert s == (s[..2] + [s[2]]) + [s[3]];
  }

  /** Main result: a string parses if and only if it is four digits, a dash, two digits,
      a dash and two digits, with a month and a day of that month; and then these are
      the year, the month and the day. */
  lemma ParseExactly(s: string)
    ensures Parse(s).Some? <==>
      && |s| == 10 && s[4] == '-' && s[7] == '-'
      && AllDigits(s[..4]) && AllDigits(s[5..7]) && AllDigits(s[8..10])
      && 1 <= Number(s[5..7]) <= 12 && 1 <= Number(s[8..10]) <= DaysIn(Number(s[..4]), Number(s[5..7]))
    ensures Parse(s).Some? ==> Parse(s).value == Date(Number(s[..4]), Number(s[5..7]), Number(s[8..10]))
  {
    if MatchesDate(s) {
      NumberOfFour(s[..4]);
      NumberOfTwo(s[5..7]);
      NumberOfTwo(s[8..10]);
      assert Two(s[..4], 0) == Two(s, 0) && Two(s[..4], 2) == Two(s, 2);
      assert Two(s[5..7], 0) == Two(s, 5) && Two(s[8..10], 0) == Two(s, 8);
    }
  }

  // ---------------------------------------------------------------- the range

  datatype RangeError = BadFrom | BadTo | ToBeforeFrom

  datatype Range = Dates(dates: seq<string>) | RangeFails(error: RangeError)

  /** `dates` are all days from a to b, in order, one string each. */
  predicate ExactRange(dates: seq<string>, a: Date, b: Date) {
    && |dates| == DayNum(b) - DayNum(a) + 1
    && forall i :: 0 <= i < |dates| ==>
         Parse(dates[i]).Some? && DayNum(Parse(dates[i]).value) == DayNum(a) + i
  }

  method ExpandDateRange(from: string, to: string) returns (r: Range)
    ensures r == RangeFails(BadFrom) <==> Parse(from).None?
    ensures r == RangeFails(BadTo) <==> Parse(from).Some? && Parse(to).None?
    ensures r == RangeFails(ToBeforeFrom) <==>
      Parse(from).Some? && Parse(to).Some? && DayNum(Parse(to).value) < DayNum(Parse(from).value)
    ensures r.Dates? <==>
      Parse(from).Some? && Parse(to).Some? && DayNum(Parse(from).value) <= DayNum(Parse(to).value)
    ensures r.Dates? ==> ExactRange(r.dates, Parse(from).value, Parse(to).value)
  {
    var a := Parse(from);
    if a.None? {
      return RangeFails(BadFrom);
    }
    var b := Parse(to);
    if b.None? {
      return RangeFails(BadTo);
    }
    FormatParse(from);
    FormatParse(to);
    OrderIsDayNum(b.value, a.value);
    if Before(b.value, a.value) {
      return RangeFails(ToBeforeFrom);
    }
    var out: seq<string> := [];
    var d := a.value;
    while !Before(b.value, d)
      invariant Valid(d) && DayNum(d) == DayNum(a.value) + |out|
      invariant DayNum(d) <= DayNum(b.value) + 1
      invariant forall i :: 0 <= i < |out| ==>
        Parse(out[i]).Some? && DayNum(Parse(out[i]).value) == DayNum(a.value) + i
      decreases DayNum(b.value) + 1 - DayNum(d)
    {
      OrderIsDayNum(b.value, d);
      ParseFormat(d);
      out := out + [Format(d)];
      NextDayNum(d);
      d := NextDay(d);
    }
    OrderIsDayNum(b.value, d);
    r := Dates(out);
  }

  predicate NoDuplicates<T(==)>(xs: seq<T>) {
    forall i, j :: 0 <= i < j < |xs| ==> xs[i] != xs[j]
  }

  /** The date is one of the days from a to b. */
  predicate InRange(s: string, a: Date, b: Date) {
    Parse(s).Some? && !Before(Parse(s).value, a) && !Before(b, Parse(s).value)
  }

  /** Main result: an exact range is strictly increasing, without duplicates, starts
      and ends at its bounds, and contains a string if and only if that is the
      date of a day in the range; all of them pass the provider's date check. */
  lemma RangeIsExact(dates: seq<string>, a: Date, b: Date)
    requires Valid(a) && Valid(b) && b.y <= 9999 && a.y <= 9999 && !Before(b, a) && ExactRange(dates, a, b)
    ensures |dates| >= 1 && dates[0] == Format(a) && dates[|dates| - 1] == Format(b)
    ensures forall i, j :: 0 <= i < j < |dates| ==> Before(Parse(dates[i]).value, Parse(dates[j]).value)
    ensures NoDuplicates(dates)
    ensures forall s :: s in dates <==> InRange(s, a, b)
    ensures forall s :: s in dates ==> MatchesDate(s)
  {
    OrderIsDayNum(b, a);
    forall i | 0 <= i < |dates| ensures Valid(Parse(dates[i]).value) && Format(Parse(dates[i]).value) == dates[i] {
      FormatParse(dates[i]);
    }
    OrderIsDayNum(Parse(dates[0]).value, a);
    OrderIsDayNum(Parse(dates[|dates| - 1]).value, b);
    forall i, j | 0 <= i < j < |dates| ensures Before(Parse(dates[i]).value, Parse(dates[j]).value) {
      OrderIsDayNum(Parse(dates[i]).value, Parse(dates[j]).value);
    }
    forall s ensures s in dates <==> InRange(s, a, b) {
      if Parse(s).Some? {
        var t := Parse(s).value;
        FormatParse(s);
        OrderIsDayNum(t, a);
        OrderIsDayNum(b, t);
        if InRange(s, a, b) {
          var i := DayNum(t) - DayNum(a);
          OrderIsDayNum(Parse(dates[i]).value, t);
          assert dates[i] == s;
        }
      }
    }
  }
}
