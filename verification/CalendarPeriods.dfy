// The periods between two dates (blocks/data/src/catalog/prism.rs): years,
// months or days, written as labels.
module CalendarPeriods {
  import opened Arithmetic
  import opened Digraphs
  import opened Pipelines

  datatype Date = Date(year: int, month: int, day: int)

  /** What the date parser lets through: the day is not held against the month. */
  predicate Parsed(a: Date) {
    1 <= a.month <= 12 && 1 <= a.day <= 31
  }

  predicate IsLeap(y: int) {
    (y % 4 == 0 && y % 100 != 0) || y % 400 == 0
  }

  function DaysIn(y: int, m: int): int {
    if m in {1, 3, 5, 7, 8, 10, 12} then 31
    else if m in {4, 6, 9, 11} then 30
    else if m == 2 then (if IsLeap(y) then 29 else 28)
    else 0
  }

  predicate Valid(a: Date) {
    1 <= a.month <= 12 && 1 <= a.day <= DaysIn(a.year, a.month)
  }

  predicate Before(a: Date, b: Date) {
    a.year < b.year || (a.year == b.year && (a.month < b.month || (a.month == b.month && a.day < b.day)))
  }

  function Next(a: Date): Date {
    if a.day + 1 <= DaysIn(a.year, a.month) then a.(day := a.day + 1)
    else if a.month + 1 <= 12 then Date(a.year, a.month + 1, 1)
    else Date(a.year + 1, 1, 1)
  }

  /** Nothing valid lies between a date and the next. */
  lemma NextIsImmediate(a: Date, x: Date)
    requires Parsed(a) && Valid(x)
    ensures Valid(Next(a)) && Before(a, Next(a))
    ensures Before(a, x) <==> x == Next(a) || Before(Next(a), x)
  {
  }

  // ---- Closed form -------------------------------------------------------------------

  /** Days in the years before y, in the proleptic Gregorian calendar. */
  function DaysBeforeYear(y: int): int {
    365 * (y - 1) + LeapYearsBefore(y)
  }

  function DaysBeforeMonth(y: int, m: int): int
    requires 1 <= m <= 12
  {
    [0, 31, 59, 90, 120, 151, 181, 212, 243, 273, 304, 334][m - 1] + (if m > 2 && IsLeap(y) then 1 else 0)
  }

  /** The day number; the leap rule is that of Appendix C of RFC 3339. */
  function Ordinal(a: Date): int
    requires 1 <= a.month <= 12
  {
    DaysBeforeYear(a.year) + DaysBeforeMonth(a.year, a.month) + a.day
  }

  lemma DivNext(n: int, k: int)
    requires k > 0
    ensures n / k - (n - 1) / k == if n % k == 0 then 1 else 0
  {
    var q, r := (n - 1) / k, (n - 1) % k;
    assert n - 1 == q * k + r;
    if r + 1 < k {
      assert n == q * k + (r + 1);
      QuotientIs(n, k, q, r + 1);
    } else {
      assert n == (q + 1) * k by { assert (q + 1) * k == q * k + k; }
      QuotientIs(n, k, q + 1, 0);
    }
  }

  lemma DivisibleByFour(y: int)
    ensures y % 400 == 0 ==> y % 100 == 0
    ensures y % 100 == 0 ==> y % 4 == 0
  {
    if y % 400 == 0 { QuotientIs(y, 100, 4 * (y / 400), 0); }
    if y % 100 == 0 { QuotientIs(y, 4, 25 * (y / 100), 0); }
  }

  function LeapYearsBefore(y: int): int {
    (y - 1) / 4 - (y - 1) / 100 + (y - 1) / 400
  }

  lemma LeapYearCounts(y: int)
    ensures LeapYearsBefore(y + 1) == LeapYearsBefore(y) + if IsLeap(y) then 1 else 0
  {
    DivNext(y, 4);
    DivNext(y, 100);
    DivNext(y, 400);
    DivisibleByFour(y);
  }

  lemma YearLength(y: int)
    ensures DaysBeforeYear(y + 1) - DaysBeforeYear(y) == if IsLeap(y) then 366 else 365
  {
    LeapYearCounts(y);
  }

  /** The lengths of the twelve months. */
  lemma MonthLengths(y: int, m: int)
    requires 1 <= m <= 12
    ensures DaysIn(y, m) == [31, if IsLeap(y) then 29 else 28, 31, 30, 31, 30, 31, 31, 30, 31, 30, 31][m - 1]
  {
  }

  /** Every 400 years the calendar repeats after 146097 days; years divisible by
      100 are leap years only if they are divisible by 400. */
  lemma GregorianCycle(y: int)
    ensures IsLeap(y + 400) == IsLeap(y) && DaysBeforeYear(y + 400) == DaysBeforeYear(y) + 146097
    ensures IsLeap(2024) && !IsLeap(2023) && !IsLeap(1900) && IsLeap(2000)
  {
    QuotientIs(y + 400 - 1, 4, (y - 1) / 4 + 100, (y - 1) % 4);
    QuotientIs(y + 400 - 1, 100, (y - 1) / 100 + 4, (y - 1) % 100);
    QuotientIs(y + 400 - 1, 400, (y - 1) / 400 + 1, (y - 1) % 400);
    QuotientIs(y + 400, 4, y / 4 + 100, y % 4);
    QuotientIs(y + 400, 100, y / 100 + 4, y % 100);
    QuotientIs(y + 400, 400, y / 400 + 1, y % 400);
  }

  /** Where the numbering stands: the first day of the common era, the day Unix
      time starts on, and the day after a leap day at the turn of a century. */
  lemma OrdinalsKnown(a: Date)
    requires 1 <= a.month <= 12
    ensures a == Date(1, 1, 1) ==> Ordinal(a) == 1
    ensures a == Date(1970, 1, 1) ==> Ordinal(a) == 719163
    ensures a == Date(2000, 3, 1) ==> Ordinal(a) == 730180
  {
  }

  lemma {:induction false} YearsGrow(y: int, z: int)
    requires y <= z
    ensures DaysBeforeYear(y) <= DaysBeforeYear(z)
    decreases z - y
  {
    if y < z {
      YearLength(y);
      YearsGrow(y + 1, z);
    }
  }

  /** The closed form counts days: one more for the next day, also across the
      ends of months and years. */
  lemma OrdinalCounts(a: Date)
    requires Valid(a)
    ensures Valid(Next(a)) && Ordinal(Next(a)) == Ordinal(a) + 1
  {
    YearLength(a.year);
  }

  /** And it orders valid dates as the calendar does. */
  lemma OrdinalOrders(a: Date, b: Date)
    requires Valid(a) && Valid(b)
    ensures Before(a, b) <==> Ordinal(a) < Ordinal(b)
  {
    InYear(a);
    InYear(b);
    if a.year < b.year { YearsGrow(a.year + 1, b.year); }
    if b.year < a.year { YearsGrow(b.year + 1, a.year); }
    if a.year == b.year { InMonths(a, b); InMonths(b, a); }
  }

  lemma InYear(a: Date)
    requires Valid(a)
    ensures DaysBeforeYear(a.year) < Ordinal(a) <= DaysBeforeYear(a.year + 1)
  {
    YearLength(a.year);
  }

  lemma InMonths(a: Date, b: Date)
    requires Valid(a) && Valid(b) && a.year == b.year
    ensures Before(a, b) ==> Ordinal(a) < Ordinal(b)
  {
    if a.month < b.month { MonthsGrow(a.year, a.month, b.month); }
  }

  lemma {:induction false} MonthsGrow(y: int, m: int, n: int)
    requires 1 <= m < n <= 12
    ensures DaysBeforeMonth(y, m) + DaysIn(y, m) <= DaysBeforeMonth(y, n)
    decreases n - m
  {
    assert DaysBeforeMonth(y, m) + DaysIn(y, m) == DaysBeforeMonth(y, m + 1);
    if m + 1 < n { MonthsGrow(y, m + 1, n); }
  }

  // ---- Labels -------------------------------------------------------------------------

  function Digit(n: int): char
    requires 0 <= n < 10
  {
    ['0', '1', '2', '3', '4', '5', '6', '7', '8', '9'][n]
  }

  function NatText(n: nat): string {
    if n < 10 then [Digit(n)] else NatText(n / 10) + [Digit(n % 10)]
  }

  function IntText(n: int): string {
    if n < 0 then ['-'] + NatText(-n) else NatText(n)
  }

  function TwoDigits(n: int): string
    requires 0 <= n < 100
  {
    [Digit(n / 10), Digit(n % 10)]
  }

  lemma DigitInjective(a: int, b: int)
    requires 0 <= a < 10 && 0 <= b < 10
    ensures Digit(a) == Digit(b) <==> a == b
    ensures Digit(a) != '-'
  {
  }

  lemma {:induction false} NatTextInjective(a: nat, b: nat)
    requires NatText(a) == NatText(b)
    ensures a == b
  {
    NatTextLength(a);
    NatTextLength(b);
    var s, t := NatText(a), NatText(b);
    DigitInjective(a % 10, b % 10);
    assert s[|s| - 1] == Digit(a % 10) && t[|t| - 1] == Digit(b % 10);
    if a >= 10 && b >= 10 {
      assert NatText(a / 10) == s[..|s| - 1] == t[..|t| - 1] == NatText(b / 10);
      NatTextInjective(a / 10, b / 10);
    }
  }

  lemma {:induction false} NatTextLength(n: nat)
    ensures |NatText(n)| >= 1 && (n >= 10 <==> |NatText(n)| >= 2) && NatText(n)[0] != '-'
  {
    DigitInjective(n % 10, n % 10);
    if n >= 10 { NatTextLength(n / 10); }
  }

  lemma SameBehindSign(s: string, t: string)
    requires ['-'] + s == ['-'] + t
    ensures s == t
  {
    assert s == (['-'] + s)[1..] && t == (['-'] + t)[1..];
  }

  lemma SignTells(a: nat, b: nat)
    ensures ['-'] + NatText(a) != NatText(b)
  {
    NatTextLength(b);
    assert (['-'] + NatText(a))[0] == '-';
  }

  lemma IntTextInjective(a: int, b: int)
    requires IntText(a) == IntText(b)
    ensures a == b
  {
    if a < 0 && b < 0 {
      SameBehindSign(NatText(-a), NatText(-b));
      NatTextInjective(-a, -b);
    } else if a >= 0 && b >= 0 {
      NatTextInjective(a, b);
    } else if a < 0 {
      SignTells(-a, b);
    } else {
      SignTells(-b, a);
    }
  }

  function DayLabel(a: Date): string
    requires Parsed(a)
  {
    IntText(a.year) + TwoDigits(a.month) + TwoDigits(a.day)
  }

  function MonthLabel(y: int, m: int): string
    requires 1 <= m <= 12
  {
    IntText(y) + TwoDigits(m)
  }

  lemma SplitEnd(a: string, b: string, p: string, q: string)
    requires |p| == |q| && a + p == b + q
    ensures a == b && p == q
  {
    assert (a + p)[..|a|] == a && (a + p)[|a|..] == p;
    assert (b + q)[..|b|] == b && (b + q)[|b|..] == q;
  }

  lemma TwoDigitsInjective(m: int, n: int)
    requires 0 <= m < 100 && 0 <= n < 100 && TwoDigits(m) == TwoDigits(n)
    ensures m == n
  {
    assert TwoDigits(m)[0] == TwoDigits(n)[0] && TwoDigits(m)[1] == TwoDigits(n)[1];
    DigitInjective(m / 10, n / 10);
    DigitInjective(m % 10, n % 10);
  }

  lemma MonthLabelInjective(y: int, m: int, z: int, n: int)
    requires 1 <= m <= 12 && 1 <= n <= 12 && MonthLabel(y, m) == MonthLabel(z, n)
    ensures y == z && m == n
  {
    SplitEnd(IntText(y), IntText(z), TwoDigits(m), TwoDigits(n));
    IntTextInjective(y, z);
    TwoDigitsInjective(m, n);
  }

  lemma DayLabelInjective(a: Date, b: Date)
    requires Parsed(a) && Parsed(b) && DayLabel(a) == DayLabel(b)
    ensures a == b
  {
    SplitEnd(MonthLabel(a.year, a.month), MonthLabel(b.year, b.month), TwoDigits(a.day), TwoDigits(b.day));
    MonthLabelInjective(a.year, a.month, b.year, b.month);
    TwoDigitsInjective(a.day, b.day);
  }

  // ---- Reading labels -----------------------------------------------------------------------

  ghost predicate Digits(s: string) {
    forall i :: 0 <= i < |s| ==> 48 <= s[i] as int <= 57
  }

  /** The number decimal digits stand for, by their character codes. */
  function NatValue(s: string): int {
    if s == [] then 0 else 10 * NatValue(s[..|s| - 1]) + (s[|s| - 1] as int - 48)
  }

  function IntValue(s: string): int {
    if s != [] && s[0] == '-' then -NatValue(s[1..]) else NatValue(s)
  }

  /** Decimal digits, with no zero in front that could be left out. */
  ghost predicate PlainNumber(s: string) {
    Digits(s) && s != [] && (s[0] == '0' ==> |s| == 1)
  }

  lemma ReadsDigit(n: int)
    requires 0 <= n < 10
    ensures Digit(n) as int == 48 + n
  {
  }

  lemma {:induction false} ReadsNat(n: nat)
    ensures NatValue(NatText(n)) == n && PlainNumber(NatText(n)) && (n > 0 ==> NatText(n)[0] != '0')
  {
    ReadsDigit(n % 10);
    if n < 10 {
      assert [Digit(n)][..0] == [];
      assert NatValue([Digit(n)]) == 10 * NatValue([]) + (Digit(n) as int - 48);
    } else {
      ReadsNat(n / 10);
      assert NatText(n)[..|NatText(n)| - 1] == NatText(n / 10);
      assert n == 10 * (n / 10) + n % 10;
    }
  }

  /** A year is written as its plain decimal number, with a minus sign before the
      common era. */
  lemma ReadsInt(n: int)
    ensures IntValue(IntText(n)) == n
    ensures if n < 0 then IntText(n)[0] == '-' && PlainNumber(IntText(n)[1..]) else PlainNumber(IntText(n))
  {
    if n < 0 {
      ReadsNat(-n);
      assert IntText(n)[1..] == NatText(-n);
    } else {
      ReadsNat(n);
      assert NatText(n)[0] as int >= 48 && '-' as int < 48;
    }
  }

  lemma ReadsTwoDigits(n: int)
    requires 0 <= n < 100
    ensures |TwoDigits(n)| == 2 && Digits(TwoDigits(n)) && NatValue(TwoDigits(n)) == n
  {
    ReadsDigit(n / 10);
    ReadsDigit(n % 10);
    var s := TwoDigits(n);
    assert s[..1] == [s[0]] && [s[0]][..0] == [];
    assert NatValue([s[0]]) == 10 * NatValue([]) + (s[0] as int - 48);
  }

  /** The last two characters of a month's label are the month, all before them the year. */
  lemma MonthLabelReads(y: int, m: int)
    requires 1 <= m <= 12
    ensures var l := MonthLabel(y, m); var k := |l| - 2;
            k >= 1 && IntValue(l[..k]) == y && l[..k] == IntText(y) && Digits(l[k..]) && NatValue(l[k..]) == m
  {
    ReadsInt(y);
    ReadsTwoDigits(m);
    var l := MonthLabel(y, m);
    assert l[..|l| - 2] == IntText(y) && l[|l| - 2..] == TwoDigits(m);
  }

  /** The last two characters of a day's label are the day, the two before them the
      month, and all before those the year. */
  lemma DayLabelReads(a: Date)
    requires Parsed(a)
    ensures var l := DayLabel(a); var k := |l| - 4;
            && k >= 1 && IntValue(l[..k]) == a.year && l[..k] == IntText(a.year)
            && Digits(l[k..]) && NatValue(l[k..k + 2]) == a.month && NatValue(l[k + 2..]) == a.day
  {
    ReadsInt(a.year);
    ReadsTwoDigits(a.month);
    ReadsTwoDigits(a.day);
    LabelParts(IntText(a.year), TwoDigits(a.month), TwoDigits(a.day));
  }

  lemma LabelParts(y: string, m: string, d: string)
    requires |m| == 2 && |d| == 2
    ensures var l := y + m + d; var k := |l| - 4;
            k == |y| && l[..k] == y && l[k..k + 2] == m && l[k + 2..] == d && l[k..] == m + d
  {
  }

  // ---- Days -----------------------------------------------------------------------------

  function DayLabels(dates: seq<Date>): seq<string>
    requires forall a :: a in dates ==> Parsed(a)
  {
    seq(|dates|, i requires 0 <= i < |dates| => DayLabel(dates[i]))
  }

  /** The start, then in order every calendar day after it up to the end. */
  ghost predicate DaysFrom(start: Date, end: Date, dates: seq<Date>) {
    && dates != [] && dates[0] == start
    && (forall a :: a in dates ==> Parsed(a))
    && (forall i, j :: 0 <= i < j < |dates| ==> Before(dates[i], dates[j]))
    && (forall x {:trigger Valid(x)} {:trigger x in dates[1..]} :: x in dates[1..] <==>
          Valid(x) && Before(start, x) && !Before(end, x))
  }

  ghost predicate Reached(start: Date, dates: seq<Date>, cur: Date) {
    && (forall a :: a in dates ==> Parsed(a) && Before(a, cur))
    && (forall i, j :: 0 <= i < j < |dates| ==> Before(dates[i], dates[j]))
    && (dates == [] ==> cur == start)
    && (dates != [] ==> dates[0] == start && Valid(cur))
    && (forall i :: 1 <= i < |dates| ==> Valid(dates[i]))
    && (forall x :: Valid(x) && Before(start, x) ==> x in dates || x == cur || Before(cur, x))
  }

  lemma ReachedNext(start: Date, dates: seq<Date>, cur: Date)
    requires Reached(start, dates, cur) && Parsed(cur)
    ensures Reached(start, dates + [cur], Next(cur))
  {
    NextIsImmediate(cur, Next(cur));
    var dates' := dates + [cur];
    forall x | Valid(x) && Before(start, x) ensures x in dates' || x == Next(cur) || Before(Next(cur), x) {
      NextIsImmediate(cur, x);
      assert cur in dates';
      assert x in dates ==> x in dates';
    }
  }

  lemma ReachedEnd(start: Date, end: Date, dates: seq<Date>, cur: Date)
    requires Reached(start, dates, cur) && dates != [] && Before(end, cur)
    requires forall i :: 1 <= i < |dates| ==> !Before(end, dates[i])
    ensures DaysFrom(start, end, dates)
  {
    forall x | x in dates[1..] ensures Valid(x) && Before(start, x) && !Before(end, x) {
      var i :| 0 <= i < |dates[1..]| && dates[1..][i] == x;
      assert dates[i + 1] == x;
    }
    forall x | Valid(x) && Before(start, x) && !Before(end, x) ensures x in dates[1..] {
      assert x in dates;
      var i :| 0 <= i < |dates| && dates[i] == x;
      assert i > 0 && dates[1..][i - 1] == x;
    }
  }

  lemma LabelsDistinct(dates: seq<Date>)
    requires forall a :: a in dates ==> Parsed(a)
    requires forall i, j :: 0 <= i < j < |dates| ==> Before(dates[i], dates[j])
    ensures NoDuplicates(DayLabels(dates))
  {
    forall i, j | 0 <= i < j < |dates| ensures DayLabel(dates[i]) != DayLabel(dates[j]) {
      if DayLabel(dates[i]) == DayLabel(dates[j]) { DayLabelInjective(dates[i], dates[j]); }
    }
  }

  method Daily(start: Date, end: Date) returns (out: seq<string>, ghost dates: seq<Date>)
    requires Parsed(start) && Parsed(end)
    ensures DaysFrom(start, end, dates) && out == DayLabels(dates) && NoDuplicates(out)
  {
    var y, m, d := start.year, start.month, start.day;
    out, dates := [], [];
    while true
      invariant 1 <= m <= 12 && 1 <= d <= 31
      invariant Reached(start, dates, Date(y, m, d))
      invariant out == DayLabels(dates)
      invariant forall i :: 1 <= i < |dates| ==> !Before(end, dates[i])
      invariant dates != [] ==> !Before(end, Date(y, m, d))
      decreases end.year - y, 12 - m, 31 - d
    {
      ghost var cur := Date(y, m, d);
      ReachedNext(start, dates, cur);
      out := out + [IntText(y) + TwoDigits(m) + TwoDigits(d)];
      dates := dates + [cur];
      if y == end.year && m == end.month && d == end.day {
        NextIsImmediate(cur, Next(cur));
        ReachedEnd(start, end, dates, Next(cur));
        break;
      }
      d := d + 1;
      if d > DaysIn(y, m) {
        d := 1;
        m := m + 1;
        if m > 12 {
          m := 1;
          y := y + 1;
        }
      }
      assert Date(y, m, d) == Next(cur);
      if y > end.year || (y == end.year && m > end.month) || (y == end.year && m == end.month && d > end.day) {
        ReachedEnd(start, end, dates, Next(cur));
        break;
      }
    }
    LabelsDistinct(dates);
  }

  lemma {:induction false} DaysAreConsecutive(start: Date, end: Date, dates: seq<Date>, i: nat)
    requires DaysFrom(start, end, dates) && Valid(start) && i < |dates|
    ensures Valid(dates[i]) && Ordinal(dates[i]) == Ordinal(start) + i
  {
    if i > 0 {
      DaysAreConsecutive(start, end, dates, i - 1);
      var a, x := dates[i - 1], dates[i];
      assert x == dates[1..][i - 1] && x in dates[1..];
      NextIsImmediate(a, x);
      NextListed(start, end, dates, i - 1);
      OrdinalCounts(a);
    }
  }

  lemma NextListed(start: Date, end: Date, dates: seq<Date>, i: nat)
    requires DaysFrom(start, end, dates) && i + 1 < |dates|
    ensures dates[i + 1] == Next(dates[i])
  {
    var a, x, n := dates[i], dates[i + 1], Next(dates[i]);
    assert dates[1..][i] == x && x in dates[1..] && a in dates;
    NextIsImmediate(a, x);
    NextIsImmediate(a, n);
    forall j | 0 <= j < |dates| ensures !(Before(a, dates[j]) && Before(dates[j], x)) {
      assert j <= i || j >= i + 1;
    }
    assert forall y :: y in dates[1..] ==> y in dates;
  }

  /** Between valid dates the list holds as many days as the closed form says;
      from a start after the end it holds the start alone. */
  lemma DailyLength(start: Date, end: Date, dates: seq<Date>)
    requires DaysFrom(start, end, dates)
    ensures Before(end, start) ==> dates == [start]
    ensures Valid(start) && Valid(end) && !Before(end, start) ==>
              |dates| == Ordinal(end) - Ordinal(start) + 1 && dates[|dates| - 1] == end
  {
    if |dates| > 1 { assert dates[1..][0] in dates[1..]; }
    if Valid(start) && Valid(end) && !Before(end, start) {
      var n := |dates| - 1;
      DaysAreConsecutive(start, end, dates, n);
      if start != end {
        assert end in dates[1..];
        var k :| 0 <= k < |dates[1..]| && dates[1..][k] == end;
        assert dates[k + 1] == end && dates[1..][n - 1] == dates[n] && dates[n] in dates[1..];
      }
    }
  }

  // ---- Months and years --------------------------------------------------------------------

  function MonthNumber(y: int, m: int): int {
    12 * y + m - 1
  }

  /** As many months as lie between the two, both included; one if the start is later. */
  function MonthCount(start: Date, end: Date): nat {
    var k := 12 * (end.year - start.year) + end.month - start.month;
    if k < 0 then 1 else k + 1
  }

  /** Every month from the start on, in order. */
  ghost predicate MonthsFrom(start: Date, count: nat, months: seq<(int, int)>) {
    && |months| == count
    && forall k {:trigger months[k]} :: 0 <= k < count ==>
         1 <= months[k].1 <= 12 && MonthNumber(months[k].0, months[k].1) == MonthNumber(start.year, start.month) + k
  }

  function MonthLabels(months: seq<(int, int)>): seq<string>
    requires forall p :: p in months ==> 1 <= p.1 <= 12
  {
    seq(|months|, k requires 0 <= k < |months| => MonthLabel(months[k].0, months[k].1))
  }

  lemma MonthsDiffer(y: int, m: int, z: int, n: int)
    requires 1 <= m <= 12 && 1 <= n <= 12 && MonthNumber(y, m) != MonthNumber(z, n)
    ensures MonthLabel(y, m) != MonthLabel(z, n)
  {
    if MonthLabel(y, m) == MonthLabel(z, n) { MonthLabelInjective(y, m, z, n); }
  }

  lemma MonthLabelsDistinct(start: Date, count: nat, months: seq<(int, int)>)
    requires MonthsFrom(start, count, months)
    ensures NoDuplicates(MonthLabels(months))
  {
    forall i, j | 0 <= i < j < count ensures MonthLabels(months)[i] != MonthLabels(months)[j] {
      MonthsDiffer(months[i].0, months[i].1, months[j].0, months[j].1);
    }
  }

  method Monthly(start: Date, end: Date) returns (out: seq<string>, ghost months: seq<(int, int)>)
    requires Parsed(start) && Parsed(end)
    ensures MonthsFrom(start, MonthCount(start, end), months) && out == MonthLabels(months) && NoDuplicates(out)
  {
    out, months := [], [];
    var y, m := start.year, start.month;
    while true
      invariant 1 <= m <= 12 && MonthNumber(y, m) == MonthNumber(start.year, start.month) + |months|
      invariant MonthsFrom(start, |months|, months)
      invariant out == MonthLabels(months)
      invariant months != [] ==> MonthNumber(y, m) <= MonthNumber(end.year, end.month)
      decreases MonthNumber(end.year, end.month) - MonthNumber(y, m)
    {
      out := out + [IntText(y) + TwoDigits(m)];
      months := months + [(y, m)];
      if y == end.year && m == end.month {
        break;
      }
      m := m + 1;
      if m > 12 {
        m := 1;
        y := y + 1;
      }
      if y > end.year || (y == end.year && m > end.month) {
        break;
      }
    }
    MonthLabelsDistinct(start, |months|, months);
  }

  function YearLabels(first: int, last: int): seq<string> {
    if last < first then [] else seq(last - first + 1, i requires 0 <= i < last - first + 1 => IntText(first + i))
  }

  /** The labels of a range of years are the years, one after the other. */
  lemma YearLabelsRead(first: int, last: int, i: nat)
    requires i < |YearLabels(first, last)|
    ensures first <= last && |YearLabels(first, last)| == last - first + 1
    ensures IntValue(YearLabels(first, last)[i]) == first + i && YearLabels(first, last)[i] == IntText(first + i)
  {
    ReadsInt(first + i);
  }

  method Annual(start: Date, end: Date) returns (out: seq<string>)
    ensures out == YearLabels(start.year, end.year) && NoDuplicates(out)
  {
    out := [];
    if start.year <= end.year {
      for y := start.year to end.year + 1
        invariant out == YearLabels(start.year, y - 1)
      {
        out := out + [IntText(y)];
      }
    }
    forall i, j | 0 <= i < j < |out| ensures out[i] != out[j] {
      if out[i] == out[j] { IntTextInjective(start.year + i, start.year + j); }
    }
  }

  method EnumeratePeriods(start: Date, end: Date, cadence: string) returns (r: Result<seq<string>>)
    requires Parsed(start) && Parsed(end)
    ensures r.Ok? <==> cadence in {"annual", "monthly", "daily"}
    ensures r.Ok? ==> NoDuplicates(r.value)
    ensures cadence == "annual" ==> r == Ok(YearLabels(start.year, end.year))
    ensures cadence == "monthly" ==>
            exists months :: MonthsFrom(start, MonthCount(start, end), months) && r == Ok(MonthLabels(months))
    ensures cadence == "daily" ==> exists dates :: DaysFrom(start, end, dates) && r == Ok(DayLabels(dates))
  {
    var out: seq<string>;
    if cadence == "annual" {
      out := Annual(start, end);
    } else if cadence == "monthly" {
      ghost var months;
      out, months := Monthly(start, end);
    } else if cadence == "daily" {
      ghost var dates;
      out, dates := Daily(start, end);
    } else {
      return Err("unknown cadence");
    }
    r := Ok(out);
  }
}
