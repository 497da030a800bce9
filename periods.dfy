/**
  Calendar dates, the year/month part of `java.time.Period.between`, Java's decimal
  rendering of an `int`, and the duration text built for an open-ended work experience.
*/
module Periods {
  import opened Common

  datatype CivilDate = CivilDate(year: int, month: int, day: int)

  /** The proleptic Gregorian leap-year rule of `java.time.LocalDate`. */
  predicate IsLeapYear(year: int) {
    year % 4 == 0 && (year % 100 != 0 || year % 400 == 0)
  }

  function MonthLength(year: int, month: int): (n: int)
    requires 1 <= month <= 12
    ensures 28 <= n <= 31
  {
    if month == 2 then (if IsLeapYear(year) then 29 else 28)
    else if month == 4 || month == 6 || month == 9 || month == 11 then 30
    else 31
  }

  /** A valid calendar date: the day a `java.sql.Date` from a result set falls on. */
  type Date = d: CivilDate | 1 <= d.month <= 12 && 1 <= d.day <= MonthLength(d.year, d.month)
    witness CivilDate(1970, 1, 1)

  /** Calendar order of two dates. */
  predicate Before(a: Date, b: Date) {
    a.year < b.year || (a.year == b.year && (a.month < b.month || (a.month == b.month && a.day < b.day)))
  }

  /** An integer key whose order is the calendar order (`java.util.Date.compareTo` on dates
      at the start of their day). */
  function DateKey(d: Date): int {
    d.year * 416 + d.month * 32 + d.day
  }

  lemma DateKeyOrder(a: Date, b: Date)
    ensures DateKey(a) < DateKey(b) <==> Before(a, b)
    ensures DateKey(a) == DateKey(b) <==> a == b
  {
  }

  /** `LocalDate.getProlepticMonth`: months since year 0. */
  function ProlepticMonth(d: Date): int {
    d.year * 12 + d.month - 1
  }

  /** The total month count `Period.between(start, end)` computes before it splits it into
      years and months: the month difference, moved one towards zero when the day of month
      of `end` has not reached that of `start`. */
  function TotalMonths(start: Date, end: Date): int {
    var total := ProlepticMonth(end) - ProlepticMonth(start);
    var days := end.day - start.day;
    if total > 0 && days < 0 then total - 1
    else if total < 0 && days > 0 then total + 1
    else total
  }

  /** Java's `/` on int: the quotient is truncated toward zero. */
  function JavaDiv(a: int, b: int): int
    requires b > 0
  {
    if a >= 0 then a / b else -((-a) / b)
  }

  /** Java's `%` on int: the remainder has the sign of the dividend. */
  function JavaRem(a: int, b: int): int
    requires b > 0
  {
    if a >= 0 then a % b else -((-a) % b)
  }

  /** The years and months of a `java.time.Period` (its days are not used here). */
  datatype Period = Period(years: int, months: int)

  /** The years and months of `Period.between(start, end)`. */
  function PeriodBetween(start: Date, end: Date): (p: Period)
    ensures p.years * 12 + p.months == TotalMonths(start, end)
    ensures TotalMonths(start, end) >= 0 ==> p.years >= 0 && 0 <= p.months < 12
    ensures TotalMonths(start, end) <= 0 ==> p.years <= 0 && -12 < p.months <= 0
  {
    var t := TotalMonths(start, end);
    Period(JavaDiv(t, 12), JavaRem(t, 12))
  }

  /** `start` moved on by `t` months, day of month kept, is not after `end`. */
  predicate Reached(start: Date, end: Date, t: int) {
    var m := ProlepticMonth(start) + t;
    m < ProlepticMonth(end) || (m == ProlepticMonth(end) && start.day <= end.day)
  }

  /** For a start on or before the end, the month count is the number of whole months
      elapsed: the last month anniversary reached, the next one not. */
  lemma WholeMonthsElapsed(start: Date, end: Date)
    requires !Before(end, start)
    ensures TotalMonths(start, end) >= 0
    ensures Reached(start, end, TotalMonths(start, end))
    ensures !Reached(start, end, TotalMonths(start, end) + 1)
  {
  }

  /** Swapping the two dates negates the period, so a start in the future gives negative
      years and months. */
  lemma PeriodAntisymmetric(a: Date, b: Date)
    ensures TotalMonths(b, a) == -TotalMonths(a, b)
    ensures PeriodBetween(b, a) == Period(-PeriodBetween(a, b).years, -PeriodBetween(a, b).months)
  {
    var t := TotalMonths(a, b);
    assert JavaDiv(-t, 12) == -JavaDiv(t, 12);
    assert JavaRem(-t, 12) == -JavaRem(t, 12);
  }

  /** A start exactly `y` years and `m` months before the end gives `Period(y, m)`. */
  lemma PeriodOfWholeMonths(start: Date, end: Date, y: nat, m: nat)
    requires m < 12
    requires ProlepticMonth(end) == ProlepticMonth(start) + 12 * y + m
    requires end.day == start.day
    ensures PeriodBetween(start, end) == Period(y, m)
  {
    var t := 12 * y + m;
    assert TotalMonths(start, end) == t;
    assert t / 12 == y && t % 12 == m;
  }

  function DigitChar(d: int): char
    requires 0 <= d < 10
  {
    ('0' as int + d) as char
  }

  predicate IsDigit(c: char) {
    '0' <= c <= '9'
  }

  function NatToString(n: nat): (s: string)
    ensures |s| > 0 && forall i :: 0 <= i < |s| ==> IsDigit(s[i])
  {
    if n < 10 then [DigitChar(n)] else NatToString(n / 10) + [DigitChar(n % 10)]
  }

  /** `Integer.toString`: the text an `int` becomes in a string concatenation. */
  function IntToString(n: int): string {
    if n < 0 then "-" + NatToString(-n) else NatToString(n)
  }

  /** The duration text an open-ended work experience carries: "<Y>years <M>months". */
  function DurationText(p: Period): string {
    IntToString(p.years) + "years " + IntToString(p.months) + "months"
  }

  /** The duration of an open-ended work experience that started on `start`, seen on `today`. */
  function Duration(start: Date, today: Date): string {
    DurationText(PeriodBetween(start, today))
  }

  // Reading the duration text back, to show that it records the period without loss.

  predicate AllDigits(s: string) {
    forall i :: 0 <= i < |s| ==> IsDigit(s[i])
  }

  function ParseNat(s: string): nat
    requires AllDigits(s)
  {
    if s == [] then 0 else ParseNat(s[..|s| - 1]) * 10 + (s[|s| - 1] as int - '0' as int)
  }

  function ParseInt(s: string): Option<int> {
    if |s| > 1 && s[0] == '-' && AllDigits(s[1..]) then Some(-(ParseNat(s[1..]) as int))
    else if |s| > 0 && AllDigits(s) then Some(ParseNat(s))
    else None
  }

  /** The index of the first 'y' in `s`, or |s| when there is none. */
  function IndexOfY(s: string): (i: nat)
    ensures i <= |s|
    ensures i < |s| ==> s[i] == 'y'
    ensures forall j :: 0 <= j < i ==> s[j] != 'y'
  {
    if s == [] then 0 else if s[0] == 'y' then 0 else 1 + IndexOfY(s[1..])
  }

  function ParseDuration(s: string): Option<Period> {
    var i := IndexOfY(s);
    var rest := s[i..];
    if |rest| >= 12 && rest[..6] == "years " && rest[|rest| - 6..] == "months" then
      var years, months := ParseInt(s[..i]), ParseInt(rest[6..|rest| - 6]);
      if years.Some? && months.Some? then Some(Period(years.value, months.value)) else None
    else None
  }

  lemma {:induction false} ParseNatToString(n: nat)
    ensures ParseNat(NatToString(n)) == n
  {
    if n >= 10 {
      var s := NatToString(n);
      assert s[..|s| - 1] == NatToString(n / 10);
      ParseNatToString(n / 10);
    }
  }

  lemma ParseIntToString(n: int)
    ensures ParseInt(IntToString(n)) == Some(n)
  {
    var s := IntToString(n);
    if n < 0 {
      assert s[1..] == NatToString(-n);
      assert |s| > 1 && s[0] == '-' && AllDigits(s[1..]);
      ParseNatToString(-n);
    } else {
      assert IsDigit(s[0]) && AllDigits(s);
      ParseNatToString(n);
    }
  }

  /** The duration text can be read back into the period it came from. */
  lemma ParseDurationText(p: Period)
    ensures ParseDuration(DurationText(p)) == Some(p)
  {
    var a, b := IntToString(p.years), IntToString(p.months);
    var s := DurationText(p);
    assert s == a + ("years " + b + "months");
    assert forall j :: 0 <= j < |a| ==> a[j] != 'y';
    IndexOfYAt(a, "years " + b + "months");
    var rest := s[|a|..];
    assert rest == "years " + b + "months";
    assert rest[6..|rest| - 6] == b;
    assert s[..|a|] == a;
    ParseIntToString(p.years);
    ParseIntToString(p.months);
  }

  lemma {:induction false} IndexOfYAt(a: string, b: string)
    requires forall j :: 0 <= j < |a| ==> a[j] != 'y'
    requires |b| > 0 && b[0] == 'y'
    ensures IndexOfY(a + b) == |a|
  {
    if a != [] {
      assert (a + b)[1..] == a[1..] + b;
      IndexOfYAt(a[1..], b);
    } else {
      assert a + b == b;
    }
  }

  /** A work experience that started exactly two years and three months ago reads
      "2years 3months". */
  lemma TwoYearsThreeMonths()
    ensures Duration(CivilDate(2014, 1, 10), CivilDate(2016, 4, 10)) == "2years 3months"
  {
    PeriodOfWholeMonths(CivilDate(2014, 1, 10), CivilDate(2016, 4, 10), 2, 3);
    assert NatToString(2) == "2";
    assert NatToString(3) == "3";
  }
}
