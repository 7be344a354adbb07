/** The Gregorian calendar by stepping from day to day: day 0 is 1 January 1970. */
module Calendar {
  datatype Date = Date(year: int, month: int, day: int)

  predicate Leap(year: int) {
    year % 4 == 0 && (year % 100 != 0 || year % 400 == 0)
  }

  function Length(year: int, month: int): (days: int)
    ensures 28 <= days <= 31
  {
    if month == 2 then if Leap(year) then 29 else 28
    else if month == 4 || month == 6 || month == 9 || month == 11 then 30
    else 31
  }

  predicate Valid(date: Date) {
    1 <= date.month <= 12 && 1 <= date.day <= Length(date.year, date.month)
  }

  function NextDay(date: Date): (next: Date)
    requires Valid(date)
    ensures Valid(next)
  {
    if date.day < Length(date.year, date.month) then date.(day := date.day + 1)
    else if date.month < 12 then Date(date.year, date.month + 1, 1)
    else Date(date.year + 1, 1, 1)
  }

  function PreviousDay(date: Date): (previous: Date)
    requires Valid(date)
    ensures Valid(previous) && NextDay(previous) == date
  {
    if date.day > 1 then date.(day := date.day - 1)
    else if date.month > 1 then Date(date.year, date.month - 1, Length(date.year, date.month - 1))
    else Date(date.year - 1, 12, 31)
  }

  function DateOf(n: int): (date: Date)
    ensures Valid(date)
    decreases if n < 0 then -n else n
  {
    if n == 0 then Date(1970, 1, 1)
    else if n > 0 then NextDay(DateOf(n - 1))
    else PreviousDay(DateOf(n + 1))
  }

  lemma {:induction false} DateSteps(n: int)
    ensures DateOf(n + 1) == NextDay(DateOf(n))
  {
  }

  /** Dates in order, as numbers. */
  function Rank(date: Date): int {
    (date.year * 12 + date.month) * 31 + date.day
  }

  lemma {:induction false} DatesIncrease(a: int, b: int)
    requires a < b
    ensures Rank(DateOf(a)) < Rank(DateOf(b))
    decreases b - a
  {
    DateSteps(b - 1);
    if a < b - 1 {
      DatesIncrease(a, b - 1);
    }
  }

  lemma {:induction false} DatesDiffer(a: int, b: int)
    requires DateOf(a) == DateOf(b)
    ensures a == b
  {
    if a < b {
      DatesIncrease(a, b);
    } else if b < a {
      DatesIncrease(b, a);
    }
  }

  lemma {:induction false} DaysAhead(n: int, k: nat)
    requires DateOf(n).day + k <= Length(DateOf(n).year, DateOf(n).month)
    ensures DateOf(n + k) == DateOf(n).(day := DateOf(n).day + k)
  {
    if k == 0 {
    } else {
      DaysAhead(n, k - 1);
      DateSteps(n + k - 1);
    }
  }

  datatype Month = Month(year: int, month: int)

  predicate IsMonth(m: Month) {
    1 <= m.month <= 12
  }

  function NextMonth(m: Month): Month {
    if m.month < 12 then Month(m.year, m.month + 1) else Month(m.year + 1, 1)
  }

  function PreviousMonth(m: Month): Month {
    if m.month > 1 then Month(m.year, m.month - 1) else Month(m.year - 1, 12)
  }

  /** Months before or after January 1970. */
  function Months(m: Month): int {
    (m.year - 1970) * 12 + m.month - 1
  }

  /** The day number of the first of a month. */
  function FirstOf(m: Month): int
    requires IsMonth(m)
    decreases if Months(m) < 0 then -Months(m) else Months(m)
  {
    if Months(m) == 0 then 0
    else if Months(m) > 0 then FirstOf(PreviousMonth(m)) + Length(PreviousMonth(m).year, PreviousMonth(m).month)
    else FirstOf(NextMonth(m)) - Length(m.year, m.month)
  }

  lemma {:induction false} FirstOfIsFirst(m: Month)
    requires IsMonth(m)
    ensures DateOf(FirstOf(m)) == Date(m.year, m.month, 1)
    decreases if Months(m) < 0 then -Months(m) else Months(m)
  {
    if Months(m) > 0 {
      FirstOfIsFirst(PreviousMonth(m));
      MonthPasses(PreviousMonth(m), FirstOf(PreviousMonth(m)));
    } else if Months(m) < 0 {
      FirstOfIsFirst(NextMonth(m));
      MonthBefore(m, FirstOf(NextMonth(m)));
    }
  }

  lemma {:induction false} MonthPasses(m: Month, n: int)
    requires IsMonth(m) && DateOf(n) == Date(m.year, m.month, 1)
    ensures DateOf(n + Length(m.year, m.month)) == Date(NextMonth(m).year, NextMonth(m).month, 1)
  {
    var length := Length(m.year, m.month);
    DaysAhead(n, length - 1);
    var last := n + length - 1;
    assert DateOf(last) == Date(m.year, m.month, length);
    DateSteps(last);
    assert last + 1 == n + length;
  }

  lemma {:induction false} DaysBack(n: int, k: nat)
    requires k < DateOf(n).day
    ensures DateOf(n - k) == DateOf(n).(day := DateOf(n).day - k)
  {
    if k == 0 {
    } else {
      DaysBack(n, k - 1);
      DateSteps(n - k);
    }
  }

  lemma {:induction false} MonthBefore(m: Month, next: int)
    requires IsMonth(m) && DateOf(next) == Date(NextMonth(m).year, NextMonth(m).month, 1)
    ensures DateOf(next - Length(m.year, m.month)) == Date(m.year, m.month, 1)
  {
    var last, length := next - 1, Length(m.year, m.month);
    DateSteps(last);
    assert DateOf(last) == Date(m.year, m.month, length);
    DaysBack(last, length - 1);
    assert last - (length - 1) == next - length;
  }

  predicate InMonth(m: Month, n: int) {
    DateOf(n).year == m.year && DateOf(n).month == m.month
  }

  lemma {:induction false} RangeInMonth(m: Month, first: int, n: int)
    requires DateOf(first) == Date(m.year, m.month, 1) && first <= n < first + Length(m.year, m.month)
    ensures InMonth(m, n) && DateOf(n).day == n - first + 1
  {
    var k := n - first;
    DaysAhead(first, k);
    assert first + k == n;
  }

  lemma {:induction false} MonthInRange(m: Month, first: int, n: int)
    requires DateOf(first) == Date(m.year, m.month, 1) && InMonth(m, n)
    ensures first <= n < first + Length(m.year, m.month)
  {
    var day := DateOf(n).day;
    RangeInMonth(m, first, first + day - 1);
    DatesDiffer(first + day - 1, n);
  }

  /** A month is its days in order, no more and no less. */
  lemma {:induction false} MonthIsRange(m: Month, n: int)
    requires IsMonth(m)
    ensures InMonth(m, n) <==> FirstOf(m) <= n < FirstOf(m) + Length(m.year, m.month)
    ensures InMonth(m, n) ==> DateOf(n).day == n - FirstOf(m) + 1
  {
    FirstOfIsFirst(m);
    var first := FirstOf(m);
    if InMonth(m, n) {
      MonthInRange(m, first, n);
      RangeInMonth(m, first, n);
    } else if first <= n < first + Length(m.year, m.month) {
      RangeInMonth(m, first, n);
    }
  }

  // ------------------------------------------------------------- against a formula

  /** The leap years up to a year, counted from the year 0. */
  function LeapYears(year: int): int {
    year / 4 - year / 100 + year / 400
  }

  /** The days from 1 March to the first of a month. */
  function SinceMarch(month: int): int {
    (153 * ((month + 9) % 12) + 2) / 5
  }

  /** The day number of a date as a formula: years counted from March, so that a leap day
      is the last day of a year. */
  function ByFormula(date: Date): int {
    var year := if date.month <= 2 then date.year - 1 else date.year;
    365 * year + LeapYears(year) + SinceMarch(date.month) + date.day - 719_469
  }

  lemma {:induction false} QuotientSteps(year: int, n: int)
    requires n in {4, 100, 400}
    ensures year / n - (year - 1) / n == if year % n == 0 then 1 else 0
  {
  }

  lemma {:induction false} ByHundreds(year: int)
    ensures year % 100 == 0 ==> year % 4 == 0
  {
    if year % 100 == 0 {
      assert year == 4 * (25 * (year / 100));
    }
  }

  lemma {:induction false} ByFourHundreds(year: int)
    ensures year % 400 == 0 ==> year % 100 == 0
  {
    if year % 400 == 0 {
      assert year == 100 * (4 * (year / 400));
    }
  }

  lemma {:induction false} LeapYearsStep(year: int)
    ensures LeapYears(year) == LeapYears(year - 1) + if Leap(year) then 1 else 0
  {
    QuotientSteps(year, 4);
    QuotientSteps(year, 100);
    QuotientSteps(year, 400);
    ByHundreds(year);
    ByFourHundreds(year);
  }

  lemma {:induction false} SinceMarchIs(month: int)
    requires 1 <= month <= 12
    ensures SinceMarch(month) == [306, 337, 0, 31, 61, 92, 122, 153, 184, 214, 245, 275][month - 1]
  {
    var marched := if month <= 2 then month + 9 else month - 3;
    assert (month + 9) % 12 == marched;
  }

  lemma {:induction false} SinceMarchSteps(year: int, month: int)
    requires 1 <= month < 12 && month != 2
    ensures SinceMarch(month + 1) == SinceMarch(month) + Length(year, month)
  {
    SinceMarchIs(month);
    SinceMarchIs(month + 1);
  }

  lemma {:induction false} FormulaPasses(m: Month)
    requires IsMonth(m)
    ensures ByFormula(Date(NextMonth(m).year, NextMonth(m).month, 1)) ==
            ByFormula(Date(m.year, m.month, 1)) + Length(m.year, m.month)
  {
    if m.month == 2 {
      LeapYearsStep(m.year);
      SinceMarchIs(2);
      SinceMarchIs(3);
    } else if m.month == 12 {
      SinceMarchIs(12);
      SinceMarchIs(1);
    } else {
      SinceMarchSteps(m.year, m.month);
    }
  }

  lemma {:induction false} FirstOfSteps(m: Month)
    requires IsMonth(m)
    ensures FirstOf(NextMonth(m)) == FirstOf(m) + Length(m.year, m.month)
  {
    assert PreviousMonth(NextMonth(m)) == m;
  }

  lemma {:induction false} FirstIsByFormula(m: Month)
    requires IsMonth(m)
    ensures FirstOf(m) == ByFormula(Date(m.year, m.month, 1))
    decreases if Months(m) < 0 then -Months(m) else Months(m)
  {
    if Months(m) == 0 {
      SinceMarchIs(1);
      assert m == Month(1970, 1) && LeapYears(1969) == 477;
    } else {
      var before := if Months(m) > 0 then PreviousMonth(m) else m;
      var next := NextMonth(before);
      FirstIsByFormula(if Months(m) > 0 then before else next);
      FirstOfSteps(before);
      FormulaPasses(before);
      assert Months(m) > 0 ==> next == m;
    }
  }

  lemma {:induction false} FormulaCountsDays(date: Date)
    ensures ByFormula(date) == ByFormula(date.(day := 1)) + date.day - 1
  {
  }

  /** Every day has the date that the formula gives its number for. */
  lemma {:induction false} DateIsByFormula(n: int)
    ensures Valid(DateOf(n)) && ByFormula(DateOf(n)) == n
  {
    var date := DateOf(n);
    var m := Month(date.year, date.month);
    assert InMonth(m, n);
    MonthIsRange(m, n);
    FirstIsByFormula(m);
    FormulaCountsDays(date);
  }

  /** Go's numbering of weekdays, from Sunday. */
  function Weekday(n: int): (w: int)
    ensures 0 <= w <= 6
  {
    (n + 4) % 7
  }
}
