/** The proleptic Gregorian calendar from 1970 on: what gmtime_r and mktimegm compute. */
module Calendar {
  import opened Division

  datatype Date = Date(year: int, month: int, day: int)

  const EPOCH := Date(1970, 1, 1)

  predicate Leap(year: int) {
    year % 4 == 0 && (year % 100 != 0 || year % 400 == 0)
  }

  function MonthDays(year: int, month: int): (n: int) {
    if month == 2 then (if Leap(year) then 29 else 28)
    else if month == 4 || month == 6 || month == 9 || month == 11 then 30
    else 31
  }

  predicate Valid(d: Date) {
    && d.year >= 1970
    && 1 <= d.month <= 12
    && 1 <= d.day <= MonthDays(d.year, d.month)
  }

  function Tomorrow(d: Date): (t: Date)
    requires Valid(d)
    ensures Valid(t)
  {
    if d.day < MonthDays(d.year, d.month) then d.(day := d.day + 1)
    else if d.month < 12 then Date(d.year, d.month + 1, 1)
    else Date(d.year + 1, 1, 1)
  }

  /** The date `n` days after the epoch, by counting days. */
  function DateOf(n: nat): (d: Date)
    ensures Valid(d)
  {
    if n == 0 then EPOCH else Tomorrow(DateOf(n - 1))
  }

  /** Leap years in 1..year. */
  function LeapYears(year: int): int {
    year / 4 - year / 100 + year / 400
  }

  /** Days of `year` before the first of `month`. */
  function DaysBefore(year: int, month: int): int
    requires 1 <= month <= 13
  {
    if month == 1 then 0 else DaysBefore(year, month - 1) + MonthDays(year, month - 1)
  }

  /** Days since the epoch in closed form: the inverse of DateOf. */
  function DayNumber(d: Date): int
    requires Valid(d)
  {
    365 * (d.year - 1970) + LeapYears(d.year - 1) - LeapYears(1969) + DaysBefore(d.year, d.month) + d.day - 1
  }

  lemma {:induction false} YearLength(year: int)
    ensures DaysBefore(year, 13) == if Leap(year) then 366 else 365
  {
    assert DaysBefore(year, 2) == 31;
    assert DaysBefore(year, 3) == if Leap(year) then 60 else 59;
    assert DaysBefore(year, 5) == DaysBefore(year, 3) + 61;
    assert DaysBefore(year, 7) == DaysBefore(year, 5) + 61;
    assert DaysBefore(year, 9) == DaysBefore(year, 7) + 62;
    assert DaysBefore(year, 11) == DaysBefore(year, 9) + 61;
  }

  lemma {:induction false} LeapYearStep(year: int)
    ensures LeapYears(year) - LeapYears(year - 1) == if Leap(year) then 1 else 0
  {
    QuotientStep(year, 4);
    QuotientStep(year, 100);
    QuotientStep(year, 400);
    Centuries(year);
  }

  lemma {:induction false} Centuries(year: int)
    ensures year % 100 == 0 ==> year % 4 == 0
    ensures year % 400 == 0 ==> year % 100 == 0
  {
    if year % 100 == 0 {
      var q := year / 100;
      assert year == 25 * q * 4;
      Quotient(year, 4, 25 * q, 0);
    }
    if year % 400 == 0 {
      var q := year / 400;
      assert year == 4 * q * 100;
      Quotient(year, 100, 4 * q, 0);
    }
  }

  lemma {:induction false} QuotientStep(n: int, k: int)
    requires k > 1
    ensures n / k - (n - 1) / k == if n % k == 0 then 1 else 0
  {
    var q, r := n / k, n % k;
    assert n == q * k + r;
    if r == 0 {
      assert n - 1 == (q - 1) * k + (k - 1);
      Quotient(n - 1, k, q - 1, k - 1);
    } else {
      Quotient(n - 1, k, q, r - 1);
    }
  }

  lemma {:induction false} TomorrowIsNext(d: Date)
    requires Valid(d)
    ensures DayNumber(Tomorrow(d)) == DayNumber(d) + 1
  {
    hide Leap, LeapYears;
    if d.day < MonthDays(d.year, d.month) {
    } else if d.month < 12 {
      MonthFollows(d.year, d.month);
      hide DaysBefore;
    } else {
      MonthFollows(d.year, 12);
      JanuaryFirst(d.year + 1);
      YearLength(d.year);
      LeapYearStep(d.year);
      hide DaysBefore, MonthDays;
    }
  }

  lemma {:induction false} MonthFollows(year: int, month: int)
    requires 1 <= month <= 12
    ensures DaysBefore(year, month + 1) == DaysBefore(year, month) + MonthDays(year, month)
  {
    hide MonthDays;
  }

  lemma {:induction false} JanuaryFirst(year: int)
    ensures DaysBefore(year, 1) == 0
  {
  }

  lemma {:induction false} DaysBeforeGrows(year: int, month: int)
    requires 1 <= month <= 13
    ensures 0 <= DaysBefore(year, month) <= 31 * (month - 1)
  {
    if month > 1 { DaysBeforeGrows(year, month - 1); }
  }

  /** Counting days and the closed form agree. */
  lemma {:induction false} DayNumberOfDate(n: nat)
    ensures DayNumber(DateOf(n)) == n
  {
    if n > 0 {
      DayNumberOfDate(n - 1);
      TomorrowIsNext(DateOf(n - 1));
    }
  }

  lemma {:induction false} LeapYearsGrow(a: int, b: int)
    requires a <= b
    ensures LeapYears(a) <= LeapYears(b)
    decreases b - a
  {
    if a < b {
      LeapYearsGrow(a, b - 1);
      LeapYearStep(b);
    }
  }

  lemma {:induction false} DayNumberNonNegative(d: Date)
    requires Valid(d)
    ensures DayNumber(d) >= 0
    ensures d != EPOCH ==> DayNumber(d) > 0
  {
    LeapYearsGrow(1969, d.year - 1);
    DaysBeforeGrows(d.year, d.month);
    assert d.month > 1 ==> DaysBefore(d.year, d.month) >= MonthDays(d.year, d.month - 1) by {
      if d.month > 1 { DaysBeforeGrows(d.year, d.month - 1); }
    }
  }

  lemma {:induction false} Yesterday(d: Date) returns (y: Date)
    requires Valid(d) && d != EPOCH
    ensures Valid(y) && Tomorrow(y) == d
  {
    if d.day > 1 {
      y := d.(day := d.day - 1);
    } else if d.month > 1 {
      y := Date(d.year, d.month - 1, MonthDays(d.year, d.month - 1));
    } else {
      y := Date(d.year - 1, 12, 31);
    }
  }

  /** Every calendar date is reached, at its day number. */
  lemma {:induction false} DateOfDayNumber(d: Date)
    requires Valid(d)
    ensures DayNumber(d) >= 0 && DateOf(DayNumber(d)) == d
    decreases if d == EPOCH then 0 else DayNumber(d)
  {
    DayNumberNonNegative(d);
    if d == EPOCH {
      assert DateOf(0) == EPOCH;
    } else {
      var y := Yesterday(d);
      TomorrowIsNext(y);
      DayNumberNonNegative(y);
      DateOfDayNumber(y);
    }
  }

  /** Every day of the month comes round again: next January has them all. */
  lemma {:induction false} DayOfMonthRecurs(n: nat, day: int) returns (k: nat)
    requires 1 <= day <= 31
    ensures k > n && DateOf(k).day == day
  {
    var january := Date(DateOf(n).year + 1, 1, day);
    NextJanuaryIsLater(DateOf(n), day);
    DayNumberOfDate(n);
    assert Valid(january);
    hide *;
    DateOfDayNumber(january);
    k := DayNumber(january);
  }

  lemma {:induction false} NextJanuaryIsLater(d: Date, day: int)
    requires Valid(d) && 1 <= day <= 31
    ensures DayNumber(Date(d.year + 1, 1, day)) > DayNumber(d)
  {
    DaysBeforeGrows(d.year, d.month);
    YearLength(d.year);
    DaysBeforeEnd(d.year, d.month);
    LeapYearStep(d.year);
  }

  lemma {:induction false} DaysBeforeEnd(year: int, month: int)
    requires 1 <= month <= 12
    ensures DaysBefore(year, month) + MonthDays(year, month) <= DaysBefore(year, 13)
    decreases 12 - month
  {
    if month < 12 { DaysBeforeEnd(year, month + 1); }
  }
}
