/** The calendar arithmetic of `days_from_civil` in `src/parity_filters.rs`,
    against the calendar itself: the date after a date. The 32-bit years of the
    source never overflow its 64-bit arithmetic; here years are unbounded. */
module CivilDate {
  import opened Text

  datatype Date = Date(year: int, month: int, day: int)

  predicate IsLeap(year: int) {
    year % 4 == 0 && (year % 100 != 0 || year % 400 == 0)
  }

  function Months(year: int): (months: seq<int>)
    ensures |months| == 12
  {
    [31, if IsLeap(year) then 29 else 28, 31, 30, 31, 30, 31, 31, 30, 31, 30, 31]
  }

  function Sum(months: seq<int>): int {
    if months == [] then 0 else Sum(months[..|months| - 1]) + months[|months| - 1]
  }

  /** Days from the start of year 1 to the start of `year`, by `div_euclid`. */
  function BeforeYear(year: int): int {
    var last := year - 1;
    365 * last + last / 4 - last / 100 + last / 400
  }

  predicate Valid(d: Date) {
    1 <= d.month <= 12 && 1 <= d.day <= Months(d.year)[d.month - 1]
  }

  /** `days_from_civil`: months and days are unsigned in the source. */
  function DaysFromCivil(year: int, month: nat, day: nat): Option<int> {
    if month == 0 || month > 12 || day == 0 || day > Months(year)[month - 1] then None
    else Some(BeforeYear(year) - BeforeYear(1970) + Sum(Months(year)[..month - 1]) + (day - 1))
  }

  function Days(d: Date): int
    requires Valid(d)
  {
    DaysFromCivil(d.year, d.month, d.day).value
  }

  // ----- the calendar

  /** The day after `d`. */
  function Tomorrow(d: Date): (next: Date)
    requires Valid(d)
    ensures Valid(next)
  {
    if d.day < Months(d.year)[d.month - 1] then Date(d.year, d.month, d.day + 1)
    else if d.month < 12 then Date(d.year, d.month + 1, 1)
    else Date(d.year + 1, 1, 1)
  }

  /** The day before `d`. */
  function Yesterday(d: Date): (previous: Date)
    requires Valid(d)
    ensures Valid(previous) && Tomorrow(previous) == d
  {
    if d.day > 1 then Date(d.year, d.month, d.day - 1)
    else if d.month > 1 then Date(d.year, d.month - 1, Months(d.year)[d.month - 2])
    else Date(d.year - 1, 12, 31)
  }

  predicate Before(a: Date, b: Date) {
    a.year < b.year
    || (a.year == b.year && (a.month < b.month || (a.month == b.month && a.day < b.day)))
  }

  // ----- day counts

  lemma Epoch()
    ensures DaysFromCivil(1970, 1, 1) == Some(0)
  {
  }

  lemma ExactlyValid(year: int, month: nat, day: nat)
    ensures DaysFromCivil(year, month, day).Some? <==> Valid(Date(year, month, day))
  {
  }

  /** Division steps by one exactly at multiples. */
  lemma DivStep(n: int, d: int)
    requires d > 0
    ensures n / d == (n - 1) / d + if n % d == 0 then 1 else 0
  {
    var q, r := n / d, n % d;
    assert n == q * d + r;
    if r == 0 {
      assert n - 1 == (q - 1) * d + (d - 1);
      DivUnique(n - 1, d, q - 1, d - 1);
    } else {
      assert n - 1 == q * d + (r - 1);
      DivUnique(n - 1, d, q, r - 1);
    }
  }

  lemma DivUnique(n: int, d: int, q: int, r: int)
    requires d > 0 && n == q * d + r && 0 <= r < d
    ensures n / d == q
  {
    var e := n / d - q;
    assert n == (n / d) * d + n % d;
    assert e * d == r - n % d;
    MulBound(e, d);
  }

  lemma MulBound(e: int, d: int)
    requires d > 0
    ensures e > 0 ==> e * d >= d
    ensures e < 0 ==> e * d <= -d
  {
  }

  lemma DivShift(n: int, d: int, k: int)
    requires d > 0
    ensures (n + k * d) / d == n / d + k && (n + k * d) % d == n % d
  {
    DivUnique(n + k * d, d, n / d + k, n % d);
    assert n + k * d == (n / d + k) * d + n % d;
  }

  lemma LeapCentury(year: int)
    ensures year % 400 == 0 ==> year % 100 == 0
    ensures year % 100 == 0 ==> year % 4 == 0
  {
  }

  /** The correction terms count exactly the leap years. */
  lemma YearLength(year: int)
    ensures BeforeYear(year + 1) - BeforeYear(year) == if IsLeap(year) then 366 else 365
  {
    DivStep(year, 4);
    DivStep(year, 100);
    DivStep(year, 400);
    LeapCentury(year);
  }

  lemma SumNext(months: seq<int>, k: nat)
    requires k < |months|
    ensures Sum(months[..k + 1]) == Sum(months[..k]) + months[k]
  {
    assert months[..k + 1][..k] == months[..k];
  }

  lemma YearSum(year: int)
    ensures Sum(Months(year)[..11]) + 31 == if IsLeap(year) then 366 else 365
  {
    var m := Months(year);
    SumNext(m, 0);
    SumNext(m, 1);
    SumNext(m, 2);
    SumNext(m, 3);
    SumNext(m, 4);
    SumNext(m, 5);
    SumNext(m, 6);
    SumNext(m, 7);
    SumNext(m, 8);
    SumNext(m, 9);
    SumNext(m, 10);
  }

  /** The count rises by exactly one from each date to the next, across month,
      year and leap-year boundaries. */
  lemma TomorrowIsOneMore(d: Date)
    requires Valid(d)
    ensures Days(Tomorrow(d)) == Days(d) + 1
  {
    if d.day == Months(d.year)[d.month - 1] {
      if d.month < 12 {
        SumNext(Months(d.year), d.month - 1);
      } else {
        YearSum(d.year);
        YearLength(d.year);
        assert Months(d.year + 1)[..0] == [];
      }
    }
  }

  lemma {:induction false} MonthsGrow(year: int, a: nat, b: nat)
    requires a < b <= 12
    ensures Sum(Months(year)[..a]) + Months(year)[a] <= Sum(Months(year)[..b])
  {
    SumNext(Months(year), b - 1);
    if a + 1 < b {
      MonthsGrow(year, a, b - 1);
    }
  }

  lemma DayOfYear(d: Date)
    requires Valid(d)
    ensures BeforeYear(d.year) <= Days(d) + BeforeYear(1970) < BeforeYear(d.year + 1)
  {
    YearSum(d.year);
    YearLength(d.year);
    SumNonNegative(d.year, d.month - 1);
    if d.month < 12 {
      MonthsGrow(d.year, d.month - 1, 11);
    }
  }

  lemma {:induction false} SumNonNegative(year: int, k: nat)
    requires k <= 12
    ensures Sum(Months(year)[..k]) >= 0
  {
    if k > 0 {
      SumNonNegative(year, k - 1);
      SumNext(Months(year), k - 1);
    }
  }

  lemma {:induction false} YearsGrow(a: int, b: int)
    requires a <= b
    ensures BeforeYear(a) <= BeforeYear(b)
    decreases b - a
  {
    if a < b {
      YearsGrow(a, b - 1);
      YearLength(b - 1);
    }
  }

  /** The count is strictly increasing in calendar order. */
  lemma CountIsMonotonic(a: Date, b: Date)
    requires Valid(a) && Valid(b) && Before(a, b)
    ensures Days(a) < Days(b)
  {
    if a.year < b.year {
      DayOfYear(a);
      DayOfYear(b);
      YearsGrow(a.year + 1, b.year);
    } else if a.month < b.month {
      MonthsGrow(a.year, a.month - 1, b.month - 1);
    }
  }

  /** Different dates have different counts. */
  lemma CountIsInjective(a: Date, b: Date)
    requires Valid(a) && Valid(b) && Days(a) == Days(b)
    ensures a == b
  {
    if Before(a, b) {
      CountIsMonotonic(a, b);
    } else if Before(b, a) {
      CountIsMonotonic(b, a);
    }
  }

  /** Every count is the count of a date: walk from the epoch. */
  lemma {:induction false} CountIsOnto(n: int) returns (d: Date)
    ensures Valid(d) && Days(d) == n
    decreases if n < 0 then -n else n
  {
    if n == 0 {
      d := Date(1970, 1, 1);
      Epoch();
    } else if n > 0 {
      var before := CountIsOnto(n - 1);
      TomorrowIsOneMore(before);
      d := Tomorrow(before);
    } else {
      var after := CountIsOnto(n + 1);
      d := Yesterday(after);
      TomorrowIsOneMore(d);
    }
  }

  /** The Gregorian cycle: 400 years are 146097 days. */
  lemma CycleOf400Years(d: Date)
    requires Valid(d)
    ensures Valid(Date(d.year + 400, d.month, d.day))
    ensures Days(Date(d.year + 400, d.month, d.day)) == Days(d) + 146097
  {
    LeapCycle(d.year);
    CorrectionCycle(d.year);
  }

  lemma LeapCycle(year: int)
    ensures IsLeap(year + 400) == IsLeap(year)
  {
    DivShift(year, 4, 100);
    DivShift(year, 100, 4);
    DivShift(year, 400, 1);
  }

  lemma CorrectionCycle(year: int)
    ensures BeforeYear(year + 400) == BeforeYear(year) + 146097
  {
    DivShift(year - 1, 4, 100);
    DivShift(year - 1, 100, 4);
    DivShift(year - 1, 400, 1);
  }


  // ----- an independent formula

  /** The count with the year starting in March, so that the leap day comes last and
      the months before it follow one line: no table of months. */
  function CountFromMarch(year: int, month: int, day: int): int {
    var y := if month <= 2 then year - 1 else year;
    365 * y + y / 4 - y / 100 + y / 400 + (153 * ((month + 9) % 12) + 2) / 5 + (day - 1) - 719468
  }

  lemma MonthStart(year: int, month: int)
    requires 1 <= month <= 12
    ensures Sum(Months(year)[..month - 1])
            == if month <= 2 then (153 * (month + 9) + 2) / 5 - 306
               else (153 * (month - 3) + 2) / 5 - 306 + if IsLeap(year) then 366 else 365
    decreases month
  {
    if month == 1 {
      assert Months(year)[..0] == [];
    } else {
      MonthStart(year, month - 1);
      SumNext(Months(year), month - 2);
    }
  }

  /** Both ways of counting agree on every date. */
  lemma CountsFromMarch(d: Date)
    requires Valid(d)
    ensures Days(d) == CountFromMarch(d.year, d.month, d.day)
  {
    MonthStart(d.year, d.month);
    YearLength(d.year);
  }

  /** The first day of the next month. */
  function NextMonth(d: Date): Date
    requires 1 <= d.month <= 12
  {
    if d.month < 12 then Date(d.year, d.month + 1, 1) else Date(d.year + 1, 1, 1)
  }

  function FirstOf(year: int, month: int): int {
    CountFromMarch(year, month, 1)
  }

  lemma FirstOfMonth(year: int, month: int)
    requires 1 <= month <= 12
    ensures FirstOf(year, month) == BeforeYear(year) - BeforeYear(1970) + Sum(Months(year)[..month - 1])
  {
    CountsFromMarch(Date(year, month, 1));
  }

  lemma DayOfMonth(year: int, month: int, day: int)
    ensures CountFromMarch(year, month, day) == FirstOf(year, month) + (day - 1)
  {
  }

  lemma MonthLength(d: Date)
    requires 1 <= d.month <= 12
    ensures FirstOf(NextMonth(d).year, NextMonth(d).month) == FirstOf(d.year, d.month) + Months(d.year)[d.month - 1]
  {
    FirstOfMonth(d.year, d.month);
    if d.month < 12 {
      FirstOfMonth(d.year, d.month + 1);
      SumNext(Months(d.year), d.month - 1);
    } else {
      FirstOfMonth(d.year + 1, 1);
      YearLength(d.year);
      YearSum(d.year);
    }
  }

  /** A date is one of the calendar if and only if it is counted before the first day
      of the next month. */
  lemma ValidByCount(d: Date)
    requires 1 <= d.month <= 12
    ensures Valid(d) <==> 1 <= d.day && CountFromMarch(d.year, d.month, d.day) < FirstOf(NextMonth(d).year, NextMonth(d).month)
  {
    MonthLength(d);
    DayOfMonth(d.year, d.month, d.day);
  }
}
