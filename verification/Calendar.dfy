/** From a day count to a civil date: the loops of the timestamp formatter against the Gregorian calendar. */
module Calendar {
  import opened Arithmetic

  // ---- the Gregorian calendar ----

  predicate IsLeap(y: nat) { y % 4 == 0 && (y % 100 != 0 || y % 400 == 0) }

  function YearLength(y: nat): nat { if IsLeap(y) then 366 else 365 }

  /** Months are counted from 0. */
  function MonthLength(y: nat, m: nat): nat {
    if m == 1 then (if IsLeap(y) then 29 else 28) else if m in {3, 5, 8, 10} then 30 else 31
  }

  /** Days from the start of 1970 to the start of year `y`. */
  function DaysBeforeYear(y: nat): nat
    requires y >= 1970
  {
    if y == 1970 then 0 else DaysBeforeYear(y - 1) + YearLength(y - 1)
  }

  function DaysBeforeMonth(y: nat, m: nat): nat {
    if m == 0 then 0 else DaysBeforeMonth(y, m - 1) + MonthLength(y, m - 1)
  }

  datatype Date = Date(year: nat, month: nat, day: nat)

  predicate ValidDate(d: Date) {
    d.year >= 1970 && d.month < 12 && 1 <= d.day <= MonthLength(d.year, d.month)
  }

  function DayNumber(d: Date): int
    requires d.year >= 1970
  {
    DaysBeforeYear(d.year) + DaysBeforeMonth(d.year, d.month) + d.day - 1
  }

  /** The recursive sum is the well-known closed form. */
  lemma {:induction false} DaysBeforeYearClosed(y: nat)
    requires y >= 1970
    ensures DaysBeforeYear(y) == 365 * (y - 1970) + (y - 1) / 4 - (y - 1) / 100 + (y - 1) / 400 - 477
  {
    if y > 1970 {
      DaysBeforeYearClosed(y - 1);
      Multiples(y - 1, 4);
      Multiples(y - 1, 100);
      Multiples(y - 1, 400);
      LeapCount(y - 1);
    }
  }

  lemma {:induction false} Multiples(z: nat, k: nat)
    requires z > 0 && k > 0
    ensures z / k == (z - 1) / k + (if z % k == 0 then 1 else 0)
  {
    var q, r := z / k, z % k;
    if r == 0 {
      DivUnique(z - 1, k, q - 1, k - 1);
    } else {
      DivUnique(z - 1, k, q, r - 1);
    }
  }

  lemma {:induction false} LeapCount(z: nat)
    ensures (if IsLeap(z) then 1 else 0)
         == (if z % 4 == 0 then 1 else 0) - (if z % 100 == 0 then 1 else 0) + (if z % 400 == 0 then 1 else 0)
  {
    assert z % 400 == 0 ==> z % 100 == 0;
    assert z % 100 == 0 ==> z % 4 == 0;
  }

  /** The months fill the year. */
  lemma {:induction false} MonthsFillYear(y: nat)
    ensures DaysBeforeMonth(y, 12) == YearLength(y)
  {
    MonthTable(y);
    assert DaysBeforeMonth(y, 12) == DaysBeforeMonth(y, 11) + MonthLength(y, 11);
  }

  // ---- the formatter's computation ----

  /** `spm`: days before each month of a year without leap day. */
  const SPM: seq<nat> := [0, 31, 59, 90, 120, 151, 181, 212, 243, 273, 304, 334, 365]

  /** The table against the calendar: behind February a leap year is one day ahead. */
  lemma {:induction false} MonthTable(y: nat)
    ensures forall m: nat :: m < 12 ==> DaysBeforeMonth(y, m) == SPM[m] + (if m >= 2 && IsLeap(y) then 1 else 0)
  {
    var leap := if IsLeap(y) then 1 else 0;
    assert DaysBeforeMonth(y, 0) == 0;
    assert DaysBeforeMonth(y, 1) == DaysBeforeMonth(y, 0) + 31;
    assert DaysBeforeMonth(y, 2) == DaysBeforeMonth(y, 1) + 28 + leap;
    assert DaysBeforeMonth(y, 3) == DaysBeforeMonth(y, 2) + 31;
    assert DaysBeforeMonth(y, 4) == DaysBeforeMonth(y, 3) + 30;
    assert DaysBeforeMonth(y, 5) == DaysBeforeMonth(y, 4) + 31;
    assert DaysBeforeMonth(y, 6) == DaysBeforeMonth(y, 5) + 30;
    assert DaysBeforeMonth(y, 7) == DaysBeforeMonth(y, 6) + 31;
    assert DaysBeforeMonth(y, 8) == DaysBeforeMonth(y, 7) + 31;
    assert DaysBeforeMonth(y, 9) == DaysBeforeMonth(y, 8) + 30;
    assert DaysBeforeMonth(y, 10) == DaysBeforeMonth(y, 9) + 31;
    assert DaysBeforeMonth(y, 11) == DaysBeforeMonth(y, 10) + 30;
  }

  /** The loop that takes years off the day count, and the day of the year it leaves. */
  method FindYear(days: nat) returns (year: nat, work: nat)
    ensures year >= 1970 && days == DaysBeforeYear(year) + work && work < YearLength(year)
  {
    year, work := 1970, days;
    while true
      invariant year >= 1970 && days == DaysBeforeYear(year) + work
      decreases work
    {
      var k := if IsLeap(year) then 366 else 365;
      if work >= k { work := work - k; } else { break; }
      year := year + 1;
    }
  }

  /** The loop that finds the month in the table of a year without leap day. */
  method FindMonth(work: nat) returns (m: nat)
    requires work < 365
    ensures m < 12 && SPM[m] <= work < SPM[m + 1]
  {
    m := 11;
    while m != 0 && SPM[m] > work
      invariant m <= 11 && work < SPM[m + 1]
    {
      m := m - 1;
    }
  }

  /** The leap-day adjustment: 29 February and what follows move back by one day, 29 February onto the 28th,
      which is then counted as one more. */
  method CivilDate(days: nat) returns (d: Date)
    ensures ValidDate(d) && DayNumber(d) == days
  {
    var year, work := FindYear(days);
    ghost var ofYear := work;
    var extra := 1;
    if IsLeap(year) && work > 58 {
      if work == 59 { extra := 2; }
      work := work - 1;
    }
    var m := FindMonth(work);
    d := Date(year, m, extra + (work - SPM[m]));
    MonthTable(year);
    MonthEnds(year, m);
  }

  lemma {:induction false} MonthEnds(y: nat, m: nat)
    requires m < 12
    ensures SPM[m + 1] - SPM[m] == if m == 1 then 28 else MonthLength(y, m)
  {
  }

  // ---- dates are ordered like their numbers ----

  predicate Before(a: Date, b: Date) {
    a.year < b.year || (a.year == b.year && (a.month < b.month || (a.month == b.month && a.day < b.day)))
  }

  lemma {:induction false} YearsGrow(y: nat, z: nat)
    requires 1970 <= y < z
    ensures DaysBeforeYear(y) + YearLength(y) <= DaysBeforeYear(z)
  {
    if y + 1 < z { YearsGrow(y, z - 1); }
  }

  lemma {:induction false} MonthsGrow(y: nat, m: nat, n: nat)
    requires m < n
    ensures DaysBeforeMonth(y, m) + MonthLength(y, m) <= DaysBeforeMonth(y, n)
  {
    if m + 1 < n { MonthsGrow(y, m, n - 1); }
  }

  lemma {:induction false} BeforeIsLess(a: Date, b: Date)
    requires ValidDate(a) && ValidDate(b) && Before(a, b)
    ensures DayNumber(a) < DayNumber(b)
  {
    if a.year < b.year {
      YearsGrow(a.year, b.year);
      MonthsGrow(a.year, a.month, 12);
      MonthsFillYear(a.year);
    } else if a.month < b.month {
      MonthsGrow(a.year, a.month, b.month);
    }
  }

  /** A day number determines its date, and the order of numbers is the order of dates. */
  lemma {:induction false} DateOrder(a: Date, b: Date)
    requires ValidDate(a) && ValidDate(b)
    ensures Before(a, b) <==> DayNumber(a) < DayNumber(b)
    ensures DayNumber(a) == DayNumber(b) ==> a == b
  {
    if Before(a, b) {
      BeforeIsLess(a, b);
    } else if Before(b, a) {
      BeforeIsLess(b, a);
    }
  }

  /** The last day a 64-bit count of nanoseconds reaches. */
  const LAST_DAY: nat := 213_503

  /** For every such day the year has four digits. */
  lemma {:induction false} YearHasFourDigits(d: Date)
    requires ValidDate(d) && DayNumber(d) <= LAST_DAY
    ensures 1970 <= d.year <= 2554
  {
    if d.year >= 2555 {
      DaysBeforeYearClosed(2555);
      if d.year > 2555 { YearsGrow(2555, d.year); }
    }
  }
}
