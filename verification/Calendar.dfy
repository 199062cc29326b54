// Gregorian dates from a count of days since 1970-01-01 (ISO 8601:2004, section 3.2.1).
module Calendar {

  datatype Date = Date(year: nat, month: nat, day: nat)

  predicate IsLeap(y: nat) {
    (y % 4 == 0 && y % 100 != 0) || y % 400 == 0
  }

  function YearLength(y: nat): nat {
    if IsLeap(y) then 366 else 365
  }

  function MonthLengths(y: nat): (r: seq<nat>)
    ensures |r| == 12
  {
    [31, if IsLeap(y) then 29 else 28, 31, 30, 31, 30, 31, 31, 30, 31, 30, 31]
  }

  ghost predicate Valid(d: Date) {
    d.year >= 1970 && 1 <= d.month <= 12 && 1 <= d.day <= MonthLengths(d.year)[d.month - 1]
  }

  ghost predicate Before(a: Date, b: Date) {
    || a.year < b.year
    || (a.year == b.year && a.month < b.month)
    || (a.year == b.year && a.month == b.month && a.day < b.day)
  }

  // The day after, by the calendar's own rules.
  function Tomorrow(d: Date): Date
    requires Valid(d)
  {
    if d.day < MonthLengths(d.year)[d.month - 1] then d.(day := d.day + 1)
    else if d.month < 12 then Date(d.year, d.month + 1, 1)
    else Date(d.year + 1, 1, 1)
  }

  // ---------- the closed form ----------

  // Leap days in the years before `y`, counted from year 1.
  function LeapsBefore(y: nat): int
    requires y >= 1
  {
    (y - 1) / 4 - (y - 1) / 100 + (y - 1) / 400
  }

  // Days from 1970-01-01 to the first of January.
  function NewYear(y: nat): int
    requires y >= 1
  {
    365 * (y - 1970) + LeapsBefore(y) - 477
  }

  // Days of the year before the first of the month.
  function MonthStart(y: nat, m: nat): int {
    (367 * m - 362) / 12 - (if m <= 2 then 0 else if IsLeap(y) then 1 else 2)
  }

  function DayNumber(d: Date): int
    requires d.year >= 1
  {
    NewYear(d.year) + MonthStart(d.year, d.month) + d.day - 1
  }

  lemma DivSteps(y: nat)
    requires y >= 1
    ensures y / 4 - (y - 1) / 4 == if y % 4 == 0 then 1 else 0
    ensures y / 100 - (y - 1) / 100 == if y % 100 == 0 then 1 else 0
    ensures y / 400 - (y - 1) / 400 == if y % 400 == 0 then 1 else 0
  {
    DivStep(y, 4);
    DivStep(y, 100);
    DivStep(y, 400);
  }

  lemma DivStep(y: nat, n: nat)
    requires y >= 1 && n in [4, 100, 400]
    ensures y / n - (y - 1) / n == if y % n == 0 then 1 else 0
  {
    if n == 4 {
    } else if n == 100 {
    } else {
    }
  }

  lemma CenturiesAreFourths(y: nat)
    ensures (y % 100 == 0 ==> y % 4 == 0) && (y % 400 == 0 ==> y % 100 == 0)
  {
    if y % 100 == 0 { FourDivides(25 * (y / 100)); }
    if y % 400 == 0 { HundredDivides(4 * (y / 400)); }
  }

  lemma FourDivides(k: nat)
    ensures (4 * k) % 4 == 0
  {
  }

  lemma HundredDivides(k: nat)
    ensures (100 * k) % 100 == 0
  {
  }

  lemma NewYearStep(y: nat)
    requires y >= 1
    ensures NewYear(y + 1) == NewYear(y) + YearLength(y)
  {
    DivSteps(y);
    CenturiesAreFourths(y);
  }

  lemma MonthStartStep(y: nat, m: nat)
    requires 1 <= m <= 12
    ensures m == 1 ==> MonthStart(y, m) == 0
    ensures m < 12 ==> MonthStart(y, m + 1) == MonthStart(y, m) + MonthLengths(y)[m - 1]
    ensures m == 12 ==> MonthStart(y, m) + 31 == YearLength(y)
  {
  }

  lemma {:induction false} NewYearGrows(y: nat, z: nat)
    requires 1 <= y < z
    ensures NewYear(y) + YearLength(y) <= NewYear(z)
    decreases z
  {
    NewYearStep(z - 1);
    if y < z - 1 { NewYearGrows(y, z - 1); }
  }

  lemma {:induction false} MonthStartGrows(y: nat, m: nat, n: nat)
    requires 1 <= m < n <= 12
    ensures MonthStart(y, m) + MonthLengths(y)[m - 1] <= MonthStart(y, n)
    decreases n
  {
    MonthStartStep(y, n - 1);
    if m < n - 1 { MonthStartGrows(y, m, n - 1); }
  }

  // The closed form starts at zero and advances by one each day the calendar does.
  lemma ClosedFormCountsDays(d: Date)
    requires Valid(d)
    ensures DayNumber(Date(1970, 1, 1)) == 0
    ensures Valid(Tomorrow(d)) && DayNumber(Tomorrow(d)) == DayNumber(d) + 1
  {
    hide NewYear, MonthStart, IsLeap;
    assert NewYear(1970) + MonthStart(1970, 1) == 0 by { EpochYear(); MonthStartStep(1970, 1); }
    NewYearStep(d.year);
    MonthStartStep(d.year, d.month);
    MonthStartStep(d.year + 1, 1);
  }

  // Within its year, a valid date's number lies between this New Year and the next.
  lemma InsideYear(d: Date)
    requires Valid(d)
    ensures NewYear(d.year) <= DayNumber(d) < NewYear(d.year) + YearLength(d.year)
  {
    hide NewYear, MonthStart, YearLength;
    MonthStartStep(d.year, d.month);
    MonthStartStep(d.year, 1);
    MonthStartStep(d.year, 12);
    if d.month > 1 { MonthStartGrows(d.year, 1, d.month); }
    if d.month < 12 { MonthStartGrows(d.year, d.month, 12); }
  }

  // Dates and day numbers are in the same order.
  lemma NumbersFollowDates(a: Date, b: Date)
    requires Valid(a) && Valid(b)
    ensures Before(a, b) <==> DayNumber(a) < DayNumber(b)
    ensures a == b <==> DayNumber(a) == DayNumber(b)
  {
    if Before(a, b) {
      EarlierIsSmaller(a, b);
    } else if Before(b, a) {
      EarlierIsSmaller(b, a);
    }
  }

  lemma EarlierIsSmaller(a: Date, b: Date)
    requires Valid(a) && Valid(b) && Before(a, b)
    ensures DayNumber(a) < DayNumber(b)
  {
    hide NewYear, MonthStart, YearLength;
    if a.year < b.year {
      InsideYear(a);
      InsideYear(b);
      NewYearGrows(a.year, b.year);
    } else if a.month < b.month {
      MonthStartGrows(a.year, a.month, b.month);
    }
  }

  // ---------- the loops ----------

  // The one valid date with this number.
  method DaysToYmd(days: nat) returns (date: Date)
    ensures Valid(date) && DayNumber(date) == days
    ensures forall d :: Valid(d) && DayNumber(d) == days ==> d == date
  {
    hide NewYear, MonthStart;
    var y, rem := 1970, days;
    assert NewYear(1970) == 0 by { EpochYear(); }
    while true
      invariant y >= 1970 && NewYear(y) + rem == days
      decreases rem
    {
      var dy := if IsLeap(y) then 366 else 365;
      if rem < dy {
        break;
      }
      NewYearStep(y);
      rem := rem - dy;
      y := y + 1;
    }
    var months := MonthLengths(y);
    ghost var dayOfYear := rem;
    var mo := 1;
    MonthStartStep(y, 1);
    for k := 0 to 12
      invariant mo == k + 1
      invariant k < 12 ==> MonthStart(y, mo) + rem == dayOfYear
      invariant k < 12
    {
      var dm := months[k];
      MonthStartStep(y, mo);
      if rem < dm {
        break;
      }
      rem := rem - dm;
      mo := mo + 1;
    }
    date := Date(y, mo, rem + 1);
    forall d | Valid(d) && DayNumber(d) == days ensures d == date {
      NumbersFollowDates(d, date);
    }
  }

  lemma EpochYear()
    ensures NewYear(1970) == 0
  {
  }

  // Every valid date is the answer for some day number, and a later day has a later date.
  lemma LaterDaysLaterDates(a: Date, b: Date)
    requires Valid(a) && Valid(b)
    ensures DayNumber(a) >= 0
    ensures DayNumber(a) < DayNumber(b) ==> Before(a, b)
  {
    hide NewYear, MonthStart;
    NumbersFollowDates(a, b);
    InsideYear(a);
    EpochYear();
    if a.year > 1970 { NewYearGrows(1970, a.year); }
  }
}
