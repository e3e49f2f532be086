/** UTC calendar arithmetic, after section 21.4.1 of ECMA-262 (days, years, months, MakeDay).

    A day is a number of whole days since the epoch; months are numbered from 0. */
module Calendar {
  import opened Slots

  predicate InLeapYear(y: int) { (y % 4 == 0 && y % 100 != 0) || y % 400 == 0 }

  function DaysInYear(y: int): int { if InLeapYear(y) then 366 else 365 }

  /** The day number of the first of January of year `y`. */
  function DayFromYear(y: int): int
    decreases if y < 1970 then 1970 - y else y - 1970
  {
    if y == 1970 then 0
    else if y > 1970 then DayFromYear(y - 1) + DaysInYear(y - 1)
    else DayFromYear(y + 1) - DaysInYear(y)
  }

  lemma YearHasItsDays(y: int)
    ensures DayFromYear(y + 1) == DayFromYear(y) + DaysInYear(y)
  {
  }

  /** The formula of ECMA-262 for DayFromYear. */
  function DayFromYearFormula(y: int): int {
    365 * (y - 1970) + (y - 1969) / 4 - (y - 1901) / 100 + (y - 1601) / 400
  }

  /** A quotient steps up at each multiple. */
  lemma NextQuotient(n: int, d: int)
    requires d > 0
    ensures (n + 1) / d == n / d + (if (n + 1) % d == 0 then 1 else 0)
  {
    var q, r := n / d, n % d;
    if r + 1 < d {
      QuotientIsUnique(n + 1, d, q, r + 1);
    } else {
      assert (q + 1) * d == q * d + d;
      QuotientIsUnique(n + 1, d, q + 1, 0);
    }
  }

  lemma WholeShift(y: int, d: int, k: int)
    requires d > 0
    ensures (y - k * d) % d == y % d
  {
    var n := y - k * d;
    assert (n / d + k) * d == n / d * d + k * d;
    QuotientIsUnique(y, d, n / d + k, n % d);
  }

  lemma QuotientSteps(y: int)
    ensures (y - 1968) / 4 == (y - 1969) / 4 + (if y % 4 == 0 then 1 else 0)
    ensures (y - 1900) / 100 == (y - 1901) / 100 + (if y % 100 == 0 then 1 else 0)
    ensures (y - 1600) / 400 == (y - 1601) / 400 + (if y % 400 == 0 then 1 else 0)
  {
    NextQuotient(y - 1969, 4);
    WholeShift(y, 4, 492);
    NextQuotient(y - 1901, 100);
    WholeShift(y, 100, 19);
    NextQuotient(y - 1601, 400);
    WholeShift(y, 400, 4);
  }

  lemma LeapYearRule(y: int)
    ensures DaysInYear(y)
            == 365 + (if y % 4 == 0 then 1 else 0) - (if y % 100 == 0 then 1 else 0) + (if y % 400 == 0 then 1 else 0)
  {
    if y % 400 == 0 {
      MultipleHasNoRemainder(y / 400 * 4, 100);
    }
    if y % 100 == 0 {
      MultipleHasNoRemainder(y / 100 * 25, 4);
    }
  }

  lemma FormulaStep(y: int)
    ensures DayFromYearFormula(y + 1) == DayFromYearFormula(y) + DaysInYear(y)
  {
    QuotientSteps(y);
    LeapYearRule(y);
  }

  /** The formula counts the days of all the years since 1970, leap years included. */
  lemma {:induction false} FormulaCountsDays(y: int)
    ensures DayFromYearFormula(y) == DayFromYear(y)
    decreases if y < 1970 then 1970 - y else y - 1970
  {
    if y > 1970 {
      FormulaCountsDays(y - 1);
      FormulaStep(y - 1);
    } else if y < 1970 {
      FormulaCountsDays(y + 1);
      FormulaStep(y);
    }
  }

  lemma {:induction false} YearsKeepOrder(a: int, b: int)
    requires a <= b
    ensures 365 * (b - a) <= DayFromYear(b) - DayFromYear(a) <= 366 * (b - a)
    decreases b - a
  {
    if a < b {
      YearHasItsDays(a);
      YearsKeepOrder(a + 1, b);
    }
  }

  /** Days of the year before month `m`. */
  function DaysBeforeMonth(m: int, leap: bool): int
    requires 0 <= m <= 12
  {
    [0, 31, 59, 90, 120, 151, 181, 212, 243, 273, 304, 334, 365][m] + (if leap && m >= 2 then 1 else 0)
  }

  function DaysInMonth(y: int, m: int): (n: int)
    requires 0 <= m < 12
    ensures 28 <= n <= 31
  {
    DaysBeforeMonth(m + 1, InLeapYear(y)) - DaysBeforeMonth(m, InLeapYear(y))
  }

  /** The last year from `y` on that starts no later than `day`. */
  function YearSearch(y: int, day: int): (r: int)
    requires DayFromYear(y) <= day
    ensures DayFromYear(r) <= day < DayFromYear(r + 1)
    decreases day - DayFromYear(y)
  {
    YearHasItsDays(y);
    if day < DayFromYear(y + 1) then y else YearSearch(y + 1, day)
  }

  /** A year that starts no later than `day`. */
  function EarlyYear(day: int): (y: int)
    ensures DayFromYear(y) <= day
  {
    if day < 0 then
      YearsKeepOrder(1970 + day / 365, 1970);
      1970 + day / 365
    else
      YearsKeepOrder(1970, 1970 + day / 366);
      1970 + day / 366
  }

  /** YearFromTime, on days. */
  function Year(day: int): (y: int)
    ensures DayFromYear(y) <= day < DayFromYear(y + 1)
  {
    YearSearch(EarlyYear(day), day)
  }

  lemma YearIsUnique(day: int, y: int)
    requires DayFromYear(y) <= day < DayFromYear(y + 1)
    ensures Year(day) == y
  {
    if y < Year(day) {
      YearsKeepOrder(y + 1, Year(day));
    } else if Year(day) < y {
      YearsKeepOrder(Year(day) + 1, y);
    }
  }

  function DayInYear(day: int): int { day - DayFromYear(Year(day)) }

  function MonthSearch(m: int, inYear: int, leap: bool): (r: int)
    requires 0 <= m < 12 && DaysBeforeMonth(m, leap) <= inYear < DaysBeforeMonth(12, leap)
    ensures 0 <= r < 12 && DaysBeforeMonth(r, leap) <= inYear < DaysBeforeMonth(r + 1, leap)
    decreases 12 - m
  {
    if inYear < DaysBeforeMonth(m + 1, leap) then m else MonthSearch(m + 1, inYear, leap)
  }

  /** MonthFromTime, on days. */
  function Month(day: int): (m: int)
    ensures 0 <= m < 12
    ensures DaysBeforeMonth(m, InLeapYear(Year(day))) <= DayInYear(day)
    ensures DayInYear(day) < DaysBeforeMonth(m + 1, InLeapYear(Year(day)))
  {
    YearHasItsDays(Year(day));
    MonthSearch(0, DayInYear(day), InLeapYear(Year(day)))
  }

  /** DateFromTime, on days: the day of the month, from 1. */
  function Date(day: int): (d: int)
    ensures 1 <= d <= DaysInMonth(Year(day), Month(day)) <= 31
  {
    DayInYear(day) - DaysBeforeMonth(Month(day), InLeapYear(Year(day))) + 1
  }

  /** MakeDay: the month may lie outside 0..11 and the date outside the month. */
  function MakeDay(year: int, month: int, date: int): int {
    var y := year + month / 12;
    DayFromYear(y) + DaysBeforeMonth(month % 12, InLeapYear(y)) + date - 1
  }

  lemma MonthsKeepOrder(a: int, b: int, leap: bool)
    requires 0 <= a <= b <= 12
    ensures DaysBeforeMonth(a, leap) + 28 * (b - a) <= DaysBeforeMonth(b, leap)
  {
  }

  /** How long the month is: thirty days hath September, April, June and November. */
  function MonthLength(y: int, m: int): int {
    if m == 1 then (if y % 4 != 0 then 28 else if y % 100 != 0 then 29 else if y % 400 != 0 then 28 else 29)
    else if m == 8 || m == 3 || m == 5 || m == 10 then 30
    else 31
  }

  function LengthsBefore(y: int, m: nat): int {
    if m == 0 then 0 else LengthsBefore(y, m - 1) + MonthLength(y, m - 1)
  }

  lemma {:induction false} TableSumsLengths(y: int, m: nat)
    requires m <= 12
    ensures DaysBeforeMonth(m, InLeapYear(y)) == LengthsBefore(y, m)
  {
    if m > 0 {
      TableSumsLengths(y, m - 1);
    }
  }

  /** The months have their lengths in every year, and a date is as many days after the first of January as
      the lengths of the months before it and its date say; twelve months are a year. */
  lemma MonthLengths(y: int, m: int, d: int, k: int)
    requires 0 <= m < 12
    ensures DaysInMonth(y, m) == MonthLength(y, m)
    ensures MakeDay(y, m, d) == DayFromYearFormula(y) + LengthsBefore(y, m) + d - 1
    ensures MakeDay(y, m + k * 12, d) == MakeDay(y + k, m, d)
  {
    TableSumsLengths(y, m);
    TableSumsLengths(y, m + 1);
    FormulaCountsDays(y);
    QuotientIsUnique(m + k * 12, 12, k, m);
  }

  /** Taking a day apart and putting it together gives the day back. */
  lemma MakeDayOfFields(day: int)
    ensures MakeDay(Year(day), Month(day), Date(day)) == day
  {
    var y, m := Year(day), Month(day);
    assert y + m / 12 == y && m % 12 == m;
  }

  lemma YearOfMakeDay(y: int, m: int, d: int)
    requires 0 <= m < 12 && 1 <= d <= DaysInMonth(y, m)
    ensures var day := MakeDay(y, m, d);
            Year(day) == y && DayInYear(day) == DaysBeforeMonth(m, InLeapYear(y)) + d - 1
  {
    var day := MakeDay(y, m, d);
    var leap := InLeapYear(y);
    assert y + m / 12 == y && m % 12 == m;
    assert day == DayFromYear(y) + DaysBeforeMonth(m, leap) + d - 1;
    MonthsKeepOrder(0, m, leap);
    MonthsKeepOrder(m + 1, 12, leap);
    YearHasItsDays(y);
    YearIsUnique(day, y);
  }

  /** Putting a valid date together and taking it apart gives the date back. */
  lemma FieldsOfMakeDay(y: int, m: int, d: int)
    requires 0 <= m < 12 && 1 <= d <= DaysInMonth(y, m)
    ensures var day := MakeDay(y, m, d); Year(day) == y && Month(day) == m && Date(day) == d
  {
    var day, leap := MakeDay(y, m, d), InLeapYear(y);
    YearOfMakeDay(y, m, d);
    if m < Month(day) {
      MonthsKeepOrder(m + 1, Month(day), leap);
    } else if Month(day) < m {
      MonthsKeepOrder(Month(day) + 1, m, leap);
    }
  }

  /** A day has exactly the date that the formula and the lengths of the months give it. */
  lemma DateOfDay(day: int, y: int, m: int, d: int)
    ensures Year(day) == y && Month(day) == m && Date(day) == d <==>
            && 0 <= m < 12 && 1 <= d <= MonthLength(y, m)
            && day == DayFromYearFormula(y) + LengthsBefore(y, m) + d - 1
  {
    if 0 <= m < 12 {
      MonthLengths(y, m, d, 0);
      if 1 <= d <= MonthLength(y, m) {
        FieldsOfMakeDay(y, m, d);
      }
      MakeDayOfFields(day);
    }
  }

  /** Calendar order is day order. */
  predicate DateBefore(a: int, b: int) {
    || Year(a) < Year(b)
    || (Year(a) == Year(b) && (|| Month(a) < Month(b)
                               || (Month(a) == Month(b) && Date(a) < Date(b))))
  }

  lemma DaysOrderInYear(a: int, b: int)
    requires a < b && Year(a) == Year(b)
    ensures Month(a) < Month(b) || (Month(a) == Month(b) && Date(a) < Date(b))
  {
    var leap := InLeapYear(Year(a));
    var m, n := Month(a), Month(b);
    assert DayInYear(a) < DayInYear(b);
    if n < m {
      MonthsKeepOrder(n + 1, m, leap);
    }
  }

  lemma DaysOrderAsDates(a: int, b: int)
    requires a < b
    ensures DateBefore(a, b)
  {
    var y, z := Year(a), Year(b);
    if z < y {
      YearsKeepOrder(z + 1, y);
    } else if y == z {
      DaysOrderInYear(a, b);
    }
  }

  /** `setUTCDate(date)` on the time `t`. */
  function SetUtcDate(t: int, date: int): int {
    var day := t / DAY;
    MakeDay(Year(day), Month(day), date) * DAY + t % DAY
  }

  function UtcDate(t: int): int { Date(t / DAY) }

  /** `setUTCDate(getUTCDate() + i)` moves by exactly `i` days, across months, years and leap days. */
  lemma SetUtcDateAddsDays(t: int, i: int)
    ensures SetUtcDate(t, UtcDate(t) + i) == t + i * DAY
  {
    var day := t / DAY;
    MakeDayOfFields(day);
    assert MakeDay(Year(day), Month(day), Date(day) + i) == day + i;
  }

  /** MakeFullYear: `Date.UTC` takes the years 0 to 99 for 1900 to 1999. */
  function MakeFullYear(year: int): int { if 0 <= year <= 99 then 1900 + year else year }

  /** The schedule's `from`: `Date.UTC` of the UTC year, month and date of the requested instant. */
  function StartOfDate(t: int): int { StartDay(t / DAY) * DAY }

  function StartDay(day: int): int { MakeDay(MakeFullYear(Year(day)), Month(day), Date(day)) }

  /** How a date is read: as it is, or 1900 years later. Year 0 is a leap year and 1900 is not, so the
      days to 0000-02-29 are moved by one day more than those from 0000-03-01 to 0099-12-31. */
  datatype Shift = AsIs | BeforeMarchOfYear0 | UpToYear99

  function Era(day: int): Shift {
    if !(0 <= Year(day) <= 99) then AsIs
    else if Year(day) == 0 && Month(day) < 2 then BeforeMarchOfYear0
    else UpToYear99
  }

  function DaysMoved(e: Shift): int {
    match e
    case AsIs => 0
    case BeforeMarchOfYear0 => 693_961
    case UpToYear99 => 693_960
  }

  lemma NineteenHundredYears(y: int)
    requires 0 <= y <= 99
    ensures DayFromYear(1900 + y) - DayFromYear(y) == if y == 0 then 693_961 else 693_960
  {
    FormulaCountsDays(y);
    FormulaCountsDays(1900 + y);
    FormulaApart(y);
  }

  lemma FormulaApart(y: int)
    requires 0 <= y <= 99
    ensures DayFromYearFormula(1900 + y) - DayFromYearFormula(y) == if y == 0 then 693_961 else 693_960
  {
    assert (1900 + y - 1969) / 4 == (y - 1969) / 4 + 475;
    assert (1900 + y - 1901) / 100 == (if y == 0 then -1 else 0) && (y - 1901) / 100 == if y == 0 then -20 else -19;
    assert (1900 + y - 1601) / 400 == 0 && (y - 1601) / 400 == if y == 0 then -5 else -4;
  }

  lemma LeapYearsAgree(y: int)
    requires 1 <= y <= 99
    ensures InLeapYear(1900 + y) == InLeapYear(y)
  {
    assert (1900 + y) % 4 == y % 4 && (1900 + y) % 100 == y && (1900 + y) % 400 == y + 300;
  }

  lemma OtherYearApart(y: int, z: int, m: int, d: int)
    requires 0 <= m < 12
    ensures MakeDay(z, m, d) - MakeDay(y, m, d)
            == DayFromYear(z) - DayFromYear(y) + DaysBeforeMonth(m, InLeapYear(z)) - DaysBeforeMonth(m, InLeapYear(y))
  {
    assert m / 12 == 0 && m % 12 == m;
  }

  lemma MonthsMoved(y: int, m: int)
    requires 0 <= y <= 99 && 0 <= m < 12
    ensures DaysBeforeMonth(m, InLeapYear(1900 + y)) - DaysBeforeMonth(m, InLeapYear(y))
            == if y == 0 && m >= 2 then -1 else 0
  {
    if y > 0 {
      LeapYearsAgree(y);
    }
  }

  lemma DateMoved(y: int, m: int, d: int)
    requires 0 <= y <= 99 && 0 <= m < 12
    ensures MakeDay(1900 + y, m, d) - MakeDay(y, m, d) == if y == 0 && m < 2 then 693_961 else 693_960
  {
    OtherYearApart(y, 1900 + y, m, d);
    NineteenHundredYears(y);
    MonthsMoved(y, m);
  }

  /** Where the schedule starts, for every date. */
  lemma StartDayOf(day: int)
    ensures StartDay(day) == day + DaysMoved(Era(day))
  {
    MakeDayOfFields(day);
    if 0 <= Year(day) <= 99 {
      DateMoved(Year(day), Month(day), Date(day));
    }
  }

  lemma StartDayIsSameDay(day: int)
    ensures StartDay(day) == day <==> !(0 <= Year(day) <= 99)
  {
    StartDayOf(day);
  }

  /** Two dates keep their distance exactly if they are read with the same shift. */
  lemma EraDecidesShift(day: int, later: int)
    ensures StartDay(later) == StartDay(day) + (later - day) <==> Era(day) == Era(later)
  {
    StartDayOf(day);
    StartDayOf(later);
  }

  lemma DayHolds(t: int, day: int)
    ensures (day * DAY) % DAY == 0
    ensures day * DAY <= t < day * DAY + DAY <==> t / DAY == day
  {
  }

  /** `from` is the midnight that starts the UTC date of `t`, exactly when the year of `t` is not
      taken for a two-digit one. */
  lemma StartOfDateIsMidnight(t: int)
    ensures StartOfDate(t) % DAY == 0
    ensures StartOfDate(t) <= t < StartOfDate(t) + DAY <==> !(0 <= Year(t / DAY) <= 99)
  {
    var day := t / DAY;
    StartDayIsSameDay(day);
    DayHolds(t, StartDay(day));
  }
}
