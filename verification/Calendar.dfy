/**
 The proleptic Gregorian calendar on which the schedule screens compute.

 A local day is a day number: day 1 is 1 January of year 1, a Monday.  A month
 is a month index, 12 * year + (month - 1).  The calendar fields of a day are a
 `Civil` value.  `MakeDay` is what `new Date(year, month, date)` and
 `Date.UTC(year, month, date)` do to their first three arguments: the two-digit
 year rule, then overflow of the month and of the date.
 */
module Calendar {

  datatype Civil = Civil(year: int, month: int, day: int) {
    predicate Valid() {
      1 <= month <= 12 && 1 <= day <= DaysInMonth(year, month)
    }
  }

  predicate Leap(year: int) {
    year % 4 == 0 && (year % 100 != 0 || year % 400 == 0)
  }

  function DaysInMonth(year: int, month: int): int {
    if month == 2 then (if Leap(year) then 29 else 28)
    else if month == 4 || month == 6 || month == 9 || month == 11 then 30
    else 31
  }

  function DaysInYear(year: int): (days: int)
    ensures 365 <= days <= 366
  {
    if Leap(year) then 366 else 365
  }

  /** Days from 1 January of year 1 to 1 January of `year`. */
  function DaysBeforeYear(year: int): int
    decreases if year >= 1 then year - 1 else 1 - year
  {
    if year == 1 then 0
    else if year > 1 then DaysBeforeYear(year - 1) + DaysInYear(year - 1)
    else DaysBeforeYear(year + 1) - DaysInYear(year)
  }

  /** Days of the year before the first of `month`. */
  function DaysBeforeMonth(year: int, month: int): int {
    if month <= 1 then 0 else DaysBeforeMonth(year, month - 1) + DaysInMonth(year, month - 1)
  }

  function DayNumber(c: Civil): int {
    DaysBeforeYear(c.year) + DaysBeforeMonth(c.year, c.month) + c.day
  }

  /** The year of a day, looked for from `year` in either direction. */
  function FindYear(n: int, year: int): int
    decreases if n <= DaysBeforeYear(year) then DaysBeforeYear(year) - n + 1 else 0,
              if n > DaysBeforeYear(year) then n - DaysBeforeYear(year) else 0
  {
    if n <= DaysBeforeYear(year) then FindYear(n, year - 1)
    else if n > DaysBeforeYear(year) + DaysInYear(year) then YearLength(year); FindYear(n, year + 1)
    else year
  }

  function YearOf(n: int): int {
    FindYear(n, 1)
  }

  /** The month of the `ordinal`-th day of a year, 1 being 1 January, looked for from `month` on. */
  function FindMonth(year: int, ordinal: int, month: int): int
    decreases 12 - month
  {
    if month >= 12 || ordinal <= DaysBeforeMonth(year, month) + DaysInMonth(year, month) then month
    else FindMonth(year, ordinal, month + 1)
  }

  function MonthInYear(year: int, ordinal: int): int {
    FindMonth(year, ordinal, 1)
  }

  function CivilOf(n: int): Civil {
    var year := YearOf(n);
    var ordinal := n - DaysBeforeYear(year);
    var month := MonthInYear(year, ordinal);
    Civil(year, month, ordinal - DaysBeforeMonth(year, month))
  }

  /** 0 is Sunday, as `Date.prototype.getDay` counts. */
  function Weekday(n: int): (w: int)
    ensures 0 <= w < 7
  {
    n % 7
  }

  // ---- Years and months follow each other

  lemma YearLength(year: int)
    ensures DaysBeforeYear(year + 1) == DaysBeforeYear(year) + DaysInYear(year)
  {
  }

  lemma YearMonths(year: int)
    ensures DaysBeforeMonth(year, 13) == DaysInYear(year)
  {
    hide DaysBeforeMonth;
    FirstMonth(year);
    MonthLength(year, 1);
    MonthLength(year, 2);
    MonthLength(year, 3);
    MonthLength(year, 4);
    MonthLength(year, 5);
    MonthLength(year, 6);
    MonthLength(year, 7);
    MonthLength(year, 8);
    MonthLength(year, 9);
    MonthLength(year, 10);
    MonthLength(year, 11);
    MonthLength(year, 12);
  }

  lemma {:induction false} MonthsInYearAscend(year: int, a: int, b: int)
    requires 1 <= a <= b <= 13
    ensures DaysBeforeMonth(year, b) >= DaysBeforeMonth(year, a) + 28 * (b - a)
    decreases b - a
  {
    hide Leap;
    if a < b {
      MonthsInYearAscend(year, a, b - 1);
    }
  }

  /** The usual closed form. */
  lemma {:induction false} DaysBeforeYearClosed(year: int)
    ensures DaysBeforeYear(year) == 365 * (year - 1) + (year - 1) / 4 - (year - 1) / 100 + (year - 1) / 400
    decreases if year >= 1 then year - 1 else 1 - year
  {
    if year > 1 {
      DaysBeforeYearClosed(year - 1);
      FloorSteps(year - 1);
    } else if year < 1 {
      DaysBeforeYearClosed(year + 1);
      FloorSteps(year);
    }
  }

  /** The months by the usual closed form: their lengths are the calendar's. */
  lemma {:induction false} DaysBeforeMonthClosed(year: int, month: int)
    requires 1 <= month <= 13
    ensures DaysBeforeMonth(year, month)
         == (367 * month - 362) / 12 - (if month <= 2 then 0 else if Leap(year) then 1 else 2)
    decreases month
  {
    hide Leap;
    if month > 1 {
      DaysBeforeMonthClosed(year, month - 1);
    }
  }

  lemma FloorSteps(year: int)
    ensures year / 4 - (year - 1) / 4 == (if year % 4 == 0 then 1 else 0)
    ensures year / 100 - (year - 1) / 100 == (if year % 100 == 0 then 1 else 0)
    ensures year / 400 - (year - 1) / 400 == (if year % 400 == 0 then 1 else 0)
    ensures year % 400 == 0 ==> year % 100 == 0
    ensures year % 100 == 0 ==> year % 4 == 0
  {
  }

  lemma {:induction false} YearsAscend(a: int, b: int)
    requires a <= b
    ensures DaysBeforeYear(b) >= DaysBeforeYear(a) + 365 * (b - a)
    decreases b - a
  {
    if a < b {
      YearLength(b - 1);
      YearsAscend(a, b - 1);
    }
  }

  // ---- Day numbers and civil dates are in bijection

  lemma {:induction false} FindYearBounds(n: int, year: int)
    ensures DaysBeforeYear(FindYear(n, year)) < n <= DaysBeforeYear(FindYear(n, year) + 1)
    decreases if n <= DaysBeforeYear(year) then DaysBeforeYear(year) - n + 1 else 0,
              if n > DaysBeforeYear(year) then n - DaysBeforeYear(year) else 0
  {
    YearLength(year);
    if n <= DaysBeforeYear(year) {
      YearLength(year - 1);
      FindYearBounds(n, year - 1);
    } else if n > DaysBeforeYear(year) + DaysInYear(year) {
      FindYearBounds(n, year + 1);
    }
  }

  lemma YearOfBounds(n: int)
    ensures DaysBeforeYear(YearOf(n)) < n <= DaysBeforeYear(YearOf(n) + 1)
  {
    FindYearBounds(n, 1);
  }

  lemma {:induction false} FindMonthBounds(year: int, ordinal: int, month: int)
    requires 1 <= month <= 12 && DaysBeforeMonth(year, month) < ordinal <= DaysBeforeMonth(year, 13)
    ensures var m := FindMonth(year, ordinal, month);
            month <= m <= 12 && DaysBeforeMonth(year, m) < ordinal <= DaysBeforeMonth(year, m) + DaysInMonth(year, m)
    decreases 12 - month
  {
    hide Leap;
    if month < 12 && ordinal > DaysBeforeMonth(year, month) + DaysInMonth(year, month) {
      FindMonthBounds(year, ordinal, month + 1);
    }
  }

  lemma YearOfUnique(n: int, year: int)
    requires DaysBeforeYear(year) < n <= DaysBeforeYear(year + 1)
    ensures YearOf(n) == year
  {
    YearOfBounds(n);
    if YearOf(n) < year {
      YearsAscend(YearOf(n) + 1, year);
    } else if YearOf(n) > year {
      YearsAscend(year + 1, YearOf(n));
    }
  }

  /** Every day number is the number of exactly the civil date `CivilOf` gives. */
  lemma DayNumberOfCivil(n: int)
    ensures CivilOf(n).Valid() && DayNumber(CivilOf(n)) == n
  {
    hide DaysBeforeYear, DaysBeforeMonth, YearOf, DaysInMonth, DaysInYear, FindMonth;
    YearOfBounds(n);
    var year := YearOf(n);
    YearLength(year);
    YearMonths(year);
    FirstMonth(year);
    FindMonthBounds(year, n - DaysBeforeYear(year), 1);
  }

  lemma CivilOfDayNumber(c: Civil)
    requires c.Valid()
    ensures CivilOf(DayNumber(c)) == c
  {
    hide DaysBeforeYear, DaysBeforeMonth, YearOf, DaysInMonth, DaysInYear, FindMonth;
    var ordinal := DaysBeforeMonth(c.year, c.month) + c.day;
    FirstMonth(c.year);
    MonthLength(c.year, c.month);
    MonthsInYearAscend(c.year, 1, c.month);
    MonthsInYearAscend(c.year, c.month + 1, 13);
    YearMonths(c.year);
    YearLength(c.year);
    YearOfUnique(DayNumber(c), c.year);
    FindMonthBounds(c.year, ordinal, 1);
    var month := FindMonth(c.year, ordinal, 1);
    MonthLength(c.year, month);
    if month < c.month {
      MonthsInYearAscend(c.year, month + 1, c.month);
    } else if month > c.month {
      MonthsInYearAscend(c.year, c.month + 1, month);
    }
  }

  /** A day number is that of one civil date, and the number is the one the usual formula gives. */
  lemma CivilExact(n: int, c: Civil)
    requires c.Valid()
    ensures DayNumber(c) == n <==> CivilOf(n) == c
    ensures DayNumber(c) == 365 * (c.year - 1) + (c.year - 1) / 4 - (c.year - 1) / 100 + (c.year - 1) / 400
                          + (367 * c.month - 362) / 12 - (if c.month <= 2 then 0 else if Leap(c.year) then 1 else 2)
                          + c.day
  {
    hide CivilOf, DaysBeforeYear, DaysBeforeMonth, DaysInMonth, Leap;
    CivilOfDayNumber(c);
    DayNumberOfCivil(n);
    DaysBeforeYearClosed(c.year);
    DaysBeforeMonthClosed(c.year, c.month);
  }

  /** A day of the month exists exactly when the formula leaves room for it before the next month. */
  lemma ValidExact(c: Civil)
    ensures c.Valid()
       <==> && 1 <= c.month <= 12 && 1 <= c.day
            && c.day <= (367 * (c.month + 1) - 362) / 12 - (367 * c.month - 362) / 12
                        - (if c.month == 2 then (if Leap(c.year) then 1 else 2) else 0)
  {
    hide DaysBeforeMonth, DaysInMonth, Leap;
    if 1 <= c.month <= 12 {
      DaysBeforeMonthClosed(c.year, c.month);
      DaysBeforeMonthClosed(c.year, c.month + 1);
      MonthLength(c.year, c.month);
    }
  }

  lemma MonthLength(year: int, month: int)
    requires 1 <= month
    ensures DaysBeforeMonth(year, month + 1) == DaysBeforeMonth(year, month) + DaysInMonth(year, month)
  {
  }

  lemma FirstMonth(year: int)
    ensures DaysBeforeMonth(year, 1) == 0
  {
  }

  predicate Earlier(a: Civil, b: Civil) {
    a.year < b.year || (a.year == b.year && (a.month < b.month || (a.month == b.month && a.day < b.day)))
  }

  /** Day numbers order civil dates as year, then month, then day do. */
  lemma DayNumberOrders(a: Civil, b: Civil)
    requires a.Valid() && b.Valid()
    ensures DayNumber(a) < DayNumber(b) <==> Earlier(a, b)
  {
    hide DayNumber, Civil.Valid;
    CivilOfDayNumber(a);
    CivilOfDayNumber(b);
    if Earlier(a, b) {
      EarlierIsLess(a, b);
    } else if Earlier(b, a) {
      EarlierIsLess(b, a);
    }
  }

  lemma EarlierIsLess(a: Civil, b: Civil)
    requires a.Valid() && b.Valid() && Earlier(a, b)
    ensures DayNumber(a) < DayNumber(b)
  {
    hide DaysBeforeYear, DaysBeforeMonth, DaysInMonth, Leap;
    FirstMonth(b.year);
    MonthLength(a.year, a.month);
    if a.year < b.year {
      MonthsInYearAscend(b.year, 1, b.month);
      MonthsInYearAscend(a.year, a.month + 1, 13);
      YearLength(a.year);
      YearMonths(a.year);
      YearsAscend(a.year + 1, b.year);
    } else if a.month < b.month {
      MonthsInYearAscend(a.year, a.month + 1, b.month);
    }
  }

  /** 1 January 1970, from which instants are counted. */
  const EPOCH := 719163

  lemma EpochIsThursday()
    ensures DayNumber(Civil(1970, 1, 1)) == EPOCH && Weekday(EPOCH) == 4
  {
    hide DaysBeforeYear;
    DaysBeforeYearClosed(1970);
  }

  // ---- Months

  function MonthStart(index: int): int {
    DayNumber(Civil(index / 12, index % 12 + 1, 1))
  }

  function MonthDays(index: int): (days: int)
    ensures 28 <= days <= 31
  {
    DaysInMonth(index / 12, index % 12 + 1)
  }

  function MonthIndexOf(n: int): int {
    12 * CivilOf(n).year + CivilOf(n).month - 1
  }

  function DayOfMonth(n: int): int {
    CivilOf(n).day
  }

  lemma MonthStep(index: int)
    ensures MonthStart(index + 1) == MonthStart(index) + MonthDays(index)
  {
    var year, month := index / 12, index % 12;
    hide DaysBeforeYear, DaysBeforeMonth, DaysInMonth, Leap;
    MonthLength(year, month + 1);
    FirstMonth(year + 1);
    NextIndex(index);
    if month == 11 {
      YearLength(year);
      YearMonths(year);
    }
  }

  lemma NextIndex(index: int)
    ensures if index % 12 == 11 then (index + 1) / 12 == index / 12 + 1 && (index + 1) % 12 == 0
            else (index + 1) / 12 == index / 12 && (index + 1) % 12 == index % 12 + 1
  {
  }

  lemma {:induction false} MonthsAscend(a: int, b: int)
    requires a <= b
    ensures MonthStart(b) >= MonthStart(a) + 28 * (b - a)
    decreases b - a
  {
    hide MonthStart, MonthDays;
    if a < b {
      MonthStep(b - 1);
      MonthsAscend(a, b - 1);
    }
  }

  /** A day lies in its month, on its day of the month. */
  lemma MonthOfDay(n: int)
    ensures MonthStart(MonthIndexOf(n)) <= n < MonthStart(MonthIndexOf(n) + 1)
    ensures n == MonthStart(MonthIndexOf(n)) + DayOfMonth(n) - 1
    ensures 1 <= DayOfMonth(n) <= MonthDays(MonthIndexOf(n))
    ensures MonthIndexOf(n) / 12 == YearOf(n)
  {
    hide DaysBeforeYear, DaysBeforeMonth, DaysInMonth, Leap, MonthInYear, YearOf;
    DayNumberOfCivil(n);
    var c := CivilOf(n);
    assert MonthIndexOf(n) / 12 == c.year && MonthIndexOf(n) % 12 == c.month - 1;
    MonthStep(MonthIndexOf(n));
  }

  lemma MonthOfDayUnique(n: int, index: int)
    requires MonthStart(index) <= n < MonthStart(index + 1)
    ensures MonthIndexOf(n) == index && DayOfMonth(n) == n - MonthStart(index) + 1
  {
    hide MonthStart, MonthDays, MonthIndexOf, DayOfMonth;
    MonthOfDay(n);
    if MonthIndexOf(n) < index {
      MonthsAscend(MonthIndexOf(n) + 1, index);
    } else if MonthIndexOf(n) > index {
      MonthsAscend(index + 1, MonthIndexOf(n));
    }
  }

  // ---- The Date constructor

  function FullYear(year: int): int {
    if 0 <= year <= 99 then 1900 + year else year
  }

  /** `month` counts from 0; `month` and `date` may overflow either way. */
  function MakeDay(year: int, month: int, date: int): int {
    MonthStart(12 * FullYear(year) + month) + date - 1
  }

  /** The constructor keeps the year of this day: it is not in years 0 to 99, as `PlainYears` says. */
  predicate Plain(n: int) {
    n <= -366 || n > 36159
  }

  /** `new Date(d.getFullYear(), d.getMonth(), d.getDate() + count)`. */
  function AddDays(n: int, count: int): int {
    MakeDay(CivilOf(n).year, CivilOf(n).month - 1, CivilOf(n).day + count)
  }

  lemma AddDaysBy(n: int, count: int, years: int)
    requires FullYear(CivilOf(n).year) == CivilOf(n).year + years
    ensures AddDays(n, count) == MonthStart(MonthIndexOf(n) + 12 * years) + DayOfMonth(n) + count - 1
  {
    hide MonthStart, CivilOf;
    var c := CivilOf(n);
    assert 12 * FullYear(c.year) + (c.month - 1) == MonthIndexOf(n) + 12 * years;
  }

  /** The day of the month only adds on. */
  lemma AddDaysLinear(n: int, count: int)
    ensures AddDays(n, count) == AddDays(n, 0) + count
  {
  }

  lemma YearOfCivil(n: int)
    ensures CivilOf(n).year == YearOf(n)
  {
  }

  /** Adding days adds days exactly when the two-digit year rule does not apply. */
  lemma AddDaysExact(n: int, count: int)
    ensures AddDays(n, count) == n + count <==> Plain(n)
    ensures !Plain(n) ==> AddDays(n, count) >= n + count + 100 * 365
  {
    hide MonthStart, MonthIndexOf, DayOfMonth, YearOf, CivilOf, MakeDay, Plain;
    MonthOfDay(n);
    YearOfCivil(n);
    PlainYears(n);
    var index, day := MonthIndexOf(n), DayOfMonth(n);
    if Plain(n) {
      AddDaysBy(n, count, 0);
    } else {
      AddDaysBy(n, count, 1900);
      MonthsAscend(index, index + 12 * 1900);
    }
  }

  lemma PlainYears(n: int)
    ensures Plain(n) <==> !(0 <= YearOf(n) <= 99)
  {
    hide YearOf, DaysBeforeYear;
    DaysBeforeYearClosed(0);
    DaysBeforeYearClosed(100);
    YearOfBounds(n);
    if YearOf(n) < 0 { YearsAscend(YearOf(n) + 1, 0); }
    if YearOf(n) >= 100 { YearsAscend(100, YearOf(n)); }
    if 0 <= YearOf(n) <= 99 {
      YearsAscend(0, YearOf(n));
      YearsAscend(YearOf(n) + 1, 100);
    }
  }

  /** Only the length of February tells the months of two years apart. */
  lemma {:induction false} MonthsCompared(y: int, z: int, month: int)
    requires 1 <= month <= 12
    ensures DaysBeforeMonth(y, month) - DaysBeforeMonth(z, month)
         == (if month > 2 then DaysInMonth(y, 2) - DaysInMonth(z, 2) else 0)
  {
    hide Leap;
    if month > 1 {
      MonthsCompared(y, z, month - 1);
    }
  }

  lemma YearsMoved(year: int)
    requires 0 <= year <= 99
    ensures DaysBeforeYear(year + 1900) - DaysBeforeYear(year) == 693960 + (if year == 0 then 1 else 0)
    ensures DaysInMonth(year + 1900, 2) == DaysInMonth(year, 2) - (if year == 0 then 1 else 0)
  {
    hide DaysBeforeYear;
    DaysBeforeYearClosed(year);
    DaysBeforeYearClosed(year + 1900);
    assert (year + 1899) / 4 == (year - 1) / 4 + 475 && (year + 1899) / 100 == (year - 1) / 100 + 19;
  }

  /** The two-digit year rule moves a month by 693960 days, or by one more: never by whole weeks. */
  lemma CenturiesMoved(index: int)
    requires 0 <= index < 1200
    ensures 693960 <= MonthStart(index + 12 * 1900) - MonthStart(index) <= 693961
  {
    hide DaysBeforeYear, DaysBeforeMonth, DaysInMonth;
    var year, month := index / 12, index % 12 + 1;
    assert (index + 12 * 1900) / 12 == year + 1900 && (index + 12 * 1900) % 12 + 1 == month;
    MonthsCompared(year + 1900, year, month);
    YearsMoved(year);
  }

  lemma DayMoved(n: int)
    ensures Plain(n) ==> AddDays(n, 0) == n
    ensures !Plain(n) ==> 693960 <= AddDays(n, 0) - n <= 693961
  {
    hide MonthStart, CivilOf, YearOf, AddDays, Plain;
    AddDaysExact(n, 0);
    if !Plain(n) {
      PlainYears(n);
      YearOfCivil(n);
      MonthOfDay(n);
      AddDaysBy(n, 0, 1900);
      CenturiesMoved(MonthIndexOf(n));
    }
  }

  /** The year is written with four digits, as `FourDigitYears` says. */
  predicate FourDigitYear(n: int) {
    364877 < n <= 3652059
  }

  lemma FourDigitYears(n: int)
    ensures FourDigitYear(n) <==> 1000 <= YearOf(n) <= 9999
  {
    hide YearOf, DaysBeforeYear;
    DaysBeforeYearClosed(1000);
    DaysBeforeYearClosed(10000);
    YearOfBounds(n);
    if YearOf(n) < 1000 { YearsAscend(YearOf(n) + 1, 1000); }
    if YearOf(n) >= 10000 { YearsAscend(10000, YearOf(n)); }
    if 1000 <= YearOf(n) <= 9999 {
      YearsAscend(1000, YearOf(n));
      YearsAscend(YearOf(n) + 1, 10000);
    }
  }
}
