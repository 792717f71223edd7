/** The proleptic Gregorian calendar as ECMAScript dates and moment.js use it: a date is a number of days since
    1970-01-01, months count from 0. */
module Calendar {

  predicate IsLeapYear(year: int) {
    (year % 4 == 0 && year % 100 != 0) || year % 400 == 0
  }

  function DaysInYear(year: int): int {
    if IsLeapYear(year) then 366 else 365
  }

  function Distance(a: int, b: int): nat {
    if a < b then b - a else a - b
  }

  /** The first day of a year, by counting years from 1970. */
  function YearStart(year: int): int
    decreases Distance(year, 1970)
  {
    if year == 1970 then 0
    else if year > 1970 then YearStart(year - 1) + DaysInYear(year - 1)
    else YearStart(year + 1) - DaysInYear(year)
  }

  /** DayFromYear of ECMAScript, in closed form. */
  function DayFromYear(year: int): int {
    365 * (year - 1970) + (year - 1969) / 4 - (year - 1901) / 100 + (year - 1601) / 400
  }

  lemma FloorStep(a: int, b: int)
    requires b == 4 || b == 100 || b == 400
    ensures (a + 1) / b == a / b + Bit((a + 1) % b == 0)
  {
  }

  function Bit(b: bool): int {
    if b then 1 else 0
  }

  lemma Centuries(year: int)
    ensures year % 400 == 0 ==> year % 100 == 0
  {
    var q := year / 400;
    assert year % 400 == 0 ==> year == 100 * (4 * q);
  }

  lemma Olympiads(year: int)
    ensures year % 100 == 0 ==> year % 4 == 0
  {
    var q := year / 100;
    assert year % 100 == 0 ==> year == 4 * (25 * q);
  }

  lemma LeapDays(year: int)
    ensures DaysInYear(year) == 365 + Bit(year % 4 == 0) - Bit(year % 100 == 0) + Bit(year % 400 == 0)
  {
    Centuries(year);
    Olympiads(year);
  }

  lemma Shift4(year: int)
    ensures (year - 1968) % 4 == year % 4
  {
    var q, r := year / 4, year % 4;
    assert year - 1968 == 4 * (q - 492) + r;
  }

  lemma Shift100(year: int)
    ensures (year - 1900) % 100 == year % 100
  {
    var q, r := year / 100, year % 100;
    assert year - 1900 == 100 * (q - 19) + r;
  }

  lemma Shift400(year: int)
    ensures (year - 1600) % 400 == year % 400
  {
    var q, r := year / 400, year % 400;
    assert year - 1600 == 400 * (q - 4) + r;
  }

  lemma ClosedFormStep(year: int)
    ensures DayFromYear(year + 1) == DayFromYear(year) + DaysInYear(year)
  {
    hide DaysInYear, Bit;
    LeapDays(year);
    Shift4(year);
    Shift100(year);
    Shift400(year);
    FloorStep(year - 1969, 4);
    FloorStep(year - 1901, 100);
    FloorStep(year - 1601, 400);
  }

  /** Counting years agrees with the closed form. */
  lemma {:induction false} ClosedForm(year: int)
    ensures YearStart(year) == DayFromYear(year)
    decreases Distance(year, 1970)
  {
    if year > 1970 {
      ClosedForm(year - 1);
      ClosedFormStep(year - 1);
    } else if year < 1970 {
      ClosedForm(year + 1);
      ClosedFormStep(year);
    }
  }

  lemma YearsFollow(year: int)
    ensures YearStart(year + 1) == YearStart(year) + DaysInYear(year)
  {
  }

  lemma {:induction false} YearsAreOrdered(y: int, z: int)
    requires y <= z
    ensures YearStart(y) + 365 * (z - y) <= YearStart(z)
    decreases z - y
  {
    if y < z {
      YearsFollow(y);
      YearsAreOrdered(y + 1, z);
    }
  }

  function YearUp(n: int, y: int): (r: int)
    requires YearStart(y) <= n
    ensures YearStart(r) <= n < YearStart(r + 1)
    decreases n - YearStart(y)
  {
    YearsFollow(y);
    if n < YearStart(y + 1) then y else YearUp(n, y + 1)
  }

  function YearDown(n: int, y: int): (r: int)
    requires n < YearStart(y + 1)
    ensures YearStart(r) <= n < YearStart(r + 1)
    decreases YearStart(y + 1) - n
  {
    YearsFollow(y);
    if YearStart(y) <= n then y else YearDown(n, y - 1)
  }

  /** The year a day lies in. */
  function YearOf(n: int): (y: int)
    ensures YearStart(y) <= n < YearStart(y + 1)
  {
    if 0 <= n then YearUp(n, 1970) else YearDown(n, 1969)
  }

  lemma YearIsUnique(n: int, y: int)
    requires YearStart(y) <= n < YearStart(y + 1)
    ensures YearOf(n) == y
  {
    if YearOf(n) < y {
      YearsAreOrdered(YearOf(n) + 1, y);
    } else if y < YearOf(n) {
      YearsAreOrdered(y + 1, YearOf(n));
    }
  }

  // Months.

  function MonthLength(year: int, month: int): int
    requires 0 <= month < 12
  {
    if month == 1 then (if IsLeapYear(year) then 29 else 28)
    else if month == 3 || month == 5 || month == 8 || month == 10 then 30
    else 31
  }

  /** Months are numbered from January of year 0: month `i % 12` of year `i / 12`. */
  function LengthOf(i: int): int {
    MonthLength(i / 12, i % 12)
  }

  const EPOCH_MONTH := 23640

  /** The first day of a month, by counting months from January 1970. */
  function MonthStart(i: int): int
    decreases Distance(i, EPOCH_MONTH)
  {
    if i == EPOCH_MONTH then 0
    else if i > EPOCH_MONTH then MonthStart(i - 1) + LengthOf(i - 1)
    else MonthStart(i + 1) - LengthOf(i)
  }

  lemma MonthsFollow(i: int)
    ensures MonthStart(i + 1) == MonthStart(i) + LengthOf(i)
    ensures 28 <= LengthOf(i) <= 31
  {
  }

  lemma {:induction false} MonthsAreOrdered(i: int, j: int)
    requires i <= j
    ensures MonthStart(i) + 28 * (j - i) <= MonthStart(j)
    decreases j - i
  {
    if i < j {
      MonthsFollow(i);
      MonthsAreOrdered(i + 1, j);
    }
  }

  lemma LengthInYear(year: int, month: int)
    requires 0 <= month < 12
    ensures LengthOf(12 * year + month) == MonthLength(year, month)
  {
    assert (12 * year + month) / 12 == year && (12 * year + month) % 12 == month;
  }

  lemma QuarterLength(year: int, month: int)
    requires 0 <= month <= 9
    ensures MonthStart(12 * year + month + 3) == MonthStart(12 * year + month)
              + MonthLength(year, month) + MonthLength(year, month + 1) + MonthLength(year, month + 2)
  {
    var i := 12 * year + month;
    MonthsFollow(i);
    MonthsFollow(i + 1);
    MonthsFollow(i + 2);
    LengthInYear(year, month);
    LengthInYear(year, month + 1);
    LengthInYear(year, month + 2);
  }

  lemma TwelveMonths(year: int)
    ensures MonthStart(12 * year + 12) == MonthStart(12 * year) + DaysInYear(year)
  {
    QuarterLength(year, 0);
    QuarterLength(year, 3);
    QuarterLength(year, 6);
    QuarterLength(year, 9);
  }

  /** Counting months and counting years agree. */
  lemma {:induction false} JanuaryStartsYear(year: int)
    ensures MonthStart(12 * year) == YearStart(year)
    decreases Distance(year, 1970)
  {
    if year > 1970 {
      JanuaryStartsYear(year - 1);
      TwelveMonths(year - 1);
    } else if year < 1970 {
      JanuaryStartsYear(year + 1);
      TwelveMonths(year);
    }
  }

  /** The days before each month in a year that is not a leap year, as in MonthFromTime of ECMAScript. */
  const DAYS_BEFORE := [0, 31, 59, 90, 120, 151, 181, 212, 243, 273, 304, 334]

  /** Where each month starts: the months have their lengths, and the leap day is at the end of February. */
  lemma {:induction false} MonthTable(year: int, month: int)
    requires 0 <= month < 12
    ensures MonthStart(12 * year + month)
         == YearStart(year) + DAYS_BEFORE[month] + if month >= 2 && IsLeapYear(year) then 1 else 0
    decreases month
  {
    hide MonthStart, YearStart, LengthOf, IsLeapYear;
    if month == 0 {
      JanuaryStartsYear(year);
    } else {
      MonthTable(year, month - 1);
      MonthsFollow(12 * year + month - 1);
      LengthInYear(year, month - 1);
    }
  }

  function MonthUp(n: int, i: int): (r: int)
    requires MonthStart(i) <= n
    ensures MonthStart(r) <= n < MonthStart(r + 1)
    decreases n - MonthStart(i)
  {
    MonthsFollow(i);
    if n < MonthStart(i + 1) then i else MonthUp(n, i + 1)
  }

  /** The number of the month a day lies in: year and month together. */
  function MonthIndex(n: int): (i: int)
    ensures MonthStart(i) <= n < MonthStart(i + 1)
  {
    JanuaryStartsYear(YearOf(n));
    MonthUp(n, 12 * YearOf(n))
  }

  lemma MonthIsUnique(n: int, i: int)
    requires MonthStart(i) <= n < MonthStart(i + 1)
    ensures MonthIndex(n) == i
  {
    if MonthIndex(n) < i {
      MonthsAreOrdered(MonthIndex(n) + 1, i);
    } else if i < MonthIndex(n) {
      MonthsAreOrdered(i + 1, MonthIndex(n));
    }
  }

  function MonthOf(n: int): int {
    MonthIndex(n) % 12
  }

  /** The day of the month, from 1. */
  function DateOf(n: int): int {
    n - MonthStart(MonthIndex(n)) + 1
  }

  /** MakeDay of ECMAScript: months and dates out of range carry over. */
  function MakeDay(year: int, month: int, date: int): int {
    MonthStart(12 * year + month) + date - 1
  }

  /** The year of a day is that of its month. */
  lemma YearOfMonth(n: int)
    ensures MonthIndex(n) / 12 == YearOf(n) && MonthIndex(n) == 12 * YearOf(n) + MonthOf(n)
  {
    var y, i := YearOf(n), MonthIndex(n);
    JanuaryStartsYear(y);
    JanuaryStartsYear(y + 1);
    if i < 12 * y {
      MonthsAreOrdered(i + 1, 12 * y);
    } else if i >= 12 * (y + 1) {
      MonthsAreOrdered(12 * (y + 1), i);
    }
  }

  lemma DateInRange(n: int)
    ensures 1 <= DateOf(n) <= LengthOf(MonthIndex(n))
  {
    MonthsFollow(MonthIndex(n));
  }

  /** A date in range is the date of the day made from it. */
  lemma CivilIsUnique(i: int, date: int)
    requires 1 <= date <= LengthOf(i)
    ensures MonthIndex(MonthStart(i) + date - 1) == i && DateOf(MonthStart(i) + date - 1) == date
  {
    MonthsFollow(i);
    MonthIsUnique(MonthStart(i) + date - 1, i);
  }
}
