/** ISO week dates in the bundled moment.js (section 4.1.4 of ISO 8601:2004), on days. */
module IsoWeeks {
  import opened Calendar

  /** `day()`: 0 is Sunday; 1970-01-01 was a Thursday. */
  function Day(n: int): int {
    (n + 4) % 7
  }

  /** `isoWeekday()`: 1 is Monday, 7 is Sunday. */
  function IsoWeekday(n: int): int {
    if Day(n) == 0 then 7 else Day(n)
  }

  /** Weekdays follow each other from a Thursday, which 1 January 1970 was; Monday is the first of the ISO week. */
  lemma WeekdaysFollow(n: int)
    ensures IsoWeekday(0) == 4 && IsoWeekday(n + 1) == (if IsoWeekday(n) == 7 then 1 else IsoWeekday(n) + 1)
    ensures 1 <= IsoWeekday(n) <= 7 && Day(n) == IsoWeekday(n) % 7
  {
  }

  function DayOfYear(n: int): int {
    n - YearStart(YearOf(n)) + 1
  }

  datatype WeekDate = WeekDate(week: int, year: int)

  /** `weekOfYear`, for weeks starting on `dow` whose first week contains the first `doy` of the year. */
  function WeekOfYear(n: int, dow: int, doy: int): WeekDate {
    var end := doy - dow;
    var toDoy := doy - Day(n);
    var back := if toDoy > end then toDoy - 7 else toDoy;
    var days := if back < end - 7 then back + 7 else back;
    WeekDate((DayOfYear(n + days) + 6) / 7, YearOf(n + days))
  }

  function IsoWeek(n: int): int {
    WeekOfYear(n, 1, 4).week
  }

  function IsoWeekYear(n: int): int {
    WeekOfYear(n, 1, 4).year
  }

  datatype YearDay = YearDay(year: int, dayOfYear: int)

  /** `dayOfYearFromWeeks`. */
  function DayOfYearFromWeeks(year: int, week: int, weekday: int, doy: int, dow: int): YearDay {
    var jan1 := Day(YearStart(year));
    var d := if jan1 == 0 then 7 else jan1;
    var daysToAdd := dow - d + (if d > doy then 7 else 0) - (if d < dow then 7 else 0);
    var dayOfYear := 7 * (week - 1) + (weekday - dow) + daysToAdd + 1;
    if dayOfYear > 0 then YearDay(year, dayOfYear) else YearDay(year - 1, DaysInYear(year - 1) + dayOfYear)
  }

  /** The day a year and a day of the year denote; the latter may run over into the next year. */
  function Denoted(r: YearDay): int {
    YearStart(r.year) + r.dayOfYear - 1
  }

  function FromIso(year: int, week: int, weekday: int): int {
    Denoted(DayOfYearFromWeeks(year, week, weekday, 4, 1))
  }

  /** `isoWeeksInYear`: the week of 28 December. */
  function IsoWeeksInYear(year: int): int {
    IsoWeek(MakeDay(year, 11, 31 + 1 - 4))
  }

  /** The Thursday of the ISO week of a day, which decides the week-year. */
  function Thursday(n: int): int {
    n + 4 - IsoWeekday(n)
  }

  lemma WeekOfThursday(n: int)
    ensures WeekOfYear(n, 1, 4) == WeekDate((DayOfYear(Thursday(n)) + 6) / 7, YearOf(Thursday(n)))
    ensures Day(Thursday(n)) == 4
  {
  }

  /** The first Thursday of a year, counted from 1 January. */
  function FirstThursday(year: int): int {
    (4 - Day(YearStart(year))) % 7
  }

  /** The Thursdays of a year are the first one and those a number of weeks later. */
  lemma ThursdaysOf(year: int, t: int)
    requires YearStart(year) <= t && Day(t) == 4
    ensures t == YearStart(year) + FirstThursday(year) + 7 * ((t - YearStart(year)) / 7)
    ensures 0 <= FirstThursday(year) < 7
  {
    hide YearStart;
  }

  /** What `dayOfYearFromWeeks` denotes, by counting weeks from the first Thursday. */
  lemma FromIsoCounts(year: int, week: int, weekday: int)
    ensures FromIso(year, week, weekday) == YearStart(year) + FirstThursday(year) + 7 * (week - 1) + weekday - 4
  {
    hide YearStart, DaysInYear;
    YearsFollow(year - 1);
  }

  lemma YearLength(year: int)
    ensures 365 <= DaysInYear(year) <= 366
  {
  }

  /** The week of the day `d` days after 1 January, counted in sevens. */
  lemma WeekOf(d: int)
    requires 0 <= d < 366
    ensures (d + 1 + 6) / 7 == d / 7 + 1 && 0 <= d / 7 <= 52
  {
  }

  lemma IsoCounts(n: int)
    ensures var y := IsoWeekYear(n);
            && n == YearStart(y) + FirstThursday(y) + 7 * (IsoWeek(n) - 1) + IsoWeekday(n) - 4
            && YearStart(y) <= Thursday(n) < YearStart(y + 1) && 1 <= IsoWeek(n) <= 53
  {
    hide WeekOfYear, YearStart, DaysInYear, Day, FirstThursday;
    WeekOfThursday(n);
    var t := Thursday(n);
    var y := YearOf(t);
    ThursdaysOf(y, t);
    YearsFollow(y);
    YearLength(y);
    WeekOf(t - YearStart(y));
  }

  /** Every day is recovered from its week-year, week and weekday, and its week is one of 1 to 53. */
  lemma IsoRoundTrip(n: int)
    ensures FromIso(IsoWeekYear(n), IsoWeek(n), IsoWeekday(n)) == n
    ensures 1 <= IsoWeek(n) <= 53 && 1 <= IsoWeekday(n) <= 7
  {
    IsoCounts(n);
    FromIsoCounts(IsoWeekYear(n), IsoWeek(n), IsoWeekday(n));
  }

  /** A day made from week fields has these fields when its Thursday lies in the year. */
  lemma FieldsOf(year: int, week: int, weekday: int)
    requires 1 <= weekday <= 7 && week >= 1
    requires YearStart(year) + FirstThursday(year) + 7 * (week - 1) < YearStart(year + 1)
    ensures var n := FromIso(year, week, weekday);
            IsoWeekYear(n) == year && IsoWeek(n) == week && IsoWeekday(n) == weekday
  {
    hide FromIso, YearStart, WeekOfYear, YearOf;
    var n := FromIso(year, week, weekday);
    var t := YearStart(year) + FirstThursday(year) + 7 * (week - 1);
    FromIsoCounts(year, week, weekday);
    assert Day(t) == 4;
    assert n == t + weekday - 4;
    assert IsoWeekday(n) == weekday && Thursday(n) == t;
    YearIsUnique(t, year);
    WeekOfThursday(n);
  }

  /** 28 December is always in the last week of its own week-year. */
  lemma LastWeek(year: int)
    ensures IsoWeekYear(MakeDay(year, 11, 28)) == year
    ensures YearStart(year) + FirstThursday(year) + 7 * (IsoWeeksInYear(year) - 1) < YearStart(year + 1)
    ensures YearStart(year + 1) <= YearStart(year) + FirstThursday(year) + 7 * IsoWeeksInYear(year)
  {
    var n := MakeDay(year, 11, 28);
    December(year);
    IsoCounts(n);
    YearIsUnique(Thursday(n), year);
    WeekOfThursday(n);
  }

  lemma December(year: int)
    ensures MakeDay(year, 11, 28) == YearStart(year + 1) - 4
  {
    JanuaryStartsYear(year + 1);
    MonthsFollow(12 * year + 11);
    LengthInYear(year, 11);
  }

  /** `isoWeeksInYear` is the largest week that occurs in the week-year: it is that of 28 December. */
  lemma WeeksInYearIsLargest(n: int)
    ensures IsoWeek(n) <= IsoWeeksInYear(IsoWeekYear(n))
    ensures var last := MakeDay(IsoWeekYear(n), 11, 28);
            IsoWeekYear(last) == IsoWeekYear(n) && IsoWeek(last) == IsoWeeksInYear(IsoWeekYear(n))
    ensures 52 <= IsoWeeksInYear(IsoWeekYear(n)) <= 53
  {
    var y := IsoWeekYear(n);
    IsoCounts(n);
    LastWeek(y);
    YearsFollow(y);
    IsoCounts(MakeDay(y, 11, 28));
    assert Thursday(n) == YearStart(y) + FirstThursday(y) + 7 * (IsoWeek(n) - 1);
  }

  /** The converse round trip: every week date in range is the week date of the day made from it. */
  lemma FromIsoRoundTrip(year: int, week: int, weekday: int)
    requires 1 <= week <= IsoWeeksInYear(year) && 1 <= weekday <= 7
    ensures var n := FromIso(year, week, weekday);
            IsoWeekYear(n) == year && IsoWeek(n) == week && IsoWeekday(n) == weekday
  {
    LastWeek(year);
    FieldsOf(year, week, weekday);
  }
}
