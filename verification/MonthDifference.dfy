/** Month arithmetic of the bundled moment.js on UTC moments: adding months with the day clamped, and the difference of
    two moments as months plus milliseconds. A moment is its number of milliseconds since the epoch. */
module MonthDifference {
  import opened Calendar

  const DAY := 86_400_000

  function DayOf(t: int): int {
    t / DAY
  }

  function TimeOf(t: int): int {
    t % DAY
  }

  function Instant(n: int, time: int): int {
    n * DAY + time
  }

  /** Date.UTC takes the years 0 to 99 for 1900 to 1999. */
  function FullYear(year: int): int {
    if 0 <= year <= 99 then 1900 + year else year
  }

  /** `daysInMonth`: the date of day 0 of the month after. */
  function DaysInMonth(year: int, month: int): int {
    DateOf(MakeDay(FullYear(year), month + 1, 0))
  }

  function Min(a: int, b: int): int {
    if a < b then a else b
  }

  /** The day of `rawMonthSetter`: the month may be out of range, the date is clamped to it. */
  function Clamped(n: int, month: int): int {
    MakeDay(YearOf(n), month, Min(DateOf(n), DaysInMonth(YearOf(n), month)))
  }

  /** `rawMonthSetter`: the time of day stays. */
  function WithMonth(t: int, month: int): int {
    Instant(Clamped(DayOf(t), month), TimeOf(t))
  }

  /** `add(months, 'M')`. */
  function AddMonths(t: int, months: int): int {
    if months == 0 then t else WithMonth(t, MonthOf(DayOf(t)) + months)
  }

  /** `daysInMonth` is the length of the month in the year that Date.UTC reads, with the month carried over. */
  lemma DaysInMonthIsLength(year: int, month: int)
    ensures DaysInMonth(year, month) == LengthOf(12 * FullYear(year) + month)
    ensures DaysInMonth(year, month) == LengthOf(month + 12 * if 0 <= year <= 99 then 1900 + year else year)
  {
    var i := 12 * FullYear(year) + month;
    MonthsFollow(i);
    CivilIsUnique(i, LengthOf(i));
  }

  /** For a year that Date.UTC does not misread: thirty days have April, June, September and November. */
  lemma DaysInMonthTable(year: int, month: int)
    requires 0 <= month < 12 && !(0 <= year <= 99)
    ensures DaysInMonth(year, month)
         == if month == 1 then (if year % 4 == 0 && (year % 100 != 0 || year % 400 == 0) then 29 else 28)
            else [31, 28, 31, 30, 31, 30, 31, 31, 30, 31, 30, 31][month]
  {
    hide DaysInMonth, LengthOf;
    DaysInMonthIsLength(year, month);
    LengthInYear(year, month);
    Centuries(year);
    Olympiads(year);
  }

  /** A day has 86400 seconds. */
  lemma DaysHaveBoundaries(n: int)
    ensures DayOf(n * 86_400_000) == n && DayOf(n * 86_400_000 - 1) == n - 1
    ensures TimeOf(n * 86_400_000) == 0
  {
  }

  /** So it can be wrong for a year from 0 to 99: February of the year 100, counted from the year 99, gets the 29 days
      of February 2000. */
  lemma TwoDigitYearsAreMisread()
    ensures DaysInMonth(99, 13) == 29 && LengthOf(12 * 99 + 13) == 28
  {
    DaysInMonthIsLength(99, 13);
  }

  /** The month `months` later has another length in the year that Date.UTC reads, and the date is late enough for it to
      matter. */
  predicate Misread(n: int, months: int) {
    DateOf(n) > 28
    && LengthOf(12 * FullYear(YearOf(n)) + MonthOf(n) + months) != LengthOf(MonthIndex(n) + months)
  }

  /** No number of months is misread: the year is not one of 0 to 99, or every month has the date. */
  predicate Sound(t: int) {
    !(0 <= YearOf(DayOf(t)) <= 99) || DateOf(DayOf(t)) <= 28
  }

  lemma InstantParts(n: int, time: int)
    requires 0 <= time < DAY
    ensures DayOf(Instant(n, time)) == n && TimeOf(Instant(n, time)) == time
  {
  }

  /** `r` lies `months` months after `n`, on the same date or on the last one there is. */
  ghost predicate Lands(n: int, months: int, r: int) {
    && MonthIndex(r) == MonthIndex(n) + months
    && DateOf(r) == Min(DateOf(n), LengthOf(MonthIndex(n) + months))
  }

  /** The same month of two years differs by a leap day if at all. */
  lemma SameMonth(i: int, years: int)
    ensures LengthOf(i + 12 * years) == LengthOf(i)
         || (28 <= LengthOf(i) <= 29 && LengthOf(i + 12 * years) == 57 - LengthOf(i))
  {
    assert (i + 12 * years) % 12 == i % 12;
  }

  lemma ClampedLandsIff(n: int, months: int)
    ensures Lands(n, months, Clamped(n, MonthOf(n) + months)) <==> !Misread(n, months)
  {
    hide LengthOf, MonthStart, MonthIndex, YearOf, MonthOf, DaysInMonth, YearStart, FullYear;
    var i, date := MonthIndex(n) + months, DateOf(n);
    var read := DaysInMonth(YearOf(n), MonthOf(n) + months);
    YearOfMonth(n);
    DateInRange(n);
    DaysInMonthIsLength(YearOf(n), MonthOf(n) + months);
    MonthsFollow(i);
    SameMonth(i, FullYear(YearOf(n)) - YearOf(n));
    if Min(date, read) <= LengthOf(i) {
      CivilIsUnique(i, Min(date, read));
    } else {
      MonthsFollow(i + 1);
      CivilIsUnique(i + 1, 1);
    }
  }

  lemma SoundIsNeverMisread(t: int, months: int)
    requires Sound(t)
    ensures !Misread(DayOf(t), months)
  {
    hide LengthOf, MonthStart, MonthIndex, YearOf, MonthOf, DateOf;
    YearOfMonth(DayOf(t));
  }

  /** Adding months moves by exactly that many months, keeps the time of day, and keeps the date or clamps it, if and
      only if the month is not misread. */
  lemma AddMonthsLandsIff(t: int, months: int)
    ensures var n, r := DayOf(t), AddMonths(t, months);
            && TimeOf(r) == TimeOf(t)
            && (Lands(n, months, DayOf(r)) <==> months == 0 || !Misread(n, months))
  {
    hide LengthOf, MonthStart, MonthIndex, YearOf, MonthOf, DaysInMonth, YearStart, DateOf, Clamped, Misread;
    var n := DayOf(t);
    if months == 0 {
      DateInRange(n);
    } else {
      ClampedLandsIff(n, months);
      InstantParts(Clamped(n, MonthOf(n) + months), TimeOf(t));
    }
  }

  /** A 29, 30 or 31 is put into a February of 28 days that Date.UTC takes for one of 29: it becomes 1 March. */
  predicate Overflows(n: int, months: int) {
    Misread(n, months) && LengthOf(MonthIndex(n) + months) == 28
  }

  /** Where adding months lands, misread or not: in the right month, or on the first day of the next one when it
      overflows. */
  lemma ClampedPlace(n: int, months: int)
    ensures var r, i := Clamped(n, MonthOf(n) + months), MonthIndex(n) + months;
            && MonthStart(i) + Min(DateOf(n), 28) - 1 <= r
            && (if Overflows(n, months) then r == MonthStart(i + 1) else r < MonthStart(i + 1))
  {
    hide LengthOf, MonthStart, MonthIndex, YearOf, MonthOf, DaysInMonth, YearStart, FullYear;
    var i := MonthIndex(n) + months;
    YearOfMonth(n);
    DateInRange(n);
    DaysInMonthIsLength(YearOf(n), MonthOf(n) + months);
    MonthsFollow(i);
    SameMonth(i, FullYear(YearOf(n)) - YearOf(n));
  }

  lemma AddMonthsPlace(t: int, months: int)
    ensures var n, r := DayOf(t), AddMonths(t, months); var i := MonthIndex(n) + months;
            && TimeOf(r) == TimeOf(t)
            && MonthStart(i) + Min(DateOf(n), 28) - 1 <= DayOf(r)
            && (if Overflows(n, months) then DayOf(r) == MonthStart(i + 1) else DayOf(r) < MonthStart(i + 1))
  {
    hide LengthOf, MonthStart, MonthIndex, YearOf, MonthOf, DaysInMonth, YearStart, Clamped, FullYear;
    var n := DayOf(t);
    DateInRange(n);
    MonthsFollow(MonthIndex(n));
    if months != 0 {
      ClampedPlace(n, months);
      InstantParts(Clamped(n, MonthOf(n) + months), TimeOf(t));
    }
  }

  lemma EarlierDay(t: int, u: int)
    requires DayOf(t) < DayOf(u)
    ensures t < u
  {
  }

  /** A moment of an earlier month is earlier. */
  lemma EarlierMonth(t: int, u: int)
    requires MonthIndex(DayOf(t)) < MonthIndex(DayOf(u))
    ensures t < u
  {
    hide DayOf;
    MonthsAreOrdered(MonthIndex(DayOf(t)) + 1, MonthIndex(DayOf(u)));
    EarlierDay(t, u);
  }

  /** More months are later, for every moment. */
  lemma AddMonthsIsMonotone(t: int, j: int, k: int)
    requires j < k
    ensures AddMonths(t, j) < AddMonths(t, k)
  {
    hide AddMonths, MonthIndex, DayOf, YearOf, MonthStart, LengthOf, TimeOf;
    var i := MonthIndex(DayOf(t));
    DateInRange(DayOf(t));
    AddMonthsPlace(t, j);
    AddMonthsPlace(t, k);
    MonthsAreOrdered(i + j + 1, i + k);
    EarlierDay(AddMonths(t, j), AddMonths(t, k));
  }

  datatype Difference = Difference(months: int, milliseconds: int)

  function Span(base: int, other: int): int {
    MonthIndex(DayOf(other)) - MonthIndex(DayOf(base))
  }

  /** `positiveMomentsDifference`. */
  function PositiveDifference(base: int, other: int): Difference {
    var span := Span(base, other);
    var months := if AddMonths(base, span) > other then span - 1 else span;
    Difference(months, other - AddMonths(base, months))
  }

  /** The months that fit, when consecutive candidates grow and the right one is `span` or just below it. */
  lemma GreatestFit(add: int -> int, span: int, other: int, k: int)
    requires forall i, j :: i < j ==> add(i) < add(j)
    requires add(span - 1) <= other < add(span + 1)
    ensures add(k) <= other <==> k <= (if add(span) > other then span - 1 else span)
  {
    if k < span - 1 {
      assert add(k) < add(span - 1);
    } else if k > span + 1 {
      assert add(span + 1) < add(k);
    }
  }

  /** The code takes one month off, and the result still overflows to the first day of the other moment's month, at a
      later time of day. */
  predicate Overshoots(base: int, other: int) {
    && Overflows(DayOf(base), Span(base, other) - 1)
    && DateOf(DayOf(other)) == 1 && TimeOf(other) < TimeOf(base)
  }

  lemma ByDayAndTime(t: int, u: int)
    ensures t <= u <==> DayOf(t) < DayOf(u) || (DayOf(t) == DayOf(u) && TimeOf(t) <= TimeOf(u))
  {
  }

  lemma SpanIsClose(base: int, other: int)
    ensures other < AddMonths(base, Span(base, other) + 1)
    ensures AddMonths(base, Span(base, other) - 1) <= other <==> !Overshoots(base, other)
  {
    hide AddMonths, MonthIndex, DayOf, YearOf, MonthStart, LengthOf, Overflows, TimeOf;
    var span := Span(base, other);
    DateInRange(DayOf(base));
    AddMonthsPlace(base, span - 1);
    AddMonthsPlace(base, span + 1);
    EarlierDay(other, AddMonths(base, span + 1));
    ByDayAndTime(AddMonths(base, span - 1), other);
  }

  lemma MonthsFit(base: int, other: int, k: int)
    requires !Overshoots(base, other)
    ensures AddMonths(base, k) <= other <==> k <= PositiveDifference(base, other).months
  {
    hide AddMonths, MonthIndex, DayOf, YearOf, Overshoots;
    SpanIsClose(base, other);
    forall i, j | i < j ensures AddMonths(base, i) < AddMonths(base, j) {
      AddMonthsIsMonotone(base, i, j);
    }
    GreatestFit(m => AddMonths(base, m), Span(base, other), other, k);
  }

  /** For every base not after other, adding months and remainder back gives the other moment, and the months are not
      negative. The months are the most that fit, and the remainder is not negative, so that one decrement was enough, if
      and only if the one decrement does not overshoot. */
  lemma PositiveDifferenceIsGreatestIff(base: int, other: int)
    requires base <= other
    ensures var d := PositiveDifference(base, other);
            && d.months >= 0 && AddMonths(base, d.months) + d.milliseconds == other
            && (d.milliseconds >= 0 <==> !Overshoots(base, other))
            && ((forall k :: AddMonths(base, k) <= other <==> k <= d.months) <==> !Overshoots(base, other))
  {
    hide MonthIndex, DayOf, YearOf, Overshoots, WithMonth;
    var d, span := PositiveDifference(base, other), Span(base, other);
    SpanIsClose(base, other);
    AddMonthsIsMonotone(base, span - 1, span);
    if span < 0 {
      EarlierMonth(other, base);
    }
    if !Overshoots(base, other) {
      forall k ensures AddMonths(base, k) <= other <==> k <= d.months {
        MonthsFit(base, other, k);
      }
    }
    assert AddMonths(base, 0) <= other;
  }

  /** It never does in a year after 99 or before 0, nor up to the 28th of a month. */
  lemma SoundNeverOvershoots(base: int, other: int)
    requires Sound(base)
    ensures !Overshoots(base, other)
  {
    SoundIsNeverMisread(base, Span(base, other) - 1);
  }

  lemma FebruaryOverflows(n: int)
    requires MonthIndex(n) == 12 * 99 + 11 && DateOf(n) == 31
    ensures Overflows(n, 2)
  {
    hide MonthIndex, YearOf, DateOf, LengthOf;
    YearOfMonth(n);
    LengthInYear(100, 1);
    LengthInYear(2000, 1);
  }

  lemma Whole(t: int)
    ensures t == Instant(DayOf(t), TimeOf(t))
  {
  }

  /** It does from noon of 31 December 99 to midnight of 1 March 100: two months, minus twelve hours. */
  lemma RemainderCanBeNegative() returns (base: int, other: int)
    ensures base <= other && PositiveDifference(base, other) == Difference(2, -43_200_000)
  {
    hide MonthStart, MonthIndex, YearOf, DateOf, LengthOf, Overflows, DayOf, TimeOf, AddMonths, Instant;
    var i, j := 12 * 99 + 11, 12 * 100 + 2;
    MonthsFollow(i);
    MonthsFollow(j);
    LengthInYear(99, 11);
    var b, o := MonthStart(i) + 30, MonthStart(j);
    CivilIsUnique(i, 31);
    CivilIsUnique(j, 1);
    base, other := Instant(b, 43_200_000), Instant(o, 0);
    InstantParts(b, 43_200_000);
    InstantParts(o, 0);
    FebruaryOverflows(b);
    AddMonthsPlace(base, 2);
    Whole(AddMonths(base, 2));
    InstantsDiffer(o);
    EarlierMonth(base, other);
    AddMonthsIsMonotone(base, 2, 3);
  }

  lemma InstantsDiffer(n: int)
    ensures Instant(n, 43_200_000) - Instant(n, 0) == 43_200_000
  {
  }

  /** `momentsDifference`. */
  function MomentsDifference(base: int, other: int): Difference {
    if base < other then PositiveDifference(base, other)
    else
      var d := PositiveDifference(other, base);
      Difference(-d.months, -d.milliseconds)
  }

  lemma NoMonths(t: int)
    ensures AddMonths(t, 0) == t && PositiveDifference(t, t) == Difference(0, 0)
  {
    hide MonthIndex, DayOf;
  }

  /** Swapping the moments negates both parts, and both are zero only for equal moments. The two parts never have opposite
      signs, if and only if the difference does not overshoot. */
  lemma DifferenceIsSignedIff(base: int, other: int)
    ensures var d, e := MomentsDifference(base, other), MomentsDifference(other, base);
            && e == Difference(-d.months, -d.milliseconds)
            && (d == Difference(0, 0) <==> base == other)
            && (if base <= other then AddMonths(base, d.months) + d.milliseconds == other
                else AddMonths(other, -d.months) - d.milliseconds == base)
            && (base <= other ==> d.months >= 0 && (d.milliseconds >= 0 <==> !Overshoots(base, other)))
            && (other <= base ==> d.months <= 0 && (d.milliseconds <= 0 <==> !Overshoots(other, base)))
  {
    hide PositiveDifference, Overshoots, AddMonths;
    NoMonths(base);
    NoMonths(other);
    if base <= other {
      PositiveDifferenceIsGreatestIff(base, other);
    }
    if other <= base {
      PositiveDifferenceIsGreatestIff(other, base);
    }
  }

  // The code, on moments updated in place.

  class Moment {
    var time: int

    constructor (time: int)
      ensures this.time == time
    {
      this.time := time;
    }

    /** `rawMonthSetter`. */
    method SetMonth(month: int)
      modifies this
      ensures time == WithMonth(old(time), month)
    {
      var n := DayOf(time);
      var date := Min(DateOf(n), DaysInMonth(YearOf(n), month));
      time := Instant(MakeDay(YearOf(n), month, date), TimeOf(time));
    }

    /** The months part of `addOrSubtractDurationFromMoment`. */
    method Add(months: int)
      modifies this
      ensures time == AddMonths(old(time), months)
    {
      if months != 0 {
        SetMonth(MonthOf(DayOf(time)) + months);
      }
    }
  }

  /** `positiveMomentsDifference`: neither moment is changed. */
  method PositiveMomentsDifference(base: Moment, other: Moment) returns (months: int, milliseconds: int)
    ensures Difference(months, milliseconds) == PositiveDifference(base.time, other.time)
  {
    hide MonthIndex, YearOf, AddMonths;
    var b, o := DayOf(base.time), DayOf(other.time);
    YearOfMonth(b);
    YearOfMonth(o);
    months := MonthOf(o) - MonthOf(b) + (YearOf(o) - YearOf(b)) * 12;
    var clone := new Moment(base.time);
    clone.Add(months);
    if clone.time > other.time {
      months := months - 1;
    }
    clone := new Moment(base.time);
    clone.Add(months);
    milliseconds := other.time - clone.time;
  }
}
