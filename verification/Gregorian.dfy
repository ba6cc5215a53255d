/** The calendar pinned to the world: where it starts, how one day, month and year follow another, and the
    weekday of every date by a rule that counts no days (ISO 8601, and `Date` in `scripts/backup.ts`). */
module Gregorian {
  import opened Calendar

  // ---------------------------------------------------------------- years and weekdays

  /** The first of January 1970 is day zero, and each year takes its own 365 or 366 days. */
  lemma YearsStart(year: int)
    ensures YearStart(1970) == 0
    ensures YearStart(year + 1) == YearStart(year)
              + if year % 4 == 0 && (year % 100 != 0 || year % 400 == 0) then 366 else 365
  {
    YearLength(year);
    hide YearStart;
    assert YearStart(1970) == 0 by { StartOfTime(); }
  }

  lemma StartOfTime()
    ensures YearStart(1970) == 0
  {}

  /** Day zero is a Thursday, and each day has the next weekday, Monday after Sunday. */
  lemma WeekdaysFollow(day: int)
    ensures Weekday(0) == 4
    ensures Weekday(day + 1) == if Weekday(day) == 7 then 1 else Weekday(day) + 1
  {}

  /** Four hundred years are a whole number of weeks. */
  lemma FourHundredYears(year: int)
    ensures YearStart(year + 400) == YearStart(year) + 20871 * 7
    ensures Weekday(YearStart(year + 400)) == Weekday(YearStart(year))
  {
    CyclesAdd(year);
    hide YearStart;
  }

  lemma CyclesAdd(year: int)
    ensures YearStart(year + 400) == YearStart(year) + 20871 * 7
  {
    assert (year + 400 - 1969) / 4 == (year - 1969) / 4 + 100;
    assert (year + 400 - 1901) / 100 == (year - 1901) / 100 + 4;
    assert (year + 400 - 1601) / 400 == (year - 1601) / 400 + 1;
  }

  // ---------------------------------------------------------------- months and dates

  function DaysIn(year: int, month: nat): nat {
    if month == 4 || month == 6 || month == 9 || month == 11 then 30
    else if month == 2 then
      (if year % 4 == 0 && (year % 100 != 0 || year % 400 == 0) then 29 else 28)
    else 31
  }

  /** The day after: the next of its month, the first of the next month, or New Year's Day. */
  function NextDate(d: Date): Date {
    if d.date < DaysIn(d.year, d.month) then Date(d.year, d.month, d.date + 1)
    else if d.month < 12 then Date(d.year, d.month + 1, 1)
    else Date(d.year + 1, 1, 1)
  }

  predicate IsDate(d: Date) {
    1 <= d.month <= 12 && 1 <= d.date <= DaysIn(d.year, d.month)
  }

  function LeapOf(year: int): nat {
    if IsLeap(year) then 1 else 0
  }

  /** The days from the first of January 1970 to a date. */
  function CountOf(d: Date): int
    requires 1 <= d.month <= 12
  {
    YearStart(d.year) + DaysBefore(d.month - 1, LeapOf(d.year)) + d.date - 1
  }

  lemma MonthLengths(year: int, month: nat)
    requires 1 <= month <= 12
    ensures DaysBefore(month, LeapOf(year)) - DaysBefore(month - 1, LeapOf(year)) == DaysIn(year, month)
  {}

  lemma YearFits(year: int)
    ensures DaysBefore(0, LeapOf(year)) == 0 && LeapOf(year) <= 1
    ensures DaysBefore(12, LeapOf(year)) == YearStart(year + 1) - YearStart(year) == 365 + LeapOf(year)
  {
    YearLength(year);
    hide YearStart;
  }

  lemma DateOfIs(day: int)
    ensures var year := YearOf(day);
            var n := day - YearStart(year);
            && 0 <= n < DaysBefore(12, LeapOf(year))
            && DateOf(day) == Date(year, MonthSearch(n, LeapOf(year), 11) + 1,
                                   n - DaysBefore(MonthSearch(n, LeapOf(year), 11), LeapOf(year)) + 1)
  {
    YearFits(YearOf(day));
    hide YearStart, YearOf, DaysBefore, MonthSearch;
  }

  lemma MonthIs(n: nat, leap: nat, month: nat)
    requires leap <= 1 && month < 12 && DaysBefore(month, leap) <= n < DaysBefore(month + 1, leap)
    ensures n < DaysBefore(12, leap) && MonthSearch(n, leap, 11) == month
  {
    MonthsRise(month + 1, 12, leap);
    var found := MonthSearch(n, leap, 11);
    if found < month {
      MonthsRise(found + 1, month, leap);
    } else if month < found {
      MonthsRise(month + 1, found, leap);
    }
    hide DaysBefore;
  }

  /** The date of a day is the one that counts up to it. */
  lemma DateIs(d: Date)
    requires IsDate(d)
    ensures DateOf(CountOf(d)) == d
  {
    hide *;
    InItsMonth(d);
    var day := CountOf(d);
    YearIs(day, d.year);
    MonthIs(day - YearStart(d.year), LeapOf(d.year), d.month - 1);
    DateOfIs(day);
  }

  lemma InItsMonth(d: Date)
    requires IsDate(d)
    ensures var n, leap := CountOf(d) - YearStart(d.year), LeapOf(d.year);
            && 1 <= d.month <= 12 && leap <= 1
            && YearStart(d.year) <= CountOf(d) < YearStart(d.year + 1)
            && DaysBefore(d.month - 1, leap) <= n < DaysBefore(d.month, leap)
            && d.date == n - DaysBefore(d.month - 1, leap) + 1
  {
    var leap := LeapOf(d.year);
    hide YearStart, LeapOf, DaysIn, DaysBefore;
    MonthLengths(d.year, d.month);
    YearFits(d.year);
    MonthsRise(d.month, 12, leap);
    MonthsRise(0, d.month - 1, leap);
  }

  lemma DateCounts(day: int)
    ensures IsDate(DateOf(day)) && day == CountOf(DateOf(day))
  {
    DateOfIs(day);
    var d := DateOf(day);
    MonthLengths(d.year, d.month);
    hide YearStart, YearOf, DaysIn, LeapOf, DaysBefore, DateOf;
  }

  /** Day zero is the first of January 1970, and the date of each day is the one after that of the day
      before: this leaves no choice about the date of any day. */
  lemma DatesFollow(day: int)
    ensures DateOf(0) == Date(1970, 1, 1)
    ensures DateOf(day + 1) == NextDate(DateOf(day))
  {
    FirstDate();
    DateCounts(day);
    NextCounts(DateOf(day));
    hide *;
    DateIs(Date(1970, 1, 1));
    DateIs(NextDate(DateOf(day)));
  }

  lemma FirstDate()
    ensures IsDate(Date(1970, 1, 1)) && CountOf(Date(1970, 1, 1)) == 0
  {
    StartOfTime();
    YearFits(1970);
    hide YearStart, LeapOf, DaysBefore;
  }

  lemma NextCounts(d: Date)
    requires IsDate(d)
    ensures IsDate(NextDate(d)) && CountOf(NextDate(d)) == CountOf(d) + 1
  {
    hide YearStart, LeapOf, DaysBefore, DaysIn;
    MonthLengths(d.year, d.month);
    YearFits(d.year);
    YearFits(d.year + 1);
    FirstsExist(d.year, d.month);
  }

  lemma FirstsExist(year: int, month: nat)
    ensures DaysIn(year, month) >= 1 && DaysIn(year, month + 1) >= 1 && DaysIn(year + 1, 1) >= 1
  {}

  // ---------------------------------------------------------------- the weekday of a date

  /** Leap days up to the end of a year. */
  function LeapDays(year: int): int {
    year / 4 - year / 100 + year / 400
  }

  /** Sakamoto's rule: the year, which starts in March, its leap days, a number for the month, and the date. */
  function RuleSum(d: Date): int
    requires 1 <= d.month <= 12
  {
    var year := if d.month < 3 then d.year - 1 else d.year;
    year + LeapDays(year) + MonthNumber(d.month) + d.date
  }

  lemma StartByLeapDays(year: int)
    ensures YearStart(year) == 365 * year - 719527 + LeapDays(year - 1)
  {
    assert (year - 1969) / 4 == (year - 1) / 4 - 492;
    assert (year - 1901) / 100 == (year - 1) / 100 - 19;
    assert (year - 1601) / 400 == (year - 1) / 400 - 4;
  }

  lemma LeapDaysGrow(year: int)
    ensures LeapDays(year) - LeapDays(year - 1) == LeapOf(year)
  {
    StartByLeapDays(year);
    StartByLeapDays(year + 1);
    YearLength(year);
    hide YearStart, LeapDays;
  }

  function MonthNumber(month: nat): nat
    requires 1 <= month <= 12
  {
    [0, 3, 2, 5, 0, 3, 5, 1, 4, 6, 2, 4][month - 1]
  }

  lemma MonthOfRule(month: nat, leap: nat) returns (weeks: int)
    requires 1 <= month <= 12 && leap <= 1
    ensures DaysBefore(month - 1, leap) - MonthNumber(month) - (if month < 3 then 0 else 1 + leap) == 7 * weeks
  {
    weeks := [0, 4, 8, 12, 17, 21, 25, 30, 34, 38, 43, 47][month - 1];
  }

  /** Every date's weekday is the remainder of the rule by seven, Sunday being zero there and seven here. */
  lemma WeekdayOfDate(day: int)
    ensures Weekday(day) % 7 == RuleSum(DateOf(day)) % 7
  {
    DateCounts(day);
    hide *;
    var weeks := RuleCounts(DateOf(day));
    WholeWeeks(CountOf(DateOf(day)) + 4, RuleSum(DateOf(day)), weeks);
    WeekdayModulo(day);
  }

  lemma WeekdayModulo(day: int)
    ensures Weekday(day) % 7 == (day + 4) % 7
  {}

  lemma RuleCounts(d: Date) returns (weeks: int)
    requires 1 <= d.month <= 12
    ensures CountOf(d) + 4 - RuleSum(d) == 7 * weeks
  {
    var shift := MonthOfRule(d.month, LeapOf(d.year));
    hide YearStart, LeapDays, LeapOf, DaysBefore, MonthNumber;
    StartByLeapDays(d.year);
    LeapDaysGrow(d.year);
    DaysLessRule(CountOf(d), d.year, LeapDays(d.year - 1), LeapDays(d.year), DaysBefore(d.month - 1, LeapOf(d.year)),
                 MonthNumber(d.month), d.date, d.month < 3, shift);
    weeks := 52 * d.year - 102789 + shift;
  }

  lemma DaysLessRule(day: int, year: int, before: int, after: int, months: int, number: int, date: int,
                     early: bool, weeks: int)
    requires day == 365 * year - 719527 + before + months + date - 1
    requires months - number - (if early then 0 else 1 + (after - before)) == 7 * weeks
    ensures day + 4 - (if early then year - 1 + before + number + date else year + after + number + date)
         == 7 * (52 * year - 102789 + weeks)
  {}

  lemma WholeWeeks(a: int, b: int, weeks: int)
    requires a - b == 7 * weeks
    ensures a % 7 == b % 7
  {}
}
