/** The names of backup sets (`utcDay` and `isoWeek` in `scripts/backup.ts`). A moment is the number
    of its UTC day since 1970-01-01; the year and the month of a day are those of ECMA-262, section
    21.4.1, and the week rules are those of ISO 8601:2004, sections 2.2.10 and 4.1.4. */
module Calendar {
  import opened Names

  const DAYS_PER_WEEK := 7
  const THURSDAY := 4
  const WEEK_DIGITS := 2

  // ---------------------------------------------------------------- years

  predicate IsLeap(year: int) {
    year % 4 == 0 && (year % 100 != 0 || year % 400 == 0)
  }

  /** The day number of the first of January. */
  function YearStart(year: int): int {
    365 * (year - 1970) + (year - 1969) / 4 - (year - 1901) / 100 + (year - 1601) / 400
  }

  lemma YearLength(year: int)
    ensures YearStart(year + 1) - YearStart(year) == if IsLeap(year) then 366 else 365
  {
    EveryFourth(year);
    EveryHundredth(year);
    EveryFourHundredth(year);
    assert year % 400 == 0 ==> year % 100 == 0 by { Divides(year); }
    assert year % 100 == 0 ==> year % 4 == 0 by { Divides(year); }
  }

  lemma Divides(year: int)
    ensures year % 400 == 0 ==> year % 100 == 0
    ensures year % 100 == 0 ==> year % 4 == 0
  {
    if year % 400 == 0 {
      Hundreds(4 * (year / 400));
    }
    if year % 100 == 0 {
      Fours(25 * (year / 100));
    }
  }

  lemma Hundreds(k: int)
    ensures (100 * k) % 100 == 0
  {}

  lemma Fours(k: int)
    ensures (4 * k) % 4 == 0
  {}

  lemma EveryFourth(year: int)
    ensures (year - 1968) / 4 - (year - 1969) / 4 == if year % 4 == 0 then 1 else 0
  {}

  lemma EveryHundredth(year: int)
    ensures (year - 1900) / 100 - (year - 1901) / 100 == if year % 100 == 0 then 1 else 0
  {}

  lemma EveryFourHundredth(year: int)
    ensures (year - 1600) / 400 - (year - 1601) / 400 == if year % 400 == 0 then 1 else 0
  {}

  function YearSearch(day: int, year: int): (r: int)
    ensures YearStart(r) <= day < YearStart(r + 1)
    decreases day < YearStart(year), if day < YearStart(year) then YearStart(year) - day else day - YearStart(year)
  {
    hide YearStart, IsLeap;
    YearLength(year);
    YearLength(year - 1);
    if day < YearStart(year) then YearSearch(day, year - 1)
    else if day >= YearStart(year + 1) then YearSearch(day, year + 1)
    else year
  }

  /** `getUTCFullYear`: the year whose days the day is among. */
  function YearOf(day: int): (r: int)
    ensures YearStart(r) <= day < YearStart(r + 1)
  {
    YearSearch(day, 1970)
  }

  lemma {:induction false} YearsRise(a: int, b: int)
    requires a <= b
    ensures YearStart(a) + 365 * (b - a) <= YearStart(b)
    decreases b - a
  {
    hide YearStart, IsLeap;
    if a < b {
      YearLength(b - 1);
      YearsRise(a, b - 1);
    }
  }

  /** A day is in one year only, so years follow the days. */
  lemma YearIs(day: int, year: int)
    ensures YearStart(year) <= day < YearStart(year + 1) <==> YearOf(day) == year
  {
    hide YearStart, YearOf;
    var y := YearOf(day);
    if y < year {
      YearsRise(y + 1, year);
    } else if year < y {
      YearsRise(year + 1, y);
    }
  }

  // ---------------------------------------------------------------- weeks

  /** `getUTCDay() || 7`: Monday is one and Sunday is seven. */
  function Weekday(day: int): (r: int)
    ensures 1 <= r <= 7
  {
    var d := (day + 4) % 7;
    if d == 0 then DAYS_PER_WEEK else d
  }

  function MondayOf(day: int): int {
    day - (Weekday(day) - 1)
  }

  predicate SameWeek(a: int, b: int) {
    MondayOf(a) == MondayOf(b)
  }

  datatype Week = Week(year: int, ordinal: int)

  /** A week's year is the one that holds its Thursday, and its number counts the Thursdays of that
      year up to its own. */
  function WeekOf(day: int): (r: Week)
    ensures 1 <= r.ordinal <= 53
  {
    hide YearStart, IsLeap, YearOf;
    var thursday := MondayOf(day) + 3;
    var year := YearOf(thursday);
    YearLength(year);
    Week(year, (thursday - YearStart(year)) / 7 + 1)
  }

  function NumberString(n: int): string {
    if n < 0 then "-" + Decimal(-n) else Decimal(n)
  }

  function WeekLabel(week: Week): string {
    NumberString(week.year) + "-W" + PadStart(NumberString(week.ordinal), WEEK_DIGITS)
  }

  function WeekName(day: int): string {
    WeekLabel(WeekOf(day))
  }

  /** Weeks run from Monday to Sunday. */
  lemma SameWeekSpans(a: int, b: int)
    ensures Weekday(MondayOf(a)) == 1
    ensures SameWeek(a, b) <==> MondayOf(a) <= b <= MondayOf(a) + 6
    ensures MondayOf(a) < MondayOf(b) <==> a < b && !SameWeek(a, b)
  {}

  /** Each week is followed by the next number, or by the first week of the next year. */
  lemma WeeksFollow(day: int)
    ensures var week, next := WeekOf(day), WeekOf(day + 7);
            || next == Week(week.year, week.ordinal + 1)
            || (next == Week(week.year + 1, 1) && week.ordinal >= 52)
  {
    hide YearStart, IsLeap, YearOf;
    var year := WeekOf(day).year;
    var thursday := MondayOf(day) + 3;
    assert MondayOf(day + 7) == MondayOf(day) + 7;
    YearIs(thursday + 7, year);
    YearIs(thursday + 7, year + 1);
    YearLength(year);
    YearLength(year + 1);
  }

  /** The fourth of January is always in the first week of its year. */
  lemma FourthOfJanuary(year: int)
    ensures WeekOf(YearStart(year) + 3) == Week(year, 1)
  {
    hide YearStart, IsLeap, YearOf;
    YearIs(MondayOf(YearStart(year) + 3) + 3, year);
    YearLength(year);
  }

  /** A year has a week 53 exactly when it starts on a Thursday, or is a leap year that starts on a
      Wednesday; the 28th of December is always in its last week. */
  lemma LongYears(year: int)
    ensures var last := WeekOf(YearStart(year + 1) - 4);
            var first := Weekday(YearStart(year));
            && last.year == year
            && (last.ordinal == 53 <==> first == 4 || (first == 3 && IsLeap(year)))
            && (last.ordinal == 52 || last.ordinal == 53)
  {
    hide YearStart, IsLeap, YearOf;
    var day := YearStart(year + 1) - 4;
    YearLength(year);
    YearIs(MondayOf(day) + 3, year);
  }

  // ---------------------------------------------------------------- week names

  /** The years written with exactly four digits. */
  predicate FourDigits(year: int) {
    1000 <= year <= 9999
  }

  lemma YearDigits(year: int)
    requires FourDigits(year)
    ensures NumberString(year) == Digits(year, 4)
  {
    var h, t, d := year / 10, year / 100, year / 1000;
    assert h / 10 == t && t / 10 == d && d / 10 == 0;
    assert Decimal(d) == [DIGITS[d]] && Digits(d, 1) == [DIGITS[d]] by { assert Digits(0, 0) == ""; }
    assert Decimal(t) == Decimal(d) + [DIGITS[t % 10]] && Digits(t, 2) == Digits(d, 1) + [DIGITS[t % 10]];
    assert Decimal(h) == Decimal(t) + [DIGITS[h % 10]] && Digits(h, 3) == Digits(t, 2) + [DIGITS[h % 10]];
  }

  lemma TwoDigits(n: nat)
    requires n <= 99
    ensures PadStart(Decimal(n), 2) == Digits(n, 2)
  {
    assert Power(2) == 100;
    PaddedIs(n, 2);
  }

  lemma WeekLabelDigits(week: Week)
    requires FourDigits(week.year) && 1 <= week.ordinal <= 53
    ensures WeekLabel(week) == Digits(week.year, 4) + ("-W" + Digits(week.ordinal, 2))
  {
    YearDigits(week.year);
    TwoDigits(week.ordinal);
    hide Digits, Decimal, PadStart;
  }

  lemma {:induction false} SamePrefix(p: string, a: string, b: string)
    ensures Before(p + a, p + b) <==> Before(a, b)
    ensures p + a == p + b <==> a == b
  {
    PartsDecide(p, p, a, b);
    BeforeIsTotal(p, p);
    assert (p + a)[|p|..] == a && (p + b)[|p|..] == b;
  }

  /** Week names sort by year and then by number. */
  lemma WeekLabelsSort(a: Week, b: Week)
    requires FourDigits(a.year) && 1 <= a.ordinal <= 53
    requires FourDigits(b.year) && 1 <= b.ordinal <= 53
    ensures Before(WeekLabel(a), WeekLabel(b)) <==> a.year < b.year || (a.year == b.year && a.ordinal < b.ordinal)
    ensures WeekLabel(a) == WeekLabel(b) <==> a == b
  {
    WeekLabelDigits(a);
    WeekLabelDigits(b);
    assert Power(4) == 10000 && Power(2) == 100 by { assert Power(1) == 10 && Power(3) == 1000; }
    DigitsSort(a.year, b.year, 4);
    DigitsSort(a.ordinal, b.ordinal, 2);
    hide WeekLabel, Digits, Before;
    PartsDecide(Digits(a.year, 4), Digits(b.year, 4), "-W" + Digits(a.ordinal, 2), "-W" + Digits(b.ordinal, 2));
    SamePrefix("-W", Digits(a.ordinal, 2), Digits(b.ordinal, 2));
    assert WeekLabel(a)[..4] == Digits(a.year, 4) && WeekLabel(b)[..4] == Digits(b.year, 4);
    assert WeekLabel(a)[4..] == "-W" + Digits(a.ordinal, 2) && WeekLabel(b)[4..] == "-W" + Digits(b.ordinal, 2);
  }

  /** Weeks in order have their years and numbers in order. */
  lemma WeeksSort(a: int, b: int)
    ensures var v, w := WeekOf(a), WeekOf(b);
            && (MondayOf(a) < MondayOf(b) <==> v.year < w.year || (v.year == w.year && v.ordinal < w.ordinal))
            && (SameWeek(a, b) <==> v == w)
  {
    hide YearStart, IsLeap, YearOf;
    var s, t := MondayOf(a) + 3, MondayOf(b) + 3;
    if YearOf(s) < YearOf(t) {
      YearsRise(YearOf(s) + 1, YearOf(t));
    } else if YearOf(t) < YearOf(s) {
      YearsRise(YearOf(t) + 1, YearOf(s));
    } else {
      hide WeekOf;
      MondaysCount(a, b, YearStart(YearOf(s)));
      InItsYear(a);
      InItsYear(b);
      hide MondayOf;
    }
  }

  lemma InItsYear(day: int)
    ensures var thursday := MondayOf(day) + 3;
            WeekOf(day) == Week(YearOf(thursday), (thursday - YearStart(YearOf(thursday))) / 7 + 1)
  {
    hide YearStart, YearOf, MondayOf;
  }

  lemma MondaysCount(a: int, b: int, from: int)
    ensures MondayOf(a) < MondayOf(b) <==> (MondayOf(a) + 3 - from) / 7 < (MondayOf(b) + 3 - from) / 7
    ensures MondayOf(b) < MondayOf(a) <==> (MondayOf(b) + 3 - from) / 7 < (MondayOf(a) + 3 - from) / 7
  {
    var s, t := MondayOf(a) + 3, MondayOf(b) + 3;
    assert s == 7 * (s / 7) && t == 7 * (t / 7);
    hide MondayOf;
    ThursdaysCount(s / 7, t / 7, from);
    ThursdaysCount(t / 7, s / 7, from);
  }

  lemma ThursdaysCount(i: int, j: int, from: int)
    ensures i < j <==> (7 * i - from) / 7 < (7 * j - from) / 7
  {}

  /** Two days have the same week name exactly when they are in the same Monday-to-Sunday week;
      otherwise the earlier day's name sorts first, over every turn of the year. */
  lemma WeekNamesSort(a: int, b: int)
    requires FourDigits(WeekOf(a).year) && FourDigits(WeekOf(b).year)
    ensures WeekName(a) == WeekName(b) <==> SameWeek(a, b)
    ensures Before(WeekName(a), WeekName(b)) <==> a < b && !SameWeek(a, b)
  {
    WeekLabelsSort(WeekOf(a), WeekOf(b));
    WeeksSort(a, b);
    SameWeekSpans(a, b);
    hide *;
  }

  /** Around the turn of a year, the first of January belongs to the old year's last week exactly when
      it falls after a Thursday, and the last of December to the new year's first exactly when it falls
      before one. */
  lemma TurnOfTheYear(year: int)
    ensures WeekOf(YearStart(year)).year == (if Weekday(YearStart(year)) > 4 then year - 1 else year)
    ensures WeekOf(YearStart(year) - 1).year == (if Weekday(YearStart(year) - 1) < 4 then year else year - 1)
  {
    hide YearStart, IsLeap, YearOf;
    YearLength(year);
    YearLength(year - 1);
    var a, b := MondayOf(YearStart(year)) + 3, MondayOf(YearStart(year) - 1) + 3;
    YearIs(a, year);
    YearIs(a, year - 1);
    YearIs(b, year);
    YearIs(b, year - 1);
  }

  // ---------------------------------------------------------------- day names

  /** Days of a year before the month, counted from zero; `leap` is one in a leap year. */
  function DaysBefore(month: nat, leap: nat): nat
    requires month <= 12
  {
    [0, 31, 59, 90, 120, 151, 181, 212, 243, 273, 304, 334, 365][month] + if month >= 2 then leap else 0
  }

  function MonthSearch(n: nat, leap: nat, month: nat): (r: nat)
    requires month < 12 && leap <= 1 && n < DaysBefore(month + 1, leap)
    ensures r < 12 && DaysBefore(r, leap) <= n < DaysBefore(r + 1, leap)
  {
    if month == 0 || DaysBefore(month, leap) <= n then month else MonthSearch(n, leap, month - 1)
  }

  datatype Date = Date(year: int, month: nat, date: nat)

  /** A day's year, its month from one to twelve and its day of the month from one. */
  function DateOf(day: int): (r: Date)
    ensures r.year == YearOf(day) && 1 <= r.month <= 12 && 1 <= r.date <= 31
  {
    hide YearStart, YearOf;
    var year := YearOf(day);
    YearLength(year);
    var leap := if IsLeap(year) then 1 else 0;
    var n := day - YearStart(year);
    var month := MonthSearch(n, leap, 11);
    Date(year, month + 1, n - DaysBefore(month, leap) + 1)
  }

  /** The year field of `toISOString`: four digits, or a sign and six. */
  function YearField(year: int): string {
    if 0 <= year <= 9999 then PadStart(Decimal(year), 4)
    else if year < 0 then "-" + PadStart(Decimal(-year), 6)
    else "+" + PadStart(Decimal(year), 6)
  }

  function TwoDigit(n: nat): string {
    PadStart(Decimal(n), 2)
  }

  /** `toISOString().slice(0, 10)`, of which the time of day is already cut off. */
  function DayName(day: int): string {
    var date := DateOf(day);
    var text := YearField(date.year) + "-" + TwoDigit(date.month) + "-" + TwoDigit(date.date);
    if |text| <= 10 then text else text[..10]
  }

  /** The years padded to four digits. */
  predicate PadsToFour(year: int) {
    0 <= year <= 9999
  }

  lemma YearFieldIs(year: int)
    ensures PadsToFour(year) ==> YearField(year) == Digits(year, 4)
    ensures 9999 < year <= 999999 ==> YearField(year) == "+" + Digits(year, 6)
    ensures -999999 <= year < 0 ==> YearField(year) == "-" + Digits(-year, 6)
  {
    assert Power(3) == 1000 && Power(4) == 10000 && Power(5) == 100000 && Power(6) == 1000000;
    hide Power, PadStart, Decimal, Digits;
    if PadsToFour(year) {
      PaddedIs(year, 4);
    } else if -999999 <= year <= 999999 {
      PaddedIs(if year < 0 then -year else year, 6);
    }
  }

  lemma DayLabelDigits(day: int)
    requires PadsToFour(YearOf(day))
    ensures var date := DateOf(day);
            DayName(day) == Digits(date.year, 4) + ("-" + (Digits(date.month, 2) + ("-" + Digits(date.date, 2))))
  {
    hide Digits, DateOf, YearOf, YearField, Decimal, PadStart;
    var date := DateOf(day);
    YearFieldIs(date.year);
    TwoDigits(date.month);
    TwoDigits(date.date);
    TenLetters(Digits(date.year, 4), Digits(date.month, 2), Digits(date.date, 2));
  }

  /** In the other years the ten letters end with the month, so all of its days have one name. */
  lemma FarYearsLoseTheDay(day: int)
    requires -999999 <= YearOf(day) <= 999999 && !PadsToFour(YearOf(day))
    ensures var date := DateOf(day);
            DayName(day) == (if date.year < 0 then "-" + Digits(-date.year, 6) else "+" + Digits(date.year, 6))
                              + ("-" + Digits(date.month, 2))
  {
    hide Digits, DateOf, YearOf, YearField, Decimal, PadStart;
    var date := DateOf(day);
    YearFieldIs(date.year);
    TwoDigits(date.month);
    TwoDigits(date.date);
    CutAtTen(YearField(date.year), Digits(date.month, 2), Digits(date.date, 2));
  }

  lemma CutAtTen(y: string, m: string, d: string)
    requires |y| == 7 && |m| == 2
    ensures (y + "-" + m + "-" + d)[..10] == y + ("-" + m)
  {}

  lemma TenLetters(y: string, m: string, d: string)
    requires |y| == 4 && |m| == 2 && |d| == 2
    ensures |y + "-" + m + "-" + d| == 10
    ensures y + "-" + m + "-" + d == y + ("-" + (m + ("-" + d)))
  {}

  /** Within a year, days follow their months and their days of the month. */
  lemma DatesSort(m: nat, n: nat, leap: nat)
    requires leap <= 1 && m < 365 + leap && n < 365 + leap
    ensures var p, q := MonthSearch(m, leap, 11), MonthSearch(n, leap, 11);
            m < n <==> p < q || (p == q && m - DaysBefore(p, leap) < n - DaysBefore(q, leap))
  {
    var p, q := MonthSearch(m, leap, 11), MonthSearch(n, leap, 11);
    if p < q {
      MonthsRise(p + 1, q, leap);
    } else if q < p {
      MonthsRise(q + 1, p, leap);
    }
  }

  lemma MonthsRise(a: nat, b: nat, leap: nat)
    requires a <= b <= 12
    ensures DaysBefore(a, leap) <= DaysBefore(b, leap)
  {}

  predicate Earlier(a: Date, b: Date) {
    a.year < b.year || (a.year == b.year && (a.month < b.month || (a.month == b.month && a.date < b.date)))
  }

  lemma DaysSort(a: int, b: int)
    ensures Earlier(DateOf(a), DateOf(b)) <==> a < b
  {
    hide YearStart, IsLeap, YearOf, MonthSearch, DaysBefore;
    var s, t := YearOf(a), YearOf(b);
    if s < t {
      YearsRise(s + 1, t);
      hide DateOf;
    } else if t < s {
      YearsRise(t + 1, s);
      hide DateOf;
    } else {
      YearLength(s);
      DatesSort(a - YearStart(s), b - YearStart(s), if IsLeap(s) then 1 else 0);
    }
  }

  lemma DateLabelsSort(a: Date, b: Date)
    requires PadsToFour(a.year) && a.month <= 12 && a.date <= 31
    requires PadsToFour(b.year) && b.month <= 12 && b.date <= 31
    ensures var x := Digits(a.year, 4) + ("-" + (Digits(a.month, 2) + ("-" + Digits(a.date, 2))));
            var y := Digits(b.year, 4) + ("-" + (Digits(b.month, 2) + ("-" + Digits(b.date, 2))));
            Before(x, y) <==> Earlier(a, b)
  {
    assert Power(4) == 10000 && Power(2) == 100 by { assert Power(1) == 10 && Power(3) == 1000; }
    DigitsSort(a.year, b.year, 4);
    DigitsSort(a.month, b.month, 2);
    DigitsSort(a.date, b.date, 2);
    hide Digits, Before;
    var p, q := "-" + Digits(a.date, 2), "-" + Digits(b.date, 2);
    SamePrefix("-", Digits(a.date, 2), Digits(b.date, 2));
    PartsDecide(Digits(a.month, 2), Digits(b.month, 2), p, q);
    SamePrefix("-", Digits(a.month, 2) + p, Digits(b.month, 2) + q);
    PartsDecide(Digits(a.year, 4), Digits(b.year, 4), "-" + (Digits(a.month, 2) + p), "-" + (Digits(b.month, 2) + q));
  }

  /** Day names sort as the days follow each other. */
  lemma DayNamesSort(a: int, b: int)
    requires PadsToFour(YearOf(a)) && PadsToFour(YearOf(b))
    ensures Before(DayName(a), DayName(b)) <==> a < b
  {
    DayLabelDigits(a);
    DayLabelDigits(b);
    assert DateOf(a).year == YearOf(a) && DateOf(b).year == YearOf(b);
    DaysSort(a, b);
    hide DayName, YearOf, YearStart, IsLeap;
    DateLabelsSort(DateOf(a), DateOf(b));
  }

  // ---------------------------------------------------------------- the week as the script computes it

  function CeilDiv(n: int, d: int): int
    requires d > 0
  {
    -((-n) / d)
  }

  /** `Date.UTC` reads a year of one or two digits as one of the twentieth century. */
  function FullYear(year: int): int {
    if 0 <= year <= 99 then 1900 + year else year
  }

  /** `Date.UTC` of a year, a month from zero and a day of the month. */
  function DateUtc(year: int, month: nat, date: nat): int
    requires month < 12
  {
    var full := FullYear(year);
    YearStart(full) + DaysBefore(month, if IsLeap(full) then 1 else 0) + date - 1
  }

  /** The day the script works on: the fields of the moment, put together again. */
  function Rebuilt(at: int): int {
    var date := DateOf(at);
    DateUtc(date.year, date.month - 1, date.date)
  }

  /** The Thursday of a day's week, its year, and the weeks since `Date.UTC` of that year's first day. */
  function CountedWeek(day: int): Week {
    var thursday := MondayOf(day) + 3;
    var year := YearOf(thursday);
    Week(year, (thursday - YearStart(FullYear(year))) / 7 + 1)
  }

  function ScriptWeekName(at: int): string {
    WeekLabel(CountedWeek(Rebuilt(at)))
  }

  /** Moves the date to its week's Thursday and reads year and week number off there. */
  method IsoWeek(at: int) returns (name: string)
    ensures name == ScriptWeekName(at)
    ensures !IsTwoDigit(YearOf(at)) && !IsTwoDigit(WeekOf(at).year) <==> name == WeekName(at)
  {
    NamedByItsWeek(at);
    hide YearStart, YearOf, Decimal, PadStart, DateOf, WeekName, IsLeap;
    var fields := DateOf(at);
    var date := DateUtc(fields.year, fields.month - 1, fields.date);
    var dayOfWeek := Weekday(date);
    date := date + THURSDAY - dayOfWeek;
    var yearStart := DateUtc(YearOf(date), 0, 1);
    var week := CeilDiv(date - yearStart + 1, DAYS_PER_WEEK);
    name := NumberString(YearOf(date)) + "-W" + PadStart(NumberString(week), WEEK_DIGITS);
  }

  predicate IsTwoDigit(year: int) {
    0 <= year <= 99
  }

  lemma RebuiltIs(at: int)
    ensures !IsTwoDigit(YearOf(at)) ==> Rebuilt(at) == at
    ensures IsTwoDigit(YearOf(at)) ==> YearOf(Rebuilt(at)) == 1900 + YearOf(at)
  {
    hide YearStart, YearOf, IsLeap, DaysBefore;
    var year := YearOf(at);
    YearLength(year);
    if IsTwoDigit(year) {
      YearLength(1900 + year);
      MonthsFit(at, if IsLeap(1900 + year) then 1 else 0);
      YearIs(Rebuilt(at), 1900 + year);
    }
  }

  /** The fields of a day fit in any year, a 29th of February spilling into March. */
  lemma MonthsFit(at: int, leap: nat)
    requires leap <= 1
    ensures DaysBefore(DateOf(at).month - 1, leap) + DateOf(at).date <= 365 + leap
  {
    hide YearStart, YearOf, IsLeap;
    YearLength(YearOf(at));
  }

  lemma CountedWeekIs(day: int)
    ensures !IsTwoDigit(WeekOf(day).year) ==> CountedWeek(day) == WeekOf(day)
    ensures IsTwoDigit(WeekOf(day).year) ==> CountedWeek(day).year == WeekOf(day).year && CountedWeek(day).ordinal < 0
  {
    hide YearStart, YearOf;
    var year := WeekOf(day).year;
    if IsTwoDigit(year) {
      YearsRise(year + 1, 1900 + year);
    }
  }

  /** A week's year is the year of its day or one beside it. */
  lemma WeekYearIsNear(day: int)
    ensures YearOf(day) - 1 <= WeekOf(day).year <= YearOf(day) + 1
  {
    hide YearStart, IsLeap, YearOf;
    var y, thursday := YearOf(day), MondayOf(day) + 3;
    var w := YearOf(thursday);
    YearLength(y - 1);
    YearLength(y + 1);
    if w < y - 1 {
      YearsRise(w + 1, y - 1);
    } else if w > y + 1 {
      YearsRise(y + 2, w);
    }
  }

  lemma ShortNumbers(n: int)
    requires -1 <= n <= 100
    ensures |NumberString(n)| <= 3
  {
    assert 1000 == Power(3) by { assert Power(1) == 10 && Power(2) == 100; }
    DecimalLength(if n < 0 then -n else n, 3);
    assert Decimal(1) == "1";
  }

  /** Names with a four-digit year and with a shorter one differ where the shorter year ends. */
  lemma YearsTellApart(a: Week, b: Week)
    requires FourDigits(a.year) && -1 <= b.year <= 100
    ensures WeekLabel(a) != WeekLabel(b)
  {
    YearDigits(a.year);
    ShortNumbers(b.year);
    var n := |NumberString(b.year)|;
    assert WeekLabel(b)[n] == '-';
    assert WeekLabel(a)[n] == Digits(a.year, 4)[n];
    assert Digits(a.year, 4)[n] in Digits(a.year, 4);
    hide Digits, NumberString;
  }

  lemma WeeksTellApart(year: int, a: int, b: int)
    requires a < 0 < b <= 99
    ensures WeekLabel(Week(year, a)) != WeekLabel(Week(year, b))
  {
    TwoDigits(b);
    hide Digits, Decimal;
    var p := NumberString(year) + "-W";
    var x, y := PadStart(NumberString(a), 2), PadStart(NumberString(b), 2);
    DecimalIsDigits(-a);
    assert x == NumberString(a) && x[0] == '-';
    assert y[0] in y;
    assert (p + x)[|p|] == '-' && (p + y)[|p|] == y[0];
  }

  /** The script names a day by its ISO 8601 week exactly when neither the day's year nor its week's is
      among the years from 0 to 99, which `Date.UTC` takes for 1900 to 1999. */
  lemma NamedByItsWeek(at: int)
    ensures ScriptWeekName(at) == WeekName(at)
       <==> !IsTwoDigit(YearOf(at)) && !IsTwoDigit(WeekOf(at).year)
  {
    hide YearOf, YearStart, DateOf, WeekLabel, CountedWeek, WeekOf, Rebuilt;
    RebuiltIs(at);
    CountedWeekIs(Rebuilt(at));
    WeekYearIsNear(at);
    WeekYearIsNear(Rebuilt(at));
    if IsTwoDigit(YearOf(at)) {
      YearsTellApart(CountedWeek(Rebuilt(at)), WeekOf(at));
    } else if IsTwoDigit(WeekOf(at).year) {
      WeeksTellApart(WeekOf(at).year, CountedWeek(at).ordinal, WeekOf(at).ordinal);
    }
  }
}
