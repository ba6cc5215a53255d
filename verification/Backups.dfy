/** The two roots of the backup tree under one take (`scripts/backup.ts`), and what any number of
    takes leaves in them, said of days and weeks. */
module Backups {
  import opened Names
  import opened Newest
  import opened Calendar
  import opened Shelf
  import opened Retention

  // ---------------------------------------------------------------- the names prune recognises

  /** `^\d{4}-\d{2}-\d{2}$`. */
  predicate IsDayName(s: string) {
    |s| == 10 && s[4] == '-' && s[7] == '-' && AreDigits(s[..4]) && AreDigits(s[5..7]) && AreDigits(s[8..])
  }

  /** `^\d{4}-W\d{2}$`. */
  predicate IsWeekName(s: string) {
    |s| == 8 && s[4] == '-' && s[5] == 'W' && AreDigits(s[..4]) && AreDigits(s[6..])
  }

  lemma DayNameMatches(day: int)
    requires PadsToFour(YearOf(day))
    ensures IsDayName(DayName(day))
  {
    DayLabelDigits(day);
    hide *;
    FieldsMatch(Digits(DateOf(day).year, 4), Digits(DateOf(day).month, 2), Digits(DateOf(day).date, 2));
  }

  lemma FieldsMatch(y: string, m: string, d: string)
    requires |y| == 4 && |m| == 2 && |d| == 2
    requires forall c :: c in y ==> IsDigit(c)
    requires forall c :: c in m ==> IsDigit(c)
    requires forall c :: c in d ==> IsDigit(c)
    ensures IsDayName(y + ("-" + (m + ("-" + d))))
  {
    var s := y + ("-" + (m + ("-" + d)));
    assert s[..4] == y && s[5..7] == m && s[8..] == d && s[4] == '-' && s[7] == '-';
    hide IsDigit;
  }

  function DayWritten(year: nat, month: nat, date: nat): string {
    Digits(year, 4) + ("-" + (Digits(month, 2) + ("-" + Digits(date, 2))))
  }

  function WeekWritten(year: nat, week: nat): string {
    Digits(year, 4) + ("-W" + Digits(week, 2))
  }

  lemma ReadDay(s: string) returns (y: nat, m: nat, d: nat)
    requires IsDayName(s)
    ensures y < 10000 && m < 100 && d < 100 && s == DayWritten(y, m, d)
  {
    PowersOfTen();
    y, m, d := ReadNumber(s[..4]), ReadNumber(s[5..7]), ReadNumber(s[8..]);
    ReadDigits(s[..4]);
    ReadDigits(s[5..7]);
    ReadDigits(s[8..]);
    hide AreDigits, ReadNumber, Digits;
    DayParts(s);
  }

  lemma DayParts(s: string)
    requires |s| == 10 && s[4] == '-' && s[7] == '-'
    ensures s == s[..4] + ("-" + (s[5..7] + ("-" + s[8..])))
  {}

  lemma WrittenIsDay(y: nat, m: nat, d: nat)
    ensures IsDayName(DayWritten(y, m, d))
  {
    hide IsDayName, Digits;
    FieldsMatch(Digits(y, 4), Digits(m, 2), Digits(d, 2));
  }

  /** The names prune takes for days are the written forms of three numbers, of four, two and two digits. */
  lemma DayNamesAreWritten(s: string)
    ensures IsDayName(s) <==>
              exists y: nat, m: nat, d: nat :: y < 10000 && m < 100 && d < 100 && s == DayWritten(y, m, d)
  {
    hide *;
    if IsDayName(s) {
      var y, m, d := ReadDay(s);
    }
    if y: nat, m: nat, d: nat :| y < 10000 && m < 100 && d < 100 && s == DayWritten(y, m, d) {
      WrittenIsDay(y, m, d);
    }
  }

  lemma PowersOfTen()
    ensures Power(2) == 100 && Power(4) == 10000
  {
    assert Power(3) == 1000;
  }

  /** And those it takes for weeks the written forms of two. */
  lemma WeekNamesAreWritten(s: string)
    ensures IsWeekName(s) <==> exists y: nat, w: nat :: y < 10000 && w < 100 && s == WeekWritten(y, w)
  {
    PowersOfTen();
    if IsWeekName(s) {
      ReadDigits(s[..4]);
      ReadDigits(s[6..]);
      var y, w := ReadNumber(s[..4]), ReadNumber(s[6..]);
      hide AreDigits, ReadNumber;
      assert s == s[..4] + ("-W" + s[6..]);
      assert s == WeekWritten(y, w);
    }
    if y: nat, w: nat :| y < 10000 && w < 100 && s == WeekWritten(y, w) {
      WeekFieldsMatch(Digits(y, 4), Digits(w, 2));
    }
    hide IsWeekName, Digits;
  }

  lemma WeekFieldsMatch(y: string, w: string)
    requires |y| == 4 && |w| == 2
    requires forall c :: c in y ==> IsDigit(c)
    requires forall c :: c in w ==> IsDigit(c)
    ensures IsWeekName(y + ("-W" + w))
  {
    var s := y + ("-W" + w);
    assert s[..4] == y && s[6..] == w && s[4] == '-' && s[5] == 'W';
    hide IsDigit;
  }

  lemma WeekNameMatches(day: int)
    requires FourDigits(WeekOf(day).year)
    ensures IsWeekName(WeekName(day))
  {
    WeekLabelDigits(WeekOf(day));
    var week := WeekOf(day);
    hide *;
    WeekFieldsMatch(Digits(week.year, 4), Digits(week.ordinal, 2));
  }

  /** Recognised names can be stored: their staging and set-aside names are not recognised. */
  lemma RecognisedIsStorable(name: string)
    requires IsDayName(name) || IsWeekName(name)
    ensures Plain(name)
    ensures !IsDayName(Staging(name)) && !IsDayName(Previous(name))
    ensures !IsWeekName(Staging(name)) && !IsWeekName(Previous(name))
  {
    assert name[..4][0] == name[0];
  }

  /** Every set's name is plain, in any year. */
  lemma NamesArePlain(day: int)
    ensures Plain(DayName(day)) && Plain(WeekName(day)) && Plain(ScriptWeekName(day))
  {
    hide YearOf, Decimal, PadStart, MonthSearch;
    var date := DateOf(day);
    var field := YearField(date.year);
    var size := if date.year < 0 then -date.year else date.year;
    DecimalIsDigits(size);
    PaddedIsDigits(Decimal(size), 4);
    PaddedIsDigits(Decimal(size), 6);
    assert field != [] && field[0] != '.' by {
      var digits := PadStart(Decimal(size), if 0 <= date.year <= 9999 then 4 else 6);
      assert digits[0] in digits;
    }
    assert DayName(day)[0] == field[0];
    WeekLabelsArePlain(WeekOf(day));
    WeekLabelsArePlain(CountedWeek(Rebuilt(day)));
    hide WeekLabel, WeekOf, CountedWeek, Rebuilt;
  }

  lemma WeekLabelsArePlain(week: Week)
    ensures Plain(WeekLabel(week))
  {
    NumberIsWritten(week.year);
    hide NumberString, PadStart;
    assert WeekLabel(week)[0] == NumberString(week.year)[0];
  }

  lemma NumberIsWritten(n: int)
    ensures NumberString(n) != [] && NumberString(n)[0] != '.'
  {
    DecimalIsDigits(if n < 0 then -n else n);
    assert Decimal(if n < 0 then -n else n)[0] in Decimal(if n < 0 then -n else n);
  }

  // ---------------------------------------------------------------- one take

  class Backups {
    const daily: Root
    const weekly: Root

    constructor (daily: Tree, weekly: Tree)
      ensures this.daily.entries == daily && this.weekly.entries == weekly
      ensures this.daily != this.weekly && fresh(this.daily) && fresh(this.weekly)
    {
      this.daily := new Root(daily);
      this.weekly := new Root(weekly);
    }

    /** The day's set is stored, its week is anchored to that very set, and both roots are pruned. */
    method Take(at: int, contents: Contents, keepDaily: nat, keepWeekly: nat)
      requires daily != weekly
      modifies daily, weekly
      ensures Plain(DayName(at)) && Plain(WeekName(at)) && Plain(ScriptWeekName(at))
      ensures daily.entries == Pruned(Put(old(daily.entries), DayName(at), contents), keepDaily, IsDayName)
      ensures weekly.entries == Pruned(Put(old(weekly.entries), ScriptWeekName(at), contents), keepWeekly, IsWeekName)
      ensures !IsTwoDigit(YearOf(at)) && !IsTwoDigit(WeekOf(at).year) ==>
                weekly.entries == Pruned(Put(old(weekly.entries), WeekName(at), contents), keepWeekly, IsWeekName)
    {
      NamesArePlain(at);
      var day := DayName(at);
      var week := IsoWeek(at);
      hide DayName, WeekName, ScriptWeekName, Pruned, Put;
      PutIs(daily.entries, day, contents);
      daily.Store(day, contents);
      AnchorWeek(day, week, contents);
      var removedDays := daily.Prune(keepDaily, IsDayName);
      var removedWeeks := weekly.Prune(keepWeekly, IsWeekName);
    }

    /** The week's set shares the day's files, so it holds what the day's does. */
    method AnchorWeek(day: string, week: string, ghost contents: Contents)
      requires daily != weekly && Plain(week)
      requires day in daily.entries && daily.entries[day] == Complete(contents)
      modifies weekly
      ensures weekly.entries == Put(old(weekly.entries), week, contents)
    {
      var source := daily.entries[day];
      weekly.Store(week, source.contents);
    }
  }

  // ---------------------------------------------------------------- any number of takes

  datatype Taken = Taken(at: int, contents: Contents)

  function Puts(takes: seq<Taken>, name: int -> string): (r: seq<Stored>)
    ensures |r| == |takes| && forall i :: 0 <= i < |takes| ==> r[i] == Stored(name(takes[i].at), takes[i].contents)
  {
    seq(|takes|, i requires 0 <= i < |takes| => Stored(name(takes[i].at), takes[i].contents))
  }

  predicate IsLastTake(takes: seq<Taken>, i: nat, key: int -> int) {
    i < |takes| && forall j :: i < j < |takes| ==> key(takes[j].at) != key(takes[i].at)
  }

  function Keys(takes: seq<Taken>, key: int -> int): set<int> {
    set t | t in takes :: key(t.at)
  }

  function LaterKeys(takes: seq<Taken>, key: int -> int, k: int): set<int> {
    set l | l in Keys(takes, key) && k < l
  }

  lemma {:induction false} LastStoredIs(puts: seq<Stored>, i: nat)
    requires i < |puts| && forall j :: i < j < |puts| ==> puts[j].name != puts[i].name
    ensures puts[i].name in NamesStored(puts) && LastStored(puts, puts[i].name) == puts[i].contents
  {
    assert puts[i] in puts;
    var n := |puts| - 1;
    if i < n {
      assert puts == puts[..n] + [puts[n]];
      LastStoredIs(puts[..n], i);
    }
  }

  /** A name whose order is that of the keys: from an empty root, after any takes in any order, the sets
      there are those of the newest `keep` keys, and each is the last taken of its key. */
  lemma NewestKeysAreKept(takes: seq<Taken>, keep: nat, pattern: string -> bool,
                          name: int -> string, key: int -> int, i: nat)
    requires Storable(pattern, Puts(takes, name)) && IsLastTake(takes, i, key)
    requires forall t :: t in takes ==> name(t.at) == name(key(t.at))
    requires SortsLike(Keys(takes, key), name)
    ensures var left := Retained(map[], keep, pattern, Puts(takes, name));
            && (name(takes[i].at) in left <==> |LaterKeys(takes, key, key(takes[i].at))| < keep)
            && (name(takes[i].at) in left ==> left[name(takes[i].at)] == Complete(takes[i].contents))
  {
    var puts := Puts(takes, name);
    var k := key(takes[i].at);
    assert takes[i] in takes && k in Keys(takes, key);
    KeysName(takes, name, key);
    assert Known(map[], pattern) == {};
    assert Known(map[], pattern) + NamesStored(puts) == NamesStored(puts);
    NewestAreKept(map[], keep, pattern, puts);
    NewestNumbers(Keys(takes, key), name, k, keep);
    WhatIsLeft(map[], keep, pattern, puts, puts[i].name);
    LaterNamesDiffer(takes, i, name, key);
    LastStoredIs(puts, i);
    assert puts[i] in puts;
    hide NewestOf, NamesStored, Retained, LastStored, NamesOf, Storable;
  }

  lemma KeysName(takes: seq<Taken>, name: int -> string, key: int -> int)
    requires forall t :: t in takes ==> name(t.at) == name(key(t.at))
    ensures NamesStored(Puts(takes, name)) == NamesOf(Keys(takes, key), name)
  {
    var puts := Puts(takes, name);
    forall i | 0 <= i < |takes| ensures puts[i].name in NamesOf(Keys(takes, key), name) {
      assert takes[i] in takes;
      var k := key(takes[i].at);
      assert k in Keys(takes, key);
      assert name(k) in NamesOf(Keys(takes, key), name);
    }
    forall t | t in takes ensures name(key(t.at)) in NamesStored(puts) {
      var i :| 0 <= i < |takes| && takes[i] == t;
      assert puts[i] in puts;
    }
  }

  lemma LaterNamesDiffer(takes: seq<Taken>, i: nat, name: int -> string, key: int -> int)
    requires IsLastTake(takes, i, key) && SortsLike(Keys(takes, key), name)
    requires forall t :: t in takes ==> name(t.at) == name(key(t.at))
    ensures forall j :: i < j < |takes| ==> name(takes[j].at) != name(takes[i].at)
  {
    forall j | i < j < |takes| ensures name(takes[j].at) != name(takes[i].at) {
      var a, b := key(takes[i].at), key(takes[j].at);
      assert takes[i] in takes && takes[j] in takes;
      assert a in Keys(takes, key) && b in Keys(takes, key) && a != b;
      BeforeIsTotal(name(a), name(a));
      assert Before(name(a), name(b)) <==> a < b;
      assert Before(name(b), name(a)) <==> b < a;
    }
  }

  function SameDay(day: int): int {
    day
  }

  lemma DaysAreStorable(takes: seq<Taken>)
    requires forall t :: t in takes ==> PadsToFour(YearOf(t.at))
    ensures Storable(IsDayName, Puts(takes, DayName)) && SortsLike(Keys(takes, SameDay), DayName)
  {
    forall t | t in takes ensures IsDayName(DayName(t.at)) {
      DayNameMatches(t.at);
    }
    hide DayName, YearOf;
    NamesAreStorable(takes, DayName, IsDayName);
    forall a, b | a in Keys(takes, SameDay) && b in Keys(takes, SameDay)
      ensures Before(DayName(a), DayName(b)) <==> a < b
    {
      DayNamesSort(a, b);
    }
  }

  lemma NamesAreStorable(takes: seq<Taken>, name: int -> string, pattern: string -> bool)
    requires pattern == IsDayName || pattern == IsWeekName
    requires forall t :: t in takes ==> pattern(name(t.at))
    ensures Storable(pattern, Puts(takes, name))
  {
    forall p | p in Puts(takes, name)
      ensures Plain(p.name) && pattern(p.name) && !pattern(Staging(p.name)) && !pattern(Previous(p.name))
    {
      var i :| 0 <= i < |takes| && Puts(takes, name)[i] == p;
      assert takes[i] in takes;
      RecognisedIsStorable(p.name);
    }
  }

  lemma MondaysWeek(day: int)
    ensures MondayOf(MondayOf(day)) == MondayOf(day)
    ensures WeekOf(MondayOf(day)) == WeekOf(day) && WeekName(MondayOf(day)) == WeekName(day)
  {
    hide YearOf, YearStart, WeekLabel;
  }

  lemma WeeksAreStorable(takes: seq<Taken>)
    requires forall t :: t in takes ==> FourDigits(WeekOf(t.at).year)
    ensures Storable(IsWeekName, Puts(takes, WeekName)) && SortsLike(Keys(takes, MondayOf), WeekName)
    ensures forall t :: t in takes ==> WeekName(t.at) == WeekName(MondayOf(t.at))
  {
    hide WeekOf, WeekName, MondayOf;
    forall t | t in takes
      ensures IsWeekName(WeekName(t.at)) && WeekName(t.at) == WeekName(MondayOf(t.at))
      ensures FourDigits(WeekOf(MondayOf(t.at)).year) && MondayOf(MondayOf(t.at)) == MondayOf(t.at)
    {
      WeekNameMatches(t.at);
      MondaysWeek(t.at);
    }
    NamesAreStorable(takes, WeekName, IsWeekName);
    forall a, b | a in Keys(takes, MondayOf) && b in Keys(takes, MondayOf)
      ensures Before(WeekName(a), WeekName(b)) <==> a < b
    {
      WeekNamesSort(a, b);
      SameWeekSpans(a, b);
    }
  }

  /** The daily root holds the sets of the newest days taken, each the last of its day. */
  lemma DailyHoldsNewestDays(takes: seq<Taken>, keep: nat, i: nat)
    requires forall t :: t in takes ==> PadsToFour(YearOf(t.at))
    requires IsLastTake(takes, i, SameDay)
    ensures Storable(IsDayName, Puts(takes, DayName))
    ensures var left := Retained(map[], keep, IsDayName, Puts(takes, DayName));
            && (DayName(takes[i].at) in left <==> |LaterKeys(takes, SameDay, takes[i].at)| < keep)
            && (DayName(takes[i].at) in left ==> left[DayName(takes[i].at)] == Complete(takes[i].contents))
  {
    DaysAreStorable(takes);
    assert SameDay(takes[i].at) == takes[i].at;
    hide Storable, SortsLike, Retained, Keys, DayName, Puts, LaterKeys;
    NewestKeysAreKept(takes, keep, IsDayName, DayName, SameDay, i);
  }

  /** The weekly root holds the sets of the newest weeks taken in, each the last of its week. */
  lemma WeeklyHoldsNewestWeeks(takes: seq<Taken>, keep: nat, i: nat)
    requires forall t :: t in takes ==> FourDigits(WeekOf(t.at).year)
    requires IsLastTake(takes, i, MondayOf)
    ensures Storable(IsWeekName, Puts(takes, WeekName))
    ensures var left := Retained(map[], keep, IsWeekName, Puts(takes, WeekName));
            && (WeekName(takes[i].at) in left <==> |LaterKeys(takes, MondayOf, MondayOf(takes[i].at))| < keep)
            && (WeekName(takes[i].at) in left ==> left[WeekName(takes[i].at)] == Complete(takes[i].contents))
  {
    WeeksAreStorable(takes);
    hide Storable, SortsLike, Retained, Keys, WeekName, Puts, LaterKeys;
    NewestKeysAreKept(takes, keep, IsWeekName, WeekName, MondayOf, i);
  }
}
