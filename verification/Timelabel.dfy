/**
  The labels of the graph browser (lib/Timelabel.cc, lib/Level.cc): a level of the time hierarchy and
  the middle of one of its periods.
 */
module Timelabel {
  import Division
  import opened Calendar
  import opened LocalTime

  datatype Level = Hour | Day | Week | Month | Year

  /** Level::getDuration */
  function Duration(l: Level): int {
    match l
    case Hour => 3600
    case Day => 86400
    case Week => 604800
    case Month => 2629743
    case Year => 31556926
  }

  /** The year is 365 days, 5 hours, 48 minutes and 46 seconds, and the month a twelfth of it, rounded down. */
  lemma DurationsFit()
    ensures Duration(Hour) == HOUR && Duration(Day) == 24 * Duration(Hour) && Duration(Week) == 7 * Duration(Day)
    ensures Duration(Year) == 365 * Duration(Day) + 5 * HOUR + 48 * 60 + 46
    ensures 0 <= Duration(Year) - 12 * Duration(Month) < 12
  {
  }

  /** Level::up and Level::down; the outermost levels throw. */
  datatype Climb = At(level: Level) | CannotClimb

  function Up(l: Level): Climb {
    match l
    case Hour => At(Day)
    case Day => At(Week)
    case Week => At(Month)
    case Month => At(Year)
    case Year => CannotClimb
  }

  function Down(l: Level): Climb {
    match l
    case Year => At(Month)
    case Month => At(Week)
    case Week => At(Day)
    case Day => At(Hour)
    case Hour => CannotClimb
  }

  // ----- periods, the reference -----

  /** The running number of the day, week (from Sunday on), month or year that day d is in. */
  function PeriodOfDay(l: Level, d: int): int
    requires l != Hour
  {
    match l
    case Day => d
    case Week => (d + 4) / 7
    case Month => var date := DateOf(d); 12 * date.year + date.mon
    case Year => YearOf(d)
  }

  /** The running number of the hour, or of the local day, week, month or year, that contains t. */
  function Period(z: Zone, l: Level, t: int): int {
    if l == Hour then (t + z.base) / HOUR else PeriodOfDay(l, DayAt(z, t))
  }

  /** The day that stands for a period above the hour. */
  function MiddleDay(l: Level, p: int): int
    requires l != Hour
  {
    match l
    case Day => p
    case Week => 7 * p - 1
    case Month => MonthFirst(p) + 14
    case Year => YearStart(p) + 182
  }

  /** The full hour, or the local noon of the middle day, of a period. */
  function Middle(z: Zone, l: Level, p: int): int {
    if l == Hour then HOUR * p - z.base else Noon(z, MiddleDay(l, p))
  }

  lemma PeriodOfMiddleDay(l: Level, p: int)
    requires l != Hour
    ensures PeriodOfDay(l, MiddleDay(l, p)) == p
  {
    match l
    case Day =>
    case Week =>
    case Month =>
      MonthFirstNext(p);
      MonthNumber(MiddleDay(l, p), p);
    case Year =>
      YearStartNext(p);
      YearUnique(MiddleDay(l, p), p);
  }

  lemma PeriodOfMiddle(z: Zone, l: Level, p: int)
    requires Steady(z)
    ensures Period(z, l, Middle(z, l, p)) == p
  {
    if l != Hour {
      hide PeriodOfDay, MiddleDay, DayAt, Noon;
      NoonIsNoon(z, MiddleDay(l, p));
      PeriodOfMiddleDay(l, p);
    }
  }

  // ----- normalize -----

  /** One call of normalize up to the test whether anything changed. */
  function Reduced(z: Zone, l: Level, t: int): int {
    var tm := BrokenDown(z, t);
    var wth := t - (60 * tm.min + tm.sec);
    var wt := wth - 3600 * (tm.hour - 12);
    match l
    case Hour => wth
    case Day => wt
    case Week => wt - 86400 * (tm.wday - 3)
    case Month => wt - 86400 * (tm.mday - 15)
    case Year => wt - 86400 * (tm.yday - 182)
  }

  /** The days normalize goes back from day d. */
  function DaysBack(l: Level, d: int): int
    requires l != Hour
  {
    var date := DateOf(d);
    match l
    case Day => 0
    case Week => date.wday - 3
    case Month => date.mday - 15
    case Year => date.yday - 182
  }

  lemma BackToMiddle(l: Level, d: int)
    requires l != Hour
    ensures MiddleDay(l, PeriodOfDay(l, d)) == d - DaysBack(l, d)
  {
    hide YearStart, YearOf, MonthFirst, MonthOf, MonthStart;
    match l
    case Day =>
    case Week => Division.Recomposed(d + 4, 7);
    case Month => MonthOfDate(d);
    case Year =>
  }

  lemma ReducedBack(z: Zone, l: Level, t: int)
    requires l != Hour
    ensures Reduced(z, l, t) == t - SecondAt(z, t) + 12 * HOUR - DAY * DaysBack(l, DayAt(z, t))
  {
    hide SecondAt, DayAt, DateOf;
    SecondInDay(z, t);
    SecondsRecomposed(SecondAt(z, t));
  }

  /** Above the hour, one call reaches the middle day and is at most one hour off its noon. */
  lemma ReducedDay(z: Zone, l: Level, t: int)
    requires l != Hour
    ensures Reduced(z, l, t) ==
            DAY * MiddleDay(l, PeriodOfDay(l, DayAt(z, t))) + 12 * HOUR - Offset(z, t)
  {
    hide MiddleDay, PeriodOfDay, DaysBack, Offset, Reduced;
    ReducedBack(z, l, t);
    BackToMiddle(l, DayAt(z, t));
    Division.Recomposed(t + Offset(z, t), 86400);
  }

  lemma ReducedHour(z: Zone, t: int)
    ensures Reduced(z, Hour, t) == Middle(z, Hour, Period(z, Hour, t))
  {
    hide Reduced, SecondAt, Offset;
    var s := SecondAt(z, t);
    ReducedIsHour(z, t);
    SecondInDay(z, t);
    SecondsRecomposed(s);
    SecondOfHour(t + Offset(z, t));
    HourAligned(z, t);
  }

  lemma ReducedIsHour(z: Zone, t: int)
    ensures var s := SecondAt(z, t); Reduced(z, Hour, t) == t - (60 * (s / 60 % 60) + s % 60)
  {
    hide SecondAt, DayAt, DateOf;
  }

  lemma SecondInDay(z: Zone, t: int)
    ensures SecondAt(z, t) == (t + Offset(z, t)) % DAY >= 0
  {
  }

  /** Summer time does not move the full hours. */
  lemma HourAligned(z: Zone, t: int)
    ensures t - (t + Offset(z, t)) % HOUR == HOUR * ((t + z.base) / HOUR) - z.base
  {
    Division.Recomposed(t + z.base, 3600);
    Division.AddMultiple(t + z.base, 1, 3600);
  }

  /** Above the hour, from any moment whose reduction lands near noon of d the next call finds the noon. */
  lemma ReducedNearNoon(z: Zone, l: Level, r: int, d: int)
    requires Steady(z) && l != Hour && MiddleDay(l, PeriodOfDay(l, d)) == d
    requires r == StandardNoon(z, d) || r == StandardNoon(z, d) - HOUR
    ensures Reduced(z, l, r) == Noon(z, d)
  {
    hide PeriodOfDay, MiddleDay, Reduced;
    NoonIsNoon(z, d);
    assert DayAt(z, r) == d && Offset(z, r) == Offset(z, Noon(z, d));
    ReducedDay(z, l, r);
  }

  /** The second call ends at the middle, and the third changes nothing. */
  lemma ReducedTwice(z: Zone, l: Level, t: int)
    requires Steady(z)
    ensures Reduced(z, l, Reduced(z, l, t)) == Middle(z, l, Period(z, l, t))
    ensures var m := Middle(z, l, Period(z, l, t)); Reduced(z, l, m) == m
  {
    hide PeriodOfDay, MiddleDay, DayAt, Reduced;
    if l == Hour {
      var p := Period(z, l, t);
      PeriodOfMiddle(z, l, p);
      ReducedHour(z, t);
      ReducedHour(z, Middle(z, l, p));
    } else {
      var p := PeriodOfDay(l, DayAt(z, t));
      var d := MiddleDay(l, p);
      ReducedDay(z, l, t);
      PeriodOfMiddleDay(l, p);
      ReducedNearNoon(z, l, Reduced(z, l, t), d);
      ReducedNearNoon(z, l, Noon(z, d), d);
    }
  }

  /** Timelabel::normalize: repeat until nothing changes. */
  function Normalize(z: Zone, l: Level, t: int): (m: int)
    requires Steady(z)
    ensures m == Middle(z, l, Period(z, l, t))
    decreases if Reduced(z, l, t) == t then 0
              else if Reduced(z, l, Reduced(z, l, t)) == Reduced(z, l, t) then 1 else 2
  {
    hide *;
    ReducedTwice(z, l, t);
    ReducedTwice(z, l, Reduced(z, l, t));
    var wt := Reduced(z, l, t);
    if t == wt then t else Normalize(z, l, wt)
  }

  /** The number of calls normalize makes. */
  function Calls(z: Zone, l: Level, t: int): (n: nat)
    requires Steady(z)
    ensures 1 <= n <= 3
    ensures n == 1 <==> Normalize(z, l, t) == t
    decreases if Reduced(z, l, t) == t then 0
              else if Reduced(z, l, Reduced(z, l, t)) == Reduced(z, l, t) then 1 else 2
  {
    hide *;
    ReducedTwice(z, l, t);
    ReducedTwice(z, l, Reduced(z, l, t));
    var wt := Reduced(z, l, t);
    if t == wt then 1 else 1 + Calls(z, l, wt)
  }

  /** normalize stays in the period it was given, and normalizing again changes nothing. */
  lemma NormalizeIdempotent(z: Zone, l: Level, t: int)
    requires Steady(z)
    ensures Period(z, l, Normalize(z, l, t)) == Period(z, l, t)
    ensures Normalize(z, l, Normalize(z, l, t)) == Normalize(z, l, t)
  {
    hide *;
    PeriodOfMiddle(z, l, Period(z, l, t));
  }

  // ----- navigation -----

  datatype Label = Label(level: Level, midtime: int)

  function FromTime(z: Zone, t: int, l: Level): Label
    requires Steady(z)
  {
    Label(l, Normalize(z, l, t))
  }

  ghost predicate Normalized(z: Zone, tl: Label) {
    tl.midtime == Middle(z, tl.level, Period(z, tl.level, tl.midtime))
  }

  lemma NormalizedLabel(z: Zone, l: Level, t: int)
    requires Steady(z)
    ensures Normalized(z, Label(l, Normalize(z, l, t)))
  {
    hide Period, Middle, Normalize;
    NormalizeIdempotent(z, l, t);
  }

  function Next(z: Zone, tl: Label): Label
    requires Steady(z)
  {
    FromTime(z, tl.midtime + Duration(tl.level), tl.level)
  }

  function Previous(z: Zone, tl: Label): Label
    requires Steady(z)
  {
    FromTime(z, tl.midtime - Duration(tl.level), tl.level)
  }

  /** How many whole days a duration moves a moment near noon, and that it never leaves that day. */
  lemma MovedFromNoon(z: Zone, d: int, days: int, rest: int)
    requires Steady(z) && -37743 <= rest <= 37743
    ensures DayAt(z, Noon(z, d) + DAY * days + rest) == d + days
  {
    var t := Noon(z, d) + DAY * days + rest;
    NoonIsNoon(z, d);
    var s := t + Offset(z, t) - DAY * (d + days);
    assert 0 <= s < DAY;
    assert t + Offset(z, t) == DAY * (d + days) + s;
  }

  /** The duration of a level above the hour in whole days and remaining seconds. */
  function Days(l: Level): int
    requires l != Hour
  {
    match l case Day => 1 case Week => 7 case Month => 30 case Year => 365
  }

  function Rest(l: Level): (rest: int)
    requires l != Hour
    ensures -37743 <= rest <= 37743 && Duration(l) == DAY * Days(l) + rest
  {
    match l case Day => 0 case Week => 0 case Month => 37743 case Year => 20926
  }

  lemma MovedMiddleDay(l: Level, p: int)
    requires l != Hour
    ensures var d := MiddleDay(l, p);
            PeriodOfDay(l, d + Days(l)) == p + 1 && PeriodOfDay(l, d - Days(l)) == p - 1
  {
    hide YearStart, YearOf, DateOf, MonthFirst;
    match l
    case Day =>
    case Week =>
    case Month =>
      MonthFirstNext(p);
      MonthFirstNext(p + 1);
      MonthFirstNext(p - 1);
      MonthNumber(MonthFirst(p) + 44, p + 1);
      MonthNumber(MonthFirst(p) - 16, p - 1);
    case Year =>
      YearStartNext(p);
      YearStartNext(p + 1);
      YearStartNext(p - 1);
      YearUnique(YearStart(p) + 547, p + 1);
      YearUnique(YearStart(p) - 183, p - 1);
  }

  lemma MovedHour(z: Zone, p: int)
    ensures Period(z, Hour, Middle(z, Hour, p) + Duration(Hour)) == p + 1
    ensures Period(z, Hour, Middle(z, Hour, p) - Duration(Hour)) == p - 1
  {
  }

  /** From the middle of a period the fixed durations always lead into the adjacent period. */
  lemma MovedPeriod(z: Zone, l: Level, p: int)
    requires Steady(z)
    ensures Period(z, l, Middle(z, l, p) + Duration(l)) == p + 1
    ensures Period(z, l, Middle(z, l, p) - Duration(l)) == p - 1
  {
    hide PeriodOfDay, MiddleDay, DayAt, Noon, Days, Rest, Duration;
    if l == Hour {
      MovedHour(z, p);
    } else {
      var d, n, rest := MiddleDay(l, p), Days(l), Rest(l);
      MovedMiddleDay(l, p);
      MovedFromNoon(z, d, n, rest);
      MovedFromNoon(z, d, -n, -rest);
      assert Noon(z, d) + DAY * -n + -rest == Noon(z, d) - Duration(l);
    }
  }

  /** next and previous move by exactly one hour, day, week, month or year, and undo each other. */
  lemma NextAndPrevious(z: Zone, tl: Label)
    requires Steady(z) && Normalized(z, tl)
    ensures var l, p := tl.level, Period(z, tl.level, tl.midtime);
            Next(z, tl) == Label(l, Middle(z, l, p + 1)) &&
            Previous(z, tl) == Label(l, Middle(z, l, p - 1))
    ensures Normalized(z, Next(z, tl)) && Normalized(z, Previous(z, tl))
    ensures Previous(z, Next(z, tl)) == tl && Next(z, Previous(z, tl)) == tl
  {
    hide Period, Middle, Normalize, Duration;
    var l, p := tl.level, Period(z, tl.level, tl.midtime);
    MovedPeriod(z, l, p);
    MovedPeriod(z, l, p + 1);
    MovedPeriod(z, l, p - 1);
    PeriodOfMiddle(z, l, p + 1);
    PeriodOfMiddle(z, l, p - 1);
  }

  function GoUp(z: Zone, tl: Label): Label
    requires Steady(z) && Up(tl.level).At?
  {
    FromTime(z, tl.midtime, Up(tl.level).level)
  }

  function GoDown(z: Zone, tl: Label): Label
    requires Steady(z) && Down(tl.level).At?
  {
    FromTime(z, tl.midtime, Down(tl.level).level)
  }

  /** up leads to the middle of the enclosing period, and down to that of the part around the middle. */
  lemma UpAndDown(z: Zone, tl: Label)
    requires Steady(z)
    ensures match Up(tl.level)
            case At(l) => GoUp(z, tl) == Label(l, Middle(z, l, Period(z, l, tl.midtime)))
            case CannotClimb => tl.level == Year
    ensures match Down(tl.level)
            case At(l) => GoDown(z, tl) == Label(l, Middle(z, l, Period(z, l, tl.midtime)))
            case CannotClimb => tl.level == Hour
  {
    hide Period, Middle, Normalize;
  }

  /** The middle day of the middle part of a period lies in the period. */
  lemma DownStaysInside(l: Level, p: int)
    requires l.Week? || l.Month? || l.Year?
    ensures var k := Down(l).level;
            PeriodOfDay(l, MiddleDay(k, PeriodOfDay(k, MiddleDay(l, p)))) == p
  {
    hide YearStart, YearOf, DateOf, MonthFirst;
    var d := MiddleDay(l, p);
    match l
    case Week =>
    case Month =>
      MonthFirstNext(p);
      MonthNumber(7 * ((d + 4) / 7) - 1, p);
    case Year =>
      YearStartNext(p);
      MonthOfDate(d);
      YearUnique(d, p);
      var n := 12 * DateOf(d).year + DateOf(d).mon;
      MonthFirstNext(n);
      assert DateOf(d).year == p && n / 12 == p;
      YearUnique(MonthFirst(n) + 14, p);
  }

  lemma DownStaysInPeriod(z: Zone, l: Level, p: int)
    requires Steady(z) && l != Hour
    ensures var k := Down(l).level;
            Period(z, l, Middle(z, k, Period(z, k, Middle(z, l, p)))) == p
  {
    hide PeriodOfDay, MiddleDay, DayAt, Noon;
    var d := MiddleDay(l, p);
    NoonIsNoon(z, d);
    if l == Day {
      NoonIsFullHour(z, d);
      PeriodOfMiddleDay(l, p);
    } else {
      DownStaysInside(l, p);
      NoonIsNoon(z, MiddleDay(Down(l).level, PeriodOfDay(Down(l).level, d)));
    }
  }

  lemma NoonIsFullHour(z: Zone, d: int)
    ensures Middle(z, Hour, Period(z, Hour, Noon(z, d))) == Noon(z, d)
  {
    var k := 24 * d + 12 - if z.summer(StandardNoon(z, d)) then 1 else 0;
    assert Noon(z, d) + z.base == k * 3600;
    Division.QuotientIs(Noon(z, d) + z.base, k, 0, 3600);
  }

  /** down followed by up is the identity on every label above the hour level. */
  lemma DownUp(z: Zone, tl: Label)
    requires Steady(z) && Normalized(z, tl) && tl.level != Hour
    ensures Down(tl.level).At? && Up(GoDown(z, tl).level) == At(tl.level)
    ensures GoUp(z, GoDown(z, tl)) == tl
  {
    hide Period, Middle, Normalize;
    DownStaysInPeriod(z, tl.level, Period(z, tl.level, tl.midtime));
  }
}
