/** Parsing the printed label gives the label back, and exactly when. */
module RoundTrip {
  import Division
  import opened Calendar
  import opened LocalTime
  import opened Timelabel
  import opened Decimal
  import opened Labels

  // ----- week numbers of Wednesdays -----

  predicate LeapJune30(d: int) {
    var date := DateOf(d);
    Leap(date.year) && date.mon == 5 && date.mday == 30
  }

  /** For a Wednesday the corrected year is the ISO year, except on 30 June of a leap year. */
  lemma WeekYearIsIsoYear(d: int)
    requires DateOf(d).wday == 3
    ensures WeekYear(d) == if LeapJune30(d) then IsoYear(d) - 1 else IsoYear(d)
    ensures LeapJune30(d) ==> IsoWeek(d) == 27
  {
    hide YearStart, DateOf, YearOf;
    var date := DateOf(d);
    var y := date.year;
    YearStartNext(y);
    YearStartNext(y + 1);
    assert Thursday(d) == d + 1;
    YearDayOfMonth(d);
    if d + 1 == YearStart(y + 1) {
      YearUnique(d + 1, y + 1);
      assert IsoWeek(d) == 1;
    } else {
      YearUnique(d + 1, y);
      assert IsoWeek(d) == (date.yday + 1) / 7 + 1;
    }
  }

  lemma YearDayOfMonth(d: int)
    ensures var date := DateOf(d);
            var s := if Leap(date.year) then 1 else 0;
            (date.mon < 6 <==> date.yday < 181 + s) && (date.mon > 6 <==> date.yday >= 212 + s) &&
            (date.mon == 5 && date.mday == 30 <==> date.yday == 180 + s)
  {
    hide YearStart;
    var date := DateOf(d);
    YearStartNext(date.year);
    DayOfYear(Leap(date.year), date.yday);
  }

  lemma DayOfYear(leap: bool, yday: int)
    requires 0 <= yday < if leap then 366 else 365
    ensures var s, m := if leap then 1 else 0, MonthOf(leap, yday);
            (m < 6 <==> yday < 181 + s) && (m > 6 <==> yday >= 212 + s) &&
            (m == 5 && yday - MonthStart(leap, m) + 1 == 30 <==> yday == 180 + s)
  {
  }

  /** The Wednesday parse finds for a year and a week, counted from 1 January. */
  lemma WeekDayFormula(y: int, w: int)
    ensures var a := 11 - (YearStart(y) + 4) % 7;
            WeekDay(y, w) + 1 == YearStart(y) + a % 7 + 7 * (w - 1)
    ensures (WeekDay(y, w) + 1) % 7 == 0
  {
    hide YearStart, YearOf, Thursday;
    var j := YearStart(y);
    var a := 11 - (j + 4) % 7;
    YearStartNext(y);
    FirstThursday(j, a);
    AfterWednesday(j + a - 1);
    YearUnique(j + a, y);
    Division.Recomposed(a, 7);
    Division.AddMultiple(j + a, w - 1 - a / 7, 7);
  }

  lemma FirstThursday(j: int, a: int)
    requires a == 11 - (j + 4) % 7
    ensures (j + a) % 7 == 0 && 5 <= a <= 11
  {
    Division.Recomposed(j + 4, 7);
    Division.QuotientIs(j + a, (j + 4) / 7 + 1, 0, 7);
  }

  lemma WeekDayFound(d: int)
    requires DateOf(d).wday == 3
    ensures WeekDay(IsoYear(d), IsoWeek(d)) == d
  {
    hide YearStart, YearOf, WeekDay, DateOf, Thursday;
    var y := IsoYear(d);
    WednesdayIs(d);
    WeekDayFormula(y, IsoWeek(d));
    SameWeekday(YearStart(y), d + 1 - YearStart(y));
  }

  lemma WeekDayMissed(d: int)
    requires DateOf(d).wday == 3
    ensures WeekDay(IsoYear(d) - 1, 27) < d
  {
    hide YearStart, YearOf, WeekDay, DateOf, Thursday;
    var y := IsoYear(d);
    WednesdayIs(d);
    WeekDayFormula(y - 1, 27);
    YearStartNext(y - 1);
  }

  lemma SameWeekday(j: int, n: int)
    requires (j + n) % 7 == 0
    ensures n == 7 * (n / 7) + (11 - (j + 4) % 7) % 7
  {
    Division.Recomposed(j + n, 7);
    Division.Recomposed(n, 7);
    var r, m := n % 7, (j + n) / 7 - n / 7;
    if r <= 4 {
      Division.QuotientIs(j + 4, m, 4 - r, 7);
      Division.QuotientIs(7 + r, 1, r, 7);
    } else {
      Division.QuotientIs(j + 4, m - 1, 11 - r, 7);
      Division.QuotientIs(r, 0, r, 7);
    }
  }

  // ----- the text -----

  /** The fields of a date in the text of an hour or day label. */
  lemma DateFields(c: string, y: nat, mon: nat, mday: nat, hour: nat, s: string)
    requires |c| == 1 && 1000 <= y <= 9999 && mon < 100 && mday < 100 && hour < 100
    requires s == c + Padded(0, y) + Padded(2, mon) + Padded(2, mday) ||
             s == c + Padded(0, y) + Padded(2, mon) + Padded(2, mday) + Padded(2, hour)
    ensures s == c + Padded(0, y) + Padded(2, mon) + Padded(2, mday) + Padded(2, hour) ==> |s| > 9
    ensures |s| >= 9 && s[0] == c[0] && Atoi(Substring(s, 1, 4)) == y
    ensures Atoi(Substring(s, 5, 2)) == mon && Atoi(Substring(s, 7, 2)) == mday
    ensures |s| > 9 ==> Atoi(Substring(s, 9, 2)) == hour
  {
    hide Padded, Atoi;
    FourDigits(y);
    TwoDigits(mon);
    TwoDigits(mday);
    TwoDigits(hour);
    AtoiInvertsPadded(0, y);
    AtoiInvertsPadded(2, mon);
    AtoiInvertsPadded(2, mday);
    AtoiInvertsPadded(2, hour);
    assert Substring(s, 1, 4) == Padded(0, y);
    assert Substring(s, 5, 2) == Padded(2, mon);
    assert Substring(s, 7, 2) == Padded(2, mday);
    assert |s| > 9 ==> Substring(s, 9, 2) == Padded(2, hour);
  }

  lemma MonthFields(c: string, y: nat, mon: nat, s: string)
    requires |c| == 1 && 1000 <= y <= 9999 && mon < 100
    requires s == c + Padded(0, y) || s == c + Padded(0, y) + Padded(2, mon)
    ensures |s| >= 5 && s[0] == c[0] && Atoi(Substring(s, 1, 4)) == y
    ensures |s| > 5 ==> Atoi(Substring(s, 5, 2)) == mon
    ensures s == c + Padded(0, y) + Padded(2, mon) ==> |s| > 5
  {
    hide Padded, Atoi;
    FourDigits(y);
    TwoDigits(mon);
    AtoiInvertsPadded(0, y);
    AtoiInvertsPadded(2, mon);
    assert Substring(s, 1, 4) == Padded(0, y);
    assert |s| > 5 ==> Substring(s, 5, 2) == Padded(2, mon);
  }

  lemma WeekFields(y: nat, w: nat, s: string)
    requires 1000 <= y <= 9999 && w < 100 && s == "w" + Padded(4, y) + Padded(2, w)
    ensures |s| >= 5 && Atoi(Substring(s, 1, 4)) == y && Atoi(s[5..]) == w
  {
    hide Padded, Atoi;
    FourDigits(y);
    TwoDigits(w);
    AtoiInvertsPadded(4, y);
    AtoiInvertsPadded(2, w);
    assert Substring(s, 1, 4) == Padded(4, y);
    assert s[5..] == Padded(2, w);
  }

  // ----- parse after getString -----

  lemma ParsedFields(z: Zone, s: string, l: Level, year: int, mon: int, mday: int, hour: int)
    requires Steady(z) && l != Week && LevelOf(s) == At(l) && |s| >= Reach(l)
    requires Atoi(Substring(s, 1, 4)) == year
    requires l != Year ==> Atoi(Substring(s, 5, 2)) == mon + 1
    requires l == Hour || l == Day ==> Atoi(Substring(s, 7, 2)) == mday
    requires l == Hour ==> Atoi(Substring(s, 9, 2)) == hour
    ensures var m := if l == Year then 0 else mon;
            var d := if l == Hour || l == Day then mday else 14;
            var h := if l == Hour then hour else 12;
            ParsedLabel(z, s) == Ok(FromTime(z, StandardNoon(z, DayNumber(year, m, d)) + HOUR * (h - 12), l))
  {
    hide Atoi, Substring, DayNumber, FromTime, StandardNoon, LevelOf, Reach, WeekDay;
  }

  /** The moment parse settles on before it normalizes, for a printed hour or day label. */
  lemma ParsedDate(z: Zone, tl: Label)
    requires Steady(z) && (tl.level == Hour || tl.level == Day) && 1000 <= ShownYear(z, tl) <= 9999
    ensures var date := DateOf(DayAt(z, tl.midtime));
            var hour := if tl.level == Hour then SecondAt(z, tl.midtime) / HOUR else 12;
            ParsedLabel(z, LabelText(z, tl)) ==
            Ok(FromTime(z, StandardNoon(z, DayNumber(date.year, date.mon, date.mday))
                           + HOUR * (hour - 12), tl.level))
  {
    hide DayNumber, Padded, Atoi, Normalize, IsoWeek, WeekYear, StandardNoon, Substring,
         SecondAt, DayAt, ParsedLabel, FromTime, DateOf;
    var s, tm := LabelText(z, tl), BrokenDown(z, tl.midtime);
    HourOfDay(z, tl.midtime);
    DateFields(if tl.level == Hour then "h" else "d",
               tm.year + 1900, tm.mon + 1, tm.mday, tm.hour, s);
    ParsedFields(z, s, tl.level, tm.year + 1900, tm.mon, tm.mday, tm.hour);
  }

  lemma ParsedMonth(z: Zone, tl: Label)
    requires Steady(z) && tl.level == Month && 1000 <= ShownYear(z, tl) <= 9999
    ensures var date := DateOf(DayAt(z, tl.midtime));
            ParsedLabel(z, LabelText(z, tl)) ==
            Ok(FromTime(z, StandardNoon(z, DayNumber(date.year, date.mon, 14)), Month))
  {
    hide DayNumber, Padded, Atoi, Normalize, IsoWeek, WeekYear, StandardNoon, Substring,
         SecondAt, DayAt, ParsedLabel, FromTime, DateOf;
    var s, tm := LabelText(z, tl), BrokenDown(z, tl.midtime);
    MonthFields("m", tm.year + 1900, tm.mon + 1, s);
    ParsedFields(z, s, Month, tm.year + 1900, tm.mon, tm.mday, tm.hour);
  }

  lemma ParsedYear(z: Zone, tl: Label)
    requires Steady(z) && tl.level == Year && 1000 <= ShownYear(z, tl) <= 9999
    ensures var date := DateOf(DayAt(z, tl.midtime));
            ParsedLabel(z, LabelText(z, tl)) ==
            Ok(FromTime(z, StandardNoon(z, DayNumber(date.year, 0, 14)), Year))
  {
    hide DayNumber, Padded, Atoi, Normalize, IsoWeek, WeekYear, StandardNoon, Substring,
         SecondAt, DayAt, ParsedLabel, FromTime, DateOf;
    var s, tm := LabelText(z, tl), BrokenDown(z, tl.midtime);
    MonthFields("y", tm.year + 1900, tm.mon + 1, s);
    ParsedFields(z, s, Year, tm.year + 1900, tm.mon, tm.mday, tm.hour);
  }

  lemma HourOfDay(z: Zone, t: int)
    ensures 0 <= SecondAt(z, t) / HOUR < 24
  {
  }

  lemma ParsedWeek(z: Zone, tl: Label)
    requires Steady(z) && tl.level == Week && 1000 <= ShownYear(z, tl) <= 9999
    ensures var d := DayAt(z, tl.midtime);
            ParsedLabel(z, LabelText(z, tl)) ==
            Ok(FromTime(z, StandardNoon(z, WeekDay(WeekYear(d), IsoWeek(d))), Week))
  {
    hide DateOf, Padded, Atoi, IsoWeek, WeekYear, WeekDay, DayAt, SecondAt, ParsedLabel, FromTime, StandardNoon,
         Substring;
    var d, s := DayAt(z, tl.midtime), LabelText(z, tl);
    FirstWeekHasFourthJanuary(d);
    WeekFields(WeekYear(d), IsoWeek(d), s);
    ParsedWeekFields(z, s, WeekYear(d), IsoWeek(d));
  }

  lemma ParsedWeekFields(z: Zone, s: string, year: int, week: int)
    requires Steady(z) && LevelOf(s) == At(Week) && |s| >= 5
    requires Atoi(Substring(s, 1, 4)) == year && Atoi(s[5..]) == week
    ensures ParsedLabel(z, s) == Ok(FromTime(z, StandardNoon(z, WeekDay(year, week)), Week))
  {
    hide Atoi, Substring, DayNumber, FromTime, StandardNoon, LevelOf, WeekDay;
  }

  /** The failing families, readable off the label before it is printed. */
  predicate Misread(z: Zone, tl: Label) {
    (tl.level == Hour && z.summer(tl.midtime)) ||
    (tl.level == Week && LeapJune30(DayAt(z, tl.midtime)))
  }

  /** A day, month or year label comes back whatever the clocks do. */
  lemma RoundTripDate(z: Zone, tl: Label)
    requires Steady(z) && Normalized(z, tl) && 1000 <= ShownYear(z, tl) <= 9999
    requires tl.level == Day || tl.level == Month || tl.level == Year
    ensures ParsedLabel(z, LabelText(z, tl)) == Ok(tl)
  {
    hide DateOf, DayNumber, ParsedLabel, LabelText, Normalize, Noon, YearStart, YearOf, MonthFirst;
    var d := DayAt(z, tl.midtime);
    var date := DateOf(d);
    var p := Period(z, tl.level, tl.midtime);
    match tl.level
    case Day =>
      ParsedDate(z, tl);
      DayNumberOfDate(d);
      StandardNoonDay(z, d);
    case Month =>
      ParsedMonth(z, tl);
      MonthFirstNext(p);
      FourteenthOf(date.year, date.mon, 14);
      MonthNumber(MonthFirst(p) + 13, p);
      StandardNoonDay(z, MonthFirst(p) + 13);
    case Year =>
      ParsedYear(z, tl);
      FourteenthOf(date.year, 0, 14);
      YearBegins(date.year);
      YearStartNext(date.year);
      YearUnique(YearStart(date.year) + 13, date.year);
      StandardNoonDay(z, YearStart(date.year) + 13);
  }

  lemma FourteenthOf(year: int, mon: int, mday: int)
    ensures DayNumber(year, mon, mday) == MonthFirst(12 * year + mon) + mday - 1
  {
  }

  lemma YearBegins(year: int)
    ensures MonthFirst(12 * year) == YearStart(year)
  {
    hide YearStart;
    assert (12 * year) / 12 == year && (12 * year) % 12 == 0;
  }

  /** parse reads the hour as standard time, so an hour label comes back unless it is summer time. */
  lemma RoundTripHour(z: Zone, tl: Label)
    requires Steady(z) && Normalized(z, tl) && 1000 <= ShownYear(z, tl) <= 9999 && tl.level == Hour
    ensures ParsedLabel(z, LabelText(z, tl)) == Ok(tl) <==> !z.summer(tl.midtime)
  {
    hide DateOf, DayNumber, ParsedLabel, LabelText, Normalize;
    hide Period, DayAt, SecondAt, Middle;
    var t := tl.midtime;
    ParsedDate(z, tl);
    DayNumberOfDate(DayAt(z, t));
    IsFullHour(z, t);
    FullHour(z, t);
    IsFullHour(z, t + HOUR);
  }

  lemma IsFullHour(z: Zone, t: int)
    ensures Middle(z, Hour, Period(z, Hour, t)) == t <==> (t + z.base) % HOUR == 0
    ensures (t + HOUR + z.base) % HOUR == (t + z.base) % HOUR
  {
  }

  lemma FullHour(z: Zone, t: int)
    requires (t + z.base) % HOUR == 0
    ensures StandardNoon(z, DayAt(z, t)) + HOUR * (SecondAt(z, t) / HOUR - 12) ==
            t + if z.summer(t) then HOUR else 0
  {
    var c := t + Offset(z, t);
    var k := (t + z.base) / HOUR + if z.summer(t) then 1 else 0;
    assert c == HOUR * k;
    var q := c / DAY;
    assert c % DAY == HOUR * (k - 24 * q);
    assert c % DAY / HOUR == k - 24 * q;
  }

  /** A week label comes back unless its Wednesday is 30 June of a leap year. */
  lemma RoundTripWeek(z: Zone, tl: Label)
    requires Steady(z) && Normalized(z, tl) && 1000 <= ShownYear(z, tl) <= 9999 && tl.level == Week
    ensures ParsedLabel(z, LabelText(z, tl)) == Ok(tl) <==> !LeapJune30(DayAt(z, tl.midtime))
  {
    hide DateOf, WeekDay, WeekYear, IsoYear, IsoWeek, ParsedLabel, LabelText, FromTime, Noon, StandardNoon,
         LeapJune30, YearOf, YearStart, DayAt, Normalized, ShownYear;
    var d := DayAt(z, tl.midtime);
    WeekIsWednesday(z, tl);
    WeekYearIsIsoYear(d);
    WeekDayFound(d);
    WeekDayMissed(d);
    ParsedWeek(z, tl);
    var w := WeekDay(WeekYear(d), IsoWeek(d));
    WeekDayFormula(WeekYear(d), IsoWeek(d));
    WednesdayIsWeek(z, w);
    NoonsDiffer(z, w, d);
  }

  /** A normalized week label is noon of a Wednesday. */
  lemma WeekIsWednesday(z: Zone, tl: Label)
    requires Steady(z) && Normalized(z, tl) && tl.level == Week
    ensures var d := DayAt(z, tl.midtime); tl.midtime == Noon(z, d) && DateOf(d).wday == 3
  {
    hide DateOf, DayAt, Noon;
    var p := Period(z, Week, tl.midtime);
    NoonIsNoon(z, 7 * p - 1);
    Division.QuotientIs(7 * p + 3, p, 3, 7);
    Weekday(7 * p - 1);
  }

  lemma Weekday(d: int)
    ensures DateOf(d).wday == (d + 4) % 7
  {
    hide YearOf, YearStart, MonthOf, MonthStart;
  }

  /** The week of standard noon on a Wednesday is labelled by that day. */
  lemma WednesdayIsWeek(z: Zone, w: int)
    requires Steady(z) && (w + 1) % 7 == 0
    ensures FromTime(z, StandardNoon(z, w), Week) == Label(Week, Noon(z, w))
  {
    hide DayAt, Noon, StandardNoon, Normalize;
    StandardNoonDay(z, w);
    Division.Recomposed(w + 1, 7);
    Division.QuotientIs(w + 4, (w + 1) / 7, 3, 7);
  }

  lemma NoonsDiffer(z: Zone, w: int, d: int)
    requires w <= d
    ensures Noon(z, w) == Noon(z, d) <==> w == d
  {
  }

  /**
    Parsing the printed label of a normalized label gives the label back, at every level, exactly
    outside the two failing families.
   */
  lemma PrintThenParse(z: Zone, tl: Label)
    requires Steady(z) && Normalized(z, tl) && 1000 <= ShownYear(z, tl) <= 9999
    ensures ParsedLabel(z, LabelText(z, tl)) == Ok(tl) <==> !Misread(z, tl)
  {
    hide ParsedLabel, LabelText, LeapJune30;
    match tl.level
    case Hour => RoundTripHour(z, tl);
    case Week => RoundTripWeek(z, tl);
    case _ => RoundTripDate(z, tl);
  }

  /** With a fixed local offset only the week of a leap year's 30 June is misread. */
  lemma PrintThenParseFixedOffset(z: Zone, tl: Label)
    requires forall t :: !z.summer(t)
    requires Normalized(z, tl) && 1000 <= ShownYear(z, tl) <= 9999
    ensures Steady(z)
    ensures ParsedLabel(z, LabelText(z, tl)) == Ok(tl) <==>
            !(tl.level == Week && LeapJune30(DayAt(z, tl.midtime)))
  {
    hide ParsedLabel, LabelText, LeapJune30;
    PrintThenParse(z, tl);
  }

  lemma JuneOf2004(d: int)
    requires d == 12599
    ensures DateOf(d) == Date(2004, 5, 30, 3, 181) && LeapJune30(d)
    ensures IsoYear(d) == 2004
  {
    hide SearchYear;
    YearUnique(d, 2004);
    YearUnique(d + 1, 2004);
    MonthUnique(true, 181, 5);
  }

  /** Wednesday 30 June 2004 is in week 27; its week label is printed with the year 2003. */
  lemma MisreadExample()
    ensures var z := Zone(0, t => false);
            var tl := Label(Week, DAY * 12599 + 12 * HOUR);
            Normalized(z, tl) && ShownYear(z, tl) == 2003 && ParsedLabel(z, LabelText(z, tl)) != Ok(tl)
  {
    hide ParsedLabel, LabelText, DateOf, IsoYear, IsoWeek, WeekYear, LeapJune30;
    var z := Zone(0, t => false);
    var tl := Label(Week, DAY * 12599 + 12 * HOUR);
    JuneOf2004(12599);
    assert DayAt(z, tl.midtime) == 12599;
    assert Noon(z, 12599) == tl.midtime;
    WeekYearIsIsoYear(12599);
    PrintThenParse(z, tl);
  }

  /** An hour label of summer time is read an hour later. */
  lemma MisreadHourExample()
    ensures var z := Zone(3600, t => true);
            var tl := Label(Hour, 0);
            Steady(z) && Normalized(z, tl) && ShownYear(z, tl) == 1970 && ParsedLabel(z, LabelText(z, tl)) != Ok(tl)
  {
    hide ParsedLabel, LabelText, DateOf, LeapJune30;
    var z := Zone(3600, t => true);
    var tl := Label(Hour, 0);
    assert DayAt(z, 0) == 0;
    FirstDay();
    PrintThenParse(z, tl);
  }

  lemma FirstDay()
    ensures DateOf(0).year == 1970
  {
    hide SearchYear;
    YearUnique(0, 1970);
  }
}
