/**
  The proleptic Gregorian calendar behind localtime and mktime: days are counted from 1 January 1970,
  months from 0, weekdays from Sunday = 0. Week numbers follow section 2.2.10 of ISO 8601:2004.
 */
module Calendar {
  import Division

  predicate Leap(y: int) {
    y % 4 == 0 && (y % 100 != 0 || y % 400 == 0)
  }

  /** The day number of 1 January of year y. */
  function YearStart(y: int): int {
    365 * (y - 1970) + (y - 1969) / 4 - (y - 1901) / 100 + (y - 1601) / 400
  }

  function YearLength(y: int): int {
    if Leap(y) then 366 else 365
  }

  /** The leap days of one rule before year y, and with year y. */
  lemma RuleDays(y: int, k: int, n: int, shift: int)
    requires n > 0 && shift == k * n
    ensures (y - shift) / n == (y - shift - 1) / n + (if y % n == 0 then 1 else 0)
  {
    Division.NextQuotient(y - shift - 1, n);
    assert (-k) * n == -(k * n);
    Division.AddMultiple(y, -k, n);
  }

  lemma YearStartNext(y: int)
    ensures YearStart(y + 1) == YearStart(y) + YearLength(y)
  {
    RuleDays(y, 492, 4, 1968);
    RuleDays(y, 19, 100, 1900);
    RuleDays(y, 4, 400, 1600);
    RulesNested(y);
  }

  lemma RulesNested(y: int)
    ensures (y % 400 == 0 ==> y % 100 == 0) && (y % 100 == 0 ==> y % 4 == 0)
  {
    if y % 400 == 0 {
      Division.MultipleOfMultiple(y, 4, 100, 400);
    }
    if y % 100 == 0 {
      Division.MultipleOfMultiple(y, 25, 4, 100);
    }
  }

  lemma {:induction false} YearStartMonotone(y: int, z: int)
    requires y <= z
    ensures YearStart(y) + 365 * (z - y) <= YearStart(z)
    decreases z - y
  {
    hide YearStart;
    if y < z {
      YearStartMonotone(y, z - 1);
      YearStartNext(z - 1);
    }
  }

  /** The year of day d, looked for from year y on. */
  function SearchYear(d: int, y: int): (r: int)
    ensures YearStart(r) <= d < YearStart(r + 1)
    decreases if d < YearStart(y) then YearStart(y) - d
              else if d < YearStart(y + 1) then 0 else d - YearStart(y + 1) + 1
  {
    hide YearStart;
    YearStartNext(y);
    YearStartNext(y - 1);
    YearStartNext(y + 1);
    if d < YearStart(y) then SearchYear(d, y - 1)
    else if d < YearStart(y + 1) then y
    else SearchYear(d, y + 1)
  }

  function YearOf(d: int): (y: int)
    ensures YearStart(y) <= d < YearStart(y + 1)
  {
    SearchYear(d, 1970)
  }

  /** Only one year contains day d. */
  lemma YearUnique(d: int, y: int)
    requires YearStart(y) <= d < YearStart(y + 1)
    ensures YearOf(d) == y
  {
    hide YearStart;
    var r := YearOf(d);
    if r < y {
      YearStartMonotone(r + 1, y);
    } else if y < r {
      YearStartMonotone(y + 1, r);
    }
  }

  /** The day of the year on which month m begins. */
  function MonthStart(leap: bool, m: int): int
    requires 0 <= m <= 12
  {
    [0, 31, 59, 90, 120, 151, 181, 212, 243, 273, 304, 334, 365][m] + (if leap && m >= 2 then 1 else 0)
  }

  function MonthOf(leap: bool, yday: int): (m: int)
    requires 0 <= yday < if leap then 366 else 365
    ensures 0 <= m < 12 && MonthStart(leap, m) <= yday < MonthStart(leap, m + 1)
  {
    if yday < MonthStart(leap, 1) then 0
    else if yday < MonthStart(leap, 2) then 1
    else if yday < MonthStart(leap, 3) then 2
    else if yday < MonthStart(leap, 4) then 3
    else if yday < MonthStart(leap, 5) then 4
    else if yday < MonthStart(leap, 6) then 5
    else if yday < MonthStart(leap, 7) then 6
    else if yday < MonthStart(leap, 8) then 7
    else if yday < MonthStart(leap, 9) then 8
    else if yday < MonthStart(leap, 10) then 9
    else if yday < MonthStart(leap, 11) then 10
    else 11
  }

  lemma MonthLengths(leap: bool, m: int)
    requires 0 <= m < 12
    ensures MonthStart(leap, m + 1) - MonthStart(leap, m) ==
            if m == 3 || m == 5 || m == 8 || m == 10 then 30
            else if m == 1 then if leap then 29 else 28
            else 31
  {
  }

  lemma MonthUnique(leap: bool, yday: int, m: int)
    requires 0 <= m < 12 && MonthStart(leap, m) <= yday < MonthStart(leap, m + 1)
    ensures 0 <= yday < if leap then 366 else 365
    ensures MonthOf(leap, yday) == m
  {
  }

  /** A calendar date; months count from 0, days of the month from 1, days of the year from 0. */
  datatype Date = Date(year: int, mon: int, mday: int, wday: int, yday: int)

  function DateOf(d: int): (date: Date)
    ensures 0 <= date.mon < 12 && 1 <= date.mday <= 31 && 0 <= date.wday < 7
    ensures 0 <= date.yday < YearLength(date.year)
    ensures date.year == YearOf(d) && date.yday == d - YearStart(date.year) && date.wday == (d + 4) % 7
  {
    var y := YearOf(d);
    YearStartNext(y);
    var yday := d - YearStart(y);
    var mon := MonthOf(Leap(y), yday);
    MonthLengths(Leap(y), mon);
    Date(y, mon, yday - MonthStart(Leap(y), mon) + 1, (d + 4) % 7, yday)
  }

  /** The first day of the month with running number n = 12 * year + month. */
  function MonthFirst(n: int): int {
    YearStart(n / 12) + MonthStart(Leap(n / 12), n % 12)
  }

  /** The day mktime finds for a date; the month may lie outside 0..11, the day outside the month. */
  function DayNumber(year: int, mon: int, mday: int): int {
    MonthFirst(12 * year + mon) + mday - 1
  }

  /** mktime carries months beyond a year and days beyond a month over; day 0 is 1 January 1970. */
  lemma DatesCarryOver(year: int, mon: int, mday: int, n: int)
    ensures DayNumber(year, mon + 12, mday) == DayNumber(year + 1, mon, mday)
    ensures DayNumber(year, mon, mday + n) == DayNumber(year, mon, mday) + n
    ensures DayNumber(1970, 0, 1) == 0
  {
    hide MonthFirst;
    FirstMonth();
  }

  lemma FirstMonth()
    ensures MonthFirst(12 * 1970) == 0
  {
    MonthIndex(1970, 0);
  }

  /** The running number of a month tells year and month. */
  lemma MonthIndex(y: int, m: int)
    requires 0 <= m < 12
    ensures (12 * y + m) / 12 == y && (12 * y + m) % 12 == m
  {
    Division.QuotientIs(12 * y + m, y, m, 12);
  }

  lemma NextMonth(n: int)
    ensures var y, m := n / 12, n % 12;
            0 <= m < 12 && n == 12 * y + m &&
            (n + 1) / 12 == (if m == 11 then y + 1 else y) && (n + 1) % 12 == if m == 11 then 0 else m + 1
  {
    Division.Recomposed(n, 12);
    var y, m := n / 12, n % 12;
    if m == 11 {
      MonthIndex(y + 1, 0);
    } else {
      MonthIndex(y, m + 1);
    }
  }

  lemma MonthFirstIs(y: int, m: int)
    requires 0 <= m < 12
    ensures MonthFirst(12 * y + m) == YearStart(y) + MonthStart(Leap(y), m)
  {
    hide YearStart, MonthStart, Leap;
    MonthIndex(y, m);
  }

  lemma DayNumberOfDate(d: int)
    ensures var t := DateOf(d); DayNumber(t.year, t.mon, t.mday) == d
  {
    hide YearStart, MonthStart, MonthOf, YearOf, MonthFirst, Leap;
    var t := DateOf(d);
    MonthFirstIs(t.year, t.mon);
  }

  lemma MonthFirstNext(n: int)
    ensures 28 <= MonthFirst(n + 1) - MonthFirst(n) <= 31
    ensures YearStart(n / 12) <= MonthFirst(n) < MonthFirst(n + 1) <= YearStart(n / 12 + 1)
  {
    hide YearStart;
    NextMonth(n);
    var y, m := n / 12, n % 12;
    MonthLengths(Leap(y), m);
    YearStartNext(y);
    MonthsWithinYear(Leap(y), m);
  }

  lemma MonthsWithinYear(leap: bool, m: int)
    requires 0 <= m < 12
    ensures 0 <= MonthStart(leap, m) && MonthStart(leap, m + 1) <= (if leap then 366 else 365)
    ensures MonthStart(leap, 0) == 0 && MonthStart(leap, 12) == if leap then 366 else 365
  {
  }

  /** Day d lies in the month with running number n. */
  lemma MonthNumber(d: int, n: int)
    requires MonthFirst(n) <= d < MonthFirst(n + 1)
    ensures var t := DateOf(d);
            12 * t.year + t.mon == n && t.mday == d - MonthFirst(n) + 1
  {
    hide YearStart, MonthStart;
    NextMonth(n);
    var y, m := n / 12, n % 12;
    MonthFirstNext(n);
    YearUnique(d, y);
    YearStartNext(y);
    MonthsWithinYear(Leap(y), m);
    MonthsWithinYear(Leap(y + 1), 0);
    MonthUnique(Leap(y), d - YearStart(y), m);
  }

  lemma MonthOfDate(d: int)
    ensures var t := DateOf(d);
            var n := 12 * t.year + t.mon;
            MonthFirst(n) == d - (t.mday - 1) && MonthFirst(n) <= d < MonthFirst(n + 1)
  {
    hide YearStart, MonthStart;
    var t := DateOf(d);
    var n := 12 * t.year + t.mon;
    MonthIndex(t.year, t.mon);
    NextMonth(n);
    YearStartNext(t.year);
    MonthsWithinYear(Leap(t.year), t.mon);
    MonthsWithinYear(Leap(t.year + 1), 0);
  }

  // ----- ISO weeks -----

  /** The Thursday of the week, Monday to Sunday, that contains day d. */
  function Thursday(d: int): int {
    d + 3 - (d + 3) % 7
  }

  /** The year a week belongs to is the year of its Thursday. */
  function IsoYear(d: int): int {
    YearOf(Thursday(d))
  }

  /** The first calendar week of a year is the one with its first Thursday. */
  function IsoWeek(d: int): int {
    (Thursday(d) - YearStart(IsoYear(d))) / 7 + 1
  }

  /** Equivalently, week 1 is the one that contains 4 January. */
  lemma FirstWeekHasFourthJanuary(d: int)
    ensures Thursday(d) == Thursday(DayNumber(IsoYear(d), 0, 4)) + 7 * (IsoWeek(d) - 1)
    ensures 1 <= IsoWeek(d) <= 53
  {
    hide YearStart;
    var y := IsoYear(d);
    YearStartNext(y);
    FourthJanuary(y);
    var n := Thursday(d) - YearStart(y);
    ThursdayMultiple(d);
    SevenApart(YearStart(y), n);
  }

  lemma FourthJanuary(y: int)
    ensures DayNumber(y, 0, 4) == YearStart(y) + 3
  {
    hide YearStart;
    MonthIndex(y, 0);
  }

  /** The Thursday of a Wednesday is the day after. */
  lemma AfterWednesday(d: int)
    requires (d + 1) % 7 == 0
    ensures Thursday(d) == d + 1
  {
    Division.Recomposed(d + 1, 7);
    Division.QuotientIs(d + 3, (d + 1) / 7, 2, 7);
  }

  lemma WednesdayIs(d: int)
    requires DateOf(d).wday == 3
    ensures (d + 1) % 7 == 0 && Thursday(d) == d + 1
  {
    hide YearStart, YearOf, MonthOf, MonthStart;
    Division.Recomposed(d + 4, 7);
    Division.QuotientIs(d + 1, (d + 4) / 7, 0, 7);
    AfterWednesday(d);
  }

  lemma ThursdayMultiple(d: int)
    ensures Thursday(d) % 7 == 0
  {
    Division.Recomposed(d + 3, 7);
    Division.QuotientIs(Thursday(d), (d + 3) / 7, 0, 7);
  }

  lemma SevenApart(start: int, n: int)
    requires 0 <= n && (start + n) % 7 == 0
    ensures start + n == Thursday(start + 3) + 7 * (n / 7)
  {
    Division.Recomposed(n, 7);
    Division.Recomposed(start + n, 7);
    var r := n % 7;
    Division.QuotientIs(start + 6, (start + n) / 7 - n / 7, 6 - r, 7);
  }
}
