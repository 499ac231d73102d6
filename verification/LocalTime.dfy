/**
  localtime and mktime over a local offset that takes two values one hour apart. The only assumption
  about when the clocks change is that they never change between the two moments that can be the
  noon of one day.
 */
module LocalTime {
  import Division
  import opened Calendar

  /** Seconds east of Greenwich in standard time, and the moments when summer time is in force. */
  datatype Zone = Zone(base: int, summer: int -> bool)

  const DAY := 86400
  const HOUR := 3600

  function Offset(z: Zone, t: int): int {
    z.base + if z.summer(t) then HOUR else 0
  }

  function DayAt(z: Zone, t: int): int {
    (t + Offset(z, t)) / DAY
  }

  function SecondAt(z: Zone, t: int): int {
    (t + Offset(z, t)) % DAY
  }

  /** Noon of day d by standard time. */
  function StandardNoon(z: Zone, d: int): int {
    DAY * d + 12 * HOUR - z.base
  }

  ghost predicate Steady(z: Zone) {
    forall d :: z.summer(StandardNoon(z, d)) == z.summer(StandardNoon(z, d) - HOUR)
  }

  /** Noon of day d by the local clock. */
  function Noon(z: Zone, d: int): int {
    StandardNoon(z, d) - if z.summer(StandardNoon(z, d)) then HOUR else 0
  }

  lemma NoonIsNoon(z: Zone, d: int)
    requires Steady(z)
    ensures DayAt(z, Noon(z, d)) == d && SecondAt(z, Noon(z, d)) == 12 * HOUR
    ensures Offset(z, Noon(z, d)) == DAY * d + 12 * HOUR - Noon(z, d)
  {
  }

  /** struct tm: months from 0, years from 1900. */
  datatype Tm = Tm(sec: int, min: int, hour: int, mday: int, mon: int, year: int,
                   wday: int, yday: int, isdst: bool)

  function BrokenDown(z: Zone, t: int): Tm {
    var s := SecondAt(z, t);
    var date := DateOf(DayAt(z, t));
    Tm(s % 60, s / 60 % 60, s / HOUR, date.mday, date.mon, date.year - 1900, date.wday, date.yday,
       z.summer(t))
  }

  /** mktime reads the fields as standard or as summer time, whichever tm_isdst says. */
  function MakeTime(z: Zone, tm: Tm): int {
    DAY * DayNumber(tm.year + 1900, tm.mon, tm.mday) + HOUR * tm.hour + 60 * tm.min + tm.sec
    - z.base - if tm.isdst then HOUR else 0
  }

  lemma SecondsRecomposed(s: int)
    requires 0 <= s
    ensures HOUR * (s / HOUR) + 60 * (s / 60 % 60) + s % 60 == s
    ensures 60 * (s / 60 % 60) + s % 60 == s % HOUR
  {
    var m := s / 60;
    Division.Recomposed(s, 60);
    Division.Recomposed(m, 60);
    Division.QuotientIs(s, m / 60, 60 * (m % 60) + s % 60, 3600);
  }

  /** The second of the hour, from the second of the day. */
  lemma SecondOfHour(c: int)
    ensures c % DAY % HOUR == c % HOUR
  {
    Division.Recomposed(c, 86400);
    var s := c % 86400;
    Division.Recomposed(s, 3600);
    Division.QuotientIs(c, 24 * (c / 86400) + s / 3600, s % 3600, 3600);
  }

  lemma MakeTimeInverts(z: Zone, t: int)
    ensures MakeTime(z, BrokenDown(z, t)) == t
  {
    hide DateOf, DayNumber;
    DayNumberOfDate(DayAt(z, t));
    SecondsRecomposed(SecondAt(z, t));
  }
}
