/** Printing and parsing of labels (Timelabel::getString, Timelabel::parse in lib/Timelabel.cc). */
module Labels {
  import opened Calendar
  import opened LocalTime
  import opened Timelabel
  import opened Decimal

  // ----- getString -----

  /** The year that is printed in front of a week number: the year of the day, corrected. */
  function WeekYear(d: int): int {
    var date, w := DateOf(d), IsoWeek(d);
    if date.mon > 6 && w < 26 then date.year + 1
    else if date.mon < 6 && w > 26 then date.year - 1
    else date.year
  }

  function LabelText(z: Zone, tl: Label): string {
    var d := DayAt(z, tl.midtime);
    var tm := BrokenDown(z, tl.midtime);
    var year, mon, mday := Padded(0, tm.year + 1900), Padded(2, tm.mon + 1), Padded(2, tm.mday);
    match tl.level
    case Hour => "h" + year + mon + mday + Padded(2, tm.hour)
    case Day => "d" + year + mon + mday
    case Week => "w" + Padded(4, WeekYear(d)) + Padded(2, IsoWeek(d))
    case Month => "m" + year + mon
    case Year => "y" + year
  }

  /** The year a label shows; labels are made for years of four digits. */
  function ShownYear(z: Zone, tl: Label): int {
    var d := DayAt(z, tl.midtime);
    if tl.level == Week then WeekYear(d) else DateOf(d).year
  }

  // ----- parse -----

  datatype Parsed = Ok(tl: Label) | IllegalLabel | OutOfRange

  function LevelOf(s: string): (l: Climb) {
    if s == [] then CannotClimb
    else if s[0] == 'h' then At(Hour)
    else if s[0] == 'd' then At(Day)
    else if s[0] == 'w' then At(Week)
    else if s[0] == 'm' then At(Month)
    else if s[0] == 'y' then At(Year)
    else CannotClimb
  }

  /** s.substr(pos, n) for pos within s. */
  function Substring(s: string, pos: nat, n: nat): string
    requires pos <= |s|
  {
    if pos + n <= |s| then s[pos..pos + n] else s[pos..]
  }

  /** Noon, standard time, of the day that a week label of (year, week) is first taken for. */
  function WeekDay(year: int, week: int): int {
    var january := YearStart(year);
    var wednesday := january + 10 - (january + 4) % 7;
    wednesday + 7 * (week - IsoWeek(wednesday))
  }

  /** How far a label of this level has to reach for its substrings to exist. */
  function Reach(l: Level): nat {
    match l case Hour => 9 case Day => 7 case Week => 5 case Month => 5 case Year => 1
  }

  /** What parse makes of a label: the period of standard noon (or the hour) of the date it names. */
  function ParsedLabel(z: Zone, s: string): Parsed
    requires Steady(z)
  {
    if LevelOf(s) == CannotClimb then IllegalLabel
    else
      var l := LevelOf(s).level;
      if |s| < Reach(l) then OutOfRange
      else
        var year := Atoi(Substring(s, 1, 4));
        if l == Week then Ok(FromTime(z, StandardNoon(z, WeekDay(year, Atoi(s[5..]))), Week))
        else
          var mon := if l == Year then 0 else Atoi(Substring(s, 5, 2)) - 1;
          var mday := if l == Hour || l == Day then Atoi(Substring(s, 7, 2)) else 14;
          var hour := if l == Hour then Atoi(Substring(s, 9, 2)) else 12;
          Ok(FromTime(z, StandardNoon(z, DayNumber(year, mon, mday)) + HOUR * (hour - 12), l))
  }

  lemma StandardNoonDay(z: Zone, d: int)
    ensures DayAt(z, StandardNoon(z, d)) == d
  {
  }

  lemma NoonOfNewYear(z: Zone, year: int)
    ensures MakeTime(z, Tm(0, 0, 12, 1, 0, year, 0, 0, false)) == StandardNoon(z, YearStart(year + 1900))
  {
    hide YearStart;
    MonthIndex(year + 1900, 0);
  }

  lemma NoonLater(z: Zone, d: int, n: int)
    ensures StandardNoon(z, d) + 86400 * n == StandardNoon(z, d + n)
  {
  }

  lemma NoonWeekday(z: Zone, d: int)
    ensures DayAt(z, StandardNoon(z, d)) == d && BrokenDown(z, StandardNoon(z, d)).wday == DateOf(d).wday
  {
    hide StandardNoon, DayAt, DateOf, SecondAt;
    StandardNoonDay(z, d);
  }

  /** The Wednesday week2time goes to first, and the week it finds there. */
  lemma WeekDayParts(year: int, week: int, wday: int, wednesday: int)
    requires wday == DateOf(YearStart(year)).wday && wednesday == YearStart(year) + (10 - wday)
    ensures WeekDay(year, week) == wednesday + 7 * (week - IsoWeek(wednesday)) && 1 <= IsoWeek(wednesday) <= 53
  {
    hide YearStart, IsoWeek, MonthOf, MonthStart, YearOf;
    FirstWeekHasFourthJanuary(wednesday);
  }

  /** week2time: noon on 1 January, on to a Wednesday, on to the week asked for. */
  method WeekToTime(z: Zone, year: int, week: int) returns (t: int)
    ensures t == StandardNoon(z, WeekDay(year + 1900, week))
  {
    hide YearStart, IsoWeek, DateOf, StandardNoon, MakeTime, BrokenDown, DayAt, Padded, Atoi, WeekDay;
    var tms := Tm(0, 0, 12, 1, 0, year, 0, 0, false);
    t := MakeTime(z, tms);
    ghost var january := YearStart(year + 1900);
    NoonOfNewYear(z, year);
    NoonWeekday(z, january);
    var tmp := BrokenDown(z, t);
    var wday := tmp.wday;
    t := t + 86400 * (10 - wday);
    ghost var wednesday := january + (10 - wday);
    NoonLater(z, january, 10 - wday);
    NoonWeekday(z, wednesday);
    WeekDayParts(year + 1900, week, wday, wednesday);
    var b := Padded(2, IsoWeek(DayAt(z, t)));
    AtoiInvertsPadded(2, IsoWeek(DayAt(z, t)));
    var week0 := Atoi(b);
    NoonLater(z, wednesday, 7 * (week - week0));
    t := t + (week - week0) * 86400 * 7;
  }

  class TimelabelObject {
    const zone: Zone
    var midtime: int
    var level: Level

    ghost predicate Valid()
      reads this
    {
      Steady(zone) && Normalized(zone, Label(level, midtime))
    }

    constructor (z: Zone, t: int, l: Level)
      requires Steady(z)
      ensures zone == z && Label(level, midtime) == FromTime(z, t, l) && Valid()
    {
      hide Normalized, Normalize;
      NormalizedLabel(z, l, t);
      zone := z;
      level := l;
      midtime := Normalize(z, l, t);
    }

    /** parse fills a struct tm field by field; a label it refuses leaves the time as it was. */
    method Parse(labelstring: string) returns (outcome: Parsed)
      requires Valid()
      modifies this
      ensures outcome == ParsedLabel(zone, labelstring)
      ensures outcome.IllegalLabel? <==> labelstring == [] || labelstring[0] !in {'h', 'd', 'w', 'm', 'y'}
      ensures outcome.OutOfRange? <==>
                labelstring != [] &&
                |labelstring| < match labelstring[0]
                                case 'h' => 9
                                case 'd' => 7
                                case 'w' => 5
                                case 'm' => 5
                                case _ => 0
      ensures outcome.Ok? ==> Label(level, midtime) == outcome.tl && Valid()
      ensures !outcome.Ok? ==> midtime == old(midtime)
    {
      hide Atoi, Normalize, Period, Middle, DayNumber, DateOf, WeekDay;
      var tms := Tm(0, 0, 0, 0, 0, 0, 0, 0, false);
      if LevelOf(labelstring) == CannotClimb {
        return IllegalLabel;
      }
      level := LevelOf(labelstring).level;
      tms := tms.(mday := 14, mon := 0, hour := 12, min := 0, sec := 0);
      tms := tms.(year := Atoi(Substring(labelstring, 1, 4)) - 1900);
      if level == Week {
        if |labelstring| < 5 {
          return OutOfRange;
        }
        var week := Atoi(labelstring[5..]);
        var t := WeekToTime(zone, tms.year, week);
        tms := BrokenDown(zone, t);
        MakeTimeInverts(zone, t);
      } else {
        if level == Hour {
          if |labelstring| < 9 {
            return OutOfRange;
          }
          tms := tms.(hour := Atoi(Substring(labelstring, 9, 2)));
        }
        if level == Hour || level == Day {
          if |labelstring| < 7 {
            return OutOfRange;
          }
          tms := tms.(mday := Atoi(Substring(labelstring, 7, 2)));
        }
        if level != Year {
          if |labelstring| < 5 {
            return OutOfRange;
          }
          tms := tms.(mon := Atoi(Substring(labelstring, 5, 2)) - 1);
        }
      }
      var candidate := MakeTime(zone, tms);
      NormalizeIdempotent(zone, level, candidate);
      midtime := Normalize(zone, level, candidate);
      outcome := Ok(Label(level, midtime));
    }
  }
}
