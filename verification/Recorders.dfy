/**
  Recorders that aggregate samples between two minute records (lib/BasicRecorder.cc,
  lib/MinmaxRecorder.cc, lib/RainRecorder.cc). Times are seconds; the clock is read once per update.
 */
module Recorders {

  // ----- time-weighted mean with minimum and maximum -----

  datatype Sample = Sample(v: real, at: real)

  /**
    The fields of a MinmaxRecorder, the first four inherited from BasicRecorder; with nan set, value is
    not a number, because zero was divided by zero.
   */
  datatype Minmax = Minmax(isvalid: bool, start: real, lastupdate: real, value: real, nan: bool, min: real, max: real)

  function AfterReset(s: Minmax, now: real): Minmax {
    s.(isvalid := false, start := now, value := 0.0, nan := false, min := 1000000.0, max := -1000000.0)
  }

  function AfterUpdate(s: Minmax, v: real, now: real): Minmax {
    if s.isvalid then
      AfterMean(s, v, now).(max := if v > s.max then v else s.max, min := if v < s.min then v else s.min)
    else s.(value := v, nan := false, lastupdate := now, isvalid := true, min := v, max := v)
  }

  /** The weighted mean; once it is not a number it stays so. */
  function AfterMean(s: Minmax, v: real, now: real): Minmax {
    var t1, t2 := s.lastupdate - s.start, now - s.lastupdate;
    if s.nan || t1 + t2 == 0.0 then s.(nan := true, lastupdate := now)
    else s.(value := (t1 * s.value + t2 * v) / (t1 + t2), lastupdate := now)
  }

  class MinmaxRecorder {
    var isvalid: bool
    var start: real
    var lastupdate: real
    var value: real
    var nan: bool
    var min: real
    var max: real

    function State(): Minmax
      reads this
    {
      Minmax(isvalid, start, lastupdate, value, nan, min, max)
    }

    constructor (now: real)
      ensures !isvalid && start == now
    {
      isvalid, start, value, nan := false, now, 0.0, false;
      lastupdate, min, max := 0.0, 1000000.0, -1000000.0;
    }

    /** BasicRecorder::update(double) */
    method UpdateMean(v: real, now: real)
      modifies this`isvalid, this`value, this`nan, this`lastupdate
      ensures State() == AfterUpdate(old(State()), v, now).(min := old(min), max := old(max))
    {
      if isvalid {
        var t1 := lastupdate - start;
        var t2 := now - lastupdate;
        if nan || t1 + t2 == 0.0 {
          nan := true;
        } else {
          value := (t1 * value + t2 * v) / (t1 + t2);
        }
        lastupdate := now;
      } else {
        value := v;
        nan := false;
        lastupdate := now;
        isvalid := true;
      }
    }

    /** MinmaxRecorder::update(double) */
    method Update(v: real, now: real)
      modifies this
      ensures State() == AfterUpdate(old(State()), v, now)
    {
      if isvalid {
        if v > max {
          max := v;
        }
        if v < min {
          min := v;
        }
      } else {
        min := v;
        max := v;
      }
      UpdateMean(v, now);
    }

    /** setValue is an update right after a reset, so runs after it are runs of updates. */
    method SetValue(v: real, now: real)
      modifies this
      ensures State() == Minmax(true, now, now, v, false, v, v)
      ensures State() == AfterUpdate(AfterReset(old(State()), now), v, now)
    {
      max := v;
      min := v;
      start := now;
      lastupdate := now;
      value := v;
      nan := false;
      isvalid := true;
    }

    method Reset(now: real)
      modifies this
      ensures State() == AfterReset(old(State()), now)
      ensures !isvalid && start == now
    {
      max := -1000000.0;
      min := 1000000.0;
      isvalid := false;
      value := 0.0;
      nan := false;
      start := now;
    }
  }

  /** The clock never runs backwards; it may stand still between samples. */
  ghost predicate NeverBack(start: real, samples: seq<Sample>) {
    (|samples| > 0 ==> start <= samples[0].at) &&
    (forall i :: 0 < i < |samples| ==> samples[i - 1].at <= samples[i].at)
  }

  /** The time the gap before sample i begins. */
  function GapStart(start: real, samples: seq<Sample>, i: nat): real
    requires i < |samples|
  {
    if i == 0 then start else samples[i - 1].at
  }

  /** The integral of the step function that has each sample's value on the gap the sample closes. */
  function Integral(start: real, samples: seq<Sample>): real {
    if samples == [] then 0.0
    else
      var n := |samples| - 1;
      Integral(start, samples[..n]) + samples[n].v * (samples[n].at - GapStart(start, samples, n))
  }

  /** The recorder after a run of updates. */
  function AfterUpdates(s: Minmax, samples: seq<Sample>): Minmax
    ensures var r := AfterUpdates(s, samples);
            r.start == s.start && (samples != [] ==> r.isvalid && r.lastupdate == samples[|samples| - 1].at)
  {
    if samples == [] then s
    else
      var n := |samples| - 1;
      AfterUpdate(AfterUpdates(s, samples[..n]), samples[n].v, samples[n].at)
  }

  lemma WeightedMean(t1: real, t2: real, a: real, b: real, m: real)
    requires t1 >= 0.0 && t2 >= 0.0 && t1 + t2 > 0.0 && m == (t1 * a + t2 * b) / (t1 + t2)
    ensures m * (t1 + t2) == t1 * a + t2 * b
    ensures a <= m <= b || b <= m <= a
  {
    assert m * (t1 + t2) == t1 * a + t2 * b;
    Between(t1, t2, a, b, m);
  }

  lemma Between(t1: real, t2: real, a: real, b: real, m: real)
    requires t1 >= 0.0 && t2 >= 0.0 && t1 + t2 > 0.0 && m * (t1 + t2) == t1 * a + t2 * b
    ensures a <= m <= b || b <= m <= a
  {
    assert (m - a) * (t1 + t2) == t2 * (b - a);
    assert (b - m) * (t1 + t2) == t1 * (b - a);
    SignOfFactor(m - a, t1 + t2, t2 * (b - a));
    SignOfFactor(b - m, t1 + t2, t1 * (b - a));
    SignOfProduct(t1, b - a);
    SignOfProduct(t2, b - a);
  }

  lemma SignOfProduct(t: real, x: real)
    requires t >= 0.0
    ensures x >= 0.0 ==> t * x >= 0.0
    ensures x <= 0.0 ==> t * x <= 0.0
  {
  }

  lemma SignOfFactor(x: real, t: real, p: real)
    requires t > 0.0 && x * t == p
    ensures p >= 0.0 ==> x >= 0.0
    ensures p <= 0.0 ==> x <= 0.0
  {
    if x > 0.0 {
      assert x * t > 0.0;
    } else if x < 0.0 {
      assert -x * t > 0.0;
    }
  }

  /** value times elapsed time is the integral; min and max are the extreme samples and bracket value. */
  ghost predicate Exact(r: Minmax, samples: seq<Sample>) {
    !r.nan && r.value * (r.lastupdate - r.start) == Integral(r.start, samples) &&
    r.min <= r.value <= r.max &&
    (forall i :: 0 <= i < |samples| ==> r.min <= samples[i].v <= r.max) &&
    (exists i :: 0 <= i < |samples| && samples[i].v == r.min) &&
    (exists i :: 0 <= i < |samples| && samples[i].v == r.max)
  }

  /** The second sample comes at the very start: no time has elapsed when the mean is first taken. */
  predicate NoTimeElapsed(start: real, samples: seq<Sample>) {
    |samples| > 1 && samples[1].at == start
  }

  /**
    After any run the value is the exact mean of the step function, bracketed by min and max, exactly
    unless no time has elapsed at the second sample.
   */
  lemma ExactMean(s: Minmax, samples: seq<Sample>)
    requires !s.isvalid && NeverBack(s.start, samples) && samples != []
    ensures Exact(AfterUpdates(s, samples), samples) <==> !NoTimeElapsed(s.start, samples)
  {
    hide AfterUpdates, NeverBack;
    NumberExactly(s, samples);
    if !NoTimeElapsed(s.start, samples) {
      ExactWhenElapsed(s, samples);
    }
  }

  lemma {:induction false} ExactWhenElapsed(s: Minmax, samples: seq<Sample>)
    requires !s.isvalid && NeverBack(s.start, samples) && samples != [] && !NoTimeElapsed(s.start, samples)
    ensures Exact(AfterUpdates(s, samples), samples)
  {
    hide Exact, AfterUpdate;
    var n := |samples| - 1;
    if n == 0 {
      ExactFirst(s, samples[0]);
      assert samples == [samples[0]] && samples[..0] == [];
    } else {
      var before, last := samples[..n], samples[n];
      ExactWhenElapsed(s, before);
      NotBefore(samples, 0, n - 1);
      NotBefore(samples, 1, n);
      ExactNext(AfterUpdates(s, before), before, last);
      assert samples == before + [last];
    }
  }

  lemma ExactFirst(s: Minmax, first: Sample)
    requires !s.isvalid && s.start <= first.at
    ensures Exact(AfterUpdate(s, first.v, first.at), [first])
  {
    var r := AfterUpdate(s, first.v, first.at);
    assert [first][..0] == [] && Integral(s.start, []) == 0.0;
    assert [first][0].v == r.min == r.max;
  }

  lemma IntegralNext(start: real, before: seq<Sample>, last: Sample)
    requires before != []
    ensures Integral(start, before + [last]) ==
            Integral(start, before) + last.v * (last.at - before[|before| - 1].at)
  {
    assert (before + [last])[..|before|] == before;
  }

  lemma ExactNext(q: Minmax, before: seq<Sample>, last: Sample)
    requires q.isvalid && before != [] && Exact(q, before)
    requires q.start <= q.lastupdate == before[|before| - 1].at <= last.at && q.start < last.at
    ensures Exact(AfterUpdate(q, last.v, last.at), before + [last])
  {
    hide AfterUpdate, Integral;
    var samples := before + [last];
    var r := AfterUpdate(q, last.v, last.at);
    MeanStep(q, last.v, last.at);
    IntegralNext(q.start, before, last);
    var i :| 0 <= i < |before| && before[i].v == q.min;
    var j :| 0 <= j < |before| && before[j].v == q.max;
    assert samples[i].v == q.min && samples[j].v == q.max && samples[|before|].v == last.v;
    forall k | 0 <= k < |samples| ensures r.min <= samples[k].v <= r.max {
      if k < |before| {
        assert samples[k] == before[k];
      }
    }
  }

  /** The value is not a number exactly when no time has elapsed at the second sample. */
  lemma {:induction false} NumberExactly(s: Minmax, samples: seq<Sample>)
    requires !s.isvalid && samples != [] && NeverBack(s.start, samples)
    ensures AfterUpdates(s, samples).nan <==> NoTimeElapsed(s.start, samples)
  {
    hide AfterUpdate;
    var n := |samples| - 1;
    var before := samples[..n];
    if n == 0 {
      NanNext(AfterUpdates(s, before), samples[0]);
    } else {
      NumberExactly(s, before);
      NanNext(AfterUpdates(s, before), samples[n]);
      if n > 1 {
        NotBefore(samples, 1, n);
      }
    }
  }

  /** Two samples right after a reset, at one clock reading. */
  lemma NoNumber(v: real, w: real, now: real)
    ensures var s := AfterReset(Minmax(true, 0.0, 0.0, 0.0, false, 0.0, 0.0), now);
            AfterUpdates(s, [Sample(v, now), Sample(w, now)]).nan
  {
    NumberExactly(AfterReset(Minmax(true, 0.0, 0.0, 0.0, false, 0.0, 0.0), now), [Sample(v, now), Sample(w, now)]);
  }

  lemma NanNext(q: Minmax, last: Sample)
    ensures AfterUpdate(q, last.v, last.at).nan <==> q.isvalid && (q.nan || last.at == q.start)
  {
  }

  lemma {:induction false} NotBefore(samples: seq<Sample>, i: nat, j: nat)
    requires i <= j < |samples| && forall k :: 0 < k < |samples| ==> samples[k - 1].at <= samples[k].at
    ensures samples[i].at <= samples[j].at
  {
    if i < j {
      NotBefore(samples, i, j - 1);
    }
  }

  /** One update adds the sample times the gap to value times elapsed time, and keeps the bracket. */
  lemma MeanStep(q: Minmax, v: real, now: real)
    requires q.isvalid && !q.nan && q.start <= q.lastupdate <= now && q.start < now && q.min <= q.value <= q.max
    ensures var r := AfterUpdate(q, v, now);
            r.value * (now - q.start) == q.value * (q.lastupdate - q.start) + v * (now - q.lastupdate) &&
            r.min <= r.value <= r.max && r.min <= q.min && r.max >= q.max && r.min <= v <= r.max &&
            (r.min == q.min || r.min == v) && (r.max == q.max || r.max == v) &&
            r.start == q.start && r.lastupdate == now && !r.nan
  {
    var t1, t2 := q.lastupdate - q.start, now - q.lastupdate;
    var m := (t1 * q.value + t2 * v) / (t1 + t2);
    WeightedMean(t1, t2, q.value, v, m);
    MeanIs(q, v, now, t1, t2, m);
    Bracketed(q, v, now, m);
  }

  lemma MeanIs(q: Minmax, v: real, now: real, t1: real, t2: real, m: real)
    requires q.isvalid && !q.nan && t1 == q.lastupdate - q.start && t2 == now - q.lastupdate && t1 + t2 > 0.0
    requires m == (t1 * q.value + t2 * v) / (t1 + t2)
    ensures var r := AfterUpdate(q, v, now); r.value == m && !r.nan
  {
  }

  lemma Bracketed(q: Minmax, v: real, now: real, m: real)
    requires q.isvalid && q.min <= q.value <= q.max && (q.value <= m <= v || v <= m <= q.value)
    ensures var r := AfterUpdate(q, v, now);
            r.min <= m <= r.max && r.min <= q.min && r.max >= q.max && r.min <= v <= r.max &&
            (r.min == q.min || r.min == v) && (r.max == q.max || r.max == v) &&
            r.start == q.start && r.lastupdate == now
  {
    hide AfterMean;
    assert AfterMean(q, v, now).lastupdate == now && AfterMean(q, v, now).start == q.start by {
      MeanTimes(q, v, now);
    }
  }

  lemma MeanTimes(q: Minmax, v: real, now: real)
    ensures var r := AfterMean(q, v, now); r.lastupdate == now && r.start == q.start
  {
  }

  // ----- rain -----

  datatype OutletRow = OutletRow(fieldid: int, value: real)

  datatype Rain = Rain(isvalid: bool, value: real, startvalue: real)

  function AfterReading(s: Rain, rain: real): Rain {
    var start := if s.isvalid then s.startvalue else rain;
    Rain(true, rain, if rain < s.value then -(s.value - start) else start)
  }

  function AfterRainReset(s: Rain): Rain {
    s.(startvalue := if s.isvalid then s.value else 0.0)
  }

  class RainRecorder {
    var isvalid: bool
    var value: real
    var startvalue: real

    function State(): Rain
      reads this
    {
      Rain(isvalid, value, startvalue)
    }

    constructor (v: real)
      ensures State() == Rain(false, 0.0, v)
    {
      isvalid, value, startvalue := false, 0.0, v;
    }

    method Update(rain: real)
      modifies this
      ensures State() == AfterReading(old(State()), rain)
    {
      if !isvalid {
        startvalue := rain;
      }
      if rain < value {
        var rainsofar := value - startvalue;
        startvalue := -rainsofar;
      }
      value := rain;
      isvalid := true;
    }

    method Reset()
      modifies this
      ensures State() == AfterRainReset(old(State()))
      ensures startvalue == if isvalid then value else 0.0
    {
      if isvalid {
        startvalue := value;
      } else {
        startvalue := 0.0;
      }
    }

    /** sendOutlet: the rain since the last reset, unless it is zero, and the counter. */
    method SendOutlet(fieldid: int) returns (rows: seq<OutletRow>)
      ensures rows == Rows(State(), fieldid)
    {
      rows := [];
      if !isvalid {
        return;
      }
      if value - startvalue > 0.0 {
        rows := rows + [OutletRow(fieldid, value - startvalue)];
      }
      rows := rows + [OutletRow(fieldid + 1, value)];
    }
  }

  function Rows(s: Rain, fieldid: int): seq<OutletRow> {
    if !s.isvalid then []
    else (if s.value - s.startvalue > 0.0 then [OutletRow(fieldid, s.value - s.startvalue)] else [])
         + [OutletRow(fieldid + 1, s.value)]
  }

  /** What the rows of a field add up to. */
  function RowSum(rows: seq<OutletRow>, fieldid: int): real {
    if rows == [] then 0.0
    else (if rows[0].fieldid == fieldid then rows[0].value else 0.0) + RowSum(rows[1..], fieldid)
  }

  /** A reading of the rain counter, or the end of a minute: send, then reset. */
  datatype RainEvent = Reading(rain: real) | Minute

  /** The recorder after some events, and the rain that has been sent. */
  datatype RainState = RainState(recorder: Rain, sent: real)

  function RainStep(r: RainState, event: RainEvent, fieldid: int): RainState {
    match event
    case Reading(rain) => r.(recorder := AfterReading(r.recorder, rain))
    case Minute =>
      RainState(AfterRainReset(r.recorder), r.sent + RowSum(Rows(r.recorder, fieldid), fieldid))
  }

  function RainRun(v: real, events: seq<RainEvent>, fieldid: int): RainState {
    if events == [] then RainState(Rain(false, 0.0, v), 0.0)
    else RainStep(RainRun(v, events[..|events| - 1], fieldid), events[|events| - 1], fieldid)
  }

  datatype Last = Nothing | Last(rain: real)

  /** The last reading among some events. */
  function LastReading(events: seq<RainEvent>): Last {
    if events == [] then Nothing
    else
      match events[|events| - 1]
      case Reading(rain) => Last(rain)
      case Minute => LastReading(events[..|events| - 1])
  }

  /** The rain between two readings: new minus old, or all of new after the counter dropped. */
  function Increment(last: Last, event: RainEvent): real {
    if last.Nothing? || event.Minute? then 0.0
    else if event.rain < last.rain then event.rain else event.rain - last.rain
  }

  function Fallen(events: seq<RainEvent>): real {
    if events == [] then 0.0
    else
      var n := |events| - 1;
      Fallen(events[..n]) + Increment(LastReading(events[..n]), events[n])
  }

  ghost predicate Nonnegative(events: seq<RainEvent>) {
    forall i :: 0 <= i < |events| && events[i].Reading? ==> events[i].rain >= 0.0
  }

  lemma RowsSum(s: Rain, fieldid: int)
    requires s.isvalid ==> s.value >= s.startvalue
    ensures RowSum(Rows(s, fieldid), fieldid) == if s.isvalid then s.value - s.startvalue else 0.0
  {
    var rows := Rows(s, fieldid);
    if s.isvalid {
      var tail := [OutletRow(fieldid + 1, s.value)];
      assert tail[1..] == [] && RowSum(tail, fieldid) == 0.0;
      if s.value - s.startvalue > 0.0 {
        assert rows[1..] == tail;
      } else {
        assert rows == tail;
      }
    }
  }

  /** The rain getValue would return. */
  function HeldRain(r: Rain): real {
    if r.isvalid then r.value - r.startvalue else 0.0
  }

  /** Rain sent plus rain held is the rain fallen, and the rain held is never negative. */
  lemma {:induction false} RainConserved(v: real, events: seq<RainEvent>, fieldid: int)
    requires Nonnegative(events)
    ensures var r := RainRun(v, events, fieldid);
            r.sent + HeldRain(r.recorder) == Fallen(events) && HeldRain(r.recorder) >= 0.0
    ensures var r := RainRun(v, events, fieldid).recorder;
            r.value >= 0.0 &&
            if r.isvalid then LastReading(events) == Last(r.value) else LastReading(events) == Nothing && r.value == 0.0
  {
    if events != [] {
      var n := |events| - 1;
      RainConserved(v, events[..n], fieldid);
      var r := RainRun(v, events[..n], fieldid);
      RowsSum(r.recorder, fieldid);
      assert events[n].Reading? ==> events[n].rain >= 0.0;
    }
  }

  /** The recorder has a value exactly when there was a reading, and then it is the last one. */
  lemma {:induction false} HoldsLastReading(v: real, events: seq<RainEvent>, fieldid: int)
    ensures var r := RainRun(v, events, fieldid).recorder;
            LastReading(events) == if r.isvalid then Last(r.value) else Nothing
  {
    if events != [] {
      HoldsLastReading(v, events[..|events| - 1], fieldid);
    }
  }

  /**
    What the end of a minute sends: nothing before the first reading, and then the rain held, if there
    is some, followed by the last reading as the counter, under the next field.
   */
  lemma MinuteRows(v: real, events: seq<RainEvent>, fieldid: int)
    ensures var r := RainRun(v, events, fieldid).recorder;
            var rows, held := Rows(r, fieldid), HeldRain(r);
            match LastReading(events)
            case Nothing => rows == []
            case Last(rain) =>
              if held > 0.0 then rows == [OutletRow(fieldid, held), OutletRow(fieldid + 1, rain)]
              else rows == [OutletRow(fieldid + 1, rain)]
  {
    hide RainRun, LastReading;
    HoldsLastReading(v, events, fieldid);
  }
}
