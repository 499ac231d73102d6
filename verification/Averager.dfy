/** Averages over the longer intervals, computed from the minute records (lib/Averager.cc). */
module Averager {
  import Division
  import Series
  import opened Wind

  /** groupinfo: the group of a time key covers the times from its beginning to its end, both included. */
  datatype Group = Group(timekey: int, from: int, to: int)

  function GroupOf(timekey: int, interval: int, offset: int): Group
    requires interval > 0
  {
    var tk := Series.Aligned(timekey, interval);
    Group(tk, tk - offset, tk - offset + interval)
  }

  predicate InWindow(g: Group, t: int) {
    g.from <= t <= g.to
  }

  /** add refuses a time key that is no multiple of the interval; legal keys are their group's key. */
  predicate Legal(timekey: int, interval: int)
    requires interval > 0
  {
    Series.Remainder(timekey, interval) == 0
  }

  lemma LegalKeys(timekey: int, interval: int, offset: int)
    requires interval > 0
    ensures Legal(timekey, interval) <==> GroupOf(timekey, interval, offset).timekey == timekey
    ensures Legal(timekey, interval) <==> timekey % interval == 0
  {
    if timekey < 0 {
      Division.Negated(timekey, interval);
    }
  }

  lemma AlignedIs(timekey: int, interval: int)
    requires interval > 0 && (timekey >= 0 || Legal(timekey, interval))
    ensures Series.Aligned(timekey, interval) == (timekey / interval) * interval
  {
    LegalKeys(timekey, interval, 0);
    Division.Recomposed(timekey, interval);
  }

  /**
    Counted in local time, the times of a group are those with the group number of its key, and besides
    them the one with which the next group begins.
   */
  lemma GroupNumber(timekey: int, interval: int, offset: int, t: int)
    requires interval > 0 && (timekey >= 0 || Legal(timekey, interval))
    ensures InWindow(GroupOf(timekey, interval, offset), t) <==>
            (t + offset) / interval == timekey / interval || t + offset == (timekey / interval + 1) * interval
  {
    hide Series.Aligned;
    var q := timekey / interval;
    AlignedIs(timekey, interval);
    NumberedFrom(t + offset, q, interval);
  }

  lemma NumberedFrom(u: int, q: int, n: int)
    requires n > 0
    ensures q * n <= u <= q * n + n <==> u / n == q || u == (q + 1) * n
  {
    assert (q + 1) * n == q * n + n;
    Division.Recomposed(u, n);
    if q * n <= u < q * n + n {
      Division.QuotientIs(u, q, u - q * n, n);
    }
  }

  /** Adjacent groups share exactly the minute on their common boundary. */
  lemma BoundaryInBoth(timekey: int, interval: int, offset: int, t: int)
    requires interval > 0 && timekey >= 0 && Legal(timekey, interval)
    ensures var g, h := GroupOf(timekey, interval, offset), GroupOf(timekey + interval, interval, offset);
            InWindow(g, t) && InWindow(h, t) <==> t == g.to
  {
    Division.AddMultiple(timekey, 1, interval);
  }

  // ----- the wind query -----

  datatype WindSums = WindSums(run: Vec, duration: real, samples: int)

  /** The sums the database returns for the minutes in a window. */
  function SumsIn(rows: seq<MinuteRow>, g: Group): WindSums {
    if rows == [] then WindSums(Vec(0.0, 0.0), 0.0, 0)
    else
      var r, s := rows[|rows| - 1], SumsIn(rows[..|rows| - 1], g);
      if InWindow(g, r.timekey) then WindSums(Add(s.run, r.run), s.duration + r.duration, s.samples + r.samples)
      else s
  }

  /**
    The four rows addWind inserts for one group: direction and speed, which are those of v, duration
    and samples.
   */
  datatype WindAverage = WindAverage(timekey: int, interval: int, v: Vec, duration: real, samples: int)

  /** addWind over the result of the query, which is a single row of sums; it returns the rows inserted. */
  method AddWind(sdata: seq<MinuteRow>, timekey: int, interval: int, offset: int)
      returns (rows: seq<WindAverage>, inserted: int)
    requires interval > 0
    ensures inserted == 4 * |rows|
    ensures var s := SumsIn(sdata, GroupOf(timekey, interval, offset));
            if s.duration > 0.0
            then |rows| == 1 && rows[0].timekey == timekey && rows[0].interval == interval &&
                 rows[0].duration == s.duration && rows[0].samples == s.samples &&
                 Scale(s.duration, rows[0].v) == s.run
            else rows == []
  {
    rows, inserted := [], 0;
    var bqr := [SumsIn(sdata, GroupOf(timekey, interval, offset))];
    ghost var s := bqr[0];
    for i := 0 to |bqr|
      invariant rows == [] || |rows| == 1
      invariant inserted == 4 * |rows|
      invariant i == 0 ==> rows == []
      invariant i == 1 && s.duration <= 0.0 ==> rows == []
      invariant i == 1 && s.duration > 0.0 ==>
                  |rows| == 1 && rows[0].timekey == timekey && rows[0].interval == interval &&
                  rows[0].duration == s.duration && rows[0].samples == s.samples &&
                  Scale(s.duration, rows[0].v) == s.run
    {
      var duration := bqr[i].duration;
      if duration > 0.0 {
        var v := Vec(bqr[i].run.x / duration, bqr[i].run.y / duration);
        assert duration * v.x == bqr[i].run.x && duration * v.y == bqr[i].run.y;
        rows := rows + [WindAverage(timekey, interval, v, duration, bqr[i].samples)];
        inserted := inserted + 4;
      }
    }
  }

  // ----- both levels together -----

  /** A minute of the recorder: reset at start, fed some samples, sent under a time key. */
  datatype Minute = Minute(timekey: int, start: real, samples: seq<WindSample>)

  ghost predicate Measured(minutes: seq<Minute>) {
    forall i :: 0 <= i < |minutes| ==> NeverBack(minutes[i].start, minutes[i].samples)
  }

  function Fresh(start: real): WindState {
    WindState(false, start, 0.0, Vec(0.0, 0.0), Vec(0.0, 0.0), 0)
  }

  /** The rows the recorder sends for a run of minutes. */
  function RowsOf(minutes: seq<Minute>): seq<MinuteRow> {
    if minutes == [] then []
    else
      var m := minutes[|minutes| - 1];
      RowsOf(minutes[..|minutes| - 1]) + SentBy(m)
  }

  /** The time from the reset to the last sample. */
  function Elapsed(m: Minute): real {
    if m.samples == [] then 0.0 else m.samples[|m.samples| - 1].at - m.start
  }

  /** What the minutes in a window have kept of their wind run. */
  function KeptIn(minutes: seq<Minute>, g: Group): Vec {
    if minutes == [] then Vec(0.0, 0.0)
    else
      var m, before := minutes[|minutes| - 1], KeptIn(minutes[..|minutes| - 1], g);
      if InWindow(g, m.timekey) then Add(before, Kept(m.start, m.samples)) else before
  }

  /** All wind run, and all time, of the minutes in a window. */
  function RunIn(minutes: seq<Minute>, g: Group): Vec {
    if minutes == [] then Vec(0.0, 0.0)
    else
      var m, before := minutes[|minutes| - 1], RunIn(minutes[..|minutes| - 1], g);
      if InWindow(g, m.timekey) then Add(before, WindRun(m.start, m.samples)) else before
  }

  /** The samples a minute counts: all but the first. */
  function Counted(m: Minute): int {
    if m.samples == [] then 0 else |m.samples| - 1
  }

  function CountIn(minutes: seq<Minute>, g: Group): int {
    if minutes == [] then 0
    else
      CountIn(minutes[..|minutes| - 1], g) +
      (if InWindow(g, minutes[|minutes| - 1].timekey) then Counted(minutes[|minutes| - 1]) else 0)
  }

  function TimeIn(minutes: seq<Minute>, g: Group): real {
    if minutes == [] then 0.0
    else
      TimeIn(minutes[..|minutes| - 1], g) +
      (if InWindow(g, minutes[|minutes| - 1].timekey) then Elapsed(minutes[|minutes| - 1]) else 0.0)
  }

  lemma SumsOfOneMore(rows: seq<MinuteRow>, r: MinuteRow, g: Group)
    ensures var s := SumsIn(rows, g);
            SumsIn(rows + [r], g) ==
            if InWindow(g, r.timekey) then WindSums(Add(s.run, r.run), s.duration + r.duration, s.samples + r.samples)
            else s
  {
    assert (rows + [r])[..|rows|] == rows;
  }

  lemma {:induction false} SumsOfMinutes(minutes: seq<Minute>, g: Group)
    requires Measured(minutes)
    ensures SumsIn(RowsOf(minutes), g).run == KeptIn(minutes, g)
    ensures SumsIn(RowsOf(minutes), g).duration == TimeIn(minutes, g)
    ensures SumsIn(RowsOf(minutes), g).samples == CountIn(minutes, g)
  {
    hide SentBy, Kept, Elapsed, Counted, NeverBack, SumsIn, Add;
    if minutes == [] {
      NothingSummed(g);
    } else {
      var n := |minutes| - 1;
      SumsOfMinutes(minutes[..n], g);
      SumsOfOneMinute(RowsOf(minutes[..n]), minutes[n], g);
    }
  }

  lemma NothingSummed(g: Group)
    ensures SumsIn([], g) == WindSums(Vec(0.0, 0.0), 0.0, 0)
  {
  }

  /** When every minute in the window has kept its run, so has the window. */
  lemma {:induction false} WindowKeeps(minutes: seq<Minute>, g: Group)
    requires forall i :: 0 <= i < |minutes| && InWindow(g, minutes[i].timekey) ==>
               KeepsRun(minutes[i].start, minutes[i].samples)
    ensures KeptIn(minutes, g) == RunIn(minutes, g)
  {
    hide Kept, KeepsRun, WindRun, Add;
    if minutes != [] {
      var n := |minutes| - 1;
      WindowKeeps(minutes[..n], g);
      KeptExactly(minutes[n].start, minutes[n].samples);
    }
  }

  function SentBy(m: Minute): seq<MinuteRow> {
    Sent(AfterUpdates(Fresh(m.start), m.samples), m.timekey)
  }

  /** A minute sends nothing, or one row with what it has kept of its wind run, its duration and its samples. */
  lemma SentConserves(m: Minute)
    requires NeverBack(m.start, m.samples)
    ensures if m.samples == []
            then SentBy(m) == [] && Kept(m.start, m.samples) == Vec(0.0, 0.0)
            else |SentBy(m)| == 1 && SentBy(m)[0].timekey == m.timekey &&
                 SentBy(m)[0].run == Kept(m.start, m.samples) && SentBy(m)[0].duration == Elapsed(m) &&
                 SentBy(m)[0].samples == Counted(m)
  {
    hide AfterUpdate, Scale, KeepsRun, WindRun, Square;
    TimesOfRun(Fresh(m.start), m.samples);
    if m.samples != [] {
      MinuteConserved(Fresh(m.start), m.samples);
      GustIsLongest(Fresh(m.start), m.samples);
    }
  }

  lemma SumsOfOneMinute(rows: seq<MinuteRow>, m: Minute, g: Group)
    requires NeverBack(m.start, m.samples)
    ensures var s, t := SumsIn(rows, g), SumsIn(rows + SentBy(m), g);
            if InWindow(g, m.timekey)
            then t.run == Add(s.run, Kept(m.start, m.samples)) && t.duration == s.duration + Elapsed(m) &&
                 t.samples == s.samples + Counted(m)
            else t == s
  {
    hide Kept, SentBy, NeverBack, SumsIn, Counted, Elapsed;
    SentConserves(m);
    if m.samples == [] {
      assert rows + SentBy(m) == rows;
      NothingElapsed(m);
    } else {
      assert SentBy(m) == [SentBy(m)[0]];
      SumsOfOneMore(rows, SentBy(m)[0], g);
    }
  }

  lemma NothingElapsed(m: Minute)
    requires m.samples == []
    ensures Elapsed(m) == 0.0 && Counted(m) == 0
    ensures forall a: Vec :: Add(a, Vec(0.0, 0.0)) == a
  {
  }

  /**
    The average of a window: its vector times the time of the window is what the minutes have kept of
    their wind run.
   */
  method AverageOfMinutes(minutes: seq<Minute>, timekey: int, interval: int, offset: int)
      returns (rows: seq<WindAverage>, inserted: int)
    requires interval > 0 && Measured(minutes)
    ensures inserted == 4 * |rows|
    ensures var g := GroupOf(timekey, interval, offset);
            if TimeIn(minutes, g) > 0.0
            then |rows| == 1 && rows[0].timekey == timekey && rows[0].interval == interval &&
                 rows[0].duration == TimeIn(minutes, g) && rows[0].samples == CountIn(minutes, g) &&
                 Scale(TimeIn(minutes, g), rows[0].v) == KeptIn(minutes, g)
            else rows == []
  {
    SumsOfMinutes(minutes, GroupOf(timekey, interval, offset));
    rows, inserted := AddWind(RowsOf(minutes), timekey, interval, offset);
  }

  // ----- one recorder over many minutes -----

  /** A wind, or the end of a minute: send under a time key, then reset. */
  datatype WindEvent = Gust(v: Vec, at: real) | MinuteEnd(timekey: int, at: real)

  /** The recorder after some events, and the rows that have been sent. */
  datatype Stream = Stream(recorder: WindState, rows: seq<MinuteRow>)

  function StreamStep(s: Stream, e: WindEvent): Stream {
    match e
    case Gust(v, now) => s.(recorder := AfterUpdate(s.recorder, v, now))
    case MinuteEnd(timekey, now) => Stream(AfterReset(s.recorder, now), s.rows + Sent(s.recorder, timekey))
  }

  function StreamRun(s: WindState, events: seq<WindEvent>): Stream {
    if events == [] then Stream(s, [])
    else StreamStep(StreamRun(s, events[..|events| - 1]), events[|events| - 1])
  }

  /** The events cut at the minute ends: the minutes that are over, and the one that has begun. */
  datatype Parts = Parts(over: seq<Minute>, start: real, samples: seq<WindSample>)

  function PartsOf(start: real, events: seq<WindEvent>): Parts {
    if events == [] then Parts([], start, [])
    else
      var p := PartsOf(start, events[..|events| - 1]);
      match events[|events| - 1]
      case Gust(v, now) => p.(samples := p.samples + [WindSample(v, now)])
      case MinuteEnd(timekey, now) => Parts(p.over + [Minute(timekey, p.start, p.samples)], now, [])
  }

  /** Recorders that behave alike: an update without a value does not look at the time of the last one. */
  predicate Alike(q: WindState, r: WindState) {
    q.(lastupdate := 0.0) == r.(lastupdate := 0.0) && (q.isvalid ==> q == r)
  }

  /** Whatever the recorder held before the reset, it sends the rows of the minutes between the resets. */
  lemma {:induction false} StreamSends(s: WindState, now: real, events: seq<WindEvent>)
    ensures var r, p := StreamRun(AfterReset(s, now), events), PartsOf(now, events);
            r.rows == RowsOf(p.over) && Alike(r.recorder, AfterUpdates(Fresh(p.start), p.samples))
  {
    hide AfterUpdate, Sent, Alike;
    if events == [] {
      ResetIsFresh(s, now);
    } else {
      var n := |events| - 1;
      var r, p := StreamRun(AfterReset(s, now), events[..n]), PartsOf(now, events[..n]);
      StreamSends(s, now, events[..n]);
      var q := AfterUpdates(Fresh(p.start), p.samples);
      match events[n]
      case Gust(v, at) =>
        AlikeNext(r.recorder, q, v, at);
        assert (p.samples + [WindSample(v, at)])[..|p.samples|] == p.samples;
      case MinuteEnd(timekey, at) =>
        var m := Minute(timekey, p.start, p.samples);
        AlikeSent(r.recorder, q, timekey);
        ResetIsFresh(r.recorder, at);
        assert (p.over + [m])[..|p.over|] == p.over;
    }
  }

  lemma ResetIsFresh(s: WindState, now: real)
    ensures Alike(AfterReset(s, now), AfterUpdates(Fresh(now), []))
  {
  }

  lemma AlikeNext(q: WindState, r: WindState, v: Vec, now: real)
    requires Alike(q, r)
    ensures Alike(AfterUpdate(q, v, now), AfterUpdate(r, v, now))
  {
  }

  lemma AlikeSent(q: WindState, r: WindState, timekey: int)
    requires Alike(q, r)
    ensures Sent(q, timekey) == Sent(r, timekey)
  {
  }

  /** The times at which the minutes begin: the first reset, and every minute end. */
  function Resets(start: real, events: seq<WindEvent>): seq<real> {
    if events == [] then [start]
    else
      var before, e := Resets(start, events[..|events| - 1]), events[|events| - 1];
      if e.MinuteEnd? then before + [e.at] else before
  }

  /** All samples, in their order. */
  function Samples(events: seq<WindEvent>): seq<WindSample> {
    if events == [] then []
    else
      var before, e := Samples(events[..|events| - 1]), events[|events| - 1];
      if e.Gust? then before + [WindSample(e.v, e.at)] else before
  }

  function SamplesOf(minutes: seq<Minute>): seq<WindSample> {
    if minutes == [] then [] else SamplesOf(minutes[..|minutes| - 1]) + minutes[|minutes| - 1].samples
  }

  /** The minutes begin at the resets, and every sample is in exactly one of them. */
  lemma {:induction false} PartsAreMinutes(start: real, events: seq<WindEvent>)
    ensures var p, resets := PartsOf(start, events), Resets(start, events);
            |resets| == |p.over| + 1 && p.start == resets[|p.over|] &&
            (forall i :: 0 <= i < |p.over| ==> p.over[i].start == resets[i]) &&
            SamplesOf(p.over) + p.samples == Samples(events)
  {
    if events != [] {
      var n := |events| - 1;
      PartsAreMinutes(start, events[..n]);
      var p := PartsOf(start, events[..n]);
      match events[n]
      case Gust(v, at) =>
        assert SamplesOf(p.over) + (p.samples + [WindSample(v, at)]) ==
               (SamplesOf(p.over) + p.samples) + [WindSample(v, at)];
      case MinuteEnd(timekey, at) =>
        var m := Minute(timekey, p.start, p.samples);
        assert (p.over + [m])[..|p.over|] == p.over;
    }
  }

  /** The clock never runs backwards between the events. */
  ghost predicate Timely(start: real, events: seq<WindEvent>) {
    (|events| > 0 ==> start <= events[0].at) &&
    (forall i :: 0 < i < |events| ==> events[i - 1].at <= events[i].at)
  }

  /** The time of the last event. */
  function Latest(start: real, events: seq<WindEvent>): real {
    if events == [] then start else events[|events| - 1].at
  }

  /** The minute m is over at the given time. */
  predicate OverAt(m: Minute, now: real) {
    m.start <= m.start + Elapsed(m) <= now
  }

  /** When the minute after minute i begins. */
  function NextStart(p: Parts, i: nat): real {
    if i + 1 < |p.over| then p.over[i + 1].start else p.start
  }

  ghost predicate Consecutive(p: Parts) {
    Measured(p.over) && NeverBack(p.start, p.samples) &&
    forall i :: 0 <= i < |p.over| ==> OverAt(p.over[i], NextStart(p, i))
  }

  /** What is sent of a minute is over before the next one begins. */
  lemma {:induction false} PartsConsecutive(start: real, events: seq<WindEvent>)
    requires Timely(start, events)
    ensures var p, last := PartsOf(start, events), Latest(start, events);
            Consecutive(p) && p.start <= last && (p.samples != [] ==> p.samples[|p.samples| - 1].at <= last)
  {
    if events != [] {
      var n := |events| - 1;
      PartsConsecutive(start, events[..n]);
      PartNext(PartsOf(start, events[..n]), PartsOf(start, events), events[n]);
    }
  }

  lemma PartNext(p: Parts, q: Parts, e: WindEvent)
    requires Consecutive(p) && p.start <= e.at && (p.samples != [] ==> p.samples[|p.samples| - 1].at <= e.at)
    requires q == if e.Gust? then p.(samples := p.samples + [WindSample(e.v, e.at)])
                  else Parts(p.over + [Minute(e.timekey, p.start, p.samples)], e.at, [])
    ensures Consecutive(q)
  {
    hide OverAt;
    if e.MinuteEnd? {
      MinuteOver(Minute(e.timekey, p.start, p.samples), e.at);
      forall i | 0 <= i < |q.over| ensures OverAt(q.over[i], NextStart(q, i)) {
        assert i < |p.over| ==> OverAt(p.over[i], NextStart(p, i)) && NextStart(p, i) == NextStart(q, i);
      }
    } else {
      forall i | 0 <= i < |q.over| ensures OverAt(q.over[i], NextStart(q, i)) {
        assert OverAt(p.over[i], NextStart(p, i)) && NextStart(p, i) == NextStart(q, i);
      }
    }
  }

  lemma MinuteOver(m: Minute, now: real)
    requires NeverBack(m.start, m.samples) && m.start <= now
    requires m.samples != [] ==> m.samples[|m.samples| - 1].at <= now
    ensures OverAt(m, now)
  {
    if m.samples != [] {
      LastNotBefore(m.start, m.samples);
    }
  }

  lemma {:induction false} LastNotBefore(start: real, samples: seq<WindSample>)
    requires NeverBack(start, samples) && samples != []
    ensures start <= samples[|samples| - 1].at
  {
    if |samples| > 1 {
      LastNotBefore(start, samples[..|samples| - 1]);
    }
  }

  /**
    Over every run, what a window adds up to is what the minutes between the resets have kept of their
    wind run, their samples, and no more time than has passed.
   */
  lemma StreamConserved(s: WindState, now: real, events: seq<WindEvent>, g: Group)
    requires Timely(now, events)
    ensures var sums, over := SumsIn(StreamRun(AfterReset(s, now), events).rows, g), PartsOf(now, events).over;
            sums == WindSums(KeptIn(over, g), TimeIn(over, g), CountIn(over, g)) &&
            0.0 <= sums.duration <= Latest(now, events) - now
  {
    hide Consecutive, StreamRun, PartsOf, AfterReset, KeptIn, TimeIn, CountIn, SumsIn;
    StreamSends(s, now, events);
    var p := PartsOf(now, events);
    PartsAreMinutes(now, events);
    PartsConsecutive(now, events);
    FirstReset(now, events);
    ConsecutiveMeasured(p);
    SumsOfMinutes(p.over, g);
    NoTimeTwice(p, g);
  }

  lemma ConsecutiveMeasured(p: Parts)
    requires Consecutive(p)
    ensures Measured(p.over)
  {
  }

  lemma {:induction false} FirstReset(start: real, events: seq<WindEvent>)
    ensures Resets(start, events) != [] && Resets(start, events)[0] == start
  {
    if events != [] {
      FirstReset(start, events[..|events| - 1]);
    }
  }

  lemma {:induction false} NoTimeTwice(p: Parts, g: Group)
    requires Consecutive(p)
    ensures 0.0 <= TimeIn(p.over, g) <= p.start - (if p.over == [] then p.start else p.over[0].start)
    decreases |p.over|
  {
    hide Elapsed, NeverBack;
    if p.over != [] {
      var n := |p.over| - 1;
      var m := p.over[n];
      assert NextStart(p, n) == p.start;
      var before := Parts(p.over[..n], m.start, m.samples);
      forall i | 0 <= i < n ensures OverAt(before.over[i], NextStart(before, i)) {
        assert OverAt(p.over[i], NextStart(p, i)) && NextStart(before, i) == NextStart(p, i);
      }
      NoTimeTwice(before, g);
    }
  }
}
