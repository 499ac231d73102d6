/**
  Wind over two levels of aggregation: the recorder of one minute (lib/WindRecorder.cc) and the
  averages over longer intervals (lib/Averager.cc).
 */
module Wind {
  import Division

  datatype Vec = Vec(x: real, y: real)

  function Add(a: Vec, b: Vec): Vec {
    Vec(a.x + b.x, a.y + b.y)
  }

  function Scale(c: real, a: Vec): Vec {
    Vec(c * a.x, c * a.y)
  }

  /** The square of getAbs. */
  function Square(a: Vec): real {
    a.x * a.x + a.y * a.y
  }

  datatype WindState = WindState(isvalid: bool, start: real, lastupdate: real, v: Vec, max: Vec, samples: int)

  function AfterReset(s: WindState, now: real): WindState {
    WindState(false, now, s.lastupdate, Vec(0.0, 0.0), Vec(0.0, 0.0), 0)
  }

  /** A mean over at most a tenth of a second is dropped for the new sample. */
  function AfterUpdate(s: WindState, v0: Vec, now: real): WindState {
    if !s.isvalid then s.(v := v0, max := v0, lastupdate := now, isvalid := true)
    else
      var t1, t2 := s.lastupdate - s.start, now - s.lastupdate;
      s.(v := if t1 + t2 > 0.1 then Scale(1.0 / (t1 + t2), Add(Scale(t1, s.v), Scale(t2, v0))) else v0,
         max := if Square(v0) > Square(s.max) then v0 else s.max,
         samples := s.samples + 1, lastupdate := now)
  }

  class WindRecorder {
    var isvalid: bool
    var start: real
    var lastupdate: real
    var v: Vec
    var max: Vec
    var samples: int

    function State(): WindState
      reads this
    {
      WindState(isvalid, start, lastupdate, v, max, samples)
    }

    constructor (now: real)
      ensures State() == WindState(false, now, 0.0, Vec(0.0, 0.0), Vec(0.0, 0.0), 0)
    {
      isvalid, start, lastupdate := false, now, 0.0;
      v, max, samples := Vec(0.0, 0.0), Vec(0.0, 0.0), 0;
    }

    /** A recorder that starts with a wind: an update right after a reset. */
    constructor WithWind(v0: Vec, now: real)
      ensures State() == AfterUpdate(WindState(false, now, 0.0, Vec(0.0, 0.0), Vec(0.0, 0.0), 0), v0, now)
    {
      isvalid, start, lastupdate := true, now, now;
      v, max, samples := v0, v0, 0;
    }

    method Reset(now: real)
      modifies this
      ensures State() == AfterReset(old(State()), now)
      ensures !isvalid && start == now && v == max == Vec(0.0, 0.0) && samples == 0
    {
      v := Vec(0.0, 0.0);
      max := Vec(0.0, 0.0);
      samples := 0;
      isvalid := false;
      start := now;
    }

    method Update(v0: Vec, now: real)
      modifies this
      ensures State() == AfterUpdate(old(State()), v0, now)
    {
      if !isvalid {
        v := v0;
        max := v0;
        lastupdate := now;
        isvalid := true;
        return;
      }
      var t1 := lastupdate - start;
      var t2 := now - lastupdate;
      var duration := t1 + t2;
      if duration > 0.1 {
        v := Scale(1.0 / duration, Add(Scale(t1, v), Scale(t2, v0)));
      } else {
        v := v0;
      }
      if Square(v0) > Square(max) {
        max := v0;
      }
      samples := samples + 1;
      lastupdate := now;
    }

    /** sendOutlet: the mean vector, the gust, the mean vector times the duration, the duration, the samples. */
    method SendOutlet(timekey: int) returns (rows: seq<MinuteRow>)
      ensures rows == Sent(State(), timekey)
    {
      if !isvalid {
        return [];
      }
      var duration := lastupdate - start;
      var row := MinuteRow(timekey, v, max, Vec(duration * v.x, duration * v.y), duration, samples);
      assert row.run == Scale(duration, v);
      rows := [row];
    }
  }

  /**
    The rows of one minute in the table sdata: speed and direction are those of mean, the gust is the
    length of gust; then windx, windy, duration and samples.
   */
  datatype MinuteRow = MinuteRow(timekey: int, mean: Vec, gust: Vec, run: Vec, duration: real, samples: int)

  function Sent(s: WindState, timekey: int): seq<MinuteRow> {
    if !s.isvalid then []
    else
      var d := s.lastupdate - s.start;
      [MinuteRow(timekey, s.v, s.max, Scale(d, s.v), d, s.samples)]
  }

  // ----- one minute -----

  datatype WindSample = WindSample(v: Vec, at: real)

  /** The clock never runs backwards; it may stand still between samples. */
  ghost predicate NeverBack(start: real, samples: seq<WindSample>) {
    (|samples| > 0 ==> start <= samples[0].at) &&
    (forall i :: 0 < i < |samples| ==> samples[i - 1].at <= samples[i].at)
  }

  function AfterUpdates(s: WindState, samples: seq<WindSample>): WindState {
    if samples == [] then s
    else
      var n := |samples| - 1;
      AfterUpdate(AfterUpdates(s, samples[..n]), samples[n].v, samples[n].at)
  }

  function GapStart(start: real, samples: seq<WindSample>, i: nat): real
    requires i < |samples|
  {
    if i == 0 then start else samples[i - 1].at
  }

  /** The wind run: every sample times the gap it closes. */
  function WindRun(start: real, samples: seq<WindSample>): Vec {
    if samples == [] then Vec(0.0, 0.0)
    else
      var n := |samples| - 1;
      Add(WindRun(start, samples[..n]), Scale(samples[n].at - GapStart(start, samples, n), samples[n].v))
  }

  /** Every update after the first comes more than a tenth of a second after the start. */
  ghost predicate NoneIgnored(start: real, samples: seq<WindSample>) {
    forall i :: 0 < i < |samples| ==> samples[i].at - start > 0.1
  }

  lemma {:induction false} TimesOfRun(s: WindState, samples: seq<WindSample>)
    requires !s.isvalid && NeverBack(s.start, samples)
    ensures var r := AfterUpdates(s, samples);
            r.start == s.start && (r.isvalid <==> samples != []) &&
            (samples != [] ==> s.start <= r.lastupdate == samples[|samples| - 1].at)
  {
    if samples != [] {
      TimesOfRun(s, samples[..|samples| - 1]);
    }
  }

  lemma MeanTimesDuration(t1: real, t2: real, a: real, b: real)
    requires t1 + t2 > 0.1
    ensures (t1 + t2) * (1.0 / (t1 + t2) * (t1 * a + t2 * b)) == t1 * a + t2 * b
  {
    var d := t1 + t2;
    assert d * (1.0 / d) == 1.0;
    var e := t1 * a + t2 * b;
    assert d * (1.0 / d * e) == (d * (1.0 / d)) * e;
  }

  lemma RunStep(q: WindState, v0: Vec, now: real)
    requires q.isvalid && now - q.start > 0.1
    ensures var r := AfterUpdate(q, v0, now);
            Scale(now - q.start, r.v) == Add(Scale(q.lastupdate - q.start, q.v), Scale(now - q.lastupdate, v0))
  {
    hide Scale, Add, Square;
    var t1, t2 := q.lastupdate - q.start, now - q.lastupdate;
    assert now - q.start == t1 + t2;
    MeanVector(t1, t2, q.v, v0);
  }

  lemma MeanVector(t1: real, t2: real, a: Vec, b: Vec)
    requires t1 + t2 > 0.1
    ensures Scale(t1 + t2, Scale(1.0 / (t1 + t2), Add(Scale(t1, a), Scale(t2, b)))) == Add(Scale(t1, a), Scale(t2, b))
  {
    MeanTimesDuration(t1, t2, a.x, b.x);
    MeanTimesDuration(t1, t2, a.y, b.y);
  }

  /**
    A sample that comes within a tenth of a second of the start replaces the mean. That keeps the wind
    run exactly when nothing has been accumulated yet, or the mean is the sample.
   */
  lemma IgnoredStep(q: WindState, v0: Vec, now: real)
    requires q.isvalid && now - q.start <= 0.1
    ensures var r, t1, t2 := AfterUpdate(q, v0, now), q.lastupdate - q.start, now - q.lastupdate;
            r.v == v0 &&
            (Scale(now - q.start, r.v) == Add(Scale(t1, q.v), Scale(t2, v0)) <==> t1 == 0.0 || q.v == v0)
  {
    hide Scale, Add, Square;
    var t1, t2 := q.lastupdate - q.start, now - q.lastupdate;
    assert now - q.start == t1 + t2;
    SameVector(t1, t2, q.v, v0);
  }

  lemma SameVector(t1: real, t2: real, a: Vec, b: Vec)
    ensures Scale(t1 + t2, b) == Add(Scale(t1, a), Scale(t2, b)) <==> t1 == 0.0 || a == b
  {
    SameProduct(t1, t2, a.x, b.x);
    SameProduct(t1, t2, a.y, b.y);
  }

  lemma SameProduct(t1: real, t2: real, a: real, b: real)
    ensures (t1 + t2) * b == t1 * a + t2 * b <==> t1 == 0.0 || a == b
  {
    assert (t1 + t2) * b == t1 * b + t2 * b;
    assert t1 * (b - a) == t1 * b - t1 * a;
    Division.NoZeroDivisors(t1, b - a);
  }

  /** What is kept of the wind run: every later sample within a tenth of a second of the start restarts it. */
  function Kept(start: real, samples: seq<WindSample>): Vec {
    if samples == [] then Vec(0.0, 0.0)
    else
      var n := |samples| - 1;
      if n > 0 && samples[n].at - start <= 0.1 then Scale(samples[n].at - start, samples[n].v)
      else Add(Kept(start, samples[..n]), Scale(samples[n].at - GapStart(start, samples, n), samples[n].v))
  }

  /** The number of samples up to the last one that restarts, or one. */
  function UpToRestart(start: real, samples: seq<WindSample>): (k: nat)
    requires samples != []
    ensures 1 <= k <= |samples|
  {
    var n := |samples| - 1;
    if n == 0 || samples[n].at - start <= 0.1 then n + 1 else UpToRestart(start, samples[..n])
  }

  /** The last sample that restarts, held since the start, gives the wind run up to it. */
  predicate KeepsRun(start: real, samples: seq<WindSample>) {
    samples == [] ||
    var k := UpToRestart(start, samples);
    Scale(samples[k - 1].at - start, samples[k - 1].v) == WindRun(start, samples[..k])
  }

  /** Exactly then the wind run is kept. */
  lemma {:induction false} KeptExactly(start: real, samples: seq<WindSample>)
    ensures Kept(start, samples) == WindRun(start, samples) <==> KeepsRun(start, samples)
  {
    hide Scale, Add;
    if samples != [] {
      var n := |samples| - 1;
      assert samples[..n + 1] == samples;
      if n == 0 {
        FirstKept(start, samples);
      } else if samples[n].at - start > 0.1 {
        KeptExactly(start, samples[..n]);
        var k := UpToRestart(start, samples);
        assert samples[..n][..k] == samples[..k];
        AddCancels(Kept(start, samples[..n]), WindRun(start, samples[..n]),
                   Scale(samples[n].at - GapStart(start, samples, n), samples[n].v));
      }
    }
  }

  lemma FirstKept(start: real, samples: seq<WindSample>)
    requires |samples| == 1
    ensures Kept(start, samples) == WindRun(start, samples) == Scale(samples[0].at - start, samples[0].v)
    ensures samples[..1] == samples
  {
    assert samples[..0] == [];
  }

  lemma AddCancels(a: Vec, b: Vec, c: Vec)
    ensures Add(a, c) == Add(b, c) <==> a == b
  {
    if Add(a, c) == Add(b, c) {
      assert Add(a, c).x == Add(b, c).x && Add(a, c).y == Add(b, c).y;
    }
  }

  /** Without samples that restart nothing is lost. */
  lemma {:induction false} NoneIgnoredKeeps(start: real, samples: seq<WindSample>)
    requires NoneIgnored(start, samples)
    ensures KeepsRun(start, samples)
  {
    hide Scale, WindRun;
    if samples != [] {
      NoRestart(start, samples);
      assert samples[..1] == [samples[0]];
      FirstKept(start, [samples[0]]);
    }
  }

  lemma {:induction false} NoRestart(start: real, samples: seq<WindSample>)
    requires NoneIgnored(start, samples) && samples != []
    ensures UpToRestart(start, samples) == 1
  {
    if |samples| > 1 {
      NoRestart(start, samples[..|samples| - 1]);
    }
  }

  /** A calm sample that comes early wipes out the wind before it. */
  lemma RunLost(a: real, b: real)
    requires a == 0.05 && b == 0.08
    ensures var samples := [WindSample(Vec(1.0, 0.0), a), WindSample(Vec(0.0, 0.0), b)];
            NeverBack(0.0, samples) && !KeepsRun(0.0, samples) &&
            Kept(0.0, samples) == Vec(0.0, 0.0) && WindRun(0.0, samples) == Vec(0.05, 0.0)
  {
    hide KeepsRun, Scale, Add, Kept, WindRun;
    var wind, calm := Vec(1.0, 0.0), Vec(0.0, 0.0);
    var samples := [WindSample(wind, a), WindSample(calm, b)];
    assert samples[..1] == [WindSample(wind, a)];
    FirstKept(0.0, [WindSample(wind, a)]);
    RunOfTwo(0.0, samples);
    ScaleOne(a - 0.0);
    ScaleCalm(b - 0.0);
    ScaleCalm(b - a);
    AddCalm(Vec(a - 0.0, 0.0));
    KeptExactly(0.0, samples);
  }

  lemma RunOfTwo(start: real, samples: seq<WindSample>)
    requires |samples| == 2 && samples[1].at - start <= 0.1
    ensures Kept(start, samples) == Scale(samples[1].at - start, samples[1].v)
    ensures WindRun(start, samples) ==
            Add(WindRun(start, samples[..1]), Scale(samples[1].at - samples[0].at, samples[1].v))
  {
  }

  lemma ScaleOne(c: real)
    ensures Scale(c, Vec(1.0, 0.0)) == Vec(c, 0.0)
  {
  }

  lemma ScaleCalm(c: real)
    ensures Scale(c, Vec(0.0, 0.0)) == Vec(0.0, 0.0)
  {
  }

  lemma AddCalm(a: Vec)
    ensures Add(a, Vec(0.0, 0.0)) == a
  {
  }

  /**
    The rows of a minute carry its kept wind run and its whole duration, and its wind run exactly when
    the last sample that restarts gives the wind run up to it.
   */
  lemma MinuteConserved(s: WindState, samples: seq<WindSample>)
    requires !s.isvalid && NeverBack(s.start, samples) && samples != []
    ensures var r := AfterUpdates(s, samples);
            Scale(r.lastupdate - r.start, r.v) == Kept(s.start, samples) &&
            (Scale(r.lastupdate - r.start, r.v) == WindRun(s.start, samples) <==> KeepsRun(s.start, samples)) &&
            r.lastupdate - r.start == samples[|samples| - 1].at - s.start
  {
    hide AfterUpdates, Scale, WindRun, KeepsRun, Kept, NeverBack;
    TimesOfRun(s, samples);
    MinuteKept(s, samples);
    KeptExactly(s.start, samples);
  }

  lemma {:induction false} MinuteKept(s: WindState, samples: seq<WindSample>)
    requires !s.isvalid && NeverBack(s.start, samples) && samples != []
    ensures var r := AfterUpdates(s, samples); Scale(r.lastupdate - r.start, r.v) == Kept(s.start, samples)
  {
    hide AfterUpdate, Scale, Add;
    var n := |samples| - 1;
    if n == 0 {
      FirstConserved(s, samples);
      FirstKept(s.start, samples);
    } else {
      var before := samples[..n];
      TimesOfRun(s, before);
      MinuteKept(s, before);
      KeptStep(AfterUpdates(s, before), samples[n].v, samples[n].at);
    }
  }

  lemma KeptStep(q: WindState, v0: Vec, now: real)
    requires q.isvalid
    ensures var r := AfterUpdate(q, v0, now);
            r.start == q.start && r.lastupdate == now &&
            Scale(now - q.start, r.v) ==
            if now - q.start <= 0.1 then Scale(now - q.start, v0)
            else Add(Scale(q.lastupdate - q.start, q.v), Scale(now - q.lastupdate, v0))
  {
    hide Scale, Add, Square;
    if now - q.start > 0.1 {
      RunStep(q, v0, now);
    }
  }

  lemma FirstConserved(s: WindState, samples: seq<WindSample>)
    requires !s.isvalid && |samples| == 1
    ensures AfterUpdates(s, samples) == s.(v := samples[0].v, max := samples[0].v,
                                           lastupdate := samples[0].at, isvalid := true)
    ensures WindRun(s.start, samples) == Scale(samples[0].at - s.start, samples[0].v)
  {
    assert samples[..0] == [];
  }

  // ----- the gust bounds the mean -----

  lemma Squares(a: real, b: real)
    ensures 2.0 * (a * b) <= a * a + b * b
  {
    assert (a - b) * (a - b) >= 0.0;
    assert (a - b) * (a - b) == a * a - 2.0 * (a * b) + b * b;
  }

  /** Twice the scalar product. */
  function Twice(a: Vec, b: Vec): real {
    2.0 * (a.x * b.x) + 2.0 * (a.y * b.y)
  }

  lemma SquareOfSum(t1: real, t2: real, a: Vec, b: Vec)
    ensures Square(Add(Scale(t1, a), Scale(t2, b))) ==
            (t1 * t1) * Square(a) + (t2 * t2) * Square(b) + (t1 * t2) * Twice(a, b)
  {
    SquareOfSum2(t1, t2, a.x, a.y, b.x, b.y);
  }

  lemma SquareOfSum2(t1: real, t2: real, a1: real, a2: real, b1: real, b2: real)
    ensures (t1 * a1 + t2 * b1) * (t1 * a1 + t2 * b1) + (t1 * a2 + t2 * b2) * (t1 * a2 + t2 * b2) ==
            (t1 * t1) * (a1 * a1 + a2 * a2) + (t2 * t2) * (b1 * b1 + b2 * b2)
            + (t1 * t2) * (2.0 * (a1 * b1) + 2.0 * (a2 * b2))
  {
    SquareOfSum1(t1, t2, a1, b1);
    SquareOfSum1(t1, t2, a2, b2);
    Distribute(t1 * t1, a1 * a1, a2 * a2);
    Distribute(t2 * t2, b1 * b1, b2 * b2);
    Distribute(t1 * t2, 2.0 * (a1 * b1), 2.0 * (a2 * b2));
  }

  lemma Distribute(c: real, p: real, q: real)
    ensures c * (p + q) == c * p + c * q
  {
  }

  lemma SquareOfSum1(t1: real, t2: real, a: real, b: real)
    ensures (t1 * a + t2 * b) * (t1 * a + t2 * b) ==
            (t1 * t1) * (a * a) + (t2 * t2) * (b * b) + (t1 * t2) * (2.0 * (a * b))
  {
    var p, q := t1 * a, t2 * b;
    assert (p + q) * (p + q) == p * p + q * q + 2.0 * (p * q);
    Regroup(t1, a, t1, a);
    Regroup(t2, b, t2, b);
    Regroup(t1, a, t2, b);
    var c, d := t1 * t2, a * b;
    assert 2.0 * (c * d) == c * (2.0 * d);
  }

  lemma Regroup(s: real, a: real, t: real, b: real)
    ensures (s * a) * (t * b) == (s * t) * (a * b)
  {
    var p := s * a;
    assert p * (t * b) == (p * t) * b;
    assert p * t == (s * t) * a;
    var q := s * t;
    assert (q * a) * b == q * (a * b);
  }

  /** A weighted sum is no longer than the sum of the weights times a common bound. */
  lemma SumBounded(t1: real, t2: real, a: Vec, b: Vec, m: real)
    requires t1 >= 0.0 && t2 >= 0.0 && Square(a) <= m && Square(b) <= m
    ensures Square(Add(Scale(t1, a), Scale(t2, b))) <= m * ((t1 + t2) * (t1 + t2))
  {
    var c := Twice(a, b);
    TwiceBounded(a, b);
    SquareOfSum(t1, t2, a, b);
    SumBoundedBy(t1, t2, Square(a), Square(b), c, m);
  }

  lemma TwiceBounded(a: Vec, b: Vec)
    ensures Twice(a, b) <= Square(a) + Square(b)
  {
    Squares(a.x, b.x);
    Squares(a.y, b.y);
  }

  lemma SumBoundedBy(t1: real, t2: real, p: real, q: real, c: real, m: real)
    requires t1 >= 0.0 && t2 >= 0.0 && p <= m && q <= m && c <= p + q
    ensures (t1 * t1) * p + (t2 * t2) * q + (t1 * t2) * c <= m * ((t1 + t2) * (t1 + t2))
  {
    Binomial(t1, t2);
    Weighted(t1 * t1, t2 * t2, t1 * t2, p, q, c, m);
  }

  lemma Weighted(a: real, b: real, d: real, p: real, q: real, c: real, m: real)
    requires a >= 0.0 && b >= 0.0 && d >= 0.0 && p <= m && q <= m && c <= p + q
    ensures a * p + b * q + d * c <= m * (a + b + 2.0 * d)
  {
    Monotone(a, p, m);
    Monotone(b, q, m);
    Monotone(d, c, 2.0 * m);
    Collect(m, a, b, d);
  }

  lemma Binomial(t1: real, t2: real)
    ensures (t1 + t2) * (t1 + t2) == t1 * t1 + t2 * t2 + 2.0 * (t1 * t2)
  {
  }

  lemma Collect(m: real, p: real, q: real, r: real)
    ensures m * (p + q + 2.0 * r) == p * m + q * m + r * (2.0 * m)
  {
    assert m * (p + q + 2.0 * r) == m * p + m * q + m * (2.0 * r);
  }

  lemma Monotone(w: real, x: real, y: real)
    requires w >= 0.0 && x <= y
    ensures w * x <= w * y
  {
    assert w * (y - x) >= 0.0;
    assert w * (y - x) == w * y - w * x;
  }

  lemma SquareOfScaled(c: real, a: Vec)
    ensures Square(Scale(c, a)) == (c * c) * Square(a)
  {
    Regroup(c, a.x, c, a.x);
    Regroup(c, a.y, c, a.y);
    Distribute(c * c, a.x * a.x, a.y * a.y);
  }

  lemma MeanBounded(d: real, e: Vec, m: real)
    requires d > 0.0 && Square(e) <= m * (d * d)
    ensures Square(Scale(1.0 / d, e)) <= m
  {
    var c := 1.0 / d;
    assert c * d == 1.0;
    SquareOfScaled(c, e);
    Regroup(c, d, c, d);
    assert (c * c) * (d * d) == 1.0;
    assert c * c >= 0.0;
    Monotone(c * c, Square(e), m * (d * d));
    Regroup(c, m, c, d * d);
    var p := c * c;
    assert p * (m * (d * d)) == m * (p * (d * d));
  }

  /** In every reachable state the mean vector is no longer than the recorded gust. */
  lemma {:induction false} GustBoundsMean(s: WindState, samples: seq<WindSample>)
    requires !s.isvalid && NeverBack(s.start, samples) && Square(s.v) <= Square(s.max)
    ensures var r := AfterUpdates(s, samples); Square(r.v) <= Square(r.max)
  {
    hide Square, AfterUpdate;
    if samples != [] {
      var n := |samples| - 1;
      var q := AfterUpdates(s, samples[..n]);
      TimesOfRun(s, samples[..n]);
      GustBoundsMean(s, samples[..n]);
      GustStep(q, samples[n].v, samples[n].at);
    }
  }

  lemma GustStep(q: WindState, v0: Vec, now: real)
    requires q.isvalid ==> q.start <= q.lastupdate <= now
    requires Square(q.v) <= Square(q.max)
    ensures var r := AfterUpdate(q, v0, now);
            Square(r.v) <= Square(r.max) && (q.isvalid ==> Square(q.max) <= Square(r.max)) &&
            Square(v0) <= Square(r.max)
  {
    hide Square, Scale, Add;
    if q.isvalid {
      var t1, t2 := q.lastupdate - q.start, now - q.lastupdate;
      var m := if Square(v0) > Square(q.max) then Square(v0) else Square(q.max);
      if t1 + t2 > 0.1 {
        SumBounded(t1, t2, q.v, v0, m);
        MeanBounded(t1 + t2, Add(Scale(t1, q.v), Scale(t2, v0)), m);
      }
    }
  }

  /** The gust is the longest sample, and every sample after the first is counted. */
  lemma {:induction false} GustIsLongest(s: WindState, samples: seq<WindSample>)
    requires !s.isvalid && samples != []
    ensures var r := AfterUpdates(s, samples);
            r.isvalid && r.samples == s.samples + |samples| - 1 &&
            (exists i :: 0 <= i < |samples| && samples[i].v == r.max) &&
            (forall i :: 0 <= i < |samples| ==> Square(samples[i].v) <= Square(r.max))
  {
    hide Square, Scale, Add;
    var n := |samples| - 1;
    if n == 0 {
      FirstConserved(s, samples);
      assert samples[0].v == AfterUpdates(s, samples).max;
    } else {
      var before := samples[..n];
      GustIsLongest(s, before);
      var q, r := AfterUpdates(s, before), AfterUpdates(s, samples);
      var i :| 0 <= i < n && before[i].v == q.max;
      assert samples[i].v == q.max && (r.max == q.max || r.max == samples[n].v);
      forall j | 0 <= j < |samples| ensures Square(samples[j].v) <= Square(r.max) {
        if j < n {
          assert samples[j] == before[j];
        }
      }
    }
  }

  /** What a minute sends: the gust is its longest sample, and the mean speed is not above it. */
  lemma SentGust(start: real, samples: seq<WindSample>, timekey: int)
    requires NeverBack(start, samples) && samples != []
    ensures var s := WindState(false, start, 0.0, Vec(0.0, 0.0), Vec(0.0, 0.0), 0);
            var rows := Sent(AfterUpdates(s, samples), timekey);
            |rows| == 1 && rows[0].timekey == timekey && rows[0].samples == |samples| - 1 &&
            rows[0].run == Scale(rows[0].duration, rows[0].mean) && Square(rows[0].mean) <= Square(rows[0].gust) &&
            (exists i :: 0 <= i < |samples| && samples[i].v == rows[0].gust) &&
            (forall i :: 0 <= i < |samples| ==> Square(samples[i].v) <= Square(rows[0].gust))
  {
    hide AfterUpdates, Scale, Square;
    var s := WindState(false, start, 0.0, Vec(0.0, 0.0), Vec(0.0, 0.0), 0);
    GustIsLongest(s, samples);
    GustBoundsMean(s, samples);
  }
}
