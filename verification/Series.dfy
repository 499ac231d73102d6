/** Time series and the operations on them (lib/Tdata.cc, include/Tdata.h). */
module Series {
  import Division
  import opened Wrappers

  /** A constant, or samples at some of the times from start to finish. */
  datatype Tdata =
    | Constant(value: real)
    | Samples(interval: int, start: int, finish: int, data: map<int, real>)

  /** A scalar operator; None stands for an exception. */
  type Unary = real -> Option<real>
  type Binary = (real, real) -> Option<real>

  /** The remainder of C++, with the sign of the dividend. */
  function Remainder(a: int, b: int): int
    requires b > 0
  {
    if a >= 0 then a % b else -((-a) % b)
  }

  function Aligned(t: int, interval: int): int
    requires interval > 0
  {
    t - Remainder(t, interval)
  }

  /** The constructors of queries and series may align one after the other. */
  lemma AlignedTwice(t: int, interval: int)
    requires interval > 0
    ensures Aligned(Aligned(t, interval), interval) == Aligned(t, interval)
  {
    if t >= 0 {
      AlignedForward(t, interval);
    } else {
      AlignedForward(-t, interval);
    }
  }

  /** Alignment moves towards zero, to a multiple. */
  lemma AlignedForward(a: int, interval: int)
    requires interval > 0 && a >= 0
    ensures var m := a - a % interval; 0 <= m && m % interval == 0
  {
    Division.Recomposed(a, interval);
    var q := a / interval;
    Division.QuotientIs(q * interval, q, 0, interval);
    NonnegativeQuotient(a, interval);
    Division.NonnegativeProduct(q, interval);
  }

  lemma NonnegativeQuotient(a: int, n: int)
    requires n > 0 && a >= 0
    ensures a / n >= 0
  {
    Division.Recomposed(a, n);
    Division.QuotientSign(a / n, n);
  }

  /** A time is moved towards zero, by less than the interval, to a multiple of it. */
  lemma AlignedTowardsZero(t: int, interval: int)
    requires interval > 0
    ensures var m := Aligned(t, interval);
            m % interval == 0 && if t >= 0 then 0 <= m <= t < m + interval else m - interval < t <= m <= 0
  {
    if t >= 0 {
      AlignedForward(t, interval);
    } else {
      AlignedForward(-t, interval);
      Division.Negated(Aligned(t, interval), interval);
    }
  }

  /** A series made by the constructor Tdata(interval, start, finish) and then filled. */
  function Filled(interval: int, start: int, finish: int, data: map<int, real>): Tdata
    requires interval > 0
  {
    Samples(interval, Aligned(start, interval), Aligned(finish, interval), data)
  }

  predicate Proper(a: Tdata) {
    a.Samples? ==> a.interval > 0
  }

  // ----- apply -----

  function Mapped(f: Unary, data: map<int, real>): map<int, real> {
    map t | t in data && f(data[t]).Some? :: f(data[t]).value
  }

  /** Tdata::apply: samples on which the operator throws are dropped. */
  method Apply(f: Unary, a: Tdata) returns (result: Tdata)
    requires a.Samples? && a.interval > 0
    ensures result == Filled(a.interval, a.start, a.finish, Mapped(f, a.data))
  {
    var data: map<int, real> := map[];
    var rest := a.data.Keys;
    while exists t :: t in rest
      invariant rest <= a.data.Keys
      invariant forall t :: t in data <==> t in a.data && t !in rest && f(a.data[t]).Some?
      invariant forall t :: t in data ==> data[t] == f(a.data[t]).value
      decreases |rest|
    {
      var t :| t in rest;
      var r := f(a.data[t]);
      if r.Some? {
        data := data[t := r.value];
      }
      rest := rest - {t};
    }
    SameMap(data, Mapped(f, a.data));
    result := Filled(a.interval, a.start, a.finish, data);
  }

  // ----- apply2 -----

  function Min(a: int, b: int): int {
    if a < b then a else b
  }

  function Max(a: int, b: int): int {
    if a > b then a else b
  }

  datatype Outcome = Ok(tdata: Tdata) | Thrown | Undefined

  function Paired(f: Binary, a: map<int, real>, b: map<int, real>, lo: int, hi: int): map<int, real> {
    map t | t in a && t in b && lo <= t <= hi && f(a[t], b[t]).Some? :: f(a[t], b[t]).value
  }

  /**
    What apply2 computes. When only the second operand is constant it is passed first; series of
    different intervals are combined all the same, under the interval of the first one.
   */
  function Combined(f: Binary, a: Tdata, b: Tdata): Outcome
    requires Proper(a) && Proper(b)
  {
    match (a, b)
    case (Constant(v), Constant(w)) =>
      var r := f(v, w);
      if r.Some? then Ok(Constant(r.value)) else Thrown
    case (Constant(v), Samples(i, s, e, data)) => Ok(Filled(i, s, e, Mapped(x => f(v, x), data)))
    case (Samples(i, s, e, data), Constant(w)) => Ok(Filled(i, s, e, Mapped(x => f(w, x), data)))
    case (Samples(i, s, e, data), Samples(_, s', e', data')) =>
      var lo, hi := Min(s, s'), Max(e, e');
      Ok(Filled(i, lo, hi, Paired(f, data, data', lo, hi)))
  }

  method Apply2(f: Binary, a: Tdata, b: Tdata) returns (outcome: Outcome)
    requires Proper(a) && Proper(b)
    ensures outcome == Combined(f, a, b)
  {
    if a.Constant? && b.Constant? {
      var r := f(a.value, b.value);
      return if r.Some? then Ok(Constant(r.value)) else Thrown;
    }
    if a.Constant? {
      var result := Apply(x => f(a.value, x), b);
      return Ok(result);
    }
    if b.Constant? {
      var result := Apply(x => f(b.value, x), a);
      return Ok(result);
    }
    var commonstart := if a.start < b.start then a.start else b.start;
    var commonfinish := if a.finish > b.finish then a.finish else b.finish;
    var data: map<int, real> := map[];
    var rest := a.data.Keys;
    while exists t :: t in rest
      invariant rest <= a.data.Keys
      invariant forall t :: t in data <==>
                  t in a.data && t in b.data && commonstart <= t <= commonfinish && t !in rest &&
                  f(a.data[t], b.data[t]).Some?
      invariant forall t :: t in data ==> data[t] == f(a.data[t], b.data[t]).value
      decreases |rest|
    {
      var t :| t in rest;
      if t in b.data && commonstart <= t <= commonfinish {
        var r := f(a.data[t], b.data[t]);
        if r.Some? {
          data := data[t := r.value];
        }
      }
      rest := rest - {t};
    }
    SameMap(data, Paired(f, a.data, b.data, commonstart, commonfinish));
    outcome := Ok(Filled(a.interval, commonstart, commonfinish, data));
  }

  /** Two series are combined over the hull of their ranges: from the earlier start to the later end. */
  lemma OverTheHull(f: Binary, a: Tdata, b: Tdata)
    requires Proper(a) && Proper(b) && a.Samples? && b.Samples?
    requires a.start % a.interval == a.finish % a.interval == b.start % a.interval == b.finish % a.interval == 0
    ensures var r := Combined(f, a, b);
            r.Ok? && r.tdata.Samples? && r.tdata.interval == a.interval &&
            r.tdata.start <= a.start && r.tdata.start <= b.start && r.tdata.start in {a.start, b.start} &&
            r.tdata.finish >= a.finish && r.tdata.finish >= b.finish && r.tdata.finish in {a.finish, b.finish}
  {
    hide Aligned;
    AlignedMultiple(Min(a.start, b.start), a.interval);
    AlignedMultiple(Max(a.finish, b.finish), a.interval);
  }

  lemma AlignedMultiple(t: int, interval: int)
    requires interval > 0 && t % interval == 0
    ensures Aligned(t, interval) == t
  {
    Division.Negated(t, interval);
  }

  // ----- accumulate, limit, addData -----

  /** The k-th time of the grid start, start + interval, ... */
  function GridTime(start: int, interval: int, k: nat): int {
    if k == 0 then start else GridTime(start, interval, k - 1) + interval
  }

  lemma {:induction false} GridIncreases(start: int, interval: int, j: nat, k: nat)
    requires interval > 0 && j < k
    ensures GridTime(start, interval, j) < GridTime(start, interval, k)
  {
    if j + 1 < k {
      GridIncreases(start, interval, j, k - 1);
    }
  }

  /** The number of grid times up to finish. */
  function GridCount(start: int, finish: int, interval: int): nat
    requires interval > 0
    decreases finish - start
  {
    if start > finish then 0 else 1 + GridCount(start + interval, finish, interval)
  }

  lemma {:induction false} GridCountIs(start: int, finish: int, interval: int, n: nat)
    requires interval > 0
    requires GridTime(start, interval, n) > finish
    requires n > 0 ==> GridTime(start, interval, n - 1) <= finish
    ensures GridCount(start, finish, interval) == n
    decreases n
  {
    if n > 0 {
      if n > 1 {
        GridIncreases(start, interval, 0, n - 1);
        GridShift(start, interval, n - 2);
      }
      GridShift(start, interval, n - 1);
      GridCountIs(start + interval, finish, interval, n - 1);
    }
  }

  lemma {:induction false} GridShift(start: int, interval: int, k: nat)
    ensures GridTime(start + interval, interval, k) == GridTime(start, interval, k + 1)
  {
    if k > 0 {
      GridShift(start, interval, k - 1);
    }
  }

  /** t is one of the first n grid times. */
  ghost predicate OnGrid(t: int, start: int, interval: int, n: nat) {
    exists k: nat :: k < n && t == GridTime(start, interval, k)
  }

  /** The place of t among the first n grid times. */
  function GridIndex(t: int, start: int, interval: int, n: nat): (k: Option<nat>)
    ensures k.Some? ==> k.value < n && t == GridTime(start, interval, k.value)
    ensures k.None? ==> !OnGrid(t, start, interval, n)
  {
    if n == 0 then None
    else if t == GridTime(start, interval, n - 1) then Some(n - 1)
    else GridIndex(t, start, interval, n - 1)
  }

  lemma {:induction false} GridWithin(start: int, finish: int, interval: int, k: nat)
    requires interval > 0 && k < GridCount(start, finish, interval)
    ensures start <= GridTime(start, interval, k) <= finish
    decreases k
  {
    if k > 0 {
      GridWithin(start + interval, finish, interval, k - 1);
      GridShift(start, interval, k - 1);
    }
  }

  function SampleOr0(data: map<int, real>, t: int): real {
    if t in data then data[t] else 0.0
  }

  /** The sum of the samples at the first n grid times. */
  function GridSum(data: map<int, real>, start: int, interval: int, n: nat): real {
    if n == 0 then 0.0
    else GridSum(data, start, interval, n - 1) + SampleOr0(data, GridTime(start, interval, n - 1))
  }

  /** The running sums at the first n grid times. */
  function RunningSums(samples: map<int, real>, start: int, interval: int, n: nat): map<int, real> {
    if n == 0 then map[]
    else RunningSums(samples, start, interval, n - 1)
           [GridTime(start, interval, n - 1) := GridSum(samples, start, interval, n)]
  }

  function Accumulated(a: Tdata): Tdata
    requires a.Samples? && a.interval > 0
  {
    Filled(a.interval, a.start, a.finish,
           RunningSums(a.data, a.start, a.interval, GridCount(a.start, a.finish, a.interval)))
  }

  /** A running sum stands at every grid time, sampled or not, and only there. */
  lemma {:induction false} RunningSumsAt(samples: map<int, real>, start: int, interval: int, n: nat)
    requires interval > 0
    ensures var r := RunningSums(samples, start, interval, n);
            (forall t :: t in r ==> OnGrid(t, start, interval, n)) &&
            (forall k: nat :: k < n ==>
               GridTime(start, interval, k) in r &&
               r[GridTime(start, interval, k)] == GridSum(samples, start, interval, k + 1))
  {
    if n > 0 {
      RunningSumsAt(samples, start, interval, n - 1);
      forall k: nat | k < n - 1
        ensures GridTime(start, interval, k) != GridTime(start, interval, n - 1)
      {
        GridIncreases(start, interval, k, n - 1);
      }
      forall t | t in RunningSums(samples, start, interval, n)
        ensures OnGrid(t, start, interval, n)
      {
        var last: nat := n - 1;
        if t == GridTime(start, interval, last) {
          assert OnGrid(t, start, interval, n);
        } else {
          assert t in RunningSums(samples, start, interval, n - 1);
        }
      }
    }
  }

  method Accumulate(a: Tdata) returns (result: Tdata)
    requires a.Samples? && a.interval > 0
    ensures result == Accumulated(a)
  {
    var acc := 0.0;
    var data: map<int, real> := map[];
    var t := a.start;
    ghost var n: nat := 0;
    while t <= a.finish
      invariant t == GridTime(a.start, a.interval, n)
      invariant acc == GridSum(a.data, a.start, a.interval, n)
      invariant n > 0 ==> GridTime(a.start, a.interval, n - 1) <= a.finish
      invariant data == RunningSums(a.data, a.start, a.interval, n)
      decreases a.finish - t
    {
      if t in a.data {
        acc := acc + a.data[t];
      }
      data := data[t := acc];
      n := n + 1;
      t := t + a.interval;
    }
    GridCountIs(a.start, a.finish, a.interval, n);
    result := Filled(a.interval, a.start, a.finish, data);
  }

  /** Tdata::limit removes the samples below l. */
  method Limit(a: Tdata, l: real) returns (result: Tdata)
    requires a.Samples? && a.interval > 0
    ensures result == Filled(a.interval, a.start, a.finish,
                             map t | t in a.data && a.data[t] >= l :: a.data[t])
  {
    var data: map<int, real> := map[];
    var rest := a.data.Keys;
    while exists t :: t in rest
      invariant rest <= a.data.Keys
      invariant forall t :: t in data <==> t in a.data && t !in rest && a.data[t] >= l
      invariant forall t :: t in data ==> data[t] == a.data[t]
      decreases |rest|
    {
      var t :| t in rest;
      if !(a.data[t] < l) {
        data := data[t := a.data[t]];
      }
      rest := rest - {t};
    }
    SameMap(data, map t | t in a.data && a.data[t] >= l :: a.data[t]);
    result := Filled(a.interval, a.start, a.finish, data);
  }

  class TdataObject {
    const interval: int
    const start: int
    const finish: int
    var data: map<int, real>

    constructor (i: int, s: int, e: int)
      requires i > 0
      ensures Samples(interval, start, finish, data) == Filled(i, s, e, map[])
    {
      interval := i;
      start := Aligned(s, i);
      finish := Aligned(e, i);
      data := map[];
    }

    /** Tdata::addData takes over the samples at grid times and leaves everything else as it was. */
    method AddData(input: map<int, real>)
      requires interval > 0
      modifies this`data
      ensures var n := GridCount(start, finish, interval);
              forall t :: t in data <==> t in old(data) || (t in input && OnGrid(t, start, interval, n))
      ensures var n := GridCount(start, finish, interval);
              forall t :: t in data ==>
                data[t] == if t in input && OnGrid(t, start, interval, n) then input[t] else old(data)[t]
    {
      ghost var n: nat := 0;
      var t := start;
      while t <= finish
        invariant t == GridTime(start, interval, n)
        invariant n > 0 ==> GridTime(start, interval, n - 1) <= finish
        invariant forall u :: u in data <==> u in old(data) || (u in input && OnGrid(u, start, interval, n))
        invariant forall u :: u in data ==>
                    data[u] == if u in input && OnGrid(u, start, interval, n) then input[u] else old(data)[u]
        decreases finish - t
      {
        forall u ensures OnGrid(u, start, interval, n + 1) <==> OnGrid(u, start, interval, n) || u == t {
        }
        if t in input {
          data := data[t := input[t]];
        }
        n := n + 1;
        t := t + interval;
      }
      GridCountIs(start, finish, interval, n);
    }
  }
}
