/** The steps and the first and last tick of an axis (lib/Axis.cc), over exact numbers. */
module Axis {

  datatype Kind = Static | Dynamic | Other

  /** The attributes of an axis; an origin that is not configured reads as MINORIGIN. */
  datatype Configuration = Configuration(
    kind: Kind, first: real, last: real, step: real, origin: real, maxtickcount: int)

  const MINORIGIN := -1000000000.0

  function Pow10(n: nat): (r: real)
    ensures r >= 1.0
  {
    if n == 0 then 1.0 else 10.0 * Pow10(n - 1)
  }

  /** The least exponent whose power of ten reaches x: the logarithm rounded up, and at least zero. */
  function LeastExponent(x: real): (n: nat)
    ensures x <= Pow10(n) && (n > 0 ==> Pow10(n - 1) < x)
    decreases if x > 1.0 then x.Floor else 0
  {
    if x <= 1.0 then 0 else LeastExponent(x / 10.0) + 1
  }

  /** A tick. */
  function Point(origin: real, step: real, k: int): real {
    origin + step * (k as real)
  }

  /** The greatest tick not above max. */
  ghost predicate IsLast(last: real, origin: real, step: real, max: real) {
    last <= max < last + step && exists k :: last == Point(origin, step, k)
  }

  /** The least tick not below min. */
  ghost predicate IsFirst(first: real, origin: real, step: real, min: real) {
    first - step < min <= first && exists k :: first == Point(origin, step, k)
  }

  /** The steps to choose from. */
  function Candidate(configured: real, x: int, n: nat): real {
    configured * (x as real * Pow10(n))
  }

  predicate Multiplier(x: int) {
    x == 1 || x == 2 || x == 5
  }

  /** Fewer than max steps fit into the range; for a power of ten as many as max may fit. */
  predicate Fits(configured: real, x: int, n: nat, range: real, max: real) {
    range < max * Candidate(configured, x, n) || (x == 1 && range == max * Candidate(configured, x, n))
  }

  /** The least candidate that fits. */
  ghost predicate IsBest(step: real, configured: real, range: real, max: real) {
    (exists x, n: nat :: Multiplier(x) && Fits(configured, x, n, range, max) && step == Candidate(configured, x, n)) &&
    (forall x, n: nat :: Multiplier(x) && Fits(configured, x, n, range, max) ==> step <= Candidate(configured, x, n))
  }

  /** Without a configured origin, the tick in [0, step) of the lattice of the configured first tick. */
  function Origin(c: Configuration): (r: real)
    requires c.step > 0.0
    ensures c.origin == MINORIGIN ==> 0.0 <= r < c.step && exists k :: r == Point(c.first, c.step, k)
    ensures c.origin != MINORIGIN ==> r == c.origin
  {
    if c.origin != MINORIGIN then c.origin
    else
      var k := (c.first / c.step).Floor;
      TimesStep(c.first, c.step, k);
      assert c.first - k as real * c.step == Point(c.first, c.step, -k);
      c.first - k as real * c.step
  }

  lemma TimesStep(x: real, step: real, k: int)
    requires step > 0.0 && k == (x / step).Floor
    ensures 0.0 <= x - k as real * step < step
    ensures x - k as real * step == Point(x, step, -k)
  {
    var q := x / step;
    assert q * step == x;
    Between(k as real, q, step);
    Between(q, k as real + 1.0, step);
    assert (k as real + 1.0) * step == k as real * step + step;
    if q == k as real + 1.0 {
      assert false;
    }
    StrictlyBetween(q, k as real + 1.0, step);
    assert (-k) as real == -(k as real);
    assert step * -(k as real) == -(k as real * step);
  }

  lemma Between(a: real, b: real, c: real)
    requires a <= b && c >= 0.0
    ensures a * c <= b * c
  {
    assert (b - a) * c >= 0.0;
    assert (b - a) * c == b * c - a * c;
  }

  lemma StrictlyBetween(a: real, b: real, c: real)
    requires a < b && c > 0.0
    ensures a * c < b * c
  {
    assert (b - a) * c > 0.0;
    assert (b - a) * c == b * c - a * c;
  }

  class Axis {
    var first: real
    var last: real
    var step: real

    /** The axis for a scale from min to max. */
    constructor (c: Configuration, min: real, max: real)
      requires c.kind != Static ==> c.step > 0.0
      requires c.kind == Dynamic ==> min <= max && c.maxtickcount > 0
      ensures c.kind == Static ==> first == c.first && last == c.last && step == c.step
      ensures c.kind == Other ==> step == c.step
      ensures c.kind == Dynamic ==> IsBest(step, c.step, max - min, c.maxtickcount as real)
      ensures c.kind != Static ==> IsLast(last, Origin(c), step, max) && IsFirst(first, Origin(c), step, min)
    {
      hide IsBest, IsLast, IsFirst, Origin;
      first, last, step := c.first, c.last, c.step;
      if c.kind != Static {
        var origin := Origin(c);
        var s := c.step;
        if c.kind == Dynamic {
          s := DynamicStep(c.step, max - min, c.maxtickcount as real);
        }
        step := s;
        last := origin + s * ((max - origin) / s).Floor as real;
        first := origin - s * ((origin - min) / s).Floor as real;
        LastTick(origin, s, max);
        FirstTick(origin, s, min);
      }
    }
  }

  /** The part of the constructor that rescales step. */
  method DynamicStep(configured: real, range: real, m: real) returns (step: real)
    requires configured > 0.0 && m > 0.0 && range >= 0.0
    ensures step > 0.0 && IsBest(step, configured, range, m)
  {
    hide IsBest, Refined, Candidate, Fits, Pow10;
    ProductPositive(configured, m);
    var s := LeastExponent(range / (configured * m));
    step := configured * Pow10(s);
    ProductPositive(configured, Pow10(s));
    ghost var scaled := step;
    if s > 0 {
      step := Refine(step, range, m);
    }
    Chosen(configured, range, m, s, scaled, step);
  }

  lemma ProductPositive(a: real, b: real)
    requires a > 0.0 && b > 0.0
    ensures a * b > 0.0
  {
  }

  method Refine(before: real, range: real, m: real) returns (step: real)
    requires before > 0.0
    ensures step == Refined(before, range, m)
  {
    step := before;
    if 5.0 * range / step < m {
      step := step / 5.0;
    }
    if 2.0 * range / step < m {
      step := step / 2.0;
    }
  }

  /** The two conditionals that make the step smaller again. */
  function Refined(step: real, range: real, m: real): (s: real)
    requires step > 0.0
  {
    var s := if 5.0 * range / step < m then step / 5.0 else step;
    if 2.0 * range / s < m then s / 2.0 else s
  }

  lemma Chosen(configured: real, range: real, m: real, n: nat, v: real, s: real)
    requires configured > 0.0 && m > 0.0 && range >= 0.0 && n == LeastExponent(range / (configured * m))
    requires v == configured * Pow10(n) && v > 0.0 && s == if n > 0 then Refined(v, range, m) else v
    ensures s > 0.0 && IsBest(s, configured, range, m)
  {
    hide IsBest, Refined;
    Reached(configured, range, m, n, v);
    if n == 0 {
      ChosenUnscaled(configured, range, m);
    } else {
      ChosenScaled(configured, range, m, n, configured * Pow10(n - 1), v, s);
    }
  }

  /** What the exponent means for the range. */
  lemma Reached(configured: real, range: real, m: real, n: nat, v: real)
    requires configured > 0.0 && m > 0.0 && n == LeastExponent(range / (configured * m)) && v == configured * Pow10(n)
    ensures range <= m * v
    ensures n > 0 ==> range > m * (configured * Pow10(n - 1))
  {
    var x := range / (configured * m);
    Compared(x, Pow10(n), configured, m, range);
    if n > 0 {
      Compared(x, Pow10(n - 1), configured, m, range);
    }
  }

  lemma Compared(x: real, p: real, c: real, m: real, range: real)
    requires c > 0.0 && m > 0.0 && x == range / (c * m)
    ensures x <= p ==> range <= m * (c * p)
    ensures x > p ==> range > m * (c * p)
  {
    var d := c * m;
    assert d > 0.0 && x * d == range;
    Rearranged(p, c, m, d);
    ComparedProducts(x, p, d, range, m * (c * p));
  }

  lemma ComparedProducts(x: real, p: real, d: real, range: real, e: real)
    requires d > 0.0 && x * d == range && p * d == e
    ensures x <= p ==> range <= e
    ensures x > p ==> range > e
  {
    if x <= p {
      Between(x, p, d);
    } else {
      StrictlyBetween(p, x, d);
    }
  }

  lemma Rearranged(p: real, c: real, m: real, d: real)
    requires d == c * m
    ensures p * d == m * (c * p)
  {
    assert p * (c * m) == (p * c) * m;
  }

  lemma {:induction false} PowersGrow(k: nat, n: nat)
    requires k <= n
    ensures Pow10(k) <= Pow10(n) && (k < n ==> 10.0 * Pow10(k) <= Pow10(n))
  {
    if k < n {
      PowersGrow(k, n - 1);
    }
  }

  lemma ChosenUnscaled(configured: real, range: real, m: real)
    requires configured > 0.0 && m > 0.0 && range <= m * (configured * Pow10(0))
    ensures IsBest(configured, configured, range, m)
  {
    assert configured == Candidate(configured, 1, 0);
    assert Fits(configured, 1, 0, range, m);
    forall x, n: nat | Multiplier(x) ensures configured <= Candidate(configured, x, n) {
      assert x as real * Pow10(n) >= 1.0 by {
        Between(1.0, x as real, Pow10(n));
      }
      Between(1.0, x as real * Pow10(n), configured);
    }
  }

  /** With u = configured * 10^(n-1), which is too small, the choice is 2u, 5u or 10u. */
  lemma ChosenScaled(configured: real, range: real, m: real, n: nat, u: real, v: real, s: real)
    requires configured > 0.0 && m > 0.0 && n > 0 && v > 0.0 && s == Refined(v, range, m)
    requires u == configured * Pow10(n - 1) && v == configured * Pow10(n)
    requires m * u < range <= m * v
    ensures s > 0.0 && IsBest(s, configured, range, m)
  {
    hide Pow10, Refined, Candidate, Fits;
    TenTimes(configured, n, u, v);
    ThreeChoices(u, v, range, m);
    ChosenFits(configured, range, m, n, u, s);
    forall y, k: nat | Multiplier(y) && Fits(configured, y, k, range, m) ensures s <= Candidate(configured, y, k) {
      NoneFiner(configured, range, m, n, u, s, y, k);
    }
  }

  lemma TenTimes(configured: real, n: nat, u: real, v: real)
    requires configured > 0.0 && n > 0 && u == configured * Pow10(n - 1) && v == configured * Pow10(n)
    ensures v == 10.0 * u && u > 0.0
  {
  }

  /** Which of the three, for u and the range. */
  predicate Choice(s: real, u: real, range: real, m: real) {
    if range < m * (2.0 * u) then s == 2.0 * u
    else if range < m * (5.0 * u) then s == 5.0 * u
    else s == 10.0 * u && range <= m * (10.0 * u)
  }

  /** The two conditionals never both take effect. */
  lemma ThreeChoices(u: real, v: real, range: real, m: real)
    requires u > 0.0 && v == 10.0 * u && m > 0.0 && m * u < range <= m * v
    ensures Choice(Refined(v, range, m), u, range, m)
    ensures Refined(v, range, m) > 0.0
  {
    Quotient(range, 5.0, v, m);
    Quotient(range, 2.0, v, m);
    Quotient(range, 2.0, 2.0 * u, m);
  }

  lemma Quotient(range: real, x: real, s: real, m: real)
    requires s > 0.0 && x > 0.0
    ensures x * range / s < m <==> range < m * (s / x)
  {
    var q := x * range / s;
    var d := s / x;
    assert q * s == x * range;
    assert d * x == s;
    assert (q * d) * x == q * s;
    Cancel(q * d, range, x);
    if q < m {
      StrictlyBetween(q, m, d);
    } else {
      Between(m, q, d);
    }
  }

  lemma Cancel(a: real, b: real, x: real)
    requires x > 0.0 && a * x == x * b
    ensures a == b
  {
  }

  lemma CandidatesAt(configured: real, n: nat, u: real)
    requires n > 0 && u == configured * Pow10(n - 1)
    ensures Candidate(configured, 1, n - 1) == u && Candidate(configured, 2, n - 1) == 2.0 * u
    ensures Candidate(configured, 5, n - 1) == 5.0 * u && Candidate(configured, 1, n) == 10.0 * u
  {
  }

  lemma ChosenFits(configured: real, range: real, m: real, n: nat, u: real, s: real)
    requires n > 0 && u == configured * Pow10(n - 1) && Choice(s, u, range, m)
    ensures exists x, k: nat :: Multiplier(x) && Fits(configured, x, k, range, m) && s == Candidate(configured, x, k)
  {
    hide Pow10, Candidate, Fits;
    CandidatesAt(configured, n, u);
    if range < m * (2.0 * u) {
      FitsAt(configured, 2, n - 1, range, m, s);
    } else if range < m * (5.0 * u) {
      FitsAt(configured, 5, n - 1, range, m, s);
    } else {
      FitsAt(configured, 1, n, range, m, s);
    }
  }

  lemma FitsAt(configured: real, x: int, k: nat, range: real, m: real, s: real)
    requires s == Candidate(configured, x, k) && (range < m * s || (x == 1 && range <= m * s))
    ensures Fits(configured, x, k, range, m)
  {
    hide Candidate;
    assert m * s == m * Candidate(configured, x, k);
  }

  lemma NoneFiner(configured: real, range: real, m: real, n: nat, u: real, s: real, y: int, k: nat)
    requires configured > 0.0 && m > 0.0 && n > 0 && u == configured * Pow10(n - 1) && u > 0.0
    requires m * u < range && Choice(s, u, range, m)
    requires Multiplier(y) && Fits(configured, y, k, range, m)
    ensures s <= Candidate(configured, y, k)
  {
    hide Pow10, Candidate, Fits;
    if k >= n {
      Coarser(configured, n, u, y, k);
      AtMostTen(s, u, range, m);
    } else if k == n - 1 {
      SameExponent(configured, range, m, n, u, s, y);
    } else {
      Finer(configured, range, m, n, u, y, k);
      assert false;
    }
  }

  lemma AtMostTen(s: real, u: real, range: real, m: real)
    requires u > 0.0 && Choice(s, u, range, m)
    ensures s <= 10.0 * u
  {
  }

  lemma Coarser(configured: real, n: nat, u: real, y: int, k: nat)
    requires configured > 0.0 && 0 < n <= k && y >= 1 && u == configured * Pow10(n - 1)
    ensures 10.0 * u <= Candidate(configured, y, k)
  {
    PowersGrow(n - 1, k);
    Between(1.0, y as real, Pow10(k));
    var p, q := 10.0 * Pow10(n - 1), y as real * Pow10(k);
    Between(p, q, configured);
    assert p * configured == 10.0 * u;
  }

  lemma SameExponent(configured: real, range: real, m: real, n: nat, u: real, s: real, y: int)
    requires n > 0 && Multiplier(y) && Fits(configured, y, n - 1, range, m)
    requires u == configured * Pow10(n - 1) && u > 0.0 && m * u < range && Choice(s, u, range, m)
    ensures s <= Candidate(configured, y, n - 1)
  {
    hide Pow10, Candidate, Choice;
    CandidatesAt(configured, n, u);
    SameChoice(Candidate(configured, y, n - 1), u, range, m, s, y);
  }

  lemma SameChoice(c: real, u: real, range: real, m: real, s: real, y: int)
    requires Multiplier(y) && c == y as real * u && (range < m * c || (y == 1 && range == m * c))
    requires m * u < range && Choice(s, u, range, m) && u > 0.0
    ensures s <= c
  {
    if y == 2 {
      assert c == 2.0 * u;
      assert m * c == m * (2.0 * u);
    } else if y == 5 {
      assert c == 5.0 * u;
      assert m * c == m * (5.0 * u);
    }
  }

  lemma Finer(configured: real, range: real, m: real, n: nat, u: real, y: int, k: nat)
    requires configured > 0.0 && m > 0.0 && k < n - 1 && Multiplier(y)
    requires u == configured * Pow10(n - 1) && m * u < range
    ensures !Fits(configured, y, k, range, m)
  {
    PowersGrow(k, n - 1);
    Between(y as real, 10.0, Pow10(k));
    var p, q := y as real * Pow10(k), Pow10(n - 1);
    Between(p, q, configured);
    var c := Candidate(configured, y, k);
    assert c <= u;
    Between(c, u, m);
  }

  lemma LastTick(origin: real, step: real, max: real)
    requires step > 0.0
    ensures IsLast(origin + step * ((max - origin) / step).Floor as real, origin, step, max)
  {
    var k := ((max - origin) / step).Floor;
    TimesStep(max - origin, step, k);
    assert origin + step * k as real == Point(origin, step, k);
  }

  lemma FirstTick(origin: real, step: real, min: real)
    requires step > 0.0
    ensures IsFirst(origin - step * ((origin - min) / step).Floor as real, origin, step, min)
  {
    var k := ((origin - min) / step).Floor;
    TimesStep(origin - min, step, k);
    assert origin - step * k as real == Point(origin, step, -k);
  }

  // ----- what the choice means for the ticks -----

  /** The range never holds more than max steps, and any finer candidate gives at least max. */
  lemma StepWithinBound(step: real, configured: real, range: real, m: real)
    requires configured > 0.0 && m > 0.0 && step > 0.0 && IsBest(step, configured, range, m)
    ensures range / step <= m
    ensures forall x, n: nat :: Multiplier(x) && 0.0 < Candidate(configured, x, n) < step ==>
              range / Candidate(configured, x, n) >= m
  {
    hide Candidate, Pow10;
    var x, n: nat :| Multiplier(x) && Fits(configured, x, n, range, m) && step == Candidate(configured, x, n);
    AtMost(range, step, m);
    forall x, n: nat | Multiplier(x) && 0.0 < Candidate(configured, x, n) < step
      ensures range / Candidate(configured, x, n) >= m
    {
      assert !Fits(configured, x, n, range, m);
      AtMost(range, Candidate(configured, x, n), m);
    }
  }

  lemma AtMost(range: real, c: real, m: real)
    requires c > 0.0
    ensures range <= m * c ==> range / c <= m
    ensures range >= m * c ==> range / c >= m
  {
    var q := range / c;
    assert q * c == range;
    if q > m {
      StrictlyBetween(m, q, c);
    } else if q < m {
      StrictlyBetween(q, m, c);
    }
  }

  /** From three ticks on, a step that was made coarser still fits into the range. */
  lemma RangeReachesStep(step: real, configured: real, range: real, m: real)
    requires configured > 0.0 && m >= 3.0 && IsBest(step, configured, range, m) && step != configured
    ensures range >= step > 0.0
  {
    hide Fits;
    var x, n: nat :| Multiplier(x) && Fits(configured, x, n, range, m) && step == Candidate(configured, x, n);
    Between(1.0, x as real, Pow10(n));
    ProductPositive(configured, x as real * Pow10(n));
    var y, k := Previous(configured, x, n);
    assert !Fits(configured, y, k, range, m);
    NotFitting(configured, y, k, range, m, step);
  }

  /** The next finer candidate is at least two fifths of a step. */
  lemma Previous(configured: real, x: int, n: nat) returns (y: int, k: nat)
    requires configured > 0.0 && Multiplier(x) && Candidate(configured, x, n) != configured
    ensures Multiplier(y)
    ensures 2.0 * Candidate(configured, x, n) <= 5.0 * Candidate(configured, y, k)
    ensures Candidate(configured, y, k) < Candidate(configured, x, n)
  {
    var u := configured * Pow10(n);
    assert u > 0.0 by {
      ProductPositive(configured, Pow10(n));
    }
    CandidatesAt(configured, n + 1, u);
    if x == 1 {
      CandidatesAt(configured, n, configured * Pow10(n - 1));
      y, k := 5, n - 1;
    } else if x == 2 {
      y, k := 1, n;
    } else {
      y, k := 2, n;
    }
  }

  lemma NotFitting(configured: real, y: int, k: nat, range: real, m: real, step: real)
    requires m >= 3.0 && step > 0.0 && !Fits(configured, y, k, range, m)
    requires 2.0 * step <= 5.0 * Candidate(configured, y, k)
    ensures range >= step
  {
    hide Candidate;
    var c := Candidate(configured, y, k);
    Between(3.0, m, c);
  }

  /** The first tick is not beyond the last exactly when some tick lies in the range. */
  lemma TicksInside(origin: real, step: real, min: real, max: real, first: real, last: real)
    requires step > 0.0 && IsFirst(first, origin, step, min) && IsLast(last, origin, step, max)
    ensures min <= first <= last <= max <==> exists k :: min <= Point(origin, step, k) <= max
    ensures max - min >= step ==> min <= first <= last <= max
  {
    var f :| first == Point(origin, step, f);
    var l :| last == Point(origin, step, l);
    if first <= last {
      assert min <= Point(origin, step, f) <= max;
    }
    if k :| min <= Point(origin, step, k) <= max {
      NoneBefore(origin, step, k, f);
      NoneBefore(origin, step, l, k);
    }
    if max - min >= step {
      NoneBefore(origin, step, l, f - 1);
    }
  }

  /** Ticks less than a step apart or in order are in the order of their numbers. */
  lemma NoneBefore(origin: real, step: real, a: int, b: int)
    requires step > 0.0
    ensures Point(origin, step, b) < Point(origin, step, a) + step ==>
              b <= a && Point(origin, step, b) <= Point(origin, step, a)
    ensures Point(origin, step, b) == Point(origin, step, a) + step * (b - a) as real
  {
    assert step * (b - a) as real == step * b as real - step * a as real;
    if b <= a {
      Between(b as real, a as real, step);
    } else {
      Between(a as real + 1.0, b as real, step);
      assert (a as real + 1.0) * step == a as real * step + step;
    }
  }

  /** One tick more than max is drawn exactly when max steps fill the range from a tick at its lower end. */
  lemma TickCount(origin: real, step: real, min: real, max: real, f: int, l: int, m: int)
    requires step > 0.0 && max - min <= m as real * step
    requires IsFirst(Point(origin, step, f), origin, step, min) && IsLast(Point(origin, step, l), origin, step, max)
    ensures l - f + 1 <= m + 1
    ensures l - f + 1 == m + 1 <==> max - min == m as real * step && Point(origin, step, f) == min
  {
    FewerTicks(origin, step, min, max, f, l, m);
    if max - min == m as real * step && Point(origin, step, f) == min {
      MoreTicks(origin, step, max, f, l, m);
    }
  }

  lemma FewerTicks(origin: real, step: real, min: real, max: real, f: int, l: int, m: int)
    requires step > 0.0 && max - min <= m as real * step
    requires min <= Point(origin, step, f) && Point(origin, step, l) <= max
    ensures l - f <= m
    ensures l - f == m ==> max - min == m as real * step && Point(origin, step, f) == min
  {
    hide Point;
    NoneBefore(origin, step, f, l);
    if l - f > m {
      StrictlyBetween(m as real, (l - f) as real, step);
      assert false;
    }
  }

  lemma MoreTicks(origin: real, step: real, max: real, f: int, l: int, m: int)
    requires step > 0.0 && max == Point(origin, step, f) + m as real * step < Point(origin, step, l) + step
    ensures l - f >= m
  {
    hide Point;
    NoneBefore(origin, step, f, f + m);
    NoneBefore(origin, step, l, f + m);
  }

  /** With at most ten ticks configured, an axis from 0 to 10 keeps its step of 1 and gets ticks 0 to 10. */
  lemma ElevenTicks()
    ensures IsBest(1.0, 1.0, 10.0, 10.0)
    ensures IsFirst(Point(0.0, 1.0, 0), 0.0, 1.0, 0.0) && IsLast(Point(0.0, 1.0, 10), 0.0, 1.0, 10.0)
  {
    hide IsBest;
    ChosenUnscaled(1.0, 10.0, 10.0);
  }
}
