/** The interpreter of data expressions over time series (lib/Dataset.cc). */
module Dataset {
  import Division
  import opened Wrappers
  import opened Series

  /**
    An element of the expression tree with its attributes and element children; hollow says of a data
    node that it has no children at all, not even text.
   */
  datatype Expr =
    | Data(hollow: bool, children: seq<Expr>)
    | Const(attr: Option<real>)
    | Value(name: Option<string>)
    | Function(name: Option<string>, limit: Option<real>, children: seq<Expr>)
    | Function2(name: Option<string>, children: seq<Expr>)
    | Sum(children: seq<Expr>)
    | Mult(children: seq<Expr>)
    | Diff(children: seq<Expr>)
    | Quot(children: seq<Expr>)
    | Other

  /** The scalar functions of the C library and of the weather formulas, by name. */
  datatype Library = Library(unary: string -> Unary, binary: string -> Binary)

  function Plus(x: real, y: real): Option<real> {
    Some(x + y)
  }

  function Minus(x: real, y: real): Option<real> {
    Some(x - y)
  }

  function Product(x: real, y: real): Option<real> {
    Some(x * y)
  }

  function Quotient(x: real, y: real): Option<real> {
    if y == 0.0 then None else Some(x / y)
  }

  function Larger(x: real, y: real): Option<real> {
    Some(if x > y then x else y)
  }

  function Smaller(x: real, y: real): Option<real> {
    Some(if x < y then x else y)
  }

  /** The operator of a function node: one applied sample by sample, or accumulate. */
  datatype UnaryChoice = Pointwise(f: Unary) | Accumulation | LimitMissing | UnknownName

  function ChooseUnary(lib: Library, name: Option<string>, limit: Option<real>): UnaryChoice {
    if name.None? then UnknownName
    else if name.value == "sqr" then Pointwise(x => Some(x * x))
    else if name.value in {"sqrt", "sin", "cos", "tan"} then Pointwise(lib.unary(name.value))
    else if name.value == "ceil" then
      if limit.None? then LimitMissing
      else Pointwise(x => Some(if x < limit.value then x else limit.value))
    else if name.value == "floor" then
      if limit.None? then LimitMissing
      else Pointwise(x => Some(if x < limit.value then limit.value else x))
    else if name.value == "accumulate" then Accumulation
    else UnknownName
  }

  function ChooseBinary(lib: Library, name: Option<string>): Option<Binary> {
    if name.None? then None
    else if name.value == "max" then Some(Larger)
    else if name.value == "min" then Some(Smaller)
    else if name.value in {"atan2", "azi", "hypot", "dewpoint", "heatindex", "windchill"} then
      Some(lib.binary(name.value))
    else None
  }

  type Names = map<string, Tdata>

  ghost predicate ProperNames(names: Names) {
    forall n :: n in names ==> Proper(names[n])
  }

  // ----- pointwise meaning, the reference -----

  /** Whether an expression denotes a constant: it does when no series is below it. */
  predicate IsConstant(env: Names, e: Expr) {
    match e
    case Const(_) => true
    case Value(name) => name.Some? && name.value in env && env[name.value].Constant?
    case Data(_, cs) => |cs| > 0 && IsConstant(env, cs[0])
    case Function2(_, _) | Diff(_) | Quot(_) =>
      |e.children| > 1 && IsConstant(env, e.children[0]) && IsConstant(env, e.children[1])
    case _ => false
  }

  function Bind2(f: Binary, x: Option<real>, y: Option<real>): Option<real> {
    if x.Some? && y.Some? then f(x.value, y.value) else None
  }

  function ValueAt(d: Tdata, t: int): Option<real> {
    if d.Constant? then Some(d.value) else if t in d.data then Some(d.data[t]) else None
  }

  /** The interval and range of a series. */
  datatype Span = Span(interval: int, start: int, finish: int)

  function SpanOf(d: Tdata): Span
    requires d.Samples?
  {
    Span(d.interval, d.start, d.finish)
  }

  function AlignedSpan(s: Span): Span
    requires s.interval > 0
  {
    Span(s.interval, Aligned(s.start, s.interval), Aligned(s.finish, s.interval))
  }

  function Hull(a: Span, b: Span): Span {
    Span(a.interval, Min(a.start, b.start), Max(a.finish, b.finish))
  }

  predicate Within(s: Span, t: int) {
    s.start <= t <= s.finish
  }

  const NO_SPAN := Span(1, 0, 0)

  /** The interval and range of the series an expression denotes. */
  function RangeOf(env: Names, e: Expr): (s: Span)
    requires ProperNames(env)
    ensures s.interval > 0
  {
    match e
    case Value(name) =>
      if name.Some? && name.value in env && env[name.value].Samples? then SpanOf(env[name.value]) else NO_SPAN
    case Data(_, cs) => if |cs| > 0 then RangeOf(env, cs[0]) else NO_SPAN
    case Function(_, _, cs) => if |cs| > 0 then AlignedSpan(RangeOf(env, cs[0])) else NO_SPAN
    case Function2(_, _) | Diff(_) | Quot(_) =>
      if |e.children| < 2 then NO_SPAN
      else if IsConstant(env, e.children[0]) then AlignedSpan(RangeOf(env, e.children[1]))
      else if IsConstant(env, e.children[1]) then AlignedSpan(RangeOf(env, e.children[0]))
      else AlignedSpan(Hull(RangeOf(env, e.children[0]), RangeOf(env, e.children[1])))
    case _ => NO_SPAN
  }

  /** The operator of a binary node. */
  function Operator(lib: Library, e: Expr): Option<Binary> {
    match e
    case Function2(name, _) => ChooseBinary(lib, name)
    case Diff(_) => Some(Minus)
    case Quot(_) => Some(Quotient)
    case _ => None
  }

  /**
    How operator nodes are read: with swapped set, an operator whose second operand alone is constant
    takes its operands in the opposite order; with ranged set, two series meet only in the hull of their
    ranges.
   */
  datatype Reading = Reading(swapped: bool, ranged: bool)

  const WRITTEN := Reading(false, false)
  const COMPUTED := Reading(true, true)

  /** The place of t on the grid of a series. */
  function GridPlace(s: Span, t: int): (k: Option<nat>)
    requires s.interval > 0
    ensures k.Some? ==> Within(s, t)
  {
    var n := GridCount(s.start, s.finish, s.interval);
    var k := GridIndex(t, s.start, s.interval, n);
    if k.Some? then GridWithin(s.start, s.finish, s.interval, k.value); k else k
  }

  /** The value of an expression at time t. */
  function At(lib: Library, env: Names, e: Expr, t: int, how: Reading): Option<real>
    requires ProperNames(env)
    decreases e, 1, 0
  {
    match e
    case Const(v) => v
    case Value(name) => if name.Some? && name.value in env then ValueAt(env[name.value], t) else None
    case Data(_, cs) => if |cs| > 0 then At(lib, env, cs[0], t, how) else None
    case Function(_, _, cs) => At1(lib, env, e, cs, t, how)
    case Function2(_, _) | Diff(_) | Quot(_) => At2(lib, env, e, e.children, t, how)
    case _ => None
  }

  /** accumulate has, at every grid time, the sum of all values up to it. */
  function At1(lib: Library, env: Names, e: Expr, cs: seq<Expr>, t: int, how: Reading): Option<real>
    requires ProperNames(env) && e.Function? && cs == e.children
    decreases e, 0, 0
  {
    if |cs| == 0 then None
    else
      match ChooseUnary(lib, e.name, e.limit)
      case Pointwise(f) =>
        var x := At(lib, env, cs[0], t, how);
        if x.Some? then f(x.value) else None
      case Accumulation =>
        var s := RangeOf(env, cs[0]);
        var k := GridPlace(s, t);
        if IsConstant(env, cs[0]) || k.None? then None else Some(SumOf(lib, env, cs[0], s, k.value + 1, how))
      case _ => None
  }

  /** The sum of the values at the first n times of a grid. */
  function SumOf(lib: Library, env: Names, e: Expr, s: Span, n: nat, how: Reading): real
    requires ProperNames(env)
    decreases e, 2, n
  {
    if n == 0 then 0.0
    else
      SumOf(lib, env, e, s, n - 1, how) +
      ValueOr0(At(lib, env, e, GridTime(s.start, s.interval, n - 1), how))
  }

  function ValueOr0(x: Option<real>): real {
    if x.Some? then x.value else 0.0
  }

  function At2(lib: Library, env: Names, e: Expr, cs: seq<Expr>, t: int, how: Reading): Option<real>
    requires ProperNames(env) && (e.Function2? || e.Diff? || e.Quot?) && cs == e.children
    decreases e, 0, 0
  {
    var f := Operator(lib, e);
    if f.None? || |cs| < 2 || (how.ranged && !Meet(env, cs[0], cs[1], t)) then None
    else
      var x, y := At(lib, env, cs[0], t, how), At(lib, env, cs[1], t, how);
      if how.swapped && Swaps(env, cs[0], cs[1]) then Bind2(f.value, y, x) else Bind2(f.value, x, y)
  }

  /** Two series are combined only in the hull of their ranges. */
  predicate Meet(env: Names, a: Expr, b: Expr, t: int)
    requires ProperNames(env)
  {
    IsConstant(env, a) || IsConstant(env, b) || Within(Hull(RangeOf(env, a), RangeOf(env, b)), t)
  }

  predicate Swaps(env: Names, a: Expr, b: Expr) {
    !IsConstant(env, a) && IsConstant(env, b)
  }

  // ----- the interpreter -----

  /** What processNode returns for a tree. */
  function Evaluate(lib: Library, env: Names, e: Expr): (r: Outcome)
    requires ProperNames(env)
    ensures r.Ok? ==> Proper(r.tdata)
  {
    match e
    case Data(hollow, cs) =>
      if hollow then Thrown else if |cs| == 0 then Undefined else Evaluate(lib, env, cs[0])
    case Const(v) => if v.None? then Thrown else Ok(Constant(v.value))
    case Value(name) =>
      if name.None? || name.value !in env then Thrown else Ok(env[name.value])
    case Function(name, limit, cs) =>
      if |cs| == 0 then Undefined
      else
        var d := Evaluate(lib, env, cs[0]);
        if !d.Ok? then d else ApplyChoice(ChooseUnary(lib, name, limit), d.tdata)
    case Function2(name, cs) =>
      if |cs| == 0 then Undefined
      else
        var a := Evaluate(lib, env, cs[0]);
        if !a.Ok? then a
        else if |cs| == 1 then Undefined
        else
          var b := Evaluate(lib, env, cs[1]);
          if !b.Ok? then b
          else if ChooseBinary(lib, name).None? then Thrown
          else Combined(ChooseBinary(lib, name).value, a.tdata, b.tdata)
    case Diff(cs) =>
      if |cs| < 2 then Undefined
      else
        var a, b := Evaluate(lib, env, cs[0]), Evaluate(lib, env, cs[1]);
        if !a.Ok? then a else if !b.Ok? then b else Combined(Minus, a.tdata, b.tdata)
    case Quot(cs) =>
      if |cs| < 2 then Undefined
      else
        var a, b := Evaluate(lib, env, cs[0]), Evaluate(lib, env, cs[1]);
        if !a.Ok? then a else if !b.Ok? then b else Combined(Quotient, a.tdata, b.tdata)
    case Sum(cs) => Fold(lib, env, cs)
    case Mult(cs) => Fold(lib, env, cs)
    case Other => Thrown
  }

  /** sum and mult evaluate their children, and then end in the throw for unknown nodes. */
  function Fold(lib: Library, env: Names, cs: seq<Expr>): (r: Outcome)
    requires ProperNames(env)
    ensures !r.Ok?
  {
    if cs == [] then Thrown
    else
      var d := Evaluate(lib, env, cs[0]);
      if d.Ok? then Fold(lib, env, cs[1..]) else d
  }

  function ApplyChoice(c: UnaryChoice, d: Tdata): (r: Outcome)
    requires Proper(d)
    ensures r.Ok? ==> Proper(r.tdata)
  {
    match c
    case Pointwise(f) =>
      if d.Constant? then Undefined
      else Ok(Filled(d.interval, d.start, d.finish, Mapped(f, d.data)))
    case Accumulation =>
      if d.Constant? then Undefined else Ok(Accumulated(d))
    case _ => Thrown
  }

  /** processNode: recursion over the tree, with the loops of sum and mult. */
  method ProcessNode(lib: Library, env: Names, e: Expr) returns (r: Outcome)
    requires ProperNames(env)
    ensures r == Evaluate(lib, env, e)
    decreases e, 1
  {
    match e
    case Data(hollow, cs) =>
      if hollow {
        return Thrown;
      }
      if |cs| == 0 {
        return Undefined;
      }
      r := ProcessNode(lib, env, cs[0]);
    case Const(v) =>
      r := if v.None? then Thrown else Ok(Constant(v.value));
    case Value(name) =>
      r := if name.None? || name.value !in env then Thrown else Ok(env[name.value]);
    case Function(name, limit, cs) =>
      if |cs| == 0 {
        return Undefined;
      }
      r := ProcessNode(lib, env, cs[0]);
      if r.Ok? {
        r := ApplyNamed(ChooseUnary(lib, name, limit), r.tdata);
      }
    case Function2(name, cs) =>
      if |cs| == 0 {
        return Undefined;
      }
      var a := ProcessNode(lib, env, cs[0]);
      if !a.Ok? {
        return a;
      }
      if |cs| == 1 {
        return Undefined;
      }
      var b := ProcessNode(lib, env, cs[1]);
      if !b.Ok? {
        return b;
      }
      if ChooseBinary(lib, name).None? {
        return Thrown;
      }
      r := Apply2(ChooseBinary(lib, name).value, a.tdata, b.tdata);
    case Sum(cs) =>
      r := FoldChildren(lib, env, e, cs, Plus);
    case Mult(cs) =>
      r := FoldChildren(lib, env, e, cs, Product);
    case Diff(cs) =>
      r := ProcessPair(lib, env, e, cs, Minus);
    case Quot(cs) =>
      r := ProcessPair(lib, env, e, cs, Quotient);
    case Other =>
      r := Thrown;
  }

  method ApplyNamed(c: UnaryChoice, d: Tdata) returns (r: Outcome)
    requires Proper(d)
    ensures r == ApplyChoice(c, d)
  {
    match c
    case Pointwise(f) =>
      if d.Constant? {
        return Undefined;
      }
      var mapped := Apply(f, d);
      r := Ok(mapped);
    case Accumulation =>
      if d.Constant? {
        return Undefined;
      }
      var sums := Accumulate(d);
      r := Ok(sums);
    case _ =>
      r := Thrown;
  }

  method ProcessPair(lib: Library, env: Names, e: Expr, cs: seq<Expr>, f: Binary) returns (r: Outcome)
    requires ProperNames(env) && (e.Diff? || e.Quot?) && cs == e.children
    requires f == if e.Diff? then Minus else Quotient
    ensures r == Evaluate(lib, env, e)
    decreases e, 0
  {
    if |cs| < 2 {
      return Undefined;
    }
    var a := ProcessNode(lib, env, cs[0]);
    if !a.Ok? {
      return a;
    }
    var b := ProcessNode(lib, env, cs[1]);
    if !b.Ok? {
      return b;
    }
    r := Apply2(f, a.tdata, b.tdata);
  }

  /** The total of a sum or mult node is computed, and then dropped by the throw at the end. */
  method FoldChildren(lib: Library, env: Names, e: Expr, cs: seq<Expr>, f: Binary) returns (r: Outcome)
    requires ProperNames(env) && (e.Sum? || e.Mult?) && cs == e.children
    requires forall x, y :: f(x, y).Some?
    ensures r == Evaluate(lib, env, e)
    decreases e, 0
  {
    var total: Option<Tdata> := None;
    var i := 0;
    while i < |cs|
      invariant 0 <= i <= |cs|
      invariant total.Some? ==> Proper(total.value)
      invariant Fold(lib, env, cs) == Fold(lib, env, cs[i..])
    {
      var d := ProcessNode(lib, env, cs[i]);
      assert cs[i..][1..] == cs[i + 1..];
      if !d.Ok? {
        return d;
      }
      if total.None? {
        total := Some(d.tdata);
      } else {
        var next := Apply2(f, total.value, d.tdata);
        total := Some(next.tdata);
      }
      i := i + 1;
    }
    r := Thrown;
  }

  // ----- evaluation is pointwise -----

  /** The range of what apply2 makes of two operands that are not both constant. */
  function CombinedSpan(a: Tdata, b: Tdata): Span
    requires Proper(a) && Proper(b) && !(a.Constant? && b.Constant?)
  {
    if a.Constant? then AlignedSpan(SpanOf(b))
    else if b.Constant? then AlignedSpan(SpanOf(a))
    else AlignedSpan(Hull(SpanOf(a), SpanOf(b)))
  }

  /** Combining is pointwise: a constant second operand goes first, and two series meet in their hull. */
  lemma CombinedPointwise(f: Binary, a: Tdata, b: Tdata)
    requires Proper(a) && Proper(b)
    ensures var r := Combined(f, a, b);
            (r.Ok? <==> (a.Constant? && b.Constant? ==> f(a.value, b.value).Some?)) && !r.Undefined? &&
            (r.Ok? ==>
               (r.tdata.Constant? <==> a.Constant? && b.Constant?) &&
               (r.tdata.Samples? ==> SpanOf(r.tdata) == CombinedSpan(a, b)))
    ensures var r := Combined(f, a, b);
            r.Ok? ==>
              forall t ::
                ValueAt(r.tdata, t) ==
                (if a.Samples? && b.Constant? then Bind2(f, ValueAt(b, t), ValueAt(a, t))
                 else if a.Samples? && b.Samples? && !Within(Hull(SpanOf(a), SpanOf(b)), t) then None
                 else Bind2(f, ValueAt(a, t), ValueAt(b, t)))
  {
  }

  /**
    The trees that evaluate: names and attributes are there, no sum or mult, no unary function of a
    constant, and no operator throws on two constants.
   */
  predicate Evaluates(lib: Library, env: Names, e: Expr)
    requires ProperNames(env)
    decreases e, 1
  {
    match e
    case Const(v) => v.Some?
    case Value(name) => name.Some? && name.value in env
    case Data(hollow, cs) => !hollow && |cs| > 0 && Evaluates(lib, env, cs[0])
    case Function(name, limit, cs) =>
      |cs| > 0 && Evaluates(lib, env, cs[0]) && !IsConstant(env, cs[0]) &&
      (ChooseUnary(lib, name, limit).Pointwise? || ChooseUnary(lib, name, limit).Accumulation?)
    case Function2(_, _) | Diff(_) | Quot(_) => Evaluates2(lib, env, e, e.children)
    case _ => false
  }

  predicate Evaluates2(lib: Library, env: Names, e: Expr, cs: seq<Expr>)
    requires ProperNames(env) && (e.Function2? || e.Diff? || e.Quot?) && cs == e.children
    decreases e, 0
  {
    |cs| > 1 && Evaluates(lib, env, cs[0]) && Evaluates(lib, env, cs[1]) && Operator(lib, e).Some? &&
    (IsConstant(env, e) ==> At(lib, env, e, 0, COMPUTED).Some?)
  }

  /**
    What the theorem says of one tree: it evaluates exactly when Evaluates holds, and then the result
    has the range of the expression, a sample at t exactly when the expression has a value at t, and
    that value.
   */
  ghost predicate CommutesWithTime(lib: Library, env: Names, e: Expr)
    requires ProperNames(env)
  {
    var r := Evaluate(lib, env, e);
    (r.Ok? <==> Evaluates(lib, env, e)) &&
    (r.Ok? ==>
       (r.tdata.Constant? <==> IsConstant(env, e)) &&
       (r.tdata.Samples? ==> SpanOf(r.tdata) == RangeOf(env, e)) &&
       forall t :: ValueAt(r.tdata, t) == At(lib, env, e, t, COMPUTED))
  }

  /** When a binary node evaluates, and to what. */
  lemma BinaryOutcome(lib: Library, env: Names, e: Expr, cs: seq<Expr>)
    requires ProperNames(env) && (e.Function2? || e.Diff? || e.Quot?) && cs == e.children && |cs| > 1
    ensures var a, b, f := Evaluate(lib, env, cs[0]), Evaluate(lib, env, cs[1]), Operator(lib, e);
            if a.Ok? && b.Ok? && f.Some? then Evaluate(lib, env, e) == Combined(f.value, a.tdata, b.tdata)
            else !Evaluate(lib, env, e).Ok?
  {
    hide ChooseUnary, ChooseBinary, Combined;
  }

  lemma TooFewOperands(lib: Library, env: Names, e: Expr, cs: seq<Expr>)
    requires ProperNames(env) && (e.Function2? || e.Diff? || e.Quot?) && cs == e.children && |cs| < 2
    ensures !Evaluate(lib, env, e).Ok? && !Evaluates(lib, env, e)
  {
    hide ChooseUnary, ChooseBinary, Combined;
    assert Evaluates(lib, env, e) == Evaluates2(lib, env, e, cs);
  }

  lemma BinaryAt(lib: Library, env: Names, e: Expr, cs: seq<Expr>, t: int)
    requires ProperNames(env) && (e.Function2? || e.Diff? || e.Quot?) && cs == e.children && |cs| > 1
    ensures At(lib, env, e, t, COMPUTED) == At2(lib, env, e, cs, t, COMPUTED)
  {
    hide At2;
  }

  lemma BinaryPointwise(lib: Library, env: Names, e: Expr, cs: seq<Expr>)
    requires ProperNames(env) && (e.Function2? || e.Diff? || e.Quot?) && cs == e.children
    requires |cs| > 1 && CommutesWithTime(lib, env, cs[0]) && CommutesWithTime(lib, env, cs[1])
    ensures CommutesWithTime(lib, env, e)
  {
    hide ChooseUnary, ChooseBinary, AlignedSpan, Combined, Evaluate, At, Operator;
    BinaryOutcome(lib, env, e, cs);
    var a, b := Evaluate(lib, env, cs[0]), Evaluate(lib, env, cs[1]);
    var f := Operator(lib, e);
    assert Evaluates(lib, env, e) == Evaluates2(lib, env, e, cs);
    assert IsConstant(env, e) <==> IsConstant(env, cs[0]) && IsConstant(env, cs[1]);
    if a.Ok? && b.Ok? && f.Some? {
      CombinedPointwise(f.value, a.tdata, b.tdata);
      forall t ensures At(lib, env, e, t, COMPUTED) == At2(lib, env, e, cs, t, COMPUTED) {
        BinaryAt(lib, env, e, cs, t);
      }
      assert ValueAt(a.tdata, 0) == At(lib, env, cs[0], 0, COMPUTED);
      assert ValueAt(b.tdata, 0) == At(lib, env, cs[1], 0, COMPUTED);
    }
  }

  lemma {:induction false} SumsAgree(lib: Library, env: Names, e: Expr, a: Tdata, n: nat)
    requires ProperNames(env) && a.Samples? && forall t :: ValueAt(a, t) == At(lib, env, e, t, COMPUTED)
    ensures GridSum(a.data, a.start, a.interval, n) == SumOf(lib, env, e, SpanOf(a), n, COMPUTED)
  {
    hide At;
    if n > 0 {
      SumsAgree(lib, env, e, a, n - 1);
      var t := GridTime(a.start, a.interval, n - 1);
      assert ValueAt(a, t) == At(lib, env, e, t, COMPUTED);
      SampleIsValue(a, t);
    }
  }

  lemma SampleIsValue(a: Tdata, t: int)
    requires a.Samples?
    ensures SampleOr0(a.data, t) == ValueOr0(ValueAt(a, t))
  {
  }

  /** What accumulate leaves at each time. */
  lemma AccumulatedPointwise(lib: Library, env: Names, e: Expr, a: Tdata, t: int)
    requires ProperNames(env) && a.Samples? && a.interval > 0
    requires forall t :: ValueAt(a, t) == At(lib, env, e, t, COMPUTED)
    ensures var k := GridPlace(SpanOf(a), t);
            ValueAt(Accumulated(a), t) ==
            if k.None? then None else Some(SumOf(lib, env, e, SpanOf(a), k.value + 1, COMPUTED))
  {
    hide At, GridSum, RunningSums, GridCount;
    var n := GridCount(a.start, a.finish, a.interval);
    RunningSumsAt(a.data, a.start, a.interval, n);
    var k := GridIndex(t, a.start, a.interval, n);
    if k.Some? {
      SumsAgree(lib, env, e, a, k.value + 1);
    }
  }

  lemma UnaryPointwise(lib: Library, env: Names, e: Expr, cs: seq<Expr>)
    requires ProperNames(env) && e.Function? && cs == e.children && |cs| > 0 && CommutesWithTime(lib, env, cs[0])
    ensures CommutesWithTime(lib, env, e)
  {
    hide ChooseUnary, AlignedSpan, Accumulated, Mapped, GridPlace;
    var d := Evaluate(lib, env, cs[0]);
    UnaryStatus(lib, env, e, cs);
    if Evaluate(lib, env, e).Ok? {
      UnaryRange(lib, env, e, cs);
      forall t ensures ValueAt(Evaluate(lib, env, e).tdata, t) == At(lib, env, e, t, COMPUTED) {
        UnaryValue(lib, env, e, cs, t);
      }
    }
  }

  lemma UnaryStatus(lib: Library, env: Names, e: Expr, cs: seq<Expr>)
    requires ProperNames(env) && e.Function? && cs == e.children && |cs| > 0 && CommutesWithTime(lib, env, cs[0])
    ensures Evaluate(lib, env, e).Ok? <==> Evaluates(lib, env, e)
    ensures Evaluate(lib, env, e).Ok? ==>
              Evaluate(lib, env, cs[0]).Ok? && Evaluate(lib, env, cs[0]).tdata.Samples? &&
              Evaluate(lib, env, e) == ApplyChoice(ChooseUnary(lib, e.name, e.limit), Evaluate(lib, env, cs[0]).tdata)
    ensures !IsConstant(env, e)
  {
    hide ChooseUnary, Accumulated, Mapped, Filled, RangeOf, At;
  }

  lemma UnaryRange(lib: Library, env: Names, e: Expr, cs: seq<Expr>)
    requires ProperNames(env) && e.Function? && cs == e.children && |cs| > 0 && CommutesWithTime(lib, env, cs[0])
    requires Evaluate(lib, env, e).Ok?
    ensures Evaluate(lib, env, e).tdata.Samples? && SpanOf(Evaluate(lib, env, e).tdata) == RangeOf(env, e)
  {
    hide ChooseUnary, RunningSums, Mapped, Aligned, At;
    UnaryStatus(lib, env, e, cs);
  }

  lemma UnaryValue(lib: Library, env: Names, e: Expr, cs: seq<Expr>, t: int)
    requires ProperNames(env) && e.Function? && cs == e.children && |cs| > 0 && CommutesWithTime(lib, env, cs[0])
    requires Evaluate(lib, env, e).Ok?
    ensures ValueAt(Evaluate(lib, env, e).tdata, t) == At(lib, env, e, t, COMPUTED)
  {
    hide ChooseUnary, Accumulated, Aligned, GridPlace, SumOf, RangeOf;
    UnaryStatus(lib, env, e, cs);
    var d := Evaluate(lib, env, cs[0]).tdata;
    assert At(lib, env, e, t, COMPUTED) == At1(lib, env, e, cs, t, COMPUTED);
    assert ValueAt(d, t) == At(lib, env, cs[0], t, COMPUTED);
    if ChooseUnary(lib, e.name, e.limit).Accumulation? {
      AccumulatedPointwise(lib, env, cs[0], d, t);
    }
  }

  /** Evaluating over whole series commutes with evaluating at each time. */
  lemma {:induction false} EvaluatesPointwise(lib: Library, env: Names, e: Expr)
    requires ProperNames(env)
    ensures CommutesWithTime(lib, env, e)
    decreases e
  {
    hide ChooseUnary, ChooseBinary, Combined, AlignedSpan, ApplyChoice;
    match e
    case Data(_, cs) =>
      if |cs| > 0 {
        EvaluatesPointwise(lib, env, cs[0]);
      }
    case Function(_, _, cs) =>
      if |cs| > 0 {
        EvaluatesPointwise(lib, env, cs[0]);
        UnaryPointwise(lib, env, e, cs);
      }
    case Function2(_, _) | Diff(_) | Quot(_) =>
      if |e.children| > 1 {
        EvaluatesPointwise(lib, env, e.children[0]);
        EvaluatesPointwise(lib, env, e.children[1]);
        BinaryPointwise(lib, env, e, e.children);
      } else {
        TooFewOperands(lib, env, e, e.children);
      }
    case _ =>
  }

  // ----- series with all samples inside a common grid and their ranges -----

  /** A series of the given interval, with aligned range and all its samples inside the range. */
  ghost predicate InRange(d: Tdata, interval: int) {
    d.Samples? ==>
      d.interval == interval && interval > 0 && AlignedSpan(SpanOf(d)) == SpanOf(d) &&
      forall t :: t in d.data ==> Within(SpanOf(d), t)
  }

  ghost predicate Uniform(env: Names, interval: int) {
    forall n :: n in env ==> InRange(env[n], interval)
  }

  /** Then every series has that interval and an aligned range. */
  lemma {:induction false} RangeUniform(lib: Library, env: Names, e: Expr, interval: int)
    requires ProperNames(env) && Uniform(env, interval) && Evaluates(lib, env, e) && !IsConstant(env, e)
    ensures var s := RangeOf(env, e); s.interval == interval && AlignedSpan(s) == s
    decreases e
  {
    hide Aligned, ChooseUnary, ChooseBinary, At;
    match e
    case Data(_, cs) =>
      RangeUniform(lib, env, cs[0], interval);
    case Function(_, _, cs) =>
      RangeUniform(lib, env, cs[0], interval);
    case Function2(_, _) | Diff(_) | Quot(_) =>
      assert Evaluates2(lib, env, e, e.children);
      var a, b := e.children[0], e.children[1];
      if !IsConstant(env, a) {
        RangeUniform(lib, env, a, interval);
      }
      if !IsConstant(env, b) {
        RangeUniform(lib, env, b, interval);
      }
    case _ =>
  }

  lemma {:induction false} SumsEqual(lib: Library, env: Names, e: Expr, s: Span, n: nat, how: Reading, other: Reading)
    requires ProperNames(env)
    requires forall k: nat :: k < n ==>
               At(lib, env, e, GridTime(s.start, s.interval, k), how) ==
               At(lib, env, e, GridTime(s.start, s.interval, k), other)
    ensures SumOf(lib, env, e, s, n, how) == SumOf(lib, env, e, s, n, other)
  {
    hide At;
    if n > 0 {
      SumsEqual(lib, env, e, s, n - 1, how, other);
    }
  }

  /** The range does not matter at t, where a value of a series lies in its range. */
  ghost predicate CoveredAt(lib: Library, env: Names, e: Expr, t: int, swapped: bool)
    requires ProperNames(env)
  {
    At(lib, env, e, t, Reading(swapped, true)) == At(lib, env, e, t, Reading(swapped, false)) &&
    (At(lib, env, e, t, Reading(swapped, false)).Some? && !IsConstant(env, e) ==> Within(RangeOf(env, e), t))
  }

  ghost predicate Covered(lib: Library, env: Names, e: Expr, swapped: bool)
    requires ProperNames(env)
  {
    forall t :: CoveredAt(lib, env, e, t, swapped)
  }

  /** Then ranges never cut anything off. */
  lemma {:induction false} RangesNeverCut(lib: Library, env: Names, e: Expr, interval: int, swapped: bool)
    requires ProperNames(env) && Uniform(env, interval) && Evaluates(lib, env, e)
    ensures Covered(lib, env, e, swapped)
    decreases e
  {
    hide Aligned, ChooseUnary, ChooseBinary, CoveredAt;
    match e
    case Data(_, cs) =>
      RangesNeverCut(lib, env, cs[0], interval, swapped);
      forall t ensures CoveredAt(lib, env, e, t, swapped) {
        DataCovered(lib, env, e, cs, t, swapped);
      }
    case Function(_, _, cs) =>
      RangesNeverCut(lib, env, cs[0], interval, swapped);
      RangeUniform(lib, env, cs[0], interval);
      forall t ensures CoveredAt(lib, env, e, t, swapped) {
        UnaryCovered(lib, env, e, cs, t, swapped);
      }
    case Function2(_, _) | Diff(_) | Quot(_) =>
      assert Evaluates2(lib, env, e, e.children);
      RangesNeverCut(lib, env, e.children[0], interval, swapped);
      RangesNeverCut(lib, env, e.children[1], interval, swapped);
      forall t ensures CoveredAt(lib, env, e, t, swapped) {
        UniformOperands(lib, env, e, e.children, interval);
        BinaryCovered(lib, env, e, e.children, t, swapped);
      }
    case Const(_) | Value(_) =>
      forall t ensures CoveredAt(lib, env, e, t, swapped) {
        LeafCovered(lib, env, e, t, interval, swapped);
      }
    case _ =>
  }

  lemma LeafCovered(lib: Library, env: Names, e: Expr, t: int, interval: int, swapped: bool)
    requires ProperNames(env) && Uniform(env, interval) && (e.Const? || e.Value?)
    ensures CoveredAt(lib, env, e, t, swapped)
  {
    hide Aligned;
  }

  lemma DataCovered(lib: Library, env: Names, e: Expr, cs: seq<Expr>, t: int, swapped: bool)
    requires ProperNames(env) && e.Data? && cs == e.children && |cs| > 0 && Covered(lib, env, cs[0], swapped)
    ensures CoveredAt(lib, env, e, t, swapped)
  {
    assert CoveredAt(lib, env, cs[0], t, swapped);
  }

  lemma UnaryCovered(lib: Library, env: Names, e: Expr, cs: seq<Expr>, t: int, swapped: bool)
    requires ProperNames(env) && e.Function? && cs == e.children && |cs| > 0 && !IsConstant(env, cs[0])
    requires Covered(lib, env, cs[0], swapped) && AlignedSpan(RangeOf(env, cs[0])) == RangeOf(env, cs[0])
    ensures CoveredAt(lib, env, e, t, swapped)
  {
    hide Aligned, ChooseUnary, GridPlace;
    var s := RangeOf(env, cs[0]);
    assert RangeOf(env, e) == s;
    assert CoveredAt(lib, env, cs[0], t, swapped);
    var k := GridPlace(s, t);
    if k.Some? {
      forall j: nat | j < k.value + 1
        ensures At(lib, env, cs[0], GridTime(s.start, s.interval, j), Reading(swapped, true)) ==
                At(lib, env, cs[0], GridTime(s.start, s.interval, j), Reading(swapped, false))
      {
        assert CoveredAt(lib, env, cs[0], GridTime(s.start, s.interval, j), swapped);
      }
      SumsEqual(lib, env, cs[0], s, k.value + 1, Reading(swapped, true), Reading(swapped, false));
    }
    UnaryReadings(lib, env, e, cs, t, swapped);
  }

  lemma UnaryReadings(lib: Library, env: Names, e: Expr, cs: seq<Expr>, t: int, swapped: bool)
    requires ProperNames(env) && e.Function? && cs == e.children && |cs| > 0
    ensures At(lib, env, e, t, Reading(swapped, true)) == At1(lib, env, e, cs, t, Reading(swapped, true))
    ensures At(lib, env, e, t, Reading(swapped, false)) == At1(lib, env, e, cs, t, Reading(swapped, false))
  {
    hide At1;
  }

  /** The operands that are series have ranges of one interval, aligned. */
  ghost predicate AlignedOperands(env: Names, cs: seq<Expr>)
    requires ProperNames(env) && |cs| > 1
  {
    (forall i :: 0 <= i < 2 && !IsConstant(env, cs[i]) ==> AlignedSpan(RangeOf(env, cs[i])) == RangeOf(env, cs[i])) &&
    (!IsConstant(env, cs[0]) && !IsConstant(env, cs[1]) ==>
       RangeOf(env, cs[0]).interval == RangeOf(env, cs[1]).interval)
  }

  lemma UniformOperands(lib: Library, env: Names, e: Expr, cs: seq<Expr>, interval: int)
    requires ProperNames(env) && Uniform(env, interval) && (e.Function2? || e.Diff? || e.Quot?) && cs == e.children
    requires Evaluates2(lib, env, e, cs)
    ensures |cs| > 1 && AlignedOperands(env, cs)
  {
    hide RangeOf, AlignedSpan, At;
    if !IsConstant(env, cs[0]) {
      RangeUniform(lib, env, cs[0], interval);
    }
    if !IsConstant(env, cs[1]) {
      RangeUniform(lib, env, cs[1], interval);
    }
  }

  /** The hull of two aligned ranges is aligned. */
  lemma HullAligned(a: Span, b: Span)
    requires a.interval == b.interval > 0 && AlignedSpan(a) == a && AlignedSpan(b) == b
    ensures AlignedSpan(Hull(a, b)) == Hull(a, b)
  {
    hide Aligned;
  }

  lemma BinaryCovered(lib: Library, env: Names, e: Expr, cs: seq<Expr>, t: int, swapped: bool)
    requires ProperNames(env) && (e.Function2? || e.Diff? || e.Quot?) && cs == e.children && |cs| > 1
    requires Covered(lib, env, cs[0], swapped) && Covered(lib, env, cs[1], swapped) && AlignedOperands(env, cs)
    ensures CoveredAt(lib, env, e, t, swapped)
  {
    hide Operator, AlignedSpan;
    BinaryReadings(lib, env, e, cs, t, swapped);
    assert CoveredAt(lib, env, cs[0], t, swapped) && CoveredAt(lib, env, cs[1], t, swapped);
    if !IsConstant(env, cs[0]) && !IsConstant(env, cs[1]) {
      HullAligned(RangeOf(env, cs[0]), RangeOf(env, cs[1]));
    }
  }

  lemma BinaryReadings(lib: Library, env: Names, e: Expr, cs: seq<Expr>, t: int, swapped: bool)
    requires ProperNames(env) && (e.Function2? || e.Diff? || e.Quot?) && cs == e.children
    ensures At(lib, env, e, t, Reading(swapped, true)) == At2(lib, env, e, cs, t, Reading(swapped, true))
    ensures At(lib, env, e, t, Reading(swapped, false)) == At2(lib, env, e, cs, t, Reading(swapped, false))
  {
    hide At2;
  }

  // ----- series of one range, with samples anywhere -----

  /** All series have the range s. */
  ghost predicate OneRange(env: Names, s: Span) {
    s.interval > 0 && AlignedSpan(s) == s && forall n :: n in env && env[n].Samples? ==> SpanOf(env[n]) == s
  }

  /** Somewhere in the tree two series are combined. */
  predicate Joins(env: Names, e: Expr) {
    match e
    case Data(_, cs) => |cs| > 0 && Joins(env, cs[0])
    case Function(_, _, cs) => |cs| > 0 && Joins(env, cs[0])
    case Function2(_, _) | Diff(_) | Quot(_) =>
      |e.children| > 1 &&
      ((!IsConstant(env, e.children[0]) && !IsConstant(env, e.children[1])) ||
       Joins(env, e.children[0]) || Joins(env, e.children[1]))
    case _ => false
  }

  lemma {:induction false} RangeIs(lib: Library, env: Names, e: Expr, s: Span)
    requires ProperNames(env) && OneRange(env, s) && Evaluates(lib, env, e) && !IsConstant(env, e)
    ensures RangeOf(env, e) == s
    decreases e
  {
    hide Aligned, ChooseUnary, ChooseBinary, At;
    match e
    case Data(_, cs) =>
      RangeIs(lib, env, cs[0], s);
    case Function(_, _, cs) =>
      RangeIs(lib, env, cs[0], s);
    case Function2(_, _) | Diff(_) | Quot(_) =>
      assert Evaluates2(lib, env, e, e.children);
      if !IsConstant(env, e.children[0]) {
        RangeIs(lib, env, e.children[0], s);
      }
      if !IsConstant(env, e.children[1]) {
        RangeIs(lib, env, e.children[1], s);
      }
    case _ =>
  }

  /** Combining series cuts the result to the range, and nothing else does. */
  ghost predicate CutAt(lib: Library, env: Names, e: Expr, t: int, s: Span, swapped: bool)
    requires ProperNames(env)
  {
    At(lib, env, e, t, Reading(swapped, true)) ==
    if Joins(env, e) && !Within(s, t) then None else At(lib, env, e, t, Reading(swapped, false))
  }

  ghost predicate Cut(lib: Library, env: Names, e: Expr, s: Span, swapped: bool)
    requires ProperNames(env)
  {
    forall t :: CutAt(lib, env, e, t, s, swapped)
  }

  lemma {:induction false} JoinsCut(lib: Library, env: Names, e: Expr, s: Span, swapped: bool)
    requires ProperNames(env) && OneRange(env, s) && Evaluates(lib, env, e)
    ensures Cut(lib, env, e, s, swapped)
    decreases e
  {
    hide AlignedSpan, ChooseUnary, ChooseBinary, CutAt, RangeOf;
    match e
    case Data(_, cs) =>
      JoinsCut(lib, env, cs[0], s, swapped);
      forall t ensures CutAt(lib, env, e, t, s, swapped) {
        DataCut(lib, env, e, cs, t, s, swapped);
      }
    case Function(_, _, cs) =>
      JoinsCut(lib, env, cs[0], s, swapped);
      RangeIs(lib, env, cs[0], s);
      forall t ensures CutAt(lib, env, e, t, s, swapped) {
        UnaryCut(lib, env, e, cs, t, s, swapped);
      }
    case Function2(_, _) | Diff(_) | Quot(_) =>
      assert Evaluates2(lib, env, e, e.children);
      JoinsCut(lib, env, e.children[0], s, swapped);
      JoinsCut(lib, env, e.children[1], s, swapped);
      if !IsConstant(env, e.children[0]) && !IsConstant(env, e.children[1]) {
        RangeIs(lib, env, e.children[0], s);
        RangeIs(lib, env, e.children[1], s);
      }
      forall t ensures CutAt(lib, env, e, t, s, swapped) {
        BinaryCut(lib, env, e, e.children, t, s, swapped);
      }
    case Const(_) | Value(_) =>
      forall t ensures CutAt(lib, env, e, t, s, swapped) {
        LeafCut(lib, env, e, t, s, swapped);
      }
    case _ =>
  }

  lemma LeafCut(lib: Library, env: Names, e: Expr, t: int, s: Span, swapped: bool)
    requires ProperNames(env) && (e.Const? || e.Value?)
    ensures CutAt(lib, env, e, t, s, swapped)
  {
  }

  lemma DataCut(lib: Library, env: Names, e: Expr, cs: seq<Expr>, t: int, s: Span, swapped: bool)
    requires ProperNames(env) && e.Data? && cs == e.children && |cs| > 0 && Cut(lib, env, cs[0], s, swapped)
    ensures CutAt(lib, env, e, t, s, swapped)
  {
    assert CutAt(lib, env, cs[0], t, s, swapped);
  }

  lemma UnaryCut(lib: Library, env: Names, e: Expr, cs: seq<Expr>, t: int, s: Span, swapped: bool)
    requires ProperNames(env) && e.Function? && cs == e.children && |cs| > 0 && !IsConstant(env, cs[0])
    requires Cut(lib, env, cs[0], s, swapped) && RangeOf(env, cs[0]) == s && s.interval > 0
    ensures CutAt(lib, env, e, t, s, swapped)
  {
    hide ChooseUnary, GridPlace, Within;
    assert CutAt(lib, env, cs[0], t, s, swapped);
    var k := GridPlace(s, t);
    if k.Some? {
      forall j: nat | j < k.value + 1
        ensures At(lib, env, cs[0], GridTime(s.start, s.interval, j), Reading(swapped, true)) ==
                At(lib, env, cs[0], GridTime(s.start, s.interval, j), Reading(swapped, false))
      {
        assert CutAt(lib, env, cs[0], GridTime(s.start, s.interval, j), s, swapped);
        EarlierWithin(s, t, j);
      }
      SumsEqual(lib, env, cs[0], s, k.value + 1, Reading(swapped, true), Reading(swapped, false));
    }
    UnaryReadings(lib, env, e, cs, t, swapped);
  }

  lemma EarlierWithin(s: Span, t: int, j: nat)
    requires s.interval > 0 && GridPlace(s, t).Some? && j <= GridPlace(s, t).value
    ensures Within(s, GridTime(s.start, s.interval, j))
  {
    GridWithin(s.start, s.finish, s.interval, j);
  }

  lemma BinaryCut(lib: Library, env: Names, e: Expr, cs: seq<Expr>, t: int, s: Span, swapped: bool)
    requires ProperNames(env) && (e.Function2? || e.Diff? || e.Quot?) && cs == e.children && |cs| > 1
    requires Cut(lib, env, cs[0], s, swapped) && Cut(lib, env, cs[1], s, swapped)
    requires !IsConstant(env, cs[0]) && !IsConstant(env, cs[1]) ==> RangeOf(env, cs[0]) == RangeOf(env, cs[1]) == s
    ensures CutAt(lib, env, e, t, s, swapped)
  {
    hide Operator, RangeOf;
    BinaryReadings(lib, env, e, cs, t, swapped);
    assert CutAt(lib, env, cs[0], t, s, swapped) && CutAt(lib, env, cs[1], t, s, swapped);
  }

  // ----- the swapped operands -----

  ghost predicate Commutative(f: Binary) {
    forall x, y :: f(x, y) == f(y, x)
  }

  /** Wherever only the second operand is constant, the operator is commutative. */
  ghost predicate OrderKept(lib: Library, env: Names, e: Expr) {
    match e
    case Data(_, cs) => |cs| > 0 ==> OrderKept(lib, env, cs[0])
    case Function(_, _, cs) => |cs| > 0 ==> OrderKept(lib, env, cs[0])
    case Function2(_, _) | Diff(_) | Quot(_) =>
      |e.children| > 1 ==>
        OrderKept(lib, env, e.children[0]) && OrderKept(lib, env, e.children[1]) &&
        (Operator(lib, e).Some? && Swaps(env, e.children[0], e.children[1]) ==>
           Commutative(Operator(lib, e).value))
    case _ => true
  }

  lemma Commute(f: Binary, x: real, y: real)
    requires Commutative(f)
    ensures f(x, y) == f(y, x)
  {
  }

  /** The expression has the value at t that its written form asks for. */
  ghost predicate Right(lib: Library, env: Names, e: Expr, t: int, ranged: bool)
    requires ProperNames(env)
  {
    At(lib, env, e, t, Reading(true, ranged)) == At(lib, env, e, t, Reading(false, ranged))
  }

  /** Then the whole expression is right everywhere. */
  lemma {:induction false} OrderKeptMeaning(lib: Library, env: Names, e: Expr, ranged: bool)
    requires ProperNames(env) && OrderKept(lib, env, e)
    ensures forall t :: Right(lib, env, e, t, ranged)
    decreases e
  {
    hide Right;
    match e
    case Data(_, cs) =>
      if |cs| > 0 {
        OrderKeptMeaning(lib, env, cs[0], ranged);
      }
      forall t ensures Right(lib, env, e, t, ranged) {
        DataRight(lib, env, e, cs, t, ranged);
      }
    case Function(_, _, cs) =>
      if |cs| > 0 {
        OrderKeptMeaning(lib, env, cs[0], ranged);
      }
      forall t ensures Right(lib, env, e, t, ranged) {
        UnaryRight(lib, env, e, cs, t, ranged);
      }
    case Function2(_, _) | Diff(_) | Quot(_) =>
      if |e.children| > 1 {
        OrderKeptMeaning(lib, env, e.children[0], ranged);
        OrderKeptMeaning(lib, env, e.children[1], ranged);
      }
      forall t ensures Right(lib, env, e, t, ranged) {
        BinaryRight(lib, env, e, e.children, t, ranged);
      }
    case _ =>
      forall t ensures Right(lib, env, e, t, ranged) {
        LeafRight(lib, env, e, t, ranged);
      }
  }

  lemma LeafRight(lib: Library, env: Names, e: Expr, t: int, ranged: bool)
    requires ProperNames(env) && (e.Const? || e.Value? || e.Sum? || e.Mult? || e.Other?)
    ensures Right(lib, env, e, t, ranged)
  {
  }

  lemma DataRight(lib: Library, env: Names, e: Expr, cs: seq<Expr>, t: int, ranged: bool)
    requires ProperNames(env) && e.Data? && cs == e.children && (|cs| > 0 ==> Right(lib, env, cs[0], t, ranged))
    ensures Right(lib, env, e, t, ranged)
  {
  }

  lemma UnaryRight(lib: Library, env: Names, e: Expr, cs: seq<Expr>, t: int, ranged: bool)
    requires ProperNames(env) && e.Function? && cs == e.children
    requires |cs| > 0 ==> forall u :: Right(lib, env, cs[0], u, ranged)
    ensures Right(lib, env, e, t, ranged)
  {
    hide ChooseUnary, GridPlace, RangeOf;
    assert At(lib, env, e, t, Reading(true, ranged)) == At1(lib, env, e, cs, t, Reading(true, ranged));
    assert At(lib, env, e, t, Reading(false, ranged)) == At1(lib, env, e, cs, t, Reading(false, ranged));
    if |cs| > 0 {
      assert Right(lib, env, cs[0], t, ranged);
      var s := RangeOf(env, cs[0]);
      var k := GridPlace(s, t);
      if k.Some? {
        forall j: nat | j < k.value + 1
          ensures At(lib, env, cs[0], GridTime(s.start, s.interval, j), Reading(true, ranged)) ==
                  At(lib, env, cs[0], GridTime(s.start, s.interval, j), Reading(false, ranged))
        {
          assert Right(lib, env, cs[0], GridTime(s.start, s.interval, j), ranged);
        }
        SumsEqual(lib, env, cs[0], s, k.value + 1, Reading(true, ranged), Reading(false, ranged));
      }
    }
  }

  lemma BinaryRight(lib: Library, env: Names, e: Expr, cs: seq<Expr>, t: int, ranged: bool)
    requires ProperNames(env) && (e.Function2? || e.Diff? || e.Quot?) && cs == e.children && OrderKept(lib, env, e)
    requires |cs| > 1 ==> Right(lib, env, cs[0], t, ranged) && Right(lib, env, cs[1], t, ranged)
    ensures Right(lib, env, e, t, ranged)
  {
    hide Operator;
    if |cs| > 1 {
      BinaryOrderKept(lib, env, e, cs, t, ranged);
    } else {
      assert At(lib, env, e, t, Reading(true, ranged)) == At2(lib, env, e, cs, t, Reading(true, ranged));
      assert At(lib, env, e, t, Reading(false, ranged)) == At2(lib, env, e, cs, t, Reading(false, ranged));
    }
  }

  /** The two operands at t, which the order of operands above does not touch. */
  ghost predicate SameOperands(lib: Library, env: Names, cs: seq<Expr>, t: int, ranged: bool)
    requires ProperNames(env) && |cs| > 1
  {
    At(lib, env, cs[0], t, Reading(true, ranged)) == At(lib, env, cs[0], t, Reading(false, ranged)) &&
    At(lib, env, cs[1], t, Reading(true, ranged)) == At(lib, env, cs[1], t, Reading(false, ranged))
  }

  lemma BinaryOrderKept(lib: Library, env: Names, e: Expr, cs: seq<Expr>, t: int, ranged: bool)
    requires ProperNames(env) && (e.Function2? || e.Diff? || e.Quot?) && cs == e.children && |cs| > 1
    requires SameOperands(lib, env, cs, t, ranged)
    requires Operator(lib, e).Some? && Swaps(env, cs[0], cs[1]) ==> Commutative(Operator(lib, e).value)
    ensures At(lib, env, e, t, Reading(true, ranged)) == At(lib, env, e, t, Reading(false, ranged))
  {
    hide Operator, Commutative;
    assert At(lib, env, e, t, Reading(true, ranged)) == At2(lib, env, e, cs, t, Reading(true, ranged));
    assert At(lib, env, e, t, Reading(false, ranged)) == At2(lib, env, e, cs, t, Reading(false, ranged));
    if Operator(lib, e).Some? && Swaps(env, cs[0], cs[1]) {
      var f := Operator(lib, e).value;
      var x, y := At(lib, env, cs[0], t, Reading(false, ranged)), At(lib, env, cs[1], t, Reading(false, ranged));
      if x.Some? && y.Some? {
        Commute(f, x.value, y.value);
      }
    }
  }

  /** Then the result is the expression read at each time with the operands in their written order. */
  lemma EvaluatesAsWritten(lib: Library, env: Names, e: Expr)
    requires ProperNames(env) && OrderKept(lib, env, e) && Evaluates(lib, env, e)
    ensures var r := Evaluate(lib, env, e);
            r.Ok? && forall t :: ValueAt(r.tdata, t) == At(lib, env, e, t, Reading(false, true))
  {
    EvaluatesPointwise(lib, env, e);
    OrderKeptMeaning(lib, env, e, true);
    forall t ensures At(lib, env, e, t, COMPUTED) == At(lib, env, e, t, Reading(false, true)) {
      assert Right(lib, env, e, t, true);
    }
  }

  /** And over series of one interval with their samples in range, the ranges play no role. */
  lemma EvaluatesInRange(lib: Library, env: Names, e: Expr, interval: int)
    requires ProperNames(env) && Uniform(env, interval) && OrderKept(lib, env, e) && Evaluates(lib, env, e)
    ensures var r := Evaluate(lib, env, e);
            r.Ok? && forall t :: ValueAt(r.tdata, t) == At(lib, env, e, t, WRITTEN)
  {
    EvaluatesAsWritten(lib, env, e);
    RangesNeverCut(lib, env, e, interval, false);
    forall t ensures At(lib, env, e, t, Reading(false, true)) == At(lib, env, e, t, WRITTEN) {
      assert CoveredAt(lib, env, e, t, false);
    }
  }

  /** Over series of one range an expression that combines series is cut to the range, and no other is. */
  lemma EvaluatesCut(lib: Library, env: Names, e: Expr, s: Span)
    requires ProperNames(env) && OneRange(env, s) && OrderKept(lib, env, e) && Evaluates(lib, env, e)
    ensures var r := Evaluate(lib, env, e);
            r.Ok? && forall t ::
              ValueAt(r.tdata, t) == if Joins(env, e) && !Within(s, t) then None else At(lib, env, e, t, WRITTEN)
  {
    EvaluatesAsWritten(lib, env, e);
    JoinsCut(lib, env, e, s, false);
    forall t
      ensures At(lib, env, e, t, Reading(false, true)) ==
              if Joins(env, e) && !Within(s, t) then None else At(lib, env, e, t, WRITTEN)
    {
      assert CutAt(lib, env, e, t, s, false);
    }
  }

  /** A node over a series and a constant at time t, its operands being right. */
  ghost predicate Swapping(lib: Library, env: Names, e: Expr, t: int, ranged: bool)
    requires ProperNames(env)
  {
    (e.Function2? || e.Diff? || e.Quot?) && |e.children| > 1 && Swaps(env, e.children[0], e.children[1]) &&
    SameOperands(lib, env, e.children, t, ranged)
  }

  /** For an operator of the library it is right exactly when the operator commutes on the two values. */
  lemma SwappedNode(lib: Library, env: Names, e: Expr, t: int, ranged: bool)
    requires ProperNames(env) && Swapping(lib, env, e, t, ranged) && Operator(lib, e).Some?
    ensures var how := Reading(false, ranged);
            var x, y := At(lib, env, e.children[0], t, how), At(lib, env, e.children[1], t, how);
            Right(lib, env, e, t, ranged) <==>
            Bind2(Operator(lib, e).value, y, x) == Bind2(Operator(lib, e).value, x, y)
  {
    hide Operator;
    var cs := e.children;
    assert At(lib, env, e, t, Reading(true, ranged)) == At2(lib, env, e, cs, t, Reading(true, ranged));
    assert At(lib, env, e, t, Reading(false, ranged)) == At2(lib, env, e, cs, t, Reading(false, ranged));
  }

  /** A difference is right exactly where there is no sample, or the sample is the constant. */
  lemma DifferenceRight(lib: Library, env: Names, e: Expr, t: int, ranged: bool)
    requires ProperNames(env) && Swapping(lib, env, e, t, ranged) && e.Diff?
    ensures var how := Reading(false, ranged);
            var x, c := At(lib, env, e.children[0], t, how), At(lib, env, e.children[1], t, how);
            Right(lib, env, e, t, ranged) <==> (x.Some? && c.Some? ==> x.value == c.value)
  {
    hide At, Right;
    SwappedNode(lib, env, e, t, ranged);
    var how := Reading(false, ranged);
    var x, c := At(lib, env, e.children[0], t, how), At(lib, env, e.children[1], t, how);
    if x.Some? && c.Some? {
      MinusCommutes(x.value, c.value);
    }
  }

  lemma MinusCommutes(x: real, c: real)
    ensures Minus(c, x) == Minus(x, c) <==> x == c
  {
    if Minus(c, x) == Minus(x, c) {
      assert Minus(c, x).value == Minus(x, c).value;
    }
  }

  /** A quotient is right exactly where there is no sample, or the sample is the constant or its negative. */
  lemma QuotientRight(lib: Library, env: Names, e: Expr, t: int, ranged: bool)
    requires ProperNames(env) && Swapping(lib, env, e, t, ranged) && e.Quot?
    ensures var how := Reading(false, ranged);
            var x, c := At(lib, env, e.children[0], t, how), At(lib, env, e.children[1], t, how);
            Right(lib, env, e, t, ranged) <==> (x.Some? && c.Some? ==> x.value == c.value || x.value == -c.value)
  {
    hide At, Right;
    SwappedNode(lib, env, e, t, ranged);
    var how := Reading(false, ranged);
    var x, c := At(lib, env, e.children[0], t, how), At(lib, env, e.children[1], t, how);
    if x.Some? && c.Some? {
      QuotientCommutes(x.value, c.value);
    }
  }

  lemma QuotientCommutes(x: real, c: real)
    ensures Quotient(c, x) == Quotient(x, c) <==> x == c || x == -c
  {
    if x != 0.0 && c != 0.0 {
      var p, q := c / x, x / c;
      assert Quotient(c, x) == Some(p) && Quotient(x, c) == Some(q);
      QuotientsEqual(x, c, p, q);
      EqualSquares(x, c);
      SomeEqual(p, q);
    }
  }

  lemma EqualSquares(x: real, c: real)
    ensures x * x == c * c <==> x == c || x == -c
  {
    assert (x - c) * (x + c) == x * x - c * c;
    Division.NoZeroDivisors(x - c, x + c);
  }

  lemma SomeEqual(p: real, q: real)
    ensures Some(p) == Some(q) <==> p == q
  {
    if Some(p) == Some(q) {
      assert Some(p).value == Some(q).value;
    }
  }

  lemma QuotientsEqual(x: real, c: real, p: real, q: real)
    requires x != 0.0 && c != 0.0 && p == c / x && q == x / c
    ensures p == q <==> x * x == c * c
  {
    assert p * x == c && q * c == x;
    assert (p * x) * c == c * c && (q * c) * x == x * x;
    assert (p * x) * c == p * (x * c) && (q * c) * x == q * (x * c);
    assert (p - q) * (x * c) == p * (x * c) - q * (x * c);
    NonzeroFactor(p - q, x, c);
  }

  lemma NonzeroFactor(d: real, x: real, c: real)
    requires x != 0.0 && c != 0.0
    ensures d * (x * c) == 0.0 <==> d == 0.0
  {
    assert x * c != 0.0;
  }

  /** max and min are right everywhere. */
  lemma ExtremeRight(lib: Library, env: Names, e: Expr, t: int, ranged: bool)
    requires ProperNames(env) && Swapping(lib, env, e, t, ranged)
    requires e.Function2? && (e.name == Some("max") || e.name == Some("min"))
    ensures Right(lib, env, e, t, ranged)
  {
    hide At, Right;
    SwappedNode(lib, env, e, t, ranged);
  }

  /** The difference of a series and the constant 1 comes out with its sign reversed. */
  lemma DifferenceReversed(lib: Library, env: Names, name: string, t: int)
    requires ProperNames(env) && name in env && env[name].Samples? && t in env[name].data
    ensures var r := Evaluate(lib, env, Diff([Value(Some(name)), Const(Some(1.0))]));
            r.Ok? && ValueAt(r.tdata, t) == Some(1.0 - env[name].data[t])
  {
    var e := Diff([Value(Some(name)), Const(Some(1.0))]);
    EvaluatesPointwise(lib, env, e);
    var x, c := e.children[0], e.children[1];
    assert At(lib, env, x, t, COMPUTED) == Some(env[name].data[t]);
    assert At(lib, env, c, t, COMPUTED) == Some(1.0) && Swaps(env, x, c);
    assert At(lib, env, e, t, COMPUTED) == At2(lib, env, e, e.children, t, COMPUTED)
        == Minus(1.0, env[name].data[t]);
    assert Evaluates(lib, env, e) == Evaluates2(lib, env, e, e.children);
  }

  // ----- where there are samples -----

  /** Every series leaf that is evaluated has a sample at t; accumulate has one at every grid time. */
  predicate LeavesSampled(lib: Library, env: Names, e: Expr, t: int)
    requires ProperNames(env)
  {
    match e
    case Value(name) => name.Some? && name.value in env && ValueAt(env[name.value], t).Some?
    case Data(_, cs) => |cs| > 0 && LeavesSampled(lib, env, cs[0], t)
    case Function(name, limit, cs) =>
      |cs| > 0 &&
      if ChooseUnary(lib, name, limit).Accumulation? then GridPlace(RangeOf(env, cs[0]), t).Some?
      else LeavesSampled(lib, env, cs[0], t)
    case Function2(_, _) | Diff(_) | Quot(_) =>
      |e.children| > 1 && LeavesSampled(lib, env, e.children[0], t) && LeavesSampled(lib, env, e.children[1], t)
    case _ => true
  }

  /** Wherever two series meet, t lies in the hull of their ranges. */
  predicate AllMeet(lib: Library, env: Names, e: Expr, t: int)
    requires ProperNames(env)
  {
    match e
    case Data(_, cs) => |cs| > 0 ==> AllMeet(lib, env, cs[0], t)
    case Function(name, limit, cs) =>
      |cs| > 0 && !ChooseUnary(lib, name, limit).Accumulation? ==> AllMeet(lib, env, cs[0], t)
    case Function2(_, _) | Diff(_) | Quot(_) =>
      |e.children| > 1 ==>
        AllMeet(lib, env, e.children[0], t) && AllMeet(lib, env, e.children[1], t) &&
        Meet(env, e.children[0], e.children[1], t)
    case _ => true
  }

  /** No scalar operator of the tree throws at t; below accumulate a throw only drops a summand. */
  predicate NothingThrows(lib: Library, env: Names, e: Expr, t: int)
    requires ProperNames(env)
  {
    match e
    case Data(_, cs) => |cs| > 0 ==> NothingThrows(lib, env, cs[0], t)
    case Function(name, limit, cs) =>
      var c := ChooseUnary(lib, name, limit);
      |cs| > 0 && !c.Accumulation? ==>
        NothingThrows(lib, env, cs[0], t) &&
        var x := At(lib, env, cs[0], t, COMPUTED);
        (x.Some? && c.Pointwise? ==> c.f(x.value).Some?)
    case Function2(_, _) | Diff(_) | Quot(_) =>
      |e.children| > 1 ==>
        NothingThrows(lib, env, e.children[0], t) && NothingThrows(lib, env, e.children[1], t) &&
        var x, y := At(lib, env, e.children[0], t, COMPUTED), At(lib, env, e.children[1], t, COMPUTED);
        (x.Some? && y.Some? && Operator(lib, e).Some? ==>
           if Swaps(env, e.children[0], e.children[1]) then Operator(lib, e).value(y.value, x.value).Some?
           else Operator(lib, e).value(x.value, y.value).Some?)
    case _ => true
  }

  /** Whether there is a sample at t, from the leaves, the ranges and the operators. */
  ghost predicate SampledAt(lib: Library, env: Names, e: Expr, t: int)
    requires ProperNames(env)
  {
    At(lib, env, e, t, COMPUTED).Some? <==>
    LeavesSampled(lib, env, e, t) && AllMeet(lib, env, e, t) && NothingThrows(lib, env, e, t)
  }

  /**
    The result has a sample at t exactly when every series leaf has one, two series meet only in the
    hull of their ranges, and no operator throws.
   */
  lemma {:induction false} SampledWhere(lib: Library, env: Names, e: Expr, t: int)
    requires ProperNames(env) && Evaluates(lib, env, e)
    ensures SampledAt(lib, env, e, t)
    decreases e
  {
    hide RangeOf, ChooseUnary, ChooseBinary, Meet, SampledAt;
    match e
    case Data(_, cs) =>
      SampledWhere(lib, env, cs[0], t);
      DataSampled(lib, env, e, cs, t);
    case Function(_, _, cs) =>
      SampledWhere(lib, env, cs[0], t);
      UnarySampled(lib, env, e, cs, t);
    case Function2(_, _) | Diff(_) | Quot(_) =>
      assert Evaluates2(lib, env, e, e.children);
      SampledWhere(lib, env, e.children[0], t);
      SampledWhere(lib, env, e.children[1], t);
      BinarySampled(lib, env, e, e.children, t);
    case Const(_) | Value(_) =>
      LeafSampled(lib, env, e, t);
    case _ =>
  }

  lemma LeafSampled(lib: Library, env: Names, e: Expr, t: int)
    requires ProperNames(env) && (e.Const? || e.Value?) && Evaluates(lib, env, e)
    ensures SampledAt(lib, env, e, t)
  {
  }

  lemma DataSampled(lib: Library, env: Names, e: Expr, cs: seq<Expr>, t: int)
    requires ProperNames(env) && e.Data? && cs == e.children && |cs| > 0 && SampledAt(lib, env, cs[0], t)
    ensures SampledAt(lib, env, e, t)
  {
  }

  lemma UnarySampled(lib: Library, env: Names, e: Expr, cs: seq<Expr>, t: int)
    requires ProperNames(env) && e.Function? && cs == e.children && Evaluates(lib, env, e) && |cs| > 0
    requires SampledAt(lib, env, cs[0], t)
    ensures SampledAt(lib, env, e, t)
  {
    hide RangeOf, ChooseUnary, GridPlace;
    assert At(lib, env, e, t, COMPUTED) == At1(lib, env, e, cs, t, COMPUTED);
  }

  lemma BinarySampled(lib: Library, env: Names, e: Expr, cs: seq<Expr>, t: int)
    requires ProperNames(env) && (e.Function2? || e.Diff? || e.Quot?) && cs == e.children && |cs| > 1
    requires SampledAt(lib, env, cs[0], t) && SampledAt(lib, env, cs[1], t) && Operator(lib, e).Some?
    ensures SampledAt(lib, env, e, t)
  {
    hide RangeOf, Operator, Meet;
    assert At(lib, env, e, t, COMPUTED) == At2(lib, env, e, cs, t, COMPUTED);
  }

  // ----- the data set -----

  class DataSet {
    const srcdata: Names
    var data: Names

    ghost predicate Valid()
      reads this
    {
      ProperNames(srcdata) && ProperNames(data)
    }

    /** The names an expression sees: computed data hides source data. */
    function Visible(): Names
      reads this
    {
      srcdata + data
    }

    constructor (sourcedata: Names)
      requires ProperNames(sourcedata)
      ensures Valid() && srcdata == sourcedata && data == map[]
    {
      srcdata := sourcedata;
      data := map[];
    }

    method GetData(name: string) returns (r: Outcome)
      requires Valid()
      ensures r == if name in Visible() then Ok(Visible()[name]) else Thrown
      ensures r == if name in data then Ok(data[name]) else if name in srcdata then Ok(srcdata[name]) else Thrown
    {
      if name in data {
        return Ok(data[name]);
      }
      if name in srcdata {
        return Ok(srcdata[name]);
      }
      r := Thrown;
    }

    /** Store the value of an expression under a name; nothing changes when evaluation throws. */
    method AddData(lib: Library, name: Option<string>, startnode: Expr) returns (r: Outcome)
      requires Valid()
      modifies this`data
      ensures Valid()
      ensures r == if name.None? then Thrown else Evaluate(lib, old(Visible()), startnode)
      ensures data == if r.Ok? then old(data)[name.value := r.tdata] else old(data)
    {
      if name.None? {
        return Thrown;
      }
      r := ProcessNode(lib, srcdata + data, startnode);
      if r.Ok? {
        data := data[name.value := r.tdata];
      }
    }
  }
}
