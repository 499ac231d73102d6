/** What the nodes of an expression compute, function by function (lib/Dataset.cc, lib/Tdata.cc). */
module Operators {
  import opened Wrappers
  import opened Series
  import opened Dataset

  /** The node has two operands, and they evaluate to a and b. */
  predicate Pair(lib: Library, env: Names, e: Expr, a: Tdata, b: Tdata)
    requires ProperNames(env)
  {
    (e.Function2? || e.Diff? || e.Quot?) && |e.children| > 1 &&
    Evaluate(lib, env, e.children[0]) == Ok(a) && Evaluate(lib, env, e.children[1]) == Ok(b)
  }

  /** Both operands have a value at t, and if they are series, t lies in the hull of their ranges. */
  predicate BothAt(a: Tdata, b: Tdata, t: int, x: real, y: real) {
    ValueAt(a, t) == Some(x) && ValueAt(b, t) == Some(y) &&
    (a.Samples? && b.Samples? ==> Within(Hull(SpanOf(a), SpanOf(b)), t))
  }

  /** A constant second operand alone is taken first. */
  predicate Turned(a: Tdata, b: Tdata) {
    a.Samples? && b.Constant?
  }

  lemma PairValue(lib: Library, env: Names, e: Expr, a: Tdata, b: Tdata, f: Binary, t: int, x: real, y: real)
    requires ProperNames(env) && Pair(lib, env, e, a, b) && Operator(lib, e) == Some(f) && BothAt(a, b, t, x, y)
    ensures var r, z := Evaluate(lib, env, e), if Turned(a, b) then f(y, x) else f(x, y);
            (r.Ok? <==> (a.Constant? && b.Constant? ==> z.Some?)) && (r.Ok? ==> ValueAt(r.tdata, t) == z)
  {
    hide Evaluate, Operator, Combined, ValueAt;
    BinaryOutcome(lib, env, e, e.children);
    ProperOperands(lib, env, e, a, b);
    CombinedPointwise(f, a, b);
    if a.Constant? && b.Constant? {
      ConstantValue(a, t);
      ConstantValue(b, t);
    }
  }

  lemma ProperOperands(lib: Library, env: Names, e: Expr, a: Tdata, b: Tdata)
    requires ProperNames(env) && Pair(lib, env, e, a, b)
    ensures Proper(a) && Proper(b)
  {
  }

  lemma ConstantValue(a: Tdata, t: int)
    requires a.Constant?
    ensures ValueAt(a, t) == Some(a.value)
  {
  }

  /** Without values of both operands, or beyond the hull of their ranges, there is none. */
  lemma NoPairNoValue(lib: Library, env: Names, e: Expr, a: Tdata, b: Tdata, t: int)
    requires ProperNames(env) && Pair(lib, env, e, a, b) && Evaluate(lib, env, e).Ok?
    requires forall x, y :: !BothAt(a, b, t, x, y)
    ensures ValueAt(Evaluate(lib, env, e).tdata, t) == None
  {
    hide Evaluate, Combined;
    BinaryOutcome(lib, env, e, e.children);
    ProperOperands(lib, env, e, a, b);
    CombinedPointwise(Operator(lib, e).value, a, b);
    if ValueAt(a, t).Some? && ValueAt(b, t).Some? {
      assert !BothAt(a, b, t, ValueAt(a, t).value, ValueAt(b, t).value);
    }
  }

  /** The value of a quotient times its divisor is the dividend; there is none exactly where the divisor is 0. */
  lemma QuotientValue(lib: Library, env: Names, e: Expr, a: Tdata, b: Tdata, t: int, x: real, y: real)
    requires ProperNames(env) && e.Quot? && Pair(lib, env, e, a, b) && BothAt(a, b, t, x, y)
    ensures var r := Evaluate(lib, env, e);
            var dividend, divisor := if Turned(a, b) then y else x, if Turned(a, b) then x else y;
            (r.Ok? <==> !(a.Constant? && b.Constant? && divisor == 0.0)) &&
            (r.Ok? ==>
               (ValueAt(r.tdata, t) == None <==> divisor == 0.0) &&
               (divisor != 0.0 ==> ValueAt(r.tdata, t).value * divisor == dividend))
  {
    hide Evaluate, Quotient, ValueAt, Pair;
    PairValue(lib, env, e, a, b, Quotient, t, x, y);
    if Turned(a, b) {
      Divided(y, x);
    } else {
      Divided(x, y);
    }
  }

  lemma Divided(x: real, y: real)
    ensures Quotient(x, y) == None <==> y == 0.0
    ensures y != 0.0 ==> Quotient(x, y).value * y == x
  {
  }

  lemma DifferenceValue(lib: Library, env: Names, e: Expr, a: Tdata, b: Tdata, t: int, x: real, y: real)
    requires ProperNames(env) && e.Diff? && Pair(lib, env, e, a, b) && BothAt(a, b, t, x, y)
    ensures var r := Evaluate(lib, env, e);
            r.Ok? && ValueAt(r.tdata, t).Some? &&
            if Turned(a, b) then ValueAt(r.tdata, t).value + x == y else ValueAt(r.tdata, t).value + y == x
  {
    hide Evaluate, ValueAt, Pair;
    PairValue(lib, env, e, a, b, Minus, t, x, y);
  }

  /** max is one of the two values and not below either, and min one of them and not above either. */
  lemma ExtremeValue(lib: Library, env: Names, e: Expr, a: Tdata, b: Tdata, t: int, x: real, y: real)
    requires ProperNames(env) && e.Function2? && Pair(lib, env, e, a, b) && BothAt(a, b, t, x, y)
    requires e.name == Some("max") || e.name == Some("min")
    ensures var r := Evaluate(lib, env, e);
            r.Ok? && ValueAt(r.tdata, t).Some? &&
            var z := ValueAt(r.tdata, t).value;
            (z == x || z == y) && if e.name == Some("max") then z >= x && z >= y else z <= x && z <= y
  {
    hide Evaluate, ValueAt, Pair, Larger, Smaller;
    PairValue(lib, env, e, a, b, if e.name == Some("max") then Larger else Smaller, t, x, y);
    Extremes(x, y);
    Extremes(y, x);
  }

  lemma Extremes(x: real, y: real)
    ensures Larger(x, y).Some? && Larger(x, y).value >= x && Larger(x, y).value >= y
    ensures Smaller(x, y).Some? && Smaller(x, y).value <= x && Smaller(x, y).value <= y
    ensures Larger(x, y).value == x || Larger(x, y).value == y
    ensures Smaller(x, y).value == x || Smaller(x, y).value == y
  {
  }

  predicate LibraryPair(name: string) {
    name == "atan2" || name == "azi" || name == "hypot" || name == "dewpoint" || name == "heatindex" ||
    name == "windchill"
  }

  /** The other functions of two operands are those of the library, and unknown names are refused. */
  lemma LibraryPairValue(lib: Library, env: Names, e: Expr, a: Tdata, b: Tdata, t: int, x: real, y: real, name: string)
    requires ProperNames(env) && e.Function2? && Pair(lib, env, e, a, b) && BothAt(a, b, t, x, y)
    requires e.name == Some(name)
    ensures var r, f := Evaluate(lib, env, e), lib.binary(name);
            if name == "max" || name == "min" then r.Ok?
            else if !LibraryPair(name) then r == Thrown
            else
              var z := if Turned(a, b) then f(y, x) else f(x, y);
              (r.Ok? <==> (a.Constant? && b.Constant? ==> z.Some?)) && (r.Ok? ==> ValueAt(r.tdata, t) == z)
  {
    hide ValueAt, BothAt, Combined;
    if name == "max" || name == "min" {
      ExtremeValue(lib, env, e, a, b, t, x, y);
    } else if LibraryPair(name) {
      PairValue(lib, env, e, a, b, lib.binary(name), t, x, y);
    }
  }

  // ----- functions of one series -----

  /** The node has an operand, and it evaluates to the series a. */
  predicate Single(lib: Library, env: Names, e: Expr, a: Tdata)
    requires ProperNames(env)
  {
    e.Function? && |e.children| > 0 && Evaluate(lib, env, e.children[0]) == Ok(a) && a.Samples?
  }

  lemma SingleValue(lib: Library, env: Names, e: Expr, a: Tdata, f: Unary, t: int)
    requires ProperNames(env) && Single(lib, env, e, a) && ChooseUnary(lib, e.name, e.limit) == Pointwise(f)
    ensures var r := Evaluate(lib, env, e);
            r.Ok? && ValueAt(r.tdata, t) == if t in a.data then f(a.data[t]) else None
  {
    hide ChooseUnary, Filled;
    var s := e.children;
    assert Evaluate(lib, env, e) == ApplyChoice(Pointwise(f), a);
    MappedValue(f, a, t);
  }

  lemma MappedValue(f: Unary, a: Tdata, t: int)
    requires a.Samples? && Proper(a)
    ensures ValueAt(Filled(a.interval, a.start, a.finish, Mapped(f, a.data)), t) ==
            if t in a.data then f(a.data[t]) else None
  {
    hide Aligned;
  }

  /** ceil and floor cut off at their limit, from above and from below, and keep the samples on its other side. */
  lemma LimitedValue(lib: Library, env: Names, e: Expr, a: Tdata, t: int, limit: real)
    requires ProperNames(env) && Single(lib, env, e, a) && e.limit == Some(limit)
    requires e.name == Some("ceil") || e.name == Some("floor")
    ensures var r := Evaluate(lib, env, e);
            r.Ok? && (ValueAt(r.tdata, t).Some? <==> t in a.data) &&
            (t in a.data ==>
               var x, z := a.data[t], ValueAt(r.tdata, t).value;
               if e.name == Some("ceil") then z <= limit && z <= x && (z == x || z == limit)
               else z >= limit && z >= x && (z == x || z == limit))
  {
    hide Evaluate, ValueAt;
    SingleValue(lib, env, e, a, ChooseUnary(lib, e.name, e.limit).f, t);
  }

  lemma SquareValue(lib: Library, env: Names, e: Expr, a: Tdata, t: int)
    requires ProperNames(env) && Single(lib, env, e, a) && e.name == Some("sqr")
    ensures var r := Evaluate(lib, env, e);
            r.Ok? && (ValueAt(r.tdata, t).Some? <==> t in a.data) &&
            (t in a.data ==> ValueAt(r.tdata, t).value == a.data[t] * a.data[t] >= 0.0)
  {
    hide Evaluate, ValueAt;
    SingleValue(lib, env, e, a, ChooseUnary(lib, e.name, e.limit).f, t);
  }

  predicate LibrarySingle(name: string) {
    name == "sqrt" || name == "sin" || name == "cos" || name == "tan"
  }

  lemma LibraryValue(lib: Library, env: Names, e: Expr, a: Tdata, t: int, name: string)
    requires ProperNames(env) && Single(lib, env, e, a) && e.name == Some(name) && LibrarySingle(name)
    ensures var r := Evaluate(lib, env, e);
            r.Ok? && ValueAt(r.tdata, t) == if t in a.data then lib.unary(name)(a.data[t]) else None
  {
    hide Evaluate, ValueAt;
    SingleValue(lib, env, e, a, lib.unary(name), t);
  }

  /** accumulate has, at every grid time, the sum of the samples at grid times up to it. */
  lemma AccumulateValue(lib: Library, env: Names, e: Expr, a: Tdata, k: nat)
    requires ProperNames(env) && Single(lib, env, e, a) && e.name == Some("accumulate")
    requires Proper(a) && k < GridCount(a.start, a.finish, a.interval)
    ensures var r, t := Evaluate(lib, env, e), GridTime(a.start, a.interval, k);
            r.Ok? && ValueAt(r.tdata, t).Some? &&
            ValueAt(r.tdata, t).value == GridSum(a.data, a.start, a.interval, k + 1)
  {
    hide Aligned;
    RunningSumsAt(a.data, a.start, a.interval, GridCount(a.start, a.finish, a.interval));
    assert Evaluate(lib, env, e) == ApplyChoice(Accumulation, a);
  }

  predicate Known(name: string, limit: Option<real>) {
    LibrarySingle(name) || name == "sqr" || name == "accumulate" ||
    ((name == "ceil" || name == "floor") && limit.Some?)
  }

  /**
    A limit that is missing and a name that is unknown are refused, once the operand has been evaluated;
    of a constant a known function reads fields that it does not have.
   */
  lemma FunctionRefused(lib: Library, env: Names, e: Expr, a: Tdata, name: string)
    requires ProperNames(env) && e.Function? && |e.children| > 0 && Evaluate(lib, env, e.children[0]) == Ok(a)
    requires e.name == Some(name)
    ensures var r := Evaluate(lib, env, e);
            (r == Thrown <==> !Known(name, e.limit)) && (r == Undefined <==> Known(name, e.limit) && a.Constant?)
  {
    hide Mapped, Accumulated, Filled;
  }

  // ----- how evaluation fails -----

  /** The exception of the first operand that fails comes through, whatever the others would do. */
  lemma {:induction false} FirstFailure(lib: Library, env: Names, cs: seq<Expr>, i: nat)
    requires ProperNames(env) && i < |cs| && !Evaluate(lib, env, cs[i]).Ok?
    requires forall j :: 0 <= j < i ==> Evaluate(lib, env, cs[j]).Ok?
    ensures Evaluate(lib, env, Sum(cs)) == Evaluate(lib, env, Mult(cs)) == Evaluate(lib, env, cs[i])
    ensures i < 2 <= |cs| ==>
              Evaluate(lib, env, Diff(cs)) == Evaluate(lib, env, Quot(cs)) == Evaluate(lib, env, cs[i])
    ensures forall name :: i < 2 <= |cs| ==> Evaluate(lib, env, Function2(name, cs)) == Evaluate(lib, env, cs[i])
    ensures forall name, limit :: i == 0 ==> Evaluate(lib, env, Function(name, limit, cs)) == Evaluate(lib, env, cs[i])
  {
    FoldFails(lib, env, cs, i);
    assert Evaluate(lib, env, Sum(cs)) == Fold(lib, env, cs) == Evaluate(lib, env, Mult(cs));
  }

  lemma {:induction false} FoldFails(lib: Library, env: Names, cs: seq<Expr>, i: nat)
    requires ProperNames(env) && i < |cs| && !Evaluate(lib, env, cs[i]).Ok?
    requires forall j :: 0 <= j < i ==> Evaluate(lib, env, cs[j]).Ok?
    ensures Fold(lib, env, cs) == Evaluate(lib, env, cs[i])
  {
    hide Evaluate;
    if i > 0 {
      FoldFails(lib, env, cs[1..], i - 1);
    }
  }

  /** sum and mult throw when all their operands evaluate. */
  lemma {:induction false} SumThrows(lib: Library, env: Names, cs: seq<Expr>)
    requires ProperNames(env) && forall c :: c in cs ==> Evaluate(lib, env, c).Ok?
    ensures Evaluate(lib, env, Sum(cs)) == Evaluate(lib, env, Mult(cs)) == Thrown
  {
    FoldThrows(lib, env, cs);
    assert Evaluate(lib, env, Sum(cs)) == Fold(lib, env, cs) == Evaluate(lib, env, Mult(cs));
  }

  lemma {:induction false} FoldThrows(lib: Library, env: Names, cs: seq<Expr>)
    requires ProperNames(env) && forall c :: c in cs ==> Evaluate(lib, env, c).Ok?
    ensures Fold(lib, env, cs) == Thrown
  {
    hide Evaluate;
    if cs != [] {
      FoldThrows(lib, env, cs[1..]);
    }
  }

  /**
    Of an element that is missing the code follows a null pointer; of an attribute or a name that is
    missing it throws.
   */
  lemma MissingParts(lib: Library, env: Names, name: Option<string>, limit: Option<real>, c: Expr)
    requires ProperNames(env) && Evaluate(lib, env, c).Ok?
    ensures Evaluate(lib, env, Data(true, [])) == Thrown && Evaluate(lib, env, Data(false, [])) == Undefined
    ensures Evaluate(lib, env, Function(name, limit, [])) == Undefined
    ensures Evaluate(lib, env, Function2(name, [])) == Evaluate(lib, env, Function2(name, [c])) == Undefined
    ensures Evaluate(lib, env, Diff([])) == Evaluate(lib, env, Diff([c])) == Undefined
    ensures Evaluate(lib, env, Quot([])) == Evaluate(lib, env, Quot([c])) == Undefined
    ensures Evaluate(lib, env, Const(None)) == Evaluate(lib, env, Value(None)) == Thrown
    ensures Evaluate(lib, env, Function(None, limit, [c])) == Thrown
    ensures Evaluate(lib, env, Function2(None, [c, c])) == Thrown
    ensures name.Some? ==>
              (Evaluate(lib, env, Value(name)) == Thrown <==> name.value !in env)
  {
  }
}
