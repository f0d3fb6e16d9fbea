// Folding under the overflow checks that are on by default: when the folded expression
// traps no more often than the unfolded one.
module FoldingChecks {
  import opened Wrappers
  import opened Folding
  import opened FoldingMeaning
  import opened Words
  import Numbers
  import IntegerDivision

  // ---------- narrowing ----------

  // The operator is still there after folding, and its result may leave the operands' type.
  predicate OperatorStays(op: Op, l: Expr, r: Expr, typ: Typ) {
    && op != DIV && op != MOD
    && (FoldBinary(op, l, r, typ).Kept? || (op == MINUS && IsInteger(typ) && IsNumber(l, 0) && !IsInt(r)))
  }

  // No operator that is left, save DIV and MOD, has a smaller type than it has without folding.
  predicate NotNarrowed(t: Tree) {
    match t
    case Literal(_, _) => true
    case Leaf(_, _, _) => true
    case Unary(op, x) =>
      && NotNarrowed(x)
      && (Build(x).Some? && Raw(x).Some? && FoldUnary(op, Build(x).value).Kept? ==>
            High(Build(x).value.typ) >= High(Raw(x).value.typ))
    case Binary(op, x, y) =>
      && NotNarrowed(x) && NotNarrowed(y)
      && (Build(x).Some? && Build(y).Some? && Raw(x).Some? && Raw(y).Some? ==>
            var l, r := Build(x).value, Build(y).value;
            var typ, raw := ResultType(op, l.typ, r.typ), ResultType(op, Raw(x).value.typ, Raw(y).value.typ);
            typ.Some? && raw.Some? && OperatorStays(op, l, r, typ.value) ==> High(typ.value) >= High(raw.value))
  }

  // Where folding narrows no operator, a checked run is preserved: the same value and the
  // same calls, and no trap that the unfolded expression does not have.
  lemma {:induction false} CheckedRunPreserved(t: Tree, env: string -> Value)
    requires Typed(t, env) && Safe(t) && NotNarrowed(t) && Build(t).Some? && Raw(t).Some?
    requires Run(Raw(t).value, env, true).Done?
    ensures Run(Build(t).value, env, true) == Run(Raw(t).value, env, true)
    decreases t, 1
  {
    hide *;
    StrictIsLoose(Raw(t).value, env);
    FoldingIsRight(t, env);
    StaysDone(t, env);
    StrictIsLoose(Build(t).value, env);
  }

  lemma {:induction false} StaysDone(t: Tree, env: string -> Value)
    requires Typed(t, env) && Safe(t) && NotNarrowed(t) && Build(t).Some? && Raw(t).Some?
    requires Run(Raw(t).value, env, true).Done?
    ensures Run(Build(t).value, env, true).Done?
    decreases t, 0
  {
    match t
    case Literal(_, _) =>
    case Leaf(_, _, _) =>
    case Unary(op, x) =>
      CheckedRunPreserved(x, env);
      hide Typed, Safe;
    case Binary(op, x, y) =>
      CheckedRunPreserved(x, env);
      if Run(Raw(y).value, env, true).Done? { CheckedRunPreserved(y, env); }
      BuildTyped(x, env);
      BuildTyped(y, env);
      BuildFits(x, env);
      BuildFits(y, env);
      hide LeavesFit, WellTyped;
      BinaryStaysDone(op, Raw(x).value, Raw(y).value, Build(x).value, Build(y).value, Raw(t).value.typ, env);
  }

  lemma {:induction false} BinaryStaysDone(op: Op, x: Expr, y: Expr, l: Expr, r: Expr, raw: Typ, env: string -> Value)
    requires ResultType(op, l.typ, r.typ).Some? && Guard(op, l, r) && Run(Bin(op, x, y, raw), env, true).Done?
    requires Run(l, env, true) == Run(x, env, true) && (Run(y, env, true).Done? ==> Run(r, env, true) == Run(y, env, true))
    requires var typ := ResultType(op, l.typ, r.typ).value; OperatorStays(op, l, r, typ) ==> High(typ) >= High(raw)
    requires LeavesFit(l, env) && LeavesFit(r, env)
    ensures var f := FoldBinary(op, l, r, ResultType(op, l.typ, r.typ).value);
      && (f.Kept? ==> Run(Bin(op, l, r, ResultType(op, l.typ, r.typ).value), env, true).Done?)
      && (f.Folded? && (f.e.Lit? || f.e.typ != BOOLEAN) ==> Run(f.e, env, true).Done?)
  {
    hide High, Pure, ApplySet;
    var typ := ResultType(op, l.typ, r.typ).value;
    var f := FoldBinary(op, l, r, typ);
    assert op == MINUS && IsInteger(typ) && IsNumber(l, 0) && !IsInt(r) ==> typ == r.typ;
    hide FoldMinus, Guard, LeavesFit;
    if op == DIV || op == MOD {
      QuotientStaysDone(op, x, y, l, r, raw, env);
    }
    hide ResultType;
    if f.Kept? {
      hide FoldBinary, Apply;
    } else if op == MINUS && IsInteger(typ) {
      MinusStaysDone(x, y, l, r, raw, typ, env);
      hide FoldBinary, Run;
    } else if f.Folded? {
      FoldedChoice(op, l, r, typ);
      hide FoldBinary, Apply;
    }
  }

  // A quotient or a remainder never leaves the type of its operands.
  lemma {:induction false} QuotientStaysDone(op: Op, x: Expr, y: Expr, l: Expr, r: Expr, raw: Typ, env: string -> Value)
    requires (op == DIV || op == MOD) && ResultType(op, l.typ, r.typ).Some? && Run(Bin(op, x, y, raw), env, true).Done?
    requires Run(l, env, true) == Run(x, env, true) && Run(r, env, true) == Run(y, env, true)
    requires LeavesFit(l, env) && LeavesFit(r, env)
    ensures Run(Bin(op, l, r, ResultType(op, l.typ, r.typ).value), env, true).Done?
  {
    hide LeavesFit;
    StrictFits(l, env);
    StrictFits(r, env);
    var a, b := Run(l, env, true).value.n, Run(r, env, true).value.n;
    QuotientFits(ResultType(op, l.typ, r.typ).value, a, b);
    IntegerDivision.DivModLaw(a, b);
  }

  lemma {:induction false} MinusStaysDone(x: Expr, y: Expr, l: Expr, r: Expr, raw: Typ, typ: Typ, env: string -> Value)
    requires Run(Bin(MINUS, x, y, raw), env, true).Done?
    requires Run(l, env, true) == Run(x, env, true) && Run(r, env, true) == Run(y, env, true)
    requires IsNumber(l, 0) && !IsInt(r) ==> High(r.typ) >= High(raw)
    ensures FoldMinus(l, r, typ).Folded? ==> Run(FoldMinus(l, r, typ).e, env, true).Done?
  {
  }

  // ---------- constants ----------

  predicate Constant(t: Tree) {
    match t
    case Literal(_, _) => true
    case Leaf(_, _, _) => false
    case Unary(_, x) => Constant(x)
    case Binary(_, x, y) => Constant(x) && Constant(y)
  }

  lemma {:induction false} ConstantRun(t: Tree, env: string -> Value, env': string -> Value)
    requires Constant(t) && Raw(t).Some? && Typed(t, env)
    ensures Run(Raw(t).value, env', true) == Run(Raw(t).value, env, true) && Typed(t, env')
  {
    match t
    case Literal(_, _) =>
    case Unary(_, x) =>
      ConstantRun(x, env, env');
      hide Typed;
    case Binary(op, x, y) =>
      ConstantRun(x, env, env');
      ConstantRun(y, env, env');
      hide Typed, Apply;
  }

  lemma {:induction false} ConstantValue(k: Tree, any: string -> Value, env: string -> Value)
    requires Constant(k) && Safe(k) && Typed(k, any) && Raw(k).Some? && Run(Raw(k).value, any, true).Done?
    requires Build(k).Some? && IsInt(Build(k).value)
    ensures Run(Raw(k).value, env, true) == Done(Build(k).value.value, []) && Typed(k, env)
    ensures IsInteger(Build(k).value.typ) && IsInteger(Raw(k).value.typ) && IsOf(Build(k).value.value, Build(k).value.typ)
  {
    hide Constant, Safe, Typed, Build, Raw;
    BuildTyped(k, any);
    BuildFits(k, any);
    ConstantRun(k, any, env);
    StrictIsLoose(Raw(k).value, env);
    FoldingIsRight(k, env);
  }

  // ---------- a constant and a variable ----------

  // The constant k on the left of the variable, or on its right.
  function Pair(op: Op, left: bool, k: Tree, x: Tree): Tree {
    if left then Binary(op, k, x) else Binary(op, x, k)
  }

  function PairOf(op: Op, left: bool, k: Expr, x: Expr, typ: Typ): Expr {
    if left then Bin(op, k, x, typ) else Bin(op, x, k, typ)
  }

  function PairType(k: Expr, t: Typ): Typ {
    Common(k.typ, t)
  }

  // The type that the value is checked against after folding; 0 - x is a negation of x.
  function CheckedType(op: Op, left: bool, k: Expr, t: Typ): Typ {
    if op == MINUS && left && IsNumber(k, 0) then t else PairType(k, t)
  }

  function Combine(op: Op, left: bool, c: int, v: int): int {
    match op
    case MINUS => if left then c - v else v - c
    case TIMES => c * v
    case _ => c + v
  }

  ghost predicate Preserved(t: Tree) {
    forall env: string -> Value :: PreservedIn(t, env)
  }

  ghost predicate PreservedIn(t: Tree, env: string -> Value) {
    Typed(t, env) && Build(t).Some? && Raw(t).Some? && Run(Raw(t).value, env, true).Done? ==>
      Run(Build(t).value, env, true) == Run(Raw(t).value, env, true)
  }

  function Result(typ: Typ, n: int): Outcome {
    if InRange(typ, n) then Done(Int(n), []) else Trap
  }

  lemma {:induction false} PairRun(op: Op, left: bool, k: Expr, c: int, x: string, t: Typ, typ: Typ, env: string -> Value)
    requires op in {PLUS, MINUS, TIMES} && Run(k, env, true) == Done(Int(c), []) && env(x).Int?
    ensures Run(PairOf(op, left, k, Use(x, t, false), typ), env, true) == Result(typ, Combine(op, left, c, env(x).n))
  {
    hide InRange;
    assert Run(Use(x, t, false), env, true) == Done(env(x), []);
  }

  lemma {:induction false} CommonCommutes(a: Typ, b: Typ)
    requires IsInteger(a) && IsInteger(b)
    ensures Common(a, b) == Common(b, a) && IsInteger(Common(a, b)) && High(Common(a, b)) >= High(a) && High(Common(a, b)) >= High(b)
  {
  }

  function FoldedPair(op: Op, left: bool, k: Expr, x: Expr, typ: Typ): Expr {
    if IsNumber(k, 0) && op == TIMES then Lit(Int(0), SHORTINT)
    else if IsNumber(k, if op == TIMES then 1 else 0) && (op != MINUS || !left) then x
    else if IsNumber(k, 0) && op == MINUS then Un(NEG, x, typ)
    else PairOf(op, left, k, x, typ)
  }

  lemma {:induction false} PairFolds(op: Op, left: bool, k: Expr, x: string, t: Typ)
    requires op in {PLUS, MINUS, TIMES} && IsInt(k) && IsInteger(k.typ) && IsInteger(t)
    ensures var u, typ := Use(x, t, false), PairType(k, t);
      var f := FoldBinary(op, if left then k else u, if left then u else k, typ);
      (if f.Folded? then f.e else PairOf(op, left, k, u, typ)) == FoldedPair(op, left, k, u, typ) && !f.Rejected?
  {
    CommonCommutes(k.typ, t);
    hide Common;
  }

  lemma {:induction false} BinaryBuilds(op: Op, x: Tree, y: Tree, typ: Typ, raw: Typ)
    requires Build(x).Some? && Build(y).Some? && ResultType(op, Build(x).value.typ, Build(y).value.typ) == Some(typ)
    requires Raw(x).Some? && Raw(y).Some? && ResultType(op, Raw(x).value.typ, Raw(y).value.typ) == Some(raw)
    requires typ != BOOLEAN && !FoldBinary(op, Build(x).value, Build(y).value, typ).Rejected?
    ensures Raw(Binary(op, x, y)) == Some(Bin(op, Raw(x).value, Raw(y).value, raw))
    ensures var f := FoldBinary(op, Build(x).value, Build(y).value, typ);
      (f.Folded? && f.e.typ == BOOLEAN)
      || Build(Binary(op, x, y)) == Some(if f.Folded? then f.e else Bin(op, Build(x).value, Build(y).value, typ))
  {
    hide ResultType, FoldBinary;
  }

  lemma {:induction false} PairBuilt(op: Op, left: bool, k: Tree, x: string, t: Typ)
    requires op in {PLUS, MINUS, TIMES} && Build(k).Some? && Raw(k).Some? && IsInt(Build(k).value)
    requires IsInteger(Build(k).value.typ) && IsInteger(Raw(k).value.typ) && IsInteger(t)
    ensures var tree, l, u := Pair(op, left, k, Leaf(x, t, false)), Build(k).value, Use(x, t, false);
      && Build(tree) == Some(FoldedPair(op, left, l, u, PairType(l, t)))
      && Raw(tree) == Some(PairOf(op, left, Raw(k).value, u, PairType(Raw(k).value, t)))
  {
    var u, y, l, raw := Use(x, t, false), Leaf(x, t, false), Build(k).value, Raw(k).value;
    assert Build(y) == Some(u) && Raw(y) == Some(u);
    hide FoldBinary, Common, Build, Raw;
    PairFolds(op, left, l, x, t);
    CommonCommutes(l.typ, t);
    CommonCommutes(raw.typ, t);
    if left {
      BinaryBuilds(op, k, y, PairType(l, t), PairType(raw, t));
    } else {
      BinaryBuilds(op, y, k, PairType(l, t), PairType(raw, t));
    }
  }

  // What is built for the pair gives the combined value, or traps when that leaves the type
  // it is checked against.
  lemma {:induction false} FoldedPairRun(op: Op, left: bool, k: Expr, x: string, t: Typ, env: string -> Value)
    requires op in {PLUS, MINUS, TIMES} && IsInt(k) && IsInteger(k.typ) && IsInteger(t) && IsOf(k.value, k.typ) && IsOf(env(x), t)
    ensures Run(FoldedPair(op, left, k, Use(x, t, false), PairType(k, t)), env, true)
         == Result(CheckedType(op, left, k, t), Combine(op, left, k.value.n, env(x).n))
  {
    hide Run, Result, Common;
    var c, v, typ := k.value.n, env(x).n, PairType(k, t);
    SingleRuns(k, x, t, typ, env);
    PairRun(op, left, k, c, x, t, typ, env);
    CommonCommutes(k.typ, t);
    ResultFits(typ, t, v);
    assert c == 0 && op == TIMES ==> Combine(op, left, c, v) == 0;
    assert c == 1 && op == TIMES ==> Combine(op, left, c, v) == v;
  }

  lemma {:induction false} SingleRuns(k: Expr, x: string, t: Typ, typ: Typ, env: string -> Value)
    requires env(x).Int? && k.Lit?
    ensures Run(k, env, true) == Done(k.value, [])
    ensures Run(Use(x, t, false), env, true) == Done(env(x), [])
    ensures Run(Un(NEG, Use(x, t, false), typ), env, true) == Result(t, -env(x).n)
    ensures Run(Lit(Int(0), SHORTINT), env, true) == Done(Int(0), [])
  {
  }

  lemma {:induction false} ResultFits(typ: Typ, t: Typ, v: int)
    requires High(typ) >= High(t) && InRange(t, v)
    ensures Result(typ, v) == Done(Int(v), []) && Result(typ, 0) == Done(Int(0), [])
  {
  }

  lemma {:induction false} PairRuns(op: Op, left: bool, k: Tree, x: string, t: Typ, any: string -> Value, env: string -> Value)
    requires op in {PLUS, MINUS, TIMES} && IsInteger(t)
    requires Constant(k) && Safe(k) && Typed(k, any) && Raw(k).Some? && Run(Raw(k).value, any, true).Done?
    requires Build(k).Some? && IsInt(Build(k).value)
    ensures IsInteger(Build(k).value.typ) && IsInteger(Raw(k).value.typ) && InRange(Build(k).value.typ, Build(k).value.value.n)
    ensures Typed(Pair(op, left, k, Leaf(x, t, false)), env) <==> IsOf(env(x), t)
    ensures IsOf(env(x), t) ==>
      var n := Combine(op, left, Build(k).value.value.n, env(x).n);
      PreservedIn(Pair(op, left, k, Leaf(x, t, false)), env)
      <==> (InRange(PairType(Raw(k).value, t), n) ==> InRange(CheckedType(op, left, Build(k).value, t), n))
  {
    hide Constant, Safe, Build, Raw, Run, PairType, CheckedType, Combine, FoldedPair, PairOf;
    ConstantValue(k, any, env);
    PairBuilt(op, left, k, x, t);
    PairTyped(op, left, k, x, t, env);
    hide Typed;
    if IsOf(env(x), t) {
      FoldedPairRun(op, left, Build(k).value, x, t, env);
      PairRun(op, left, Raw(k).value, Build(k).value.value.n, x, t, PairType(Raw(k).value, t), env);
    }
  }

  lemma {:induction false} PairTyped(op: Op, left: bool, k: Tree, x: string, t: Typ, env: string -> Value)
    requires Typed(k, env)
    ensures Typed(Pair(op, left, k, Leaf(x, t, false)), env) <==> IsOf(env(x), t)
  {
    assert Typed(Leaf(x, t, false), env) <==> IsOf(env(x), t);
  }

  // The values grow or fall with the variable.
  lemma {:induction false} Between(op: Op, left: bool, c: int, low: int, v: int, high: int)
    requires low <= v <= high && op in {PLUS, MINUS, TIMES}
    ensures var a, n, b := Combine(op, left, c, low), Combine(op, left, c, v), Combine(op, left, c, high); a <= n <= b || b <= n <= a
  {
    if c >= 0 {
      Numbers.MulMonotone(v, high, c);
      Numbers.MulMonotone(low, v, c);
    } else {
      Numbers.MulMonotone(v, high, -c);
      Numbers.MulMonotone(low, v, -c);
    }
  }

  lemma {:induction false} Extremes(op: Op, left: bool, c: int, v: int, t: Typ, typ: Typ)
    requires InRange(t, v) && op in {PLUS, MINUS, TIMES}
    requires InRange(typ, Combine(op, left, c, High(t))) && InRange(typ, Combine(op, left, c, -High(t) - 1))
    ensures InRange(typ, Combine(op, left, c, v))
  {
    hide Combine, High;
    Between(op, left, c, -High(t) - 1, v, High(t));
  }

  // A type that is wider than those of both operands holds all the values.
  lemma {:induction false} WiderHolds(op: Op, left: bool, c: int, v: int, typ: Typ, raw: Typ)
    requires InRange(typ, v) && InRange(typ, c) && IsInteger(typ) && IsInteger(raw) && High(raw) > High(typ)
    requires op in {PLUS, MINUS, TIMES}
    ensures InRange(raw, Combine(op, left, c, v))
  {
    if op == TIMES {
      ProductFits(c, v, High(typ) + 1);
      assert (High(typ) + 1) * (High(typ) + 1) <= High(raw);
    }
  }

  lemma {:induction false} ProductFits(c: int, v: int, m: int)
    requires -m <= c <= m && -m <= v <= m
    ensures -(m * m) <= c * v <= m * m
  {
    var a, b := if c < 0 then -c else c, if v < 0 then -v else v;
    Numbers.MulMonotone(a, m, b);
    Numbers.MulMonotone(b, m, m);
    assert c * v == a * b || c * v == -(a * b);
  }

  // A constant k that is folded to c, and a variable on either side of +, - or *: every
  // checked run is preserved if and only if the type the value is checked against is no
  // smaller than without folding, or holds all the values.
  lemma {:induction false} NarrowedIff(op: Op, left: bool, k: Tree, c: int, x: string, t: Typ, any: string -> Value)
    requires op in {PLUS, MINUS, TIMES} && IsInteger(t)
    requires Constant(k) && Safe(k) && Typed(k, any) && Raw(k).Some? && Run(Raw(k).value, any, true).Done?
    requires Build(k).Some? && IsInt(Build(k).value) && Build(k).value.value.n == c
    ensures var typ, raw := CheckedType(op, left, Build(k).value, t), PairType(Raw(k).value, t);
      Preserved(Pair(op, left, k, Leaf(x, t, false)))
      <==> High(typ) >= High(raw)
           || (InRange(typ, Combine(op, left, c, High(t))) && InRange(typ, Combine(op, left, c, -High(t) - 1)))
  {
    hide Typed, PreservedIn, Safe, Constant, Build, Raw, Run, Combine, Pair;
    var tree := Pair(op, left, k, Leaf(x, t, false));
    PairRuns(op, left, k, x, t, any, any);
    var typ, raw := CheckedType(op, left, Build(k).value, t), PairType(Raw(k).value, t);
    CommonCommutes(Build(k).value.typ, t);
    CommonCommutes(Raw(k).value.typ, t);
    if Preserved(tree) {
      forall v | v == High(t) || v == -High(t) - 1 ensures High(typ) >= High(raw) || InRange(typ, Combine(op, left, c, v)) {
        var env: string -> Value := (name: string) => Int(v);
        assert PreservedIn(tree, env) && IsOf(env(x), t);
        PairRuns(op, left, k, x, t, any, env);
        if High(typ) < High(raw) { WiderHolds(op, left, c, v, typ, raw); }
      }
    } else {
      var env: string -> Value :| !PreservedIn(tree, env);
      assert Typed(tree, env) by { if !Typed(tree, env) { UntypedPreserved(tree, env); } }
      PairRuns(op, left, k, x, t, any, env);
      if InRange(typ, Combine(op, left, c, High(t))) && InRange(typ, Combine(op, left, c, -High(t) - 1)) {
        Extremes(op, left, c, env(x).n, t, typ);
      }
    }
  }

  lemma {:induction false} UntypedPreserved(t: Tree, env: string -> Value)
    requires !Typed(t, env)
    ensures PreservedIn(t, env)
  {
  }

  // ---------- two trees ----------

  // (100000 - 99999) + x overflows for the largest SHORTINT once the difference has been
  // folded to a SHORTINT, and does not otherwise.
  lemma {:induction false} NarrowedLiteralOverflows(env: string -> Value)
    requires env("x") == Int(0x7fff)
    ensures var t := Binary(PLUS, Binary(MINUS, Literal(Int(100000), INTEGER), Literal(Int(99999), INTEGER)), Leaf("x", SHORTINT, false));
      && Typed(t, env) && Safe(t) && !NotNarrowed(t)
      && Raw(t).Some? && Run(Raw(t).value, env, true) == Done(Int(0x8000), [])
      && Build(t).Some? && Run(Build(t).value, env, true) == Trap
  {
    var k, x := Binary(MINUS, Literal(Int(100000), INTEGER), Literal(Int(99999), INTEGER)), Leaf("x", SHORTINT, false);
    Difference(env);
    hide Run;
    PairBuilt(PLUS, true, k, "x", SHORTINT);
    assert FoldBinary(PLUS, Build(k).value, Use("x", SHORTINT, false), SHORTINT) == Kept;
    hide FoldBinary;
    assert Build(x) == Some(Use("x", SHORTINT, false)) == Raw(x);
    assert Typed(x, env) && Safe(x);
    hide Build, Raw;
    FoldedPairRun(PLUS, true, Build(k).value, "x", SHORTINT, env);
    PairRun(PLUS, true, Raw(k).value, 1, "x", SHORTINT, INTEGER, env);
  }

  lemma {:induction false} Difference(env: string -> Value)
    ensures var k := Binary(MINUS, Literal(Int(100000), INTEGER), Literal(Int(99999), INTEGER));
      && Build(k) == Some(Lit(Int(1), SHORTINT)) && Typed(k, env) && Safe(k)
      && Raw(k).Some? && Raw(k).value.typ == INTEGER && Run(Raw(k).value, env, true) == Done(Int(1), [])
  {
    LongFits(1);
    hide Wrap;
    var l, r := Literal(Int(100000), INTEGER), Literal(Int(99999), INTEGER);
    assert Build(l) == Raw(l) == Some(Lit(Int(100000), INTEGER)) && Build(r) == Raw(r) == Some(Lit(Int(99999), INTEGER));
  }

  // (100000 MOD 5) - x is folded to a negation that is typed INTEGER, but made in the 16
  // bits of x: it overflows for the least SHORTINT, where the difference does not.
  lemma {:induction false} WideZeroNegates(env: string -> Value)
    requires env("x") == Int(-0x8000)
    ensures var t := Binary(MINUS, Binary(MOD, Literal(Int(100000), INTEGER), Literal(Int(5), SHORTINT)), Leaf("x", SHORTINT, false));
      && Typed(t, env) && NotNarrowed(t) && !Safe(t)
      && Raw(t).Some? && Run(Raw(t).value, env, true) == Done(Int(0x8000), [])
      && Build(t) == Some(Un(NEG, Use("x", SHORTINT, false), INTEGER)) && !Sized(Build(t).value)
      && Run(Build(t).value, env, true) == Trap
  {
    var k, x := Binary(MOD, Literal(Int(100000), INTEGER), Literal(Int(5), SHORTINT)), Leaf("x", SHORTINT, false);
    Remainder(env);
    hide Run;
    PairBuilt(MINUS, true, k, "x", SHORTINT);
    hide FoldBinary;
    assert Build(x) == Some(Use("x", SHORTINT, false)) == Raw(x);
    assert Typed(x, env) && NotNarrowed(x);
    hide Build, Raw;
    FoldedPairRun(MINUS, true, Build(k).value, "x", SHORTINT, env);
    PairRun(MINUS, true, Raw(k).value, 0, "x", SHORTINT, INTEGER, env);
  }

  lemma {:induction false} Remainder(env: string -> Value)
    ensures var k := Binary(MOD, Literal(Int(100000), INTEGER), Literal(Int(5), SHORTINT));
      && Build(k) == Some(Lit(Int(0), INTEGER)) && Typed(k, env) && NotNarrowed(k)
      && Raw(k).Some? && Raw(k).value.typ == INTEGER && Run(Raw(k).value, env, true) == Done(Int(0), [])
  {
    var l, r := Literal(Int(100000), INTEGER), Literal(Int(5), SHORTINT);
    assert Build(l) == Raw(l) == Some(Lit(Int(100000), INTEGER)) && Build(r) == Raw(r) == Some(Lit(Int(5), SHORTINT));
    assert FoldBinary(MOD, Build(l).value, Build(r).value, INTEGER) == Folded(Lit(Int(0), INTEGER));
  }
}
