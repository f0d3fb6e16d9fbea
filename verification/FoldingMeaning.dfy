// Folding preserves values: what is proved about Folding.Build.
module FoldingMeaning {
  import opened Wrappers
  import opened Folding
  import opened Words
  import Numbers
  import IntegerDivision

  // ---------- kinds ----------

  predicate SameKind(a: Typ, b: Typ) {
    a == b || (IsInteger(a) && IsInteger(b))
  }

  predicate HasKind(v: Value, t: Typ) {
    match v
    case Bool(_) => t == BOOLEAN
    case Int(n) => IsInteger(t) && InRange(LONGINT, n)
    case Set(s) => t == SET && s <= ALL
  }

  ghost predicate WellTyped(e: Expr, env: string -> Value) {
    match e
    case Lit(v, t) => HasKind(v, t)
    case Use(name, t, _) => HasKind(env(name), t)
    case Un(op, x, t) => WellTyped(x, env) && UnaryApplies(op, x.typ) && SameKind(x.typ, t)
    case Bin(op, x, y, t) =>
      && WellTyped(x, env) && WellTyped(y, env) && ResultType(op, x.typ, y.typ).Some?
      && SameKind(ResultType(op, x.typ, y.typ).value, t)
  }

  lemma {:induction false} RunKind(e: Expr, env: string -> Value)
    requires WellTyped(e, env) && Run(e, env, false).Done?
    ensures HasKind(Run(e, env, false).value, e.typ)
  {
    match e
    case Lit(_, _) =>
    case Use(_, _, _) =>
    case Un(op, x, t) =>
      RunKind(x, env);
      hide Run, WellTyped;
    case Bin(op, x, y, t) =>
      RunKind(x, env);
      if Run(y, env, false).Done? { RunKind(y, env); }
      if op != AND && op != OR {
        BinaryKind(op, Run(x, env, false).value, Run(y, env, false).value, x.typ, y.typ);
      }
  }

  lemma {:induction false} BinaryKind(op: Op, a: Value, b: Value, s: Typ, t: Typ)
    requires HasKind(a, s) && HasKind(b, t) && ResultType(op, s, t).Some? && Checked(Apply(op, a, b), LONGINT).Some?
    ensures HasKind(Checked(Apply(op, a, b), LONGINT).value, ResultType(op, s, t).value)
  {
  }

  // ---------- calls and overflow ----------

  lemma {:induction false} PureCallsNothing(e: Expr, env: string -> Value)
    requires Pure(e) && Run(e, env, false).Done?
    ensures Run(e, env, false).calls == []
  {
    match e
    case Lit(_, _) =>
    case Use(_, _, _) =>
    case Un(_, x, _) =>
      PureCallsNothing(x, env);
    case Bin(_, x, y, _) =>
      PureCallsNothing(x, env);
      if Run(y, env, false).Done? { PureCallsNothing(y, env); }
  }

  // A run in which nothing overflows its type is a run in 64 bits.
  lemma {:induction false} StrictIsLoose(e: Expr, env: string -> Value)
    requires Run(e, env, true).Done?
    ensures Run(e, env, false) == Run(e, env, true)
  {
    match e
    case Lit(_, _) =>
    case Use(_, _, _) =>
    case Un(_, x, _) =>
      StrictIsLoose(x, env);
    case Bin(_, x, y, _) =>
      StrictIsLoose(x, env);
      if Run(y, env, true).Done? { StrictIsLoose(y, env); }
  }

  // ---------- single folds ----------

  lemma {:induction false} LongFits(n: int)
    ensures InRange(LONGINT, n) ==> Wrap(n, 64) == n
    ensures InRange(LONGINT, Wrap(n, 64)) && InRange(IntType(Wrap(n, 64)), Wrap(n, 64))
  {
    Powers();
    HalfIs(64);
    WrapFits(n, 64);
  }

  lemma {:induction false} UnaryFoldRight(op: UnaryOp, e: Expr, typ: Typ, env: string -> Value)
    requires FoldUnary(op, e).Folded? && Run(Un(op, e, typ), env, false).Done?
    ensures Run(FoldUnary(op, e).e, env, false) == Run(Un(op, e, typ), env, false)
  {
    if e.value.Int? { LongFits(-e.value.n); }
  }

  // The unfolded node.
  function Node(op: Op, l: Expr, r: Expr): Expr {
    Bin(op, l, r, LONGINT)
  }

  lemma {:induction false} PlusFoldRight(l: Expr, r: Expr, env: string -> Value)
    requires WellTyped(l, env) && WellTyped(r, env) && IsInteger(l.typ) && IsInteger(r.typ)
    requires Run(Node(PLUS, l, r), env, false).Done?
    ensures var both := if IsInt(l) && IsInt(r) then l.value.n + r.value.n else 0;
      var f := FoldArithmetic(l, r, 0, None, both);
      f.Folded? ==> Run(f.e, env, false) == Run(Node(PLUS, l, r), env, false)
  {
    hide Wrap, IntType, WellTyped, High;
    RunKind(l, env);
    RunKind(r, env);
    if IsInt(l) && IsInt(r) { LongFits(l.value.n + r.value.n); }
    hide Wrap, IntType, WellTyped;
  }

  lemma {:induction false} TimesFoldRight(l: Expr, r: Expr, env: string -> Value)
    requires WellTyped(l, env) && WellTyped(r, env) && IsInteger(l.typ) && IsInteger(r.typ)
    requires Run(Node(TIMES, l, r), env, false).Done? && Guard(TIMES, l, r)
    ensures var both := if IsInt(l) && IsInt(r) then l.value.n * r.value.n else 0;
      var f := FoldArithmetic(l, r, 1, Some(0), both);
      f.Folded? ==> Run(f.e, env, false) == Run(Node(TIMES, l, r), env, false)
  {
    hide WellTyped, High, ApplySet;
    RunKind(l, env);
    RunKind(r, env);
    if IsInt(l) && IsInt(r) {
      LongFits(l.value.n * r.value.n);
    } else if IsNumber(l, 0) {
      PureCallsNothing(r, env);
    } else if IsNumber(r, 0) {
      PureCallsNothing(l, env);
    }
  }

  lemma {:induction false} MinusFoldRight(l: Expr, r: Expr, common: Typ, env: string -> Value)
    requires WellTyped(l, env) && WellTyped(r, env) && IsInteger(l.typ) && IsInteger(r.typ)
    requires Run(Node(MINUS, l, r), env, false).Done? && FoldMinus(l, r, common).Folded?
    ensures Run(FoldMinus(l, r, common).e, env, false) == Run(Node(MINUS, l, r), env, false)
  {
    RunKind(l, env);
    RunKind(r, env);
    if IsInt(l) && IsInt(r) { LongFits(l.value.n - r.value.n); }
    hide Wrap, IntType, WellTyped;
  }

  lemma {:induction false} DivModFoldRight(op: Op, l: Expr, r: Expr, common: Typ, env: string -> Value)
    requires (op == DIV || op == MOD) && WellTyped(l, env) && WellTyped(r, env) && IsInteger(l.typ) && IsInteger(r.typ)
    requires Run(Node(op, l, r), env, false).Done? && FoldDivMod(op, l, r, common).Folded? && Guard(op, l, r)
    ensures Run(FoldDivMod(op, l, r, common).e, env, false) == Run(Node(op, l, r), env, false)
  {
    RunKind(l, env);
    if IsInt(l) { IntegerDivision.DivModLaw(l.value.n, r.value.n); }
    hide IntegerDivision.FloorDiv, IntegerDivision.EuclideanMod;
  }

  lemma {:induction false} RelationFoldRight(op: Op, l: Expr, r: Expr, env: string -> Value)
    requires Run(Node(op, l, r), env, false).Done? && FoldRelation(op, l, r).Folded? && Guard(op, l, r)
    ensures Run(FoldRelation(op, l, r).e, env, false) == Run(Node(op, l, r), env, false)
  {
  }

  lemma {:induction false} BooleanFoldRight(op: Op, l: Expr, r: Expr, env: string -> Value)
    requires WellTyped(l, env) && WellTyped(r, env) && l.typ == BOOLEAN && r.typ == BOOLEAN
    requires Run(Node(op, l, r), env, false).Done? && FoldBoolean(op, l, r).Folded?
    ensures Run(FoldBoolean(op, l, r).e, env, false) == Run(Node(op, l, r), env, false)
  {
  }

  lemma {:induction false} SetFoldRight(op: Op, l: Expr, r: Expr, env: string -> Value)
    requires WellTyped(l, env) && WellTyped(r, env)
    requires Run(Node(op, l, r), env, false).Done? && FoldSet(op, l, r).Folded?
    ensures Run(FoldSet(op, l, r).e, env, false) == Run(Node(op, l, r), env, false)
  {
    if IsSet(l) && IsSet(r) {
      SetFacts(l.value.s, r.value.s);
    }
  }

  lemma {:induction false} SetFacts(s: set<nat>, t: set<nat>)
    requires s <= ALL && t <= ALL
    ensures s * (ALL - t) == s - t && (s + t) - (s * t) == (s - t) + (t - s)
    ensures s * (ALL - t) == {} <==> s <= t
    ensures t * (ALL - s) == {} <==> t <= s
  {
    if s * (ALL - t) == {} {
      forall x | x in s ensures x in t {
        assert x in ALL - t ==> x in s * (ALL - t);
      }
    }
    if t * (ALL - s) == {} {
      forall x | x in t ensures x in s {
        assert x in ALL - s ==> x in t * (ALL - s);
      }
    }
  }

  lemma {:induction false} BinaryFoldRight(op: Op, l: Expr, r: Expr, env: string -> Value)
    requires WellTyped(l, env) && WellTyped(r, env) && ResultType(op, l.typ, r.typ).Some?
    requires Run(Node(op, l, r), env, false).Done? && Guard(op, l, r)
    ensures var f := FoldBinary(op, l, r, ResultType(op, l.typ, r.typ).value);
      f.Folded? ==> Run(f.e, env, false) == Run(Node(op, l, r), env, false)
  {
    hide Run, WellTyped, Guard, FoldArithmetic, FoldMinus, FoldDivMod, FoldRelation, FoldBoolean, FoldSet, Node, IsInt;
    var typ := ResultType(op, l.typ, r.typ).value;
    if typ == BOOLEAN && l.typ == BOOLEAN && r.typ == BOOLEAN {
      if FoldBoolean(op, l, r).Folded? { BooleanFoldRight(op, l, r, env); }
    } else if typ == BOOLEAN && IsInteger(l.typ) && IsInteger(r.typ) {
      if FoldRelation(op, l, r).Folded? { RelationFoldRight(op, l, r, env); }
    } else if typ == BOOLEAN || typ == SET {
      if FoldSet(op, l, r).Folded? { SetFoldRight(op, l, r, env); }
    } else {
      match op
      case PLUS => PlusFoldRight(l, r, env);
      case MINUS => if FoldMinus(l, r, typ).Folded? { MinusFoldRight(l, r, typ, env); }
      case TIMES => TimesFoldRight(l, r, env);
      case DIV => if FoldDivMod(op, l, r, typ).Folded? { DivModFoldRight(op, l, r, typ, env); }
      case MOD => if FoldDivMod(op, l, r, typ).Folded? { DivModFoldRight(op, l, r, typ, env); }
      case _ =>
    }
  }

  // ---------- whole trees ----------

  lemma {:induction false} BuildTyped(t: Tree, env: string -> Value)
    requires Typed(t, env) && Build(t).Some?
    ensures WellTyped(Build(t).value, env)
    ensures Raw(t).Some? && SameKind(Raw(t).value.typ, Build(t).value.typ)
  {
    match t
    case Literal(_, _) =>
    case Leaf(_, _, _) =>
    case Unary(op, x) =>
      BuildTyped(x, env);
      hide WellTyped;
      UnaryFoldTyped(op, Build(x).value, env);
    case Binary(op, x, y) =>
      BuildTyped(x, env);
      BuildTyped(y, env);
      hide WellTyped, FoldBinary;
      SameResultKind(op, Raw(x).value.typ, Raw(y).value.typ, Build(x).value.typ, Build(y).value.typ);
      BinaryFoldTyped(op, Build(x).value, Build(y).value, env);
  }

  lemma {:induction false} SameResultKind(op: Op, a: Typ, b: Typ, a': Typ, b': Typ)
    requires SameKind(a, a') && SameKind(b, b') && ResultType(op, a', b').Some?
    ensures ResultType(op, a, b).Some? && SameKind(ResultType(op, a, b).value, ResultType(op, a', b').value)
  {
    hide High;
  }

  lemma {:induction false} UnaryFoldTyped(op: UnaryOp, e: Expr, env: string -> Value)
    requires WellTyped(e, env) && UnaryApplies(op, e.typ)
    ensures FoldUnary(op, e).Folded? ==> WellTyped(FoldUnary(op, e).e, env) && SameKind(FoldUnary(op, e).e.typ, e.typ)
    ensures WellTyped(Un(op, e, e.typ), env)
  {
    if IsInt(e) { LongFits(-e.value.n); }
  }

  ghost predicate Keeps(f: Fold, typ: Typ, env: string -> Value) {
    f.Folded? ==> WellTyped(f.e, env) && SameKind(f.e.typ, typ)
  }

  lemma {:induction false} BinaryFoldTyped(op: Op, l: Expr, r: Expr, env: string -> Value)
    requires WellTyped(l, env) && WellTyped(r, env) && ResultType(op, l.typ, r.typ).Some?
    ensures var typ := ResultType(op, l.typ, r.typ).value;
      WellTyped(Bin(op, l, r, typ), env) && Keeps(FoldBinary(op, l, r, typ), typ, env)
  {
    var typ := ResultType(op, l.typ, r.typ).value;
    assert WellTyped(Bin(op, l, r, typ), env);
    assert Keeps(Kept, typ, env) && Keeps(Rejected, typ, env);
    hide Keeps, WellTyped, FoldArithmetic, FoldMinus, FoldDivMod, FoldRelation, FoldBoolean, FoldSet;
    if typ == BOOLEAN && l.typ == BOOLEAN && r.typ == BOOLEAN {
    } else if typ == BOOLEAN && IsInteger(l.typ) && IsInteger(r.typ) {
    } else if typ == BOOLEAN || typ == SET {
    } else {
      match op
      case PLUS => ArithmeticKeeps(l, r, 0, None, if IsInt(l) && IsInt(r) then l.value.n + r.value.n else 0, typ, env);
      case MINUS => MinusKeeps(l, r, typ, env);
      case TIMES => ArithmeticKeeps(l, r, 1, Some(0), if IsInt(l) && IsInt(r) then l.value.n * r.value.n else 0, typ, env);
      case DIV => DivModKeeps(op, l, r, typ, env);
      case MOD => DivModKeeps(op, l, r, typ, env);
      case _ =>
    }
  }

  lemma {:induction false} NumberTyped(n: int, env: string -> Value)
    ensures WellTyped(Number(n), env) && IsInteger(Number(n).typ)
  {
    LongFits(n);
  }

  lemma {:induction false} ArithmeticKeeps(
    l: Expr, r: Expr, neutral: int, zero: Option<int>, both: int, typ: Typ, env: string -> Value)
    requires WellTyped(l, env) && WellTyped(r, env) && IsInteger(l.typ) && IsInteger(r.typ) && IsInteger(typ)
    requires zero.Some? ==> zero.value == 0
    ensures Keeps(FoldArithmetic(l, r, neutral, zero, both), typ, env)
  {
    NumberTyped(both, env);
    hide Number;
  }

  lemma {:induction false} MinusKeeps(l: Expr, r: Expr, typ: Typ, env: string -> Value)
    requires WellTyped(l, env) && WellTyped(r, env) && IsInteger(l.typ) && IsInteger(r.typ) && IsInteger(typ)
    ensures Keeps(FoldMinus(l, r, typ), typ, env)
  {
    if IsInt(l) && IsInt(r) { NumberTyped(l.value.n - r.value.n, env); }
    hide Number;
  }

  lemma {:induction false} DivModKeeps(op: Op, l: Expr, r: Expr, typ: Typ, env: string -> Value)
    requires WellTyped(l, env) && WellTyped(r, env) && IsInteger(l.typ) && IsInteger(r.typ) && IsInteger(typ)
    ensures Keeps(FoldDivMod(op, l, r, typ), typ, env)
  {
    if IsInt(l) && IsInt(r) && r.value.n > 0 {
      QuotientFits(LONGINT, l.value.n, r.value.n);
    }
    hide IntegerDivision.FloorDiv, IntegerDivision.EuclideanMod;
  }

  lemma {:induction false} QuotientFits(t: Typ, x: int, y: int)
    requires InRange(t, x) && InRange(t, y) && y > 0
    ensures InRange(t, IntegerDivision.FloorDiv(x, y)) && InRange(t, IntegerDivision.EuclideanMod(x, y))
  {
    IntegerDivision.DivModLaw(x, y);
    hide IntegerDivision.FloorDiv, IntegerDivision.EuclideanMod, High;
    QuotientBound(x, y);
  }

  lemma {:induction false} QuotientBound(x: int, y: int)
    requires y > 0
    ensures x >= 0 ==> 0 <= x / y <= x
    ensures x < 0 ==> x <= x / y < 0
  {
    var q, r := x / y, x % y;
    assert x == q * y + r && 0 <= r < y;
    QuotientBounded(x, y, q, r);
  }

  lemma {:induction false} QuotientBounded(x: int, y: int, q: int, r: int)
    requires y > 0 && x == q * y + r && 0 <= r < y
    ensures x >= 0 ==> 0 <= q <= x
    ensures x < 0 ==> x <= q < 0
  {
    if q >= 0 {
      Numbers.MulMonotone(0, q, y);
      Numbers.MulMonotone(1, y, q);
    } else {
      Numbers.MulMonotone(q, -1, y);
      NegativeProduct(q + 1, y);
      Numbers.MulDistributes(q, 1, y);
    }
  }

  lemma {:induction false} NegativeProduct(q: int, y: int)
    requires q <= 0 && y > 0
    ensures q * y <= q
  {
  }

  // If an expression evaluates, in the widest type, then what is built for it evaluates to
  // the same value with the same calls, unless it was folded where folding is wrong. If it
  // evaluates even without leaving its types, then what is built gives the same value or
  // overflows, because folding has made a literal narrower.
  lemma {:induction false} FoldingPreserves(t: Tree, env: string -> Value)
    requires Typed(t, env) && Safe(t) && Build(t).Some? && Raw(t).Some? && Run(Raw(t).value, env, false).Done?
    ensures Run(Build(t).value, env, false) == Run(Raw(t).value, env, false)
    ensures Run(Build(t).value, env, true) in {Trap, Run(Raw(t).value, env, false)}
  {
    hide *;
    FoldingIsRight(t, env);
    if Run(Build(t).value, env, true).Done? {
      StrictIsLoose(Build(t).value, env);
    }
  }

  lemma {:induction false} FoldingIsRight(t: Tree, env: string -> Value)
    requires Typed(t, env) && Safe(t) && Build(t).Some? && Raw(t).Some? && Run(Raw(t).value, env, false).Done?
    ensures Run(Build(t).value, env, false) == Run(Raw(t).value, env, false)
  {
    hide WellTyped, Guard, FoldBinary, FoldUnary;
    match t
    case Literal(_, _) =>
    case Leaf(_, _, _) =>
    case Unary(op, x) =>
      FoldingIsRight(x, env);
      var e := Build(x).value;
      if FoldUnary(op, e).Folded? {
        UnaryFoldRight(op, e, e.typ, env);
      }
    case Binary(op, x, y) =>
      FoldingIsRight(x, env);
      if Run(Raw(y).value, env, false).Done? { FoldingIsRight(y, env); }
      BuildTyped(x, env);
      BuildTyped(y, env);
      var l, r := Build(x).value, Build(y).value;
      BinaryFoldRight(op, l, r, env);
  }

  // ---------- literals fit their types ----------

  // Literals and variables hold values of their types, and a negation is not narrower than
  // its operand.
  ghost predicate LeavesFit(e: Expr, env: string -> Value) {
    match e
    case Lit(v, t) => IsOf(v, t)
    case Use(name, t, _) => IsOf(env(name), t)
    case Un(op, x, t) => LeavesFit(x, env) && (op == NEG ==> High(x.typ) <= High(t))
    case Bin(_, x, y, _) => LeavesFit(x, env) && LeavesFit(y, env)
  }

  // What evaluates without leaving its types is a value of its own type.
  lemma {:induction false} StrictFits(e: Expr, env: string -> Value)
    requires LeavesFit(e, env) && Run(e, env, true).Done? && Run(e, env, true).value.Int?
    ensures InRange(e.typ, Run(e, env, true).value.n)
  {
  }

  lemma {:induction false} BuildFits(t: Tree, env: string -> Value)
    requires Typed(t, env) && Build(t).Some?
    ensures LeavesFit(Build(t).value, env)
  {
    match t
    case Literal(_, _) =>
    case Leaf(_, _, _) =>
    case Unary(op, x) =>
      BuildFits(x, env);
      if IsInt(Build(x).value) { LongFits(-Build(x).value.value.n); }
    case Binary(op, x, y) =>
      BuildFits(x, env);
      BuildFits(y, env);
      hide FoldBinary;
      FoldFits(op, Build(x).value, Build(y).value, env);
  }

  ghost predicate Fits(f: Fold, env: string -> Value) {
    f.Folded? ==> LeavesFit(f.e, env)
  }

  lemma {:induction false} FoldFits(op: Op, l: Expr, r: Expr, env: string -> Value)
    requires LeavesFit(l, env) && LeavesFit(r, env) && ResultType(op, l.typ, r.typ).Some?
    ensures Fits(FoldBinary(op, l, r, ResultType(op, l.typ, r.typ).value), env)
  {
    hide LeavesFit, FoldArithmetic, FoldMinus, FoldDivMod, FoldRelation, FoldBoolean, FoldSet;
    var typ := ResultType(op, l.typ, r.typ).value;
    assert Fits(Kept, env) && Fits(Rejected, env);
    hide Fits;
    if IsInteger(typ) {
      match op
      case PLUS => ArithmeticFits(l, r, 0, None, if IsInt(l) && IsInt(r) then l.value.n + r.value.n else 0, env);
      case MINUS => MinusFits(l, r, typ, env);
      case TIMES => ArithmeticFits(l, r, 1, Some(0), if IsInt(l) && IsInt(r) then l.value.n * r.value.n else 0, env);
      case DIV => DivModFits(op, l, r, typ, env);
      case MOD => DivModFits(op, l, r, typ, env);
      case _ =>
    } else {
      RelationsFit(op, l, r, env);
      SetsFit(op, l, r, env);
    }
  }

  lemma {:induction false} ArithmeticFits(l: Expr, r: Expr, neutral: int, zero: Option<int>, both: int, env: string -> Value)
    requires LeavesFit(l, env) && LeavesFit(r, env)
    ensures Fits(FoldArithmetic(l, r, neutral, zero, both), env)
  {
    NumberFits(both, env);
  }

  lemma {:induction false} MinusFits(l: Expr, r: Expr, common: Typ, env: string -> Value)
    requires LeavesFit(l, env) && LeavesFit(r, env) && High(r.typ) <= High(common)
    ensures Fits(FoldMinus(l, r, common), env)
  {
    if IsInt(l) && IsInt(r) { NumberFits(l.value.n - r.value.n, env); }
  }

  lemma {:induction false} RelationsFit(op: Op, l: Expr, r: Expr, env: string -> Value)
    requires LeavesFit(l, env) && LeavesFit(r, env)
    ensures Fits(FoldRelation(op, l, r), env) && Fits(FoldBoolean(op, l, r), env)
  {
  }

  lemma {:induction false} SetsFit(op: Op, l: Expr, r: Expr, env: string -> Value)
    requires LeavesFit(l, env) && LeavesFit(r, env)
    ensures Fits(FoldSet(op, l, r), env)
  {
  }

  lemma {:induction false} NumberFits(n: int, env: string -> Value)
    ensures LeavesFit(Number(n), env) && Number(n).Lit? && Number(n).value.Int? && IsInteger(Number(n).typ)
  {
    LongFits(n);
  }

  lemma {:induction false} DivModFits(op: Op, l: Expr, r: Expr, typ: Typ, env: string -> Value)
    requires LeavesFit(l, env) && LeavesFit(r, env) && ResultType(op, l.typ, r.typ) == Some(typ) && IsInteger(typ)
    ensures Fits(FoldDivMod(op, l, r, typ), env)
  {
    if IsInt(l) && IsInt(r) && r.value.n > 0 {
      assert InRange(typ, l.value.n) && InRange(typ, r.value.n);
      QuotientFits(typ, l.value.n, r.value.n);
    }
    hide IntegerDivision.FloorDiv, IntegerDivision.EuclideanMod;
  }

  // ---------- where folding is wrong ----------

  // The folded relation is the relation, except for < and <= of equal numbers.
  lemma {:induction false} RelationRightIff(op: Op, x: int, y: int)
    requires op in {EQ, NEQ, LT, LEQ, GT, GEQ}
    ensures FoldedRelation(op, x, y).Some?
    ensures ApplyInt(op, x, y) == Some(Bool(FoldedRelation(op, x, y).value)) <==> (op == LT || op == LEQ ==> x != y)
  {
  }

  // A remainder by 1 is folded to the dividend, which is right only for 0.
  lemma {:induction false} ModByOneRightIff(l: Expr, n: int, common: Typ, env: string -> Value)
    requires Run(l, env, false).Done? && Run(l, env, false).value == Int(n)
    ensures var f := FoldDivMod(MOD, l, Number(1), common);
      && f.Folded?
      && (Run(f.e, env, false) == Run(Node(MOD, l, Number(1)), env, false) <==> n == 0)
  {
    LongFits(1);
    hide Wrap;
  }

  // An integer expression has no parts that its run skips.
  lemma {:induction false} PureIffNoCalls(e: Expr, env: string -> Value)
    requires WellTyped(e, env) && IsInteger(e.typ) && Run(e, env, false).Done?
    ensures Run(e, env, false).calls == [] <==> Pure(e)
  {
    match e
    case Lit(_, _) =>
    case Use(_, _, _) =>
    case Un(_, x, _) =>
      PureIffNoCalls(x, env);
    case Bin(_, x, y, _) =>
      PureIffNoCalls(x, env);
      PureIffNoCalls(y, env);
  }

  // A product with 0 is folded to 0, which is right just when the other factor contains no
  // call and does not trap.
  lemma {:induction false} TimesZeroRightIff(l: Expr, r: Expr, env: string -> Value)
    requires WellTyped(l, env) && WellTyped(r, env) && IsInteger(l.typ) && IsInteger(r.typ)
    requires (IsNumber(l, 0) && !IsInt(r)) || (IsNumber(r, 0) && !IsInt(l))
    ensures var f, other := FoldArithmetic(l, r, 1, Some(0), 0), if IsInt(l) then r else l;
      && f == Folded(Lit(Int(0), SHORTINT))
      && (Run(f.e, env, false) == Run(Node(TIMES, l, r), env, false) <==> Run(other, env, false).Done? && Pure(other))
  {
    var other := if IsInt(l) then r else l;
    if Run(other, env, false).Done? {
      RunKind(other, env);
      PureIffNoCalls(other, env);
    }
    hide Pure, WellTyped;
  }

  // ---------- widths ----------

  // Every operand is as wide as its instruction takes it to be: a negation has the type of
  // its operand, and an element that is no literal the width of a set (a literal's shift is
  // calculated by LLVM's builder). The operands of the other operators are cast to their
  // common type.
  predicate Sized(e: Expr) {
    match e
    case Lit(_, _) => true
    case Use(_, _, _) => true
    case Un(op, x, t) => Sized(x) && (op == NEG && IsInteger(t) ==> x.typ == t)
    case Bin(op, x, y, _) => Sized(x) && Sized(y) && (op == IN ==> ElementFits(x))
  }

  predicate ElementFits(x: Expr) {
    x.typ == INTEGER || x.Lit?
  }

  // 0 - r is folded to a negation, whose operand is not cast: it keeps the width that the
  // difference has if and only if the 0 is no wider than r.
  lemma {:induction false} NegationWidthIff(l: Expr, r: Expr)
    requires IsNumber(l, 0) && !IsInt(r) && IsInteger(l.typ) && IsInteger(r.typ)
    ensures var typ := ResultType(MINUS, l.typ, r.typ);
      && typ.Some? && FoldBinary(MINUS, l, r, typ.value) == Folded(Un(NEG, r, typ.value))
      && (Sized(Un(NEG, r, typ.value)) <==> Sized(r) && High(l.typ) <= High(r.typ))
  {
    assert IsInteger(Common(l.typ, r.typ)) && (Common(l.typ, r.typ) == r.typ <==> High(l.typ) <= High(r.typ));
  }

  // Every element that is looked up in a set that is no literal is an INTEGER or a literal.
  predicate ElementsFit(t: Tree) {
    match t
    case Literal(_, _) => true
    case Leaf(_, _, _) => true
    case Unary(_, x) => ElementsFit(x)
    case Binary(op, x, y) =>
      && ElementsFit(x) && ElementsFit(y)
      && (op == IN && Build(x).Some? && Build(y).Some? && !IsSet(Build(y).value) ==> ElementFits(Build(x).value))
  }

  // What is built for a tree that is folded nowhere wrong has the widths that its types say
  // if and only if its elements fit.
  lemma {:induction false} BuildIsSizedIff(t: Tree)
    requires Safe(t) && Build(t).Some?
    ensures Sized(Build(t).value) <==> ElementsFit(t)
  {
    match t
    case Literal(_, _) =>
    case Leaf(_, _, _) =>
    case Unary(op, x) =>
      BuildIsSizedIff(x);
      hide Safe, Number;
    case Binary(op, x, y) =>
      BuildIsSizedIff(x);
      BuildIsSizedIff(y);
      if Build(x).value.typ != BOOLEAN { NumbersFit(x); }
      if Build(y).value.typ != BOOLEAN { NumbersFit(y); }
      BinaryIsSized(op, Build(x).value, Build(y).value);
      hide Guard, FoldBinary, ResultType, ElementFits;
  }

  // Only a Boolean tree looks up elements.
  lemma {:induction false} NumbersFit(t: Tree)
    requires Build(t).Some? && Build(t).value.typ != BOOLEAN
    ensures ElementsFit(t)
  {
    match t
    case Literal(_, _) =>
    case Leaf(_, _, _) =>
    case Unary(op, x) =>
      NumbersFit(x);
    case Binary(op, x, y) =>
      NumberOperands(op, Build(x).value, Build(y).value);
      hide FoldBinary, ResultType;
      NumbersFit(x);
      NumbersFit(y);
  }

  lemma {:induction false} NumberOperands(op: Op, l: Expr, r: Expr)
    requires ResultType(op, l.typ, r.typ).Some?
    ensures ResultType(op, l.typ, r.typ).value != BOOLEAN ==> op != IN && l.typ != BOOLEAN && r.typ != BOOLEAN
    ensures l.typ == BOOLEAN <==> r.typ == BOOLEAN
    ensures ResultType(op, l.typ, r.typ).value == BOOLEAN ==>
      var f := FoldBinary(op, l, r, BOOLEAN); f.Folded? ==> f.e.typ == BOOLEAN
  {
    hide FoldBoolean, FoldRelation, FoldSet, High;
    BooleanFolds(op, l, r);
    RelationFolds(op, l, r);
  }

  lemma {:induction false} BooleanFolds(op: Op, l: Expr, r: Expr)
    ensures var f := FoldBoolean(op, l, r); f.Folded? && l.typ == BOOLEAN && r.typ == BOOLEAN ==> f.e.typ == BOOLEAN
  {
  }

  lemma {:induction false} RelationFolds(op: Op, l: Expr, r: Expr)
    ensures var f := FoldRelation(op, l, r); f.Folded? ==> f.e.typ == BOOLEAN
    ensures var f := FoldSet(op, l, r); f.Folded? && op !in {PLUS, MINUS, TIMES, DIVIDE} ==> f.e.typ == BOOLEAN
  {
  }

  lemma {:induction false} BinaryIsSized(op: Op, l: Expr, r: Expr)
    requires Guard(op, l, r) && ResultType(op, l.typ, r.typ).Some?
    requires (l.typ != BOOLEAN ==> Sized(l)) && (r.typ != BOOLEAN ==> Sized(r))
    ensures var typ := ResultType(op, l.typ, r.typ).value;
      var f := FoldBinary(op, l, r, typ);
      && (f.Folded? ==> (Sized(f.e) <==> Sized(l) && Sized(r)))
      && (f.Folded? && op == IN ==> IsSet(r))
      && (f.Kept? ==> (Sized(Bin(op, l, r, typ)) <==> Sized(l) && Sized(r) && (op == IN ==> !IsSet(r) && ElementFits(l))))
  {
    hide FoldBoolean, FoldRelation, FoldSet, FoldArithmetic, FoldDivMod, Pure, ElementFits, High;
    var typ := ResultType(op, l.typ, r.typ).value;
    NumberOperands(op, l, r);
    SetChoice(op, l, r);
    BooleanIsSized(op, l, r);
    if l.typ != BOOLEAN && FoldBinary(op, l, r, typ).Folded? && !(op == MINUS && IsInteger(typ)) {
      FoldedChoice(op, l, r, typ);
      hide FoldBinary;
    }
  }

  lemma {:induction false} BooleanIsSized(op: Op, l: Expr, r: Expr)
    ensures FoldBoolean(op, l, r).Folded? ==> (Sized(FoldBoolean(op, l, r).e) <==> Sized(l) && Sized(r))
  {
  }

  lemma {:induction false} SetChoice(op: Op, l: Expr, r: Expr)
    ensures op == IN && FoldSet(op, l, r).Kept? ==> !IsSet(r)
    ensures op == IN && FoldSet(op, l, r).Folded? ==> IsSet(r)
  {
  }

  // x IN s for a variable x has the right width just when x is an INTEGER; a literal in place
  // of x always has.
  lemma {:induction false} ElementWidths(x: string, s: string, t: Typ, n: int)
    requires IsInteger(t)
    ensures var tree := Binary(IN, Leaf(x, t, false), Leaf(s, SET, false));
      Safe(tree) && Build(tree).Some? && (Sized(Build(tree).value) <==> t == INTEGER)
    ensures var tree := Binary(IN, Literal(Int(n), t), Leaf(s, SET, false));
      Safe(tree) && Build(tree).Some? && Sized(Build(tree).value)
  {
    hide Common;
    assert Build(Leaf(x, t, false)) == Some(Use(x, t, false)) && Build(Leaf(s, SET, false)) == Some(Use(s, SET, false));
    assert Build(Literal(Int(n), t)) == Some(Lit(Int(n), t));
  }

  // What is folded is a literal or one of the operands, unless it is a difference.
  lemma {:induction false} FoldedChoice(op: Op, l: Expr, r: Expr, typ: Typ)
    requires FoldBinary(op, l, r, typ).Folded? && !(op == MINUS && IsInteger(typ))
    ensures var e := FoldBinary(op, l, r, typ).e; e.Lit? || e == l || (e == r && (IsBool(l) || (op != AND && op != OR)))
  {
    hide FoldArithmetic, FoldDivMod, FoldRelation, FoldBoolean, FoldSet;
    if typ != BOOLEAN && IsInteger(typ) {
      NumberChoice(op, l, r, typ);
    } else {
      BooleanChoice(op, l, r);
    }
  }

  lemma {:induction false} NumberChoice(op: Op, l: Expr, r: Expr, typ: Typ)
    ensures forall neutral, zero, both :: var f := FoldArithmetic(l, r, neutral, zero, both); f.Folded? ==> f.e.Lit? || f.e == l || f.e == r
    ensures FoldDivMod(op, l, r, typ).Folded? ==> FoldDivMod(op, l, r, typ).e.Lit? || FoldDivMod(op, l, r, typ).e == l
  {
    hide IntegerDivision.FloorDiv, IntegerDivision.EuclideanMod, Wrap, IntType;
  }

  lemma {:induction false} BooleanChoice(op: Op, l: Expr, r: Expr)
    ensures FoldRelation(op, l, r).Folded? ==> FoldRelation(op, l, r).e.Lit?
    ensures FoldSet(op, l, r).Folded? ==> FoldSet(op, l, r).e.Lit?
    ensures FoldBoolean(op, l, r).Folded? ==>
      var e := FoldBoolean(op, l, r).e; e.Lit? || e == l || (e == r && (IsBool(l) || (op != AND && op != OR)))
  {
    hide FoldedRelation;
  }
}
