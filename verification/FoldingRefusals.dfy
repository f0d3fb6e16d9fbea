// Which trees the analysis refuses because of folding, and what becomes of constants.
module FoldingRefusals {
  import opened Wrappers
  import opened Folding
  import opened FoldingMeaning
  import opened FoldingChecks
  import opened Words
  import IntegerDivision

  // The operands that fold badly: a literal divisor that is not positive; an element that is
  // no literal from 0 to 31, of a literal set; TRUE & x and FALSE OR x, either way round,
  // where x is no literal.
  predicate RefusedPair(op: Op, l: Expr, r: Expr) {
    || ((op == DIV || op == MOD) && r.Lit? && r.value.Int? && r.value.n <= 0)
    || (op == IN && r.Lit? && !(l.Lit? && l.value.Int? && 0 <= l.value.n < 32))
    || (op == AND && ((l == Lit(Bool(true), BOOLEAN) && !r.Lit?) || (r == Lit(Bool(true), BOOLEAN) && !l.Lit?)))
    || (op == OR && ((l == Lit(Bool(false), BOOLEAN) && !r.Lit?) || (r == Lit(Bool(false), BOOLEAN) && !l.Lit?)))
  }

  // Such operands occur somewhere.
  predicate Refused(t: Tree) {
    match t
    case Literal(_, _) => false
    case Leaf(_, _, _) => false
    case Unary(_, x) => Refused(x)
    case Binary(op, x, y) =>
      || Refused(x) || Refused(y)
      || (Build(x).Some? && Build(y).Some? && RefusedPair(op, Build(x).value, Build(y).value))
  }

  // What is built has the types it says, as far as its literals go.
  predicate Proper(e: Expr) {
    e.Lit? ==> IsOf(e.value, e.typ)
  }

  lemma {:induction false} UnaryAccepts(op: UnaryOp, e: Expr)
    requires Proper(e) && UnaryApplies(op, e.typ)
    ensures !FoldUnary(op, e).Rejected? && (e.Lit? <==> FoldUnary(op, e).Folded?)
    ensures FoldUnary(op, e).Folded? ==> FoldUnary(op, e).e.Lit?
  {
  }

  // A pair of operands of the right types is accepted unless it folds badly.
  lemma {:induction false} BinaryAccepts(op: Op, l: Expr, r: Expr)
    requires Proper(l) && Proper(r) && ResultType(op, l.typ, r.typ).Some?
    ensures var f := FoldBinary(op, l, r, ResultType(op, l.typ, r.typ).value);
      f.Rejected? || (f.Folded? && f.e.typ == BOOLEAN && !f.e.Lit?) <==> RefusedPair(op, l, r)
  {
    hide FoldBoolean, FoldRelation, FoldSet, FoldArithmetic, FoldMinus, FoldDivMod, RefusedPair, Common;
    var typ := ResultType(op, l.typ, r.typ).value;
    NumberOperands(op, l, r);
    if l.typ == BOOLEAN {
      BooleanAccepts(op, l, r);
    } else if typ == BOOLEAN {
      RelationAccepts(op, l, r);
    } else {
      NumberAccepts(op, l, r, typ);
    }
  }

  lemma {:induction false} BooleanAccepts(op: Op, l: Expr, r: Expr)
    requires Proper(l) && Proper(r) && l.typ == BOOLEAN && r.typ == BOOLEAN && op in {AND, OR, EQ, NEQ}
    ensures var f := FoldBoolean(op, l, r); f.Rejected? || (f.Folded? && f.e.typ == BOOLEAN && !f.e.Lit?) <==> RefusedPair(op, l, r)
  {
  }

  lemma {:induction false} RelationAccepts(op: Op, l: Expr, r: Expr)
    requires Proper(l) && Proper(r) && ResultType(op, l.typ, r.typ) == Some(BOOLEAN) && l.typ != BOOLEAN
    ensures var f := FoldBinary(op, l, r, BOOLEAN); (f.Folded? ==> f.e.Lit?) && (f.Rejected? <==> RefusedPair(op, l, r))
  {
    hide High;
  }

  predicate Plain(f: Fold) {
    !f.Rejected? && (f.Folded? ==> f.e.typ != BOOLEAN || f.e.Lit?)
  }

  lemma {:induction false} NumberAccepts(op: Op, l: Expr, r: Expr, typ: Typ)
    requires Proper(l) && Proper(r) && ResultType(op, l.typ, r.typ) == Some(typ) && typ != BOOLEAN && l.typ != BOOLEAN && r.typ != BOOLEAN
    ensures var f := FoldBinary(op, l, r, typ); (f.Folded? ==> f.e.typ != BOOLEAN || f.e.Lit?) && (f.Rejected? <==> RefusedPair(op, l, r))
  {
    hide FoldArithmetic, FoldMinus, FoldDivMod, FoldSet, High, Proper;
    OperatorsOf(op, l.typ, r.typ, typ);
    hide ResultType;
    if typ == SET {
      SetsAccepted(op, l, r);
    } else if op == DIV || op == MOD {
      hide RefusedPair;
      DivModAccepts(op, l, r, typ);
    } else {
      SumsAccepted(l, r, typ);
    }
  }

  lemma {:induction false} OperatorsOf(op: Op, a: Typ, b: Typ, typ: Typ)
    requires ResultType(op, a, b) == Some(typ) && typ != BOOLEAN
    ensures if typ == SET then op in {PLUS, MINUS, TIMES, DIVIDE} else IsInteger(typ) && op in {PLUS, MINUS, TIMES, DIV, MOD}
  {
    hide High;
  }

  lemma {:induction false} SetsAccepted(op: Op, l: Expr, r: Expr)
    requires Proper(l) && Proper(r) && op in {PLUS, MINUS, TIMES, DIVIDE}
    ensures Plain(FoldSet(op, l, r))
  {
  }

  lemma {:induction false} SumsAccepted(l: Expr, r: Expr, typ: Typ)
    requires l.typ != BOOLEAN && r.typ != BOOLEAN && typ != BOOLEAN
    ensures forall neutral, zero, both :: Plain(FoldArithmetic(l, r, neutral, zero, both))
    ensures Plain(FoldMinus(l, r, typ))
  {
    hide IntType, Wrap;
  }

  lemma {:induction false} DivModAccepts(op: Op, l: Expr, r: Expr, typ: Typ)
    requires (op == DIV || op == MOD) && l.typ != BOOLEAN && typ != BOOLEAN
    ensures var f := FoldDivMod(op, l, r, typ);
      (f.Folded? ==> f.e.typ != BOOLEAN || f.e.Lit?) && (f.Rejected? <==> RefusedPair(op, l, r))
  {
    hide IntegerDivision.FloorDiv, IntegerDivision.EuclideanMod;
  }

  lemma {:induction false} BuildIsProper(t: Tree, env: string -> Value)
    requires Typed(t, env) && Build(t).Some?
    ensures Proper(Build(t).value)
  {
    BuildFits(t, env);
    hide Build, IsOf;
  }

  lemma {:induction false} SameKindApplies(op: UnaryOp, a: Typ, b: Typ)
    requires SameKind(a, b)
    ensures UnaryApplies(op, a) <==> UnaryApplies(op, b)
  {
  }

  lemma {:induction false} SameKindResult(op: Op, a: Typ, b: Typ, a': Typ, b': Typ)
    requires SameKind(a, a') && SameKind(b, b')
    ensures ResultType(op, a, b).Some? <==> ResultType(op, a', b').Some?
  {
    if ResultType(op, a, b).Some? { SameResultKind(op, a', b', a, b); }
    if ResultType(op, a', b').Some? { SameResultKind(op, a, b, a', b'); }
  }

  // A tree is built if and only if it has types without folding and has no such operands.
  lemma {:induction false} BuildsIff(t: Tree, env: string -> Value)
    requires Typed(t, env)
    ensures Build(t).Some? <==> Raw(t).Some? && !Refused(t)
  {
    match t
    case Literal(_, _) =>
    case Leaf(_, _, _) =>
    case Unary(op, x) =>
      BuildsIff(x, env);
      if Build(x).Some? {
        BuildTyped(x, env);
        BuildIsProper(x, env);
        SameKindApplies(op, Raw(x).value.typ, Build(x).value.typ);
        hide FoldUnary, SameKind, UnaryApplies;
        if UnaryApplies(op, Build(x).value.typ) { UnaryAccepts(op, Build(x).value); }
      }
    case Binary(op, x, y) =>
      BuildsIff(x, env);
      BuildsIff(y, env);
      hide FoldBinary, SameKind, ResultType, RefusedPair;
      if Build(x).Some? && Build(y).Some? {
        BuildTyped(x, env);
        BuildTyped(y, env);
        BuildIsProper(x, env);
        BuildIsProper(y, env);
        SameKindResult(op, Raw(x).value.typ, Raw(y).value.typ, Build(x).value.typ, Build(y).value.typ);
        if ResultType(op, Build(x).value.typ, Build(y).value.typ).Some? {
          BinaryAccepts(op, Build(x).value, Build(y).value);
        }
      }
  }

  // ---------- constants ----------

  // Nothing in t traps.
  ghost predicate Evaluates(t: Tree, env: string -> Value) {
    && Raw(t).Some? && Run(Raw(t).value, env, false).Done?
    && match t
       case Literal(_, _) => true
       case Leaf(_, _, _) => true
       case Unary(_, x) => Evaluates(x, env)
       case Binary(_, x, y) => Evaluates(x, env) && Evaluates(y, env)
  }

  // What is built for a constant is a literal.
  lemma {:induction false} ConstantIsLiteral(t: Tree, env: string -> Value)
    requires Constant(t) && Typed(t, env) && Build(t).Some?
    ensures Build(t).value.Lit?
  {
    match t
    case Literal(_, _) =>
    case Unary(op, x) =>
      ConstantIsLiteral(x, env);
      BuildIsProper(x, env);
      UnaryAccepts(op, Build(x).value);
      hide FoldUnary;
    case Binary(op, x, y) =>
      ConstantIsLiteral(x, env);
      ConstantIsLiteral(y, env);
      BuildIsProper(x, env);
      BuildIsProper(y, env);
      LiteralsFold(op, Build(x).value, Build(y).value);
      hide FoldBinary;
  }

  lemma {:induction false} LiteralsFold(op: Op, l: Expr, r: Expr)
    requires l.Lit? && r.Lit? && Proper(l) && Proper(r) && ResultType(op, l.typ, r.typ).Some?
    ensures var f := FoldBinary(op, l, r, ResultType(op, l.typ, r.typ).value); f.Rejected? || (f.Folded? && f.e.Lit?)
  {
    hide High;
  }

  // A constant in which nothing traps is built as a literal of its value, unless it is
  // folded where folding is wrong.
  lemma {:induction false} ConstantIsValue(t: Tree, env: string -> Value)
    requires Constant(t) && Typed(t, env) && Safe(t) && Evaluates(t, env)
    ensures Build(t).Some? && Build(t).value.Lit? && Run(Raw(t).value, env, false) == Done(Build(t).value.value, [])
  {
    NotRefused(t, env);
    BuildsIff(t, env);
    hide Evaluates, Refused, Constant;
    ConstantIsLiteral(t, env);
    FoldingIsRight(t, env);
    hide Build;
  }

  lemma {:induction false} NotRefused(t: Tree, env: string -> Value)
    requires Constant(t) && Typed(t, env) && Safe(t) && Evaluates(t, env)
    ensures !Refused(t)
  {
    match t
    case Literal(_, _) =>
    case Unary(_, x) => NotRefused(x, env);
    case Binary(op, x, y) =>
      NotRefused(x, env);
      NotRefused(y, env);
      BuildsIff(x, env);
      BuildsIff(y, env);
      ConstantIsLiteral(x, env);
      ConstantIsLiteral(y, env);
      FoldingIsRight(x, env);
      FoldingIsRight(y, env);
      ValuesAccepted(op, Build(x).value, Build(y).value, Raw(x).value, Raw(y).value, Raw(t).value.typ, env);
      hide RefusedPair, Build;
  }

  lemma {:induction false} ValuesAccepted(op: Op, l: Expr, r: Expr, x: Expr, y: Expr, typ: Typ, env: string -> Value)
    requires l.Lit? && r.Lit? && Run(Bin(op, x, y, typ), env, false).Done?
    requires Run(x, env, false) == Run(l, env, false) && Run(y, env, false) == Run(r, env, false)
    ensures !RefusedPair(op, l, r)
  {
  }

  // FALSE & (1 DIV 0 = 1) evaluates to FALSE, and is refused: its parts are folded first.
  lemma {:induction false} SkippedPartIsRefused(env: string -> Value)
    ensures var t := Binary(AND, Literal(Bool(false), BOOLEAN),
        Binary(EQ, Binary(DIV, Literal(Int(1), SHORTINT), Literal(Int(0), SHORTINT)), Literal(Int(1), SHORTINT)));
      && Typed(t, env) && Raw(t).Some? && Run(Raw(t).value, env, false) == Done(Bool(false), [])
      && Refused(t) && Build(t) == None
  {
    var one, zero, no := Literal(Int(1), SHORTINT), Literal(Int(0), SHORTINT), Literal(Bool(false), BOOLEAN);
    var d := Binary(DIV, one, zero);
    assert Build(one) == Raw(one) == Some(Lit(Int(1), SHORTINT)) && Build(zero) == Raw(zero) == Some(Lit(Int(0), SHORTINT));
    assert Refused(d) && Typed(d, env) && Raw(d) == Some(Bin(DIV, Lit(Int(1), SHORTINT), Lit(Int(0), SHORTINT), SHORTINT));
    var e := Binary(EQ, d, one);
    assert Refused(e) && Typed(e, env) && Raw(e).Some? && Raw(e).value.typ == BOOLEAN;
    var t := Binary(AND, no, e);
    assert Raw(t) == Some(Bin(AND, Lit(Bool(false), BOOLEAN), Raw(e).value, BOOLEAN));
    assert Refused(t) && Typed(t, env);
    BuildsIff(t, env);
    hide Build, Refused, Typed, Raw;
    assert Run(Lit(Bool(false), BOOLEAN), env, false) == Done(Bool(false), []);
  }
}
