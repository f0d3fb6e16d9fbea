// The types of operators, against the values they have: an operator has a type just when it
// can be evaluated, and a folded number has the least type that holds it.
module FoldingTypes {
  import opened Wrappers
  import opened Folding
  import opened FoldingMeaning
  import opened Words
  import IntegerDivision

  // ---------- operators ----------

  function ValueOf(t: Typ): (v: Value)
    ensures IsOf(v, t)
  {
    if t == BOOLEAN then Bool(true) else if t == SET then Set({}) else Int(1)
  }

  // The operands for which an operator has no value, though it has a type.
  predicate NoValue(op: Op, v: Value, w: Value) {
    || ((op == DIV || op == MOD) && w.Int? && w.n <= 0)
    || (op == IN && v.Int? && !(0 <= v.n < 32))
  }

  // Values of the right types have a result, save for a divisor that is not positive and an
  // element that no set can hold; values of other types have none.
  lemma {:induction false} AppliesIff(op: Op, a: Typ, b: Typ, v: Value, w: Value)
    requires op != AND && op != OR && IsOf(v, a) && IsOf(w, b)
    ensures Apply(op, v, w).Some? <==> ResultType(op, a, b).Some? && !NoValue(op, v, w)
  {
    hide Common;
  }

  // So an operator has a type for its operands if and only if some operands have a result.
  lemma {:induction false} TypedIff(op: Op, a: Typ, b: Typ)
    ensures op != AND && op != OR ==>
      (ResultType(op, a, b).Some? <==> exists v, w :: IsOf(v, a) && IsOf(w, b) && Apply(op, v, w).Some?)
    ensures op == AND || op == OR ==> (ResultType(op, a, b).Some? <==> a == BOOLEAN && b == BOOLEAN)
  {
    hide Apply, ResultType, IsOf;
    if op != AND && op != OR {
      var v, w := ValueOf(a), ValueOf(b);
      AppliesIff(op, a, b, v, w);
      if v', w' :| IsOf(v', a) && IsOf(w', b) && Apply(op, v', w').Some? {
        AppliesIff(op, a, b, v', w');
      }
    } else {
      BooleanTypes(op, a, b);
    }
  }

  lemma {:induction false} BooleanTypes(op: Op, a: Typ, b: Typ)
    requires op == AND || op == OR
    ensures ResultType(op, a, b) == if a == BOOLEAN && b == BOOLEAN then Some(BOOLEAN) else None
  {
  }

  lemma {:induction false} UnaryAppliesIff(op: UnaryOp, t: Typ, v: Value)
    requires IsOf(v, t)
    ensures ApplyUnary(op, v).Some? <==> UnaryApplies(op, t)
  {
  }

  // Integers have 16, 32 and 64 bits, and sets 32 elements.
  lemma {:induction false} Widths(n: int, s: set<nat>, k: nat)
    ensures InRange(SHORTINT, n) <==> InWidth(n, 16)
    ensures InRange(INTEGER, n) <==> InWidth(n, 32)
    ensures InRange(LONGINT, n) <==> InWidth(n, 64)
    ensures IsOf(Set(s), SET) <==> forall i :: i in s ==> i < 32
    ensures ApplyUnary(NEG, Set(s)).Some? && ApplyUnary(NEG, Set(s)).value.Set?
    ensures k in ApplyUnary(NEG, Set(s)).value.s <==> k < 32 && k !in s
  {
    Powers();
    HalfIs(16);
    HalfIs(32);
    HalfIs(64);
  }

  // The result of an arithmetic operator has the wider type of its operands.
  lemma {:induction false} WiderType(op: Op, a: Typ, b: Typ)
    requires IsInteger(a) && IsInteger(b) && op in {PLUS, MINUS, TIMES, DIV, MOD}
    ensures var t := ResultType(op, a, b);
      t.Some? && t.value in {a, b} && High(t.value) >= High(a) && High(t.value) >= High(b)
  {
  }

  // ---------- numbers ----------

  lemma {:induction false} LeastType(n: int, t: Typ)
    requires InRange(LONGINT, n) && IsInteger(t)
    ensures InRange(IntType(n), n) && IsInteger(IntType(n)) && (InRange(t, n) <==> High(IntType(n)) <= High(t))
  {
  }

  function Computed(op: Op, a: int, b: int): int {
    match op
    case MINUS => a - b
    case TIMES => a * b
    case _ => a + b
  }

  // A folded sum, difference or product has the value it should, cut to 64 bits, and the
  // least type that holds it.
  lemma {:induction false} FoldedNumber(op: Op, x: Tree, y: Tree, t: Typ)
    requires op in {PLUS, MINUS, TIMES} && Build(x).Some? && Build(y).Some? && IsInteger(t)
    requires IsInt(Build(x).value) && IsInt(Build(y).value) && IsInteger(Build(x).value.typ) && IsInteger(Build(y).value.typ)
    ensures var n := Wrap(Computed(op, Build(x).value.value.n, Build(y).value.value.n), 64);
      var e := Build(Binary(op, x, y));
      e.Some? && e.value == Lit(Int(n), e.value.typ) && IsInteger(e.value.typ) && (InRange(t, n) <==> High(e.value.typ) <= High(t))
  {
    var n := Computed(op, Build(x).value.value.n, Build(y).value.value.n);
    hide Wrap, IntType, InRange, High, Computed;
    LongFits(n);
    LeastType(Wrap(n, 64), t);
    NumberResult(op, Build(x).value, Build(y).value);
    hide FoldBinary, ResultType;
  }

  // So has a folded negation.
  lemma {:induction false} FoldedNegation(x: Tree, t: Typ)
    requires Build(x).Some? && IsInt(Build(x).value) && IsInteger(Build(x).value.typ) && IsInteger(t)
    ensures var n, e := Wrap(-Build(x).value.value.n, 64), Build(Unary(NEG, x));
      e.Some? && e.value == Lit(Int(n), e.value.typ) && IsInteger(e.value.typ) && (InRange(t, n) <==> High(e.value.typ) <= High(t))
  {
    hide Wrap, IntType, InRange, High;
    LongFits(-Build(x).value.value.n);
    LeastType(Wrap(-Build(x).value.value.n, 64), t);
  }

  lemma {:induction false} NumberResult(op: Op, l: Expr, r: Expr)
    requires op in {PLUS, MINUS, TIMES} && IsInt(l) && IsInt(r) && IsInteger(l.typ) && IsInteger(r.typ)
    ensures var typ := ResultType(op, l.typ, r.typ);
      typ.Some? && FoldBinary(op, l, r, typ.value) == Folded(Number(Computed(op, l.value.n, r.value.n)))
  {
    hide Number;
  }

  // A folded quotient or remainder has the wider type of its operands.
  lemma {:induction false} FoldedQuotient(op: Op, x: Tree, y: Tree)
    requires (op == DIV || op == MOD) && Build(x).Some? && Build(y).Some?
    requires IsInt(Build(x).value) && IsInt(Build(y).value) && IsInteger(Build(x).value.typ) && IsInteger(Build(y).value.typ)
    requires Build(y).value.value.n > 1
    ensures var e, a, b := Build(Binary(op, x, y)), Build(x).value, Build(y).value;
      && e.Some? && e.value.Lit? && e.value.typ in {a.typ, b.typ} && High(e.value.typ) >= High(a.typ) && High(e.value.typ) >= High(b.typ)
      && e.value.value == Int(if op == DIV then a.value.n / b.value.n else a.value.n % b.value.n)
  {
    WiderType(op, Build(x).value.typ, Build(y).value.typ);
    IntegerDivision.DivModLaw(Build(x).value.value.n, Build(y).value.value.n);
    hide IntegerDivision.FloorDiv, IntegerDivision.EuclideanMod, High, ResultType;
  }
}
