// Constant folding of integer, Boolean and set expressions (lib/sema/Sema.cpp:1231-1470,
// 1770-2096), against the values that the unfolded expression has at run time.
module Folding {
  import opened Wrappers
  import opened Words
  import IntegerDivision

  datatype Typ = BOOLEAN | SHORTINT | INTEGER | LONGINT | SET

  datatype Value = Bool(b: bool) | Int(n: int) | Set(s: set<nat>)

  datatype UnaryOp = NOT | NEG

  datatype Op =
    | PLUS | MINUS | TIMES | DIV | MOD | DIVIDE
    | AND | OR | EQ | NEQ | LT | LEQ | GT | GEQ | IN

  // What the parser hands over: literals, variables, calls, operators.
  datatype Tree =
    | Literal(value: Value, typ: Typ)
    | Leaf(name: string, typ: Typ, call: bool)
    | Unary(uop: UnaryOp, operand: Tree)
    | Binary(op: Op, left: Tree, right: Tree)

  // What the semantic analysis builds: every node has its type.
  datatype Expr =
    | Lit(value: Value, typ: Typ)
    | Use(name: string, typ: Typ, call: bool)
    | Un(uop: UnaryOp, operand: Expr, typ: Typ)
    | Bin(op: Op, left: Expr, right: Expr, typ: Typ)

  const ALL: set<nat> := set k: nat | k < 32

  function High(t: Typ): int {
    match t
    case SHORTINT => 0x7fff
    case INTEGER => 0x7fff_ffff
    case _ => 0x7fff_ffff_ffff_ffff
  }

  predicate IsInteger(t: Typ) {
    t == SHORTINT || t == INTEGER || t == LONGINT
  }

  predicate InRange(t: Typ, n: int) {
    -High(t) - 1 <= n <= High(t)
  }

  predicate IsOf(v: Value, t: Typ) {
    match v
    case Bool(_) => t == BOOLEAN
    case Int(n) => IsInteger(t) && InRange(t, n)
    case Set(s) => t == SET && s <= ALL
  }

  // ---------- types ----------

  // Sema::intType
  function IntType(n: int): Typ {
    if InRange(SHORTINT, n) then SHORTINT
    else if !InRange(INTEGER, n) then LONGINT
    else INTEGER
  }

  // Sema::commonType
  function Common(a: Typ, b: Typ): Typ {
    if High(a) > High(b) then a else b
  }

  function ResultType(op: Op, a: Typ, b: Typ): Option<Typ> {
    match op
    case AND => if a == BOOLEAN && b == BOOLEAN then Some(BOOLEAN) else None
    case OR => if a == BOOLEAN && b == BOOLEAN then Some(BOOLEAN) else None
    case EQ => if a == b || (IsInteger(a) && IsInteger(b)) then Some(BOOLEAN) else None
    case NEQ => if a == b || (IsInteger(a) && IsInteger(b)) then Some(BOOLEAN) else None
    case LEQ => if (a == SET && b == SET) || (IsInteger(a) && IsInteger(b)) then Some(BOOLEAN) else None
    case GEQ => if (a == SET && b == SET) || (IsInteger(a) && IsInteger(b)) then Some(BOOLEAN) else None
    case LT => if IsInteger(a) && IsInteger(b) then Some(BOOLEAN) else None
    case GT => if IsInteger(a) && IsInteger(b) then Some(BOOLEAN) else None
    case IN => if IsInteger(a) && b == SET then Some(BOOLEAN) else None
    case DIVIDE => if a == SET && b == SET then Some(SET) else None
    case DIV => if IsInteger(a) && IsInteger(b) then Some(Common(a, b)) else None
    case MOD => if IsInteger(a) && IsInteger(b) then Some(Common(a, b)) else None
    case _ =>
      if a == SET && b == SET then Some(SET)
      else if IsInteger(a) && IsInteger(b) then Some(Common(a, b))
      else None
  }

  predicate UnaryApplies(op: UnaryOp, t: Typ) {
    match op
    case NOT => t == BOOLEAN
    case NEG => IsInteger(t) || t == SET
  }

  // ---------- values at run time ----------

  function ApplyUnary(op: UnaryOp, v: Value): Option<Value> {
    match (op, v)
    case (NOT, Bool(b)) => Some(Bool(!b))
    case (NEG, Int(n)) => Some(Int(-n))
    case (NEG, Set(s)) => Some(Set(ALL - s))
    case _ => None
  }

  // Nothing for a trap: a divisor that is not positive, an element that no set can hold.
  function Apply(op: Op, a: Value, b: Value): Option<Value> {
    match (a, b)
    case (Int(x), Int(y)) => ApplyInt(op, x, y)
    case (Set(s), Set(t)) => ApplySet(op, s, t)
    case (Bool(p), Bool(q)) =>
      (match op
       case EQ => Some(Bool(p == q))
       case NEQ => Some(Bool(p != q))
       case _ => None)
    case (Int(x), Set(t)) => if op == IN && 0 <= x < 32 then Some(Bool(x in t)) else None
    case _ => None
  }

  function ApplyInt(op: Op, x: int, y: int): Option<Value> {
    match op
    case PLUS => Some(Int(x + y))
    case MINUS => Some(Int(x - y))
    case TIMES => Some(Int(x * y))
    case DIV => if y > 0 then Some(Int(x / y)) else None
    case MOD => if y > 0 then Some(Int(x % y)) else None
    case EQ => Some(Bool(x == y))
    case NEQ => Some(Bool(x != y))
    case LT => Some(Bool(x < y))
    case LEQ => Some(Bool(x <= y))
    case GT => Some(Bool(x > y))
    case GEQ => Some(Bool(x >= y))
    case _ => None
  }

  function ApplySet(op: Op, s: set<nat>, t: set<nat>): Option<Value> {
    match op
    case PLUS => Some(Set(s + t))
    case MINUS => Some(Set(s - t))
    case TIMES => Some(Set(s * t))
    case DIVIDE => Some(Set((s - t) + (t - s)))
    case EQ => Some(Bool(s == t))
    case NEQ => Some(Bool(s != t))
    case LEQ => Some(Bool(s <= t))
    case GEQ => Some(Bool(t <= s))
    case _ => None
  }

  // A result outside its type is an overflow.
  function Checked(v: Option<Value>, t: Typ): Option<Value> {
    if v.Some? && v.value.Int? && !InRange(t, v.value.n) then None else v
  }

  // A value and the calls made on the way, or a trap. With strict set, arithmetic traps
  // when a result leaves the type of its node, and a negation when it leaves the type of
  // its operand (LLVMIRBuilder.cpp:910-916, 970-990); otherwise only when it leaves 64 bits.
  datatype Outcome = Done(value: Value, calls: seq<string>) | Trap

  function Seal(v: Option<Value>, calls: seq<string>): Outcome {
    if v.Some? then Done(v.value, calls) else Trap
  }

  ghost function Run(e: Expr, env: string -> Value, strict: bool): Outcome {
    match e
    case Lit(v, _) => Done(v, [])
    case Use(name, _, call) => Done(env(name), if call then [name] else [])
    case Un(op, x, _) =>
      var r := Run(x, env, strict);
      if r.Trap? then Trap else Seal(Checked(ApplyUnary(op, r.value), if strict then x.typ else LONGINT), r.calls)
    case Bin(op, x, y, t) =>
      var r := Run(x, env, strict);
      if r.Trap? then Trap
      else if op == AND || op == OR then
        if !r.value.Bool? then Trap
        else if r.value.b == (op == OR) then r
        else
          var q := Run(y, env, strict);
          if q.Trap? || !q.value.Bool? then Trap else Done(q.value, r.calls + q.calls)
      else
        var q := Run(y, env, strict);
        if q.Trap? then Trap
        else Seal(Checked(Apply(op, r.value, q.value), if strict then t else LONGINT), r.calls + q.calls)
  }

  // ---------- analysis without folding ----------

  function Raw(t: Tree): Option<Expr> {
    match t
    case Literal(v, typ) => Some(Lit(v, typ))
    case Leaf(name, typ, call) => Some(Use(name, typ, call))
    case Unary(op, x) =>
      var e := Raw(x);
      if e.Some? && UnaryApplies(op, e.value.typ) then Some(Un(op, e.value, e.value.typ)) else None
    case Binary(op, x, y) =>
      var l, r := Raw(x), Raw(y);
      if l.None? || r.None? then None
      else
        var typ := ResultType(op, l.value.typ, r.value.typ);
        if typ.None? then None else Some(Bin(op, l.value, r.value, typ.value))
  }

  // ---------- folding ----------

  // A folded expression, or none, or an error.
  datatype Fold = Folded(e: Expr) | Kept | Rejected

  // The compiler calculates in 64 bits.
  function Number(n: int): Expr {
    Lit(Int(Wrap(n, 64)), IntType(Wrap(n, 64)))
  }

  predicate IsInt(e: Expr) {
    e.Lit? && e.value.Int?
  }

  predicate IsNumber(e: Expr, n: int) {
    e.Lit? && e.value == Int(n)
  }

  predicate IsBool(e: Expr) {
    e.Lit? && e.value.Bool?
  }

  predicate IsSet(e: Expr) {
    e.Lit? && e.value.Set?
  }

  // Sema::fold for a unary operator (Sema.cpp:1770-1819)
  function FoldUnary(op: UnaryOp, e: Expr): Fold {
    if !e.Lit? then Kept
    else
      match (op, e.value)
      case (NOT, Bool(b)) => Folded(Lit(Bool(!b), e.typ))
      case (NEG, Int(n)) => Folded(Number(-n))
      case (NEG, Set(s)) => Folded(Lit(Set(ALL - s), e.typ))
      case _ => Rejected
  }

  // foldBinaryOp for + and * (Sema.cpp:1821-1849)
  function FoldArithmetic(l: Expr, r: Expr, neutral: int, zero: Option<int>, both: int): Fold {
    if IsInt(l) && IsInt(r) then Folded(Number(both))
    else if IsNumber(l, neutral) then Folded(r)
    else if zero.Some? && IsNumber(l, zero.value) then Folded(Lit(Int(0), SHORTINT))
    else if IsNumber(r, neutral) then Folded(l)
    else if zero.Some? && IsNumber(r, zero.value) then Folded(Lit(Int(0), SHORTINT))
    else Kept
  }

  // foldSubOp (Sema.cpp:1956-1973)
  function FoldMinus(l: Expr, r: Expr, common: Typ): Fold {
    if IsInt(l) && IsInt(r) then Folded(Number(l.value.n - r.value.n))
    else if IsNumber(l, 0) then Folded(Un(NEG, r, common))
    else if IsNumber(r, 0) then Folded(l)
    else Kept
  }

  // foldDivModOp (Sema.cpp:1899-1928)
  function FoldDivMod(op: Op, l: Expr, r: Expr, common: Typ): Fold {
    if !IsInt(r) then Kept
    else if r.value.n <= 0 then Rejected
    else if r.value.n == 1 then
      if IsInt(l) then Folded(Lit(l.value, common)) else Folded(l)
    else if IsInt(l) then
      Folded(Lit(Int(if op == DIV then IntegerDivision.FloorDiv(l.value.n, r.value.n)
                     else IntegerDivision.EuclideanMod(l.value.n, r.value.n)), common))
    else Kept
  }

  // foldRelationOp (Sema.cpp:1869-1897): < and <= are exchanged.
  function FoldedRelation(op: Op, x: int, y: int): Option<bool> {
    match op
    case EQ => Some(x == y)
    case NEQ => Some(x != y)
    case LT => Some(x <= y)
    case LEQ => Some(x < y)
    case GT => Some(x > y)
    case GEQ => Some(x >= y)
    case _ => None
  }

  function FoldRelation(op: Op, l: Expr, r: Expr): Fold {
    if IsInt(l) && IsInt(r) then
      var b := FoldedRelation(op, l.value.n, r.value.n);
      if b.Some? then Folded(Lit(Bool(b.value), BOOLEAN)) else Rejected
    else Kept
  }

  // foldBooleanOp (Sema.cpp:1851-1867)
  function FoldBoolean(op: Op, l: Expr, r: Expr): Fold {
    if IsBool(l) && IsBool(r) then
      (match op
       case AND => Folded(Lit(Bool(l.value.b && r.value.b), BOOLEAN))
       case OR => Folded(Lit(Bool(l.value.b || r.value.b), BOOLEAN))
       case EQ => Folded(Lit(Bool(l.value.b == r.value.b), BOOLEAN))
       case NEQ => Folded(Lit(Bool(l.value.b != r.value.b), BOOLEAN))
       case _ => Rejected)
    else if (op == AND || op == OR) && IsBool(l) && l.value.b == (op == AND) then Folded(r)
    else if (op == AND || op == OR) && IsBool(r) && r.value.b == (op == AND) then Folded(l)
    else Kept
  }

  // The set operators (Sema.cpp:2005-2037, 2077-2095)
  function FoldSet(op: Op, l: Expr, r: Expr): Fold {
    if !IsSet(r) then Kept
    else if op == IN then
      if IsInt(l) && 0 <= l.value.n < 32 then Folded(Lit(Bool(l.value.n in r.value.s), BOOLEAN)) else Rejected
    else if !IsSet(l) then Kept
    else
      var s, t := l.value.s, r.value.s;
      match op
      case PLUS => Folded(Lit(Set(s + t), SET))
      case MINUS => Folded(Lit(Set(s * (ALL - t)), SET))
      case TIMES => Folded(Lit(Set(s * t), SET))
      case DIVIDE => Folded(Lit(Set((s + t) - (s * t)), SET))
      case EQ => Folded(Lit(Bool(s == t), BOOLEAN))
      case NEQ => Folded(Lit(Bool(s != t), BOOLEAN))
      case LEQ => Folded(Lit(Bool(s * (ALL - t) == {}), BOOLEAN))
      case GEQ => Folded(Lit(Bool(t * (ALL - s) == {}), BOOLEAN))
      case _ => Rejected
  }

  // Sema::fold for a binary operator (Sema.cpp:1975-2096)
  function FoldBinary(op: Op, l: Expr, r: Expr, result: Typ): Fold {
    if result == BOOLEAN then
      if l.typ == BOOLEAN && r.typ == BOOLEAN then FoldBoolean(op, l, r)
      else if IsInteger(l.typ) && IsInteger(r.typ) then FoldRelation(op, l, r)
      else FoldSet(op, l, r)
    else if IsInteger(result) then
      match op
      case PLUS => FoldArithmetic(l, r, 0, None, if IsInt(l) && IsInt(r) then l.value.n + r.value.n else 0)
      case MINUS => FoldMinus(l, r, result)
      case TIMES => FoldArithmetic(l, r, 1, Some(0), if IsInt(l) && IsInt(r) then l.value.n * r.value.n else 0)
      case DIV => FoldDivMod(op, l, r, result)
      case MOD => FoldDivMod(op, l, r, result)
      case _ => Rejected
    else FoldSet(op, l, r)
  }

  // onUnaryExpression and onBinaryExpression (Sema.cpp:1231-1247, 1249-1470). A Boolean
  // result that is no literal is asked for its value all the same, which ends the compiler.
  function Build(t: Tree): Option<Expr> {
    match t
    case Literal(v, typ) => Some(Lit(v, typ))
    case Leaf(name, typ, call) => Some(Use(name, typ, call))
    case Unary(op, x) =>
      var e := Build(x);
      if e.None? || !UnaryApplies(op, e.value.typ) then None
      else
        (match FoldUnary(op, e.value)
         case Folded(f) => Some(f)
         case Kept => Some(Un(op, e.value, e.value.typ))
         case Rejected => None)
    case Binary(op, x, y) =>
      var l, r := Build(x), Build(y);
      if l.None? || r.None? then None
      else
        var typ := ResultType(op, l.value.typ, r.value.typ);
        if typ.None? then None
        else
          match FoldBinary(op, l.value, r.value, typ.value)
          case Folded(f) => if f.typ == BOOLEAN && !f.Lit? then None else Some(f)
          case Kept => Some(Bin(op, l.value, r.value, typ.value))
          case Rejected => None
  }

  // ---------- when folding is right ----------

  predicate Pure(e: Expr) {
    match e
    case Lit(_, _) => true
    case Use(_, _, call) => !call
    case Un(_, x, _) => Pure(x)
    case Bin(_, x, y, _) => Pure(x) && Pure(y)
  }

  // The folds that are right: not < or <= of equal numbers, not MOD by 1 unless of 0, no
  // call dropped by a product with 0, and no 0 - r in a type wider than that of r.
  predicate Guard(op: Op, l: Expr, r: Expr) {
    && ((op == LT || op == LEQ) && IsInt(l) && IsInt(r) ==> l.value.n != r.value.n)
    && (op == MOD && IsNumber(r, 1) ==> IsNumber(l, 0))
    && (op == TIMES && IsNumber(l, 0) ==> Pure(r))
    && (op == TIMES && IsNumber(r, 0) ==> Pure(l))
    && (op == MINUS && IsNumber(l, 0) && !IsInt(r) && IsInteger(r.typ) ==> High(l.typ) <= High(r.typ))
  }

  predicate Safe(t: Tree) {
    match t
    case Literal(_, _) => true
    case Leaf(_, _, _) => true
    case Unary(_, x) => Safe(x)
    case Binary(op, x, y) =>
      && Safe(x) && Safe(y)
      && (Build(x).Some? && Build(y).Some? ==> Guard(op, Build(x).value, Build(y).value))
  }

  // Literals and variables hold values of their types.
  ghost predicate Typed(t: Tree, env: string -> Value) {
    match t
    case Literal(v, typ) => IsOf(v, typ)
    case Leaf(name, typ, _) => IsOf(env(name), typ)
    case Unary(_, x) => Typed(x, env)
    case Binary(_, x, y) => Typed(x, env) && Typed(y, env)
  }
}
