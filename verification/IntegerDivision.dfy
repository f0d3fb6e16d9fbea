// DIV and MOD: the arithmetic of the constant folder (lib/sema/Sema.cpp:1655-1667) and
// the instructions of the code generator (lib/codegen/llvm/LLVMIRBuilder.cpp:933-961).
module IntegerDivision {
  import opened Numbers
  import opened Words

  // ---------- what C++ and LLVM divide ----------

  // Division that truncates toward zero, and its remainder.
  function TDiv(x: int, y: int): int
    requires y != 0
  {
    if x >= 0 then
      if y > 0 then x / y else -(x / -y)
    else
      if y > 0 then -(-x / y) else -x / -y
  }

  function TRem(x: int, y: int): int
    requires y != 0
  {
    x - TDiv(x, y) * y
  }

  function Abs(x: int): nat {
    if x >= 0 then x else -x
  }

  // In terms of the absolute values.
  lemma {:induction false} Parts(x: int, y: int)
    requires y != 0
    ensures var q, r := Abs(x) / Abs(y), Abs(x) % Abs(y);
      && TDiv(x, y) == (if (x < 0) == (y < 0) then q else -q) && TRem(x, y) == (if x >= 0 then r else -r)
      && 0 <= q && 0 <= r < Abs(y) && q * Abs(y) == Abs(x) - r && TDiv(x, y) * y == x - TRem(x, y)
  {
    var q, r, d := Abs(x) / Abs(y), Abs(x) % Abs(y), TDiv(x, y);
    assert d == if (x < 0) == (y < 0) then q else -q;
    hide TDiv;
    Division(Abs(x), Abs(y));
    NegateProduct(q, Abs(y));
    SignedProduct(d, y, q, Abs(y));
  }

  lemma {:induction false} Division(a: nat, b: nat)
    requires b > 0
    ensures a == a / b * b + a % b && 0 <= a % b < b && 0 <= a / b
  {
  }

  lemma {:induction false} SignedProduct(d: int, y: int, q: int, b: int)
    requires (d == q || d == -q) && (y == b || y == -b)
    ensures d * y == q * b || d * y == -(q * b)
    ensures d == q && y == b ==> d * y == q * b
    ensures d == q && y == -b ==> d * y == -(q * b)
    ensures d == -q && y == b ==> d * y == -(q * b)
    ensures d == -q && y == -b ==> d * y == q * b
  {
    NegateProduct(q, b);
  }

  lemma {:induction false} NegateProduct(a: int, b: int)
    ensures (-a) * b == -(a * b) && a * -b == -(a * b) && (-a) * -b == a * b
  {
  }

  lemma {:induction false} Truncates(x: int, y: int)
    requires y != 0
    ensures x >= 0 ==> 0 <= TRem(x, y) < Abs(y)
    ensures x < 0 ==> 0 - Abs(y) < TRem(x, y) <= 0
  {
    Parts(x, y);
  }

  // ---------- the constant folder ----------

  // Sema::floor_div
  function FloorDiv(x: int, y: int): int
    requires y != 0
  {
    var d, r := TDiv(x, y), TRem(x, y);
    if r != 0 then d - (if (x < 0) != (y < 0) then 1 else 0) else d
  }

  // Sema::euclidean_mod
  function EuclideanMod(x: int, y: int): int
    requires y != 0
  {
    var r := TRem(x, y);
    r + (if r < 0 then y else 0)
  }

  // The law of DIV and MOD (section 8.2.2 of the Oberon-07 report): for a positive divisor
  // they are the quotient and the remainder with 0 <= x MOD y < y.
  lemma {:induction false} DivModLaw(x: int, y: int)
    requires y > 0
    ensures x == FloorDiv(x, y) * y + EuclideanMod(x, y) && 0 <= EuclideanMod(x, y) < y
    ensures FloorDiv(x, y) == x / y && EuclideanMod(x, y) == x % y
  {
    Truncates(x, y);
    var d := TDiv(x, y);
    assert (d - 1) * y == d * y - y by { MulDistributes(d, -1, y); }
    assert x < 0 && TRem(x, y) != 0 ==> FloorDiv(x, y) == d - 1;
    QuotientIs(x, y, FloorDiv(x, y), EuclideanMod(x, y));
  }

  // For any divisor the quotient is rounded down.
  lemma {:induction false} DivRoundsDown(x: int, y: int)
    requires y != 0
    ensures y > 0 ==> FloorDiv(x, y) * y <= x < (FloorDiv(x, y) + 1) * y
    ensures y < 0 ==> FloorDiv(x, y) * y >= x > (FloorDiv(x, y) + 1) * y
  {
    Truncates(x, y);
    var d := TDiv(x, y);
    MulDistributes(d, -1, y);
    MulDistributes(d, 1, y);
  }

  // The law fails for a negative divisor just when both operands are negative and there is
  // a remainder.
  lemma {:induction false} LawForNegativeDivisors(x: int, y: int)
    requires y < 0
    ensures 0 <= EuclideanMod(x, y) < -y <==> x >= 0 || TRem(x, y) == 0
  {
    Truncates(x, y);
  }

  // ---------- the instructions ----------

  // Bit by bit.
  function Xor(a: nat, b: nat): nat {
    if a == 0 && b == 0 then 0
    else 2 * Xor(a / 2, b / 2) + (if a % 2 != b % 2 then 1 else 0)
  }

  lemma {:induction false} XorTopBit(a: nat, b: nat, w: nat)
    requires w > 0 && a < Pow2(w) && b < Pow2(w)
    ensures Xor(a, b) < Pow2(w)
    ensures Xor(a, b) >= Pow2(w - 1) <==> (a >= Pow2(w - 1)) != (b >= Pow2(w - 1))
    decreases w
  {
    if w == 1 {
      assert Pow2(1) == 2 && Pow2(0) == 1 && Xor(0, 0) == 0;
      assert a / 2 == 0 && b / 2 == 0;
    } else {
      XorTopBit(a / 2, b / 2, w - 1);
    }
  }

  // The instructions of createDiv, on words of w bits.
  function LowerDiv(x: int, y: int, w: nat): int
    requires w > 0 && InWidth(x, w) && InWidth(y, w) && y != 0
  {
    var div := TDiv(x, y);
    var back := Wrap(div * y, w);
    var rest := Wrap(x - back, w);
    var xor := Signed(Xor(Unsigned(x, w), Unsigned(y, w)), w);
    var sign := xor / Pow2(w - 1);
    var adjust := if rest == 0 then 0 else sign;
    Wrap(adjust + div, w)
  }

  function LowerMod(x: int, y: int, w: nat): int
    requires w > 0 && InWidth(x, w) && InWidth(y, w) && y != 0
  {
    var rem := TRem(x, y);
    var adjust := if rem < 0 then y else 0;
    Wrap(adjust + rem, w)
  }

  // Shifting the sign bit of the exclusive or down tells whether the signs differ.
  lemma {:induction false} SignsDiffer(x: int, y: int, w: nat)
    requires w > 0 && InWidth(x, w) && InWidth(y, w)
    ensures Signed(Xor(Unsigned(x, w), Unsigned(y, w)), w) / Pow2(w - 1) == if (x < 0) != (y < 0) then -1 else 0
  {
    var u := Xor(Unsigned(x, w), Unsigned(y, w));
    XorTopBit(Unsigned(x, w), Unsigned(y, w), w);
    assert Pow2(w) == 2 * Pow2(w - 1);
    if u >= Pow2(w - 1) {
      QuotientIs(u - Pow2(w), Pow2(w - 1), -1, u - Pow2(w - 1));
    } else {
      QuotientIs(u, Pow2(w - 1), 0, u);
    }
  }

  // The one quotient that does not fit.
  predicate Overflows(x: int, y: int, w: nat)
    requires w > 0
  {
    x == -(Half(w) as int) && y == -1
  }

  lemma {:induction false} QuotientFits(x: int, y: int, w: nat)
    requires w > 0 && InWidth(x, w) && InWidth(y, w) && y != 0
    ensures InWidth(TDiv(x, y), w) <==> !Overflows(x, y, w)
  {
    Parts(x, y);
    hide TDiv, TRem, Pow2;
    SmallQuotient(Abs(x), Abs(y));
  }

  lemma {:induction false} SmallQuotient(a: nat, b: nat)
    requires b > 0
    ensures a / b <= a && (b == 1 ==> a / b == a) && (b > 1 && a > 0 ==> a / b < a)
  {
    var q := a / b;
    assert a == q * b + a % b;
    if b > 1 {
      MulMonotone(2, b, q);
    }
  }

  // On words of every width the instructions compute the folder's quotient and remainder,
  // whatever the signs, and no step loses bits unless the quotient itself does not fit.
  lemma {:induction false} LoweringDivides(x: int, y: int, w: nat)
    requires w > 0 && InWidth(x, w) && InWidth(y, w) && y != 0 && !Overflows(x, y, w)
    ensures LowerDiv(x, y, w) == FloorDiv(x, y) && InWidth(FloorDiv(x, y), w)
  {
    QuotientFits(x, y, w);
    Truncates(x, y);
    var div := TDiv(x, y);
    WrapFits(div * y, w) by { BackFits(x, y, w); }
    WrapFits(TRem(x, y), w) by { BackFits(x, y, w); }
    SignsDiffer(x, y, w);
    FloorFits(x, y, w);
    WrapFits(FloorDiv(x, y), w);
  }

  lemma {:induction false} LoweringRemains(x: int, y: int, w: nat)
    requires w > 0 && InWidth(x, w) && InWidth(y, w) && y != 0
    ensures LowerMod(x, y, w) == Wrap(EuclideanMod(x, y), w)
    ensures y > 0 ==> LowerMod(x, y, w) == EuclideanMod(x, y) && InWidth(EuclideanMod(x, y), w)
  {
    if y > 0 {
      Truncates(x, y);
      WrapFits(EuclideanMod(x, y), w);
    }
  }

  // The product to subtract lies between 0 and x, and so does the rest.
  lemma {:induction false} BackFits(x: int, y: int, w: nat)
    requires w > 0 && InWidth(x, w) && InWidth(y, w) && y != 0
    ensures InWidth(TDiv(x, y) * y, w) && InWidth(TRem(x, y), w)
  {
    Parts(x, y);
    hide TDiv, TRem, Pow2;
    MulMonotone(0, Abs(x) / Abs(y), Abs(y));
  }

  lemma {:induction false} FloorFits(x: int, y: int, w: nat)
    requires w > 0 && InWidth(x, w) && InWidth(y, w) && y != 0 && !Overflows(x, y, w)
    ensures InWidth(FloorDiv(x, y), w)
  {
    QuotientFits(x, y, w);
    Parts(x, y);
    hide TDiv, TRem, Pow2;
    SmallQuotient(Abs(x), Abs(y));
  }
}
