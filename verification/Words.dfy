// Integers as words of w bits, in two's complement.
module Words {
  import opened Numbers

  function Pow2(n: nat): (p: nat)
    ensures p > 0
  {
    if n == 0 then 1 else 2 * Pow2(n - 1)
  }

  function Half(w: nat): nat {
    Pow2(w) / 2
  }

  lemma {:induction false} HalfIs(w: nat)
    requires w > 0
    ensures Half(w) == Pow2(w - 1) && Pow2(w) == 2 * Half(w)
  {
  }

  predicate InWidth(x: int, w: nat) {
    -(Half(w) as int) <= x < Half(w)
  }

  function MaxWord(w: nat): int {
    Half(w) - 1
  }

  // A result that does not fit loses its upper bits.
  function Wrap(x: int, w: nat): int {
    (x + Half(w)) % Pow2(w) - Half(w)
  }

  function Unsigned(x: int, w: nat): nat
    requires w > 0 && InWidth(x, w)
  {
    HalfIs(w);
    if x < 0 then x + Pow2(w) else x
  }

  function Signed(u: nat, w: nat): int {
    if u >= Half(w) then u - Pow2(w) else u
  }

  lemma {:induction false} WrapFits(x: int, w: nat)
    requires w > 0
    ensures InWidth(Wrap(x, w), w)
    ensures InWidth(x, w) ==> Wrap(x, w) == x
  {
    HalfIs(w);
    if InWidth(x, w) {
      QuotientIs(x + Half(w), Pow2(w), 0, x + Half(w));
    }
  }

  // Numbers that differ by a multiple of 2^w are the same word.
  lemma {:induction false} WrapSame(x: int, k: int, w: nat)
    ensures Wrap(x + k * Pow2(w), w) == Wrap(x, w)
  {
    var p, y := Pow2(w), x + Half(w);
    assert y == y / p * p + y % p;
    MulDistributes(y / p, k, p);
    QuotientIs(y + k * p, p, y / p + k, y % p);
  }

  lemma {:induction false} WrapMod(x: int, w: nat)
    ensures Wrap(x % Pow2(w), w) == Wrap(x, w)
  {
    var p := Pow2(w);
    assert x == x / p * p + x % p;
    WrapSame(x % p, x / p, w);
  }

  // A number and the word it is cut to differ by a multiple of 2^w.
  lemma {:induction false} WrapDiffers(x: int, w: nat) returns (k: int)
    ensures x == Wrap(x, w) + k * Pow2(w)
  {
    k := (x + Half(w)) / Pow2(w);
    assert x + Half(w) == k * Pow2(w) + (x + Half(w)) % Pow2(w);
  }

  // Cutting an operand first makes no difference to a sum.
  lemma {:induction false} WrapAdd(x: int, y: int, w: nat)
    ensures Wrap(Wrap(x, w) + y, w) == Wrap(x + y, w)
  {
    var k := WrapDiffers(x, w);
    WrapSame(Wrap(x, w) + y, k, w);
  }

  lemma {:induction false} Pow2Add(a: nat, b: nat)
    ensures Pow2(a + b) == Pow2(a) * Pow2(b)
  {
    if a > 0 {
      Pow2Add(a - 1, b);
      MulAssociates(2, Pow2(a - 1), Pow2(b));
    }
  }

  lemma {:induction false} Pow2Monotone(a: nat, b: nat)
    requires a <= b
    ensures Pow2(a) <= Pow2(b)
  {
    if a < b {
      Pow2Monotone(a, b - 1);
    }
  }

  // Some powers of two.
  lemma {:induction false} Powers()
    ensures Pow2(7) == 0x80 && Pow2(8) == 0x100 && Pow2(15) == 0x8000 && Pow2(16) == 0x1_0000
    ensures Pow2(31) == 0x8000_0000 && Pow2(32) == 0x1_0000_0000
    ensures Pow2(63) == 0x8000_0000_0000_0000 && Pow2(64) == 0x1_0000_0000_0000_0000
  {
    assert Pow2(4) == 16;
    assert Pow2(7) == 128;
    Pow2Add(8, 8);
    Pow2Add(16, 16);
    Pow2Add(32, 32);
    HalfIs(16);
    HalfIs(32);
    HalfIs(64);
  }
}
