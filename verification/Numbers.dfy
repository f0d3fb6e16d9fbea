// Elementary facts about products and quotients that the other modules share.
module Numbers {
  lemma {:induction false} MulMonotone(a: int, b: int, c: int)
    requires a <= b && 0 <= c
    ensures a * c <= b * c
  {
  }

  lemma {:induction false} MulAssociates(a: int, b: int, c: int)
    ensures a * b * c == a * (b * c)
  {
  }

  lemma {:induction false} MulDistributes(a: int, b: int, c: int)
    ensures (a + b) * c == a * c + b * c
  {
  }

  // The quotient and the remainder are determined.
  lemma {:induction false} QuotientIs(n: int, d: int, q: int, r: int)
    requires n == q * d + r && 0 <= r < d
    ensures n / d == q && n % d == r
  {
    var p := n / d;
    assert n == p * d + n % d;
    if p > q {
      MulMonotone(q + 1, p, d);
      MulDistributes(q, 1, d);
    } else if p < q {
      MulMonotone(p + 1, q, d);
      MulDistributes(p, 1, d);
    }
  }

  lemma {:induction false} SplitNumber(n: int, length: nat, p: nat)
    requires 0 <= n < length * p
    ensures p > 0 && 0 <= n / p < length && 0 <= n % p < p && n == n / p * p + n % p
  {
  }

  lemma {:induction false} DivideTwice(x: int, a: int, b: int)
    requires a > 0 && b > 0
    ensures a * b > 0 && x / a / b == x / (a * b)
  {
    var q := x / a;
    assert x == q * a + x % a;
    assert q == q / b * b + q % b;
    MulMonotone(1, a, b);
    MulMonotone(q % b, b - 1, a);
    MulMonotone(0, q % b, a);
    MulDistributes(q / b * b, q % b, a);
    MulAssociates(q / b, b, a);
    MulDistributes(b, -1, a);
    QuotientIs(x, a * b, q / b, q % b * a + x % a);
  }

  lemma {:induction false} ModTwice(x: int, a: int, p: int)
    requires a > 0 && p > 0
    ensures a * p > 0 && x % (a * p) == x % a + a * (x / a % p)
  {
    DivideTwice(x, a, p);
    var q := x / a;
    assert x == q * a + x % a;
    assert q == q / p * p + q % p;
    MulDistributes(q / p * p, q % p, a);
    MulAssociates(q / p, p, a);
    assert x == x / (a * p) * (a * p) + x % (a * p);
  }
}
