// Facts about multiplication and division that the other modules build on.
module Arith {
  lemma MulAtLeast(q: nat, b: nat)
    requires b >= 1
    ensures q * b >= q
  {
  }

  lemma MulMono(a: nat, b: nat, c: nat, d: nat)
    requires a <= c && b <= d
    ensures a * b <= c * d
  {
    assert a * b <= a * d && a * d <= c * d;
  }

  lemma NonzeroMultiple(d: int, b: nat)
    requires b > 0
    ensures d == 0 || d * b >= b || d * b + b <= 0
  {
  }

  lemma DivMod(a: int, b: nat)
    requires b > 0
    ensures a == a / b * b + a % b && 0 <= a % b < b
  {
  }

  // Quotient and remainder are determined by the division equation.
  lemma DivUnique(a: int, b: nat, q: int, r: int)
    requires b > 0 && a == q * b + r && 0 <= r < b
    ensures a / b == q && a % b == r
  {
    DivMod(a, b);
    NonzeroMultiple(q - a / b, b);
    assert (q - a / b) * b == q * b - a / b * b;
  }

  lemma QuotientAtMost(a: nat, b: nat)
    requires b > 0
    ensures a / b <= a
  {
    DivMod(a, b);
    MulAtLeast(a / b, b);
  }

  lemma MulCancel(k: int, d: nat)
    requires d > 0
    ensures (k * d) % d == 0 && (k * d) / d == k
  {
    DivUnique(k * d, d, k, 0);
  }

  lemma ModShift(a: int, k: int, m: nat)
    requires m > 0
    ensures (a + k * m) % m == a % m
  {
    DivMod(a, m);
    assert a + k * m == (a / m + k) * m + a % m;
    DivUnique(a + k * m, m, a / m + k, a % m);
  }

  // Equal remainders mean a difference that is a multiple, and conversely.
  lemma SameRemainder(a: int, b: int, m: nat)
    requires m > 0
    ensures a % m == b % m <==> (a - b) % m == 0
  {
    DivMod(a, m);
    DivMod(b, m);
    if a % m == b % m {
      assert a - b == (a / m - b / m) * m;
      MulCancel(a / m - b / m, m);
    }
    if (a - b) % m == 0 {
      DivMod(a - b, m);
      ModShift(b, (a - b) / m, m);
    }
  }

  lemma ModMulLeft(a: int, b: int, m: nat)
    requires m > 0
    ensures (a * b) % m == ((a % m) * b) % m
  {
    DivMod(a, m);
    var q, r := a / m, a % m;
    assert a * b == r * b + (q * b) * m by {
      assert a * b == (q * m + r) * b;
      assert (q * m) * b == (q * b) * m;
    }
    ModShift(r * b, q * b, m);
  }

  lemma ModMul(a: int, b: int, m: nat)
    requires m > 0
    ensures (a * b) % m == ((a % m) * (b % m)) % m
  {
    ModMulLeft(a, b, m);
    ModMulLeft(b, a % m, m);
    assert (a % m) * b == b * (a % m);
    assert (b % m) * (a % m) == (a % m) * (b % m);
  }

  lemma ModTwice(a: int, m: nat)
    requires m > 0
    ensures (a % m) % m == a % m
  {
    DivMod(a, m);
    DivUnique(a % m, m, 0, a % m);
  }

  lemma SmallMod(a: nat, m: nat)
    requires a < m
    ensures a % m == a
  {
    DivUnique(a, m, 0, a);
  }
}
