// Divisibility, greatest common divisors and primes: the ground under the public-key files.
module Primes {
  import opened Wrappers
  import opened Arith

  predicate Divides(d: nat, n: int)
    requires d > 0
  {
    n % d == 0
  }

  lemma Factor(d: nat, n: int)
    requires d > 0 && Divides(d, n)
    ensures n == n / d * d
  {
    DivMod(n, d);
  }

  lemma DividesMultiple(d: nat, n: int, k: int)
    requires d > 0 && Divides(d, n)
    ensures Divides(d, n * k) && Divides(d, k * n)
  {
    Factor(d, n);
    assert n * k == (n / d * k) * d;
    MulCancel(n / d * k, d);
    assert k * n == n * k;
  }

  lemma DividesSum(d: nat, m: int, n: int)
    requires d > 0 && Divides(d, m)
    ensures Divides(d, n) <==> Divides(d, m + n)
  {
    Factor(d, m);
    ModShift(n, m / d, d);
  }

  lemma DividesTrans(d: nat, m: nat, n: int)
    requires d > 0 && m > 0 && Divides(d, m) && Divides(m, n)
    ensures Divides(d, n)
  {
    Factor(m, n);
    DividesMultiple(d, m, n / m);
  }

  lemma DivisorAtMost(d: nat, n: nat)
    requires d > 0 && n > 0 && Divides(d, n)
    ensures d <= n
  {
    if d > n {
      SmallMod(n, d);
    }
  }

  // ----- hill.py: egcd and modinv -----

  function Egcd(a: nat, b: nat): (r: (nat, int, int))
    ensures a * r.1 + b * r.2 == r.0
    ensures a > 0 || b > 0 ==> r.0 > 0
    decreases a
  {
    if a == 0 then (b, 0, 1)
    else
      var (g, y, x) := Egcd(b % a, a);
      Bezout(a, b, g, y, x);
      (g, x - (b / a) * y, y)
  }

  lemma Bezout(a: nat, b: nat, g: nat, y: int, x: int)
    requires a > 0 && (b % a) * y + a * x == g
    ensures a * (x - (b / a) * y) + b * y == g
  {
    DivMod(b, a);
    var q := b / a;
    assert b % a == b - q * a;
    assert (b - q * a) * y == b * y - (q * a) * y;
    assert (q * a) * y == a * (q * y);
    assert a * (x - q * y) == a * x - a * (q * y);
  }

  function Gcd(a: nat, b: nat): nat {
    Egcd(a, b).0
  }

  lemma {:induction false} GcdDivides(a: nat, b: nat)
    requires a > 0 || b > 0
    ensures Gcd(a, b) > 0 && Divides(Gcd(a, b), a) && Divides(Gcd(a, b), b)
    decreases a
  {
    if a == 0 {
      MulCancel(1, b);
      MulCancel(0, b);
    } else {
      GcdDivides(b % a, a);
      var g := Gcd(a, b);
      DivMod(b, a);
      DividesMultiple(g, a, b / a);
      DividesSum(g, b / a * a, b % a);
    }
  }

  lemma CommonDivisorDividesGcd(a: nat, b: nat, d: nat)
    requires d > 0 && Divides(d, a) && Divides(d, b)
    ensures Divides(d, Gcd(a, b))
  {
    var (g, x, y) := Egcd(a, b);
    DividesMultiple(d, a, x);
    DividesMultiple(d, b, y);
    DividesSum(d, a * x, b * y);
  }

  predicate Coprime(a: nat, b: nat) {
    Gcd(a, b) == 1
  }

  // Coprime means no common divisor but 1.
  lemma CoprimeMeaning(a: nat, b: nat)
    requires a > 0 || b > 0
    ensures Coprime(a, b) <==> forall d: nat :: d > 1 && Divides(d, a) ==> !Divides(d, b)
  {
    if Coprime(a, b) {
      forall d: nat | d > 1 && Divides(d, a) ensures !Divides(d, b) {
        if Divides(d, b) {
          CommonDivisorDividesGcd(a, b, d);
          SmallMod(1, d);
        }
      }
    } else {
      GcdDivides(a, b);
    }
  }

  // None is the refusal when no inverse exists.
  function ModInv(a: nat, m: nat): Option<nat>
    requires m > 0
  {
    var (g, x, y) := Egcd(a, m);
    if g != 1 then None else Some(x % m)
  }

  lemma InverseFromBezout(a: nat, m: nat, x: int, y: int)
    requires m > 1 && a * x + m * y == 1
    ensures (a * (x % m)) % m == 1
  {
    assert x * a == a * x && (x % m) * a == a * (x % m);
    ModMulLeft(x, a, m);
    assert (-y) * m == -(m * y);
    ModShift(1, -y, m);
    SmallMod(1, m);
  }

  lemma ModInvIsInverse(a: nat, m: nat)
    requires m > 1
    ensures ModInv(a, m).Some? <==> Coprime(a, m)
    ensures ModInv(a, m).Some? ==> ModInv(a, m).value < m && (a * ModInv(a, m).value) % m == 1
  {
    hide Egcd;
    var (g, x, y) := Egcd(a, m);
    if g == 1 {
      InverseFromBezout(a, m, x, y);
    }
  }

  lemma BezoutTimes(a: int, n: int, b: int, x: int, y: int)
    requires a * x + n * y == 1
    ensures b == (a * b) * x + (b * y) * n
  {
    assert b == b * (a * x + n * y) == b * (a * x) + b * (n * y);
    assert b * (a * x) == (b * a) * x == (a * b) * x;
    assert b * (n * y) == (b * y) * n;
  }

  // Euclid's lemma.
  lemma CoprimeCancels(n: nat, a: nat, b: int)
    requires n > 0 && Coprime(a, n) && Divides(n, a * b)
    ensures Divides(n, b)
  {
    hide Egcd;
    var (g, x, y) := Egcd(a, n);
    BezoutTimes(a, n, b, x, y);
    DividesMultiple(n, a * b, x);
    MulCancel(b * y, n);
    DividesSum(n, (a * b) * x, (b * y) * n);
  }

  lemma CoprimeProduct(a: nat, b: nat, n: nat)
    requires n > 0 && Coprime(a, n) && Coprime(b, n)
    ensures Coprime(a * b, n)
  {
    GcdDivides(a * b, n);
    var d := Gcd(a * b, n);
    // d divides n, so it is coprime to a; being a divisor of a * b it divides b
    CoprimeToDivisor(a, n, d);
    CoprimeCancels(d, a, b);
    CommonDivisorDividesGcd(b, n, d);
    DivisorAtMost(d, 1);
  }

  lemma CoprimeToDivisor(a: nat, n: nat, d: nat)
    requires n > 0 && d > 0 && Coprime(a, n) && Divides(d, n)
    ensures Coprime(a, d)
  {
    GcdDivides(a, d);
    var e := Gcd(a, d);
    DividesTrans(e, d, n);
    CommonDivisorDividesGcd(a, n, e);
    DivisorAtMost(e, 1);
  }

  lemma CoprimeModulo(a: nat, n: nat)
    requires n > 0
    ensures Coprime(a % n, n) <==> Coprime(a, n)
  {
    DivMod(a, n);
    GcdDivides(a, n);
    GcdDivides(a % n, n);
    var g, h := Gcd(a, n), Gcd(a % n, n);
    DividesMultiple(g, n, a / n);
    DividesSum(g, a / n * n, a % n);
    DividesMultiple(h, n, a / n);
    DividesSum(h, a / n * n, a % n);
    CommonDivisorDividesGcd(a % n, n, g);
    CommonDivisorDividesGcd(a, n, h);
    DivisorAtMost(g, h);
    DivisorAtMost(h, g);
  }

  // ----- primes -----

  ghost predicate Prime(p: nat) {
    p >= 2 && forall d: nat :: 2 <= d < p ==> !Divides(d, p)
  }

  lemma PrimeCoprime(p: nat, a: nat)
    requires Prime(p)
    ensures Coprime(a, p) <==> !Divides(p, a)
  {
    GcdDivides(a, p);
    var g := Gcd(a, p);
    DivisorAtMost(g, p);
    if Divides(p, a) {
      MulCancel(1, p);
      CommonDivisorDividesGcd(a, p, p);
      DivisorAtMost(p, g);
    }
  }

  lemma PrimeDividesProduct(p: nat, a: nat, b: nat)
    requires Prime(p) && Divides(p, a * b)
    ensures Divides(p, a) || Divides(p, b)
  {
    if !Divides(p, a) {
      PrimeCoprime(p, a);
      CoprimeCancels(p, a, b);
    }
  }

  // Every number above 1 has a least divisor above 1, and that divisor is prime.
  lemma {:induction false} PrimeFactorFrom(n: nat, d: nat) returns (p: nat)
    requires 2 <= d <= n && forall c: nat :: 2 <= c < d ==> !Divides(c, n)
    ensures Prime(p) && Divides(p, n) && d <= p <= n
    decreases n - d
  {
    if Divides(d, n) {
      p := d;
      LeastDivisorIsPrime(d, n);
    } else {
      if d == n {
        MulCancel(1, n);
      }
      p := PrimeFactorFrom(n, d + 1);
    }
  }

  lemma LeastDivisorIsPrime(d: nat, n: nat)
    requires d >= 2 && Divides(d, n) && forall c: nat :: 2 <= c < d ==> !Divides(c, n)
    ensures Prime(d)
  {
    forall c: nat | 2 <= c < d ensures !Divides(c, d) {
      if Divides(c, d) {
        DividesTrans(c, d, n);
      }
    }
  }

  lemma PrimeFactor(n: nat) returns (p: nat)
    requires n >= 2
    ensures Prime(p) && Divides(p, n)
  {
    p := PrimeFactorFrom(n, 2);
  }

  // Coprimality can be read off the primes.
  lemma CoprimeByPrimes(a: nat, n: nat)
    requires n > 0
    ensures Coprime(a, n) <==> forall p: nat :: Prime(p) && Divides(p, n) ==> !Divides(p, a)
  {
    CoprimeMeaning(a, n);
    if !Coprime(a, n) {
      GcdDivides(a, n);
      var g := Gcd(a, n);
      var p := PrimeFactor(g);
      DividesTrans(p, g, a);
      DividesTrans(p, g, n);
    }
  }
}
