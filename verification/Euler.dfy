// Powers modulo n: Euler's theorem, orders, and what a primitive root is.
module Euler {
  import opened Arith
  import opened Primes
  import opened Factoring
  import opened Powers

  // x is the least non-negative number that differs from c times b^e by a multiple of n.
  ghost predicate IsMultipleOfPower(x: int, c: int, b: int, e: nat, n: nat)
    requires n > 0
  {
    0 <= x < n && Divides(n, c * Pow(b, e) - x)
  }

  ghost predicate IsResidueOfPower(x: int, b: int, e: nat, n: nat)
    requires n > 0
  {
    0 <= x < n && Divides(n, Pow(b, e) - x)
  }

  lemma PowModIsPower(b: int, e: nat, n: nat)
    requires n > 0
    ensures IsResidueOfPower(PowMod(b, e, n), b, e, n)
  {
    RemainderIsCongruent(Pow(b, e), n);
  }

  lemma TimesPowModIsMultiple(c: int, b: int, e: nat, n: nat)
    requires n > 0
    ensures IsMultipleOfPower((c * PowMod(b, e, n)) % n, c, b, e, n)
  {
    assert c * PowMod(b, e, n) == PowMod(b, e, n) * c && c * Pow(b, e) == Pow(b, e) * c;
    ModMulLeft(Pow(b, e), c, n);
    RemainderIsCongruent(c * Pow(b, e), n);
  }

  lemma RemainderIsCongruent(a: int, n: nat)
    requires n > 0
    ensures Divides(n, a - a % n)
  {
    ModTwice(a, n);
    SameRemainder(a, a % n, n);
  }

  lemma {:induction false} PowCoprime(g: nat, e: nat, n: nat)
    requires n > 0 && Coprime(g, n)
    ensures Pow(g, e) >= 0 && Coprime(Pow(g, e), n)
    decreases e
  {
    PowNat(g, e);
    if e == 0 {
      GcdDivides(1, n);
      DivisorAtMost(Gcd(1, n), 1);
    } else {
      PowCoprime(g, e - 1, n);
      CoprimeProduct(g, Pow(g, e - 1), n);
    }
  }

  // ----- Euler's theorem -----

  // The product of the members of s among 1..m.
  ghost function Product(s: set<nat>, m: nat): nat {
    if m == 0 then 1 else (if m in s then m else 1) * Product(s, m - 1)
  }

  lemma SwapFactors(k: int, x: int, q: int)
    ensures k * (x * q) == x * (k * q)
  {
  }

  lemma {:induction false} ProductRemove(s: set<nat>, m: nat, x: nat)
    requires x in s && 1 <= x <= m
    ensures Product(s, m) == x * Product(s - {x}, m)
    decreases m
  {
    if x == m {
      ProductIgnores(s, m - 1, x);
    } else {
      ProductRemove(s, m - 1, x);
      SwapFactors(if m in s then m else 1, x, Product(s - {x}, m - 1));
    }
  }

  lemma {:induction false} ProductIgnores(s: set<nat>, m: nat, x: nat)
    requires x > m
    ensures Product(s - {x}, m) == Product(s, m)
    decreases m
  {
    if m > 0 {
      ProductIgnores(s, m - 1, x);
    }
  }

  lemma {:induction false} ProductOfNone(m: nat)
    ensures Product({}, m) == 1
    decreases m
  {
    if m > 0 {
      ProductOfNone(m - 1);
    }
  }

  lemma {:induction false} ProductCoprime(s: set<nat>, m: nat, n: nat)
    requires n > 0 && forall k :: k in s ==> Coprime(k, n)
    ensures Coprime(Product(s, m), n)
    decreases m
  {
    if m == 0 {
      PowCoprime(1, 0, n);
    } else {
      ProductCoprime(s, m - 1, n);
      GcdDivides(1, n);
      DivisorAtMost(Gcd(1, n), 1);
      CoprimeProduct(if m in s then m else 1, Product(s, m - 1), n);
    }
  }

  function MulMod(g: nat, k: nat, n: nat): nat
    requires n > 0
  {
    (g * k) % n
  }

  // Multiplying the members of s by g modulo n.
  ghost function Times(s: set<nat>, g: nat, n: nat): set<nat>
    requires n > 0
  {
    set k | k in s :: MulMod(g, k, n)
  }

  lemma UnitTimes(g: nat, k: nat, n: nat)
    requires n >= 2 && Coprime(g, n) && k in Units(n)
    ensures (g * k) % n in Units(n)
  {
    CoprimeProduct(g, k, n);
    CoprimeModulo(g * k, n);
    ZeroIsNoUnit(n);
  }

  lemma ZeroIsNoUnit(n: nat)
    requires n >= 2
    ensures !Coprime(0, n)
  {
    CoprimeMeaning(0, n);
    MulCancel(0, n);
    MulCancel(1, n);
    assert Divides(n, 0) && Divides(n, n);
  }

  lemma TimesDifference(g: int, j: int, k: int)
    ensures g * (j - k) == g * j - g * k
  {
  }

  // g * j and g * k agree modulo n only if j and k do.
  lemma TimesInjective(g: nat, j: int, k: int, n: nat)
    requires n > 0 && Coprime(g, n) && (g * j) % n == (g * k) % n
    ensures j % n == k % n
  {
    hide Coprime;
    SameRemainder(g * j, g * k, n);
    TimesDifference(g, j, k);
    CoprimeCancels(n, g, j - k);
    SameRemainder(j, k, n);
  }

  lemma UnitIsSmall(k: nat, n: nat)
    requires n >= 2 && k in Units(n)
    ensures 1 <= k < n && Coprime(k, n)
  {
    CoprimeMeaning(n, n);
    MulCancel(1, n);
    assert Divides(n, n);
  }

  lemma {:induction false} TimesProduct(s: set<nat>, g: nat, n: nat)
    requires n >= 2 && Coprime(g, n) && s <= Units(n)
    ensures |Times(s, g, n)| == |s|
    ensures Product(Times(s, g, n), n) % n == (Pow(g, |s|) * Product(s, n)) % n
    decreases s
  {
    hide Pow, Product, Units, Coprime;
    if s == {} {
      ProductOfNone(n);
      assert Times(s, g, n) == {};
      PowZero(g);
    } else {
      var x :| x in s;
      var rest, y := s - {x}, (g * x) % n;
      TimesProduct(rest, g, n);
      TimesSplit(s, g, n, x);
      NotRepeated(rest, g, n, x);
      UnitTimes(g, x, n);
      hide Times;
      assert Times(s, g, n) - {y} == Times(rest, g, n);
      UnitIsSmall(y, n);
      UnitIsSmall(x, n);
      ProductRemove(Times(s, g, n), n, y);
      ProductRemove(s, n, x);
      PowNext(g, |rest|);
      PowNat(g, |rest|);
      TimesStep(g, x, n, Product(Times(rest, g, n), n), Pow(g, |rest|), Product(rest, n));
    }
  }

  lemma TimesSplit(s: set<nat>, g: nat, n: nat, x: nat)
    requires n > 0 && x in s
    ensures Times(s, g, n) == Times(s - {x}, g, n) + {MulMod(g, x, n)}
  {
    hide MulMod;
    forall y | y in Times(s, g, n) ensures y in Times(s - {x}, g, n) + {MulMod(g, x, n)} {
      var k :| k in s && y == MulMod(g, k, n);
      assert k == x || k in s - {x};
    }
  }

  lemma NotRepeated(rest: set<nat>, g: nat, n: nat, x: nat)
    requires n >= 2 && Coprime(g, n) && rest <= Units(n) && x in Units(n) && x !in rest
    ensures (g * x) % n !in Times(rest, g, n)
  {
    if (g * x) % n in Times(rest, g, n) {
      var k :| k in rest && (g * k) % n == (g * x) % n;
      TimesInjective(g, k, x, n);
      UnitIsSmall(k, n);
      UnitIsSmall(x, n);
      SmallMod(k, n);
      SmallMod(x, n);
    }
  }

  lemma TimesStep(g: nat, x: nat, n: nat, p: nat, w: nat, q: nat)
    requires n > 0 && p % n == (w * q) % n
    ensures ((g * x) % n * p) % n == ((g * w) * (x * q)) % n
  {
    ModMulLeft(g * x, p, n);
    ModMul(g * x, p, n);
    ModMul(g * x, w * q, n);
    Interleave(g, x, w, q);
  }

  lemma SameSize(s: set<nat>, t: set<nat>)
    requires s <= t && |s| == |t|
    ensures s == t
  {
    assert |t - s| == |t| - |s|;
    assert t - s == {};
  }

  // Euler: a number coprime to n, raised to the totient of n, is 1 modulo n.
  lemma EulerTheorem(g: nat, n: nat)
    requires n >= 2 && Coprime(g, n)
    ensures Pow(g, Totient(n)) % n == 1
  {
    hide Pow, Product, Units, Coprime;
    var u := Units(n);
    forall k | k in u ensures (g * k) % n in u {
      UnitTimes(g, k, n);
    }
    TimesProduct(u, g, n);
    SameSize(Times(u, g, n), u);
    forall k | k in u ensures Coprime(k, n) {
      UnitIsSmall(k, n);
    }
    ProductCoprime(u, n, n);
    PowNat(g, |u|);
    CancelFactor(Pow(g, |u|), Product(u, n), n);
  }

  lemma CancelFactor(w: int, p: nat, n: nat)
    requires n >= 2 && Coprime(p, n) && (w * p) % n == p % n
    ensures w % n == 1
  {
    SameRemainder(w * p, p, n);
    assert w * p - p == p * (w - 1);
    CoprimeCancels(n, p, w - 1);
    SameRemainder(w, 1, n);
    SmallMod(1, n);
  }

  // Fermat's little theorem, as the case of a prime modulus.
  lemma Fermat(a: nat, p: nat)
    requires Prime(p) && !Divides(p, a)
    ensures Pow(a, p - 1) % p == 1
  {
    PrimeCoprime(p, a);
    TotientOfPrime(p);
    EulerTheorem(a, p);
  }
}
