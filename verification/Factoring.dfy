// Elgamal.py: trial-division primality, Euler's totient and the set of prime factors.
module Factoring {
  import opened Arith
  import opened Primes

  // ----- trial division -----

  // Without a divisor up to the square root there is none at all.
  lemma NoDivisorToRoot(n: nat, i: nat)
    requires n >= 2 && i * i > n && forall d: nat :: 2 <= d < i ==> !Divides(d, n)
    ensures Prime(n)
  {
    forall d: nat | 2 <= d < n ensures !Divides(d, n) {
      if Divides(d, n) {
        var e := Cofactor(n, d, i);
      }
    }
  }

  // The other factor of a proper divisor divides too, and one of the two lies below the root.
  lemma Cofactor(n: nat, d: nat, i: nat) returns (e: nat)
    requires 2 <= d < n && Divides(d, n) && i * i > n
    ensures e >= 2 && Divides(e, n) && (d < i || e < i)
  {
    Factor(d, n);
    e := n / d;
    assert n == d * e;
    assert e == 1 ==> d * e == d;
    MulCancel(d, e);
    if d >= i && e >= i {
      MulMono(i, i, d, e);
    }
  }

  lemma OffTheWheel(n: nat, d: nat)
    requires d > 0 && n % 2 != 0 && n % 3 != 0 && (d % 2 == 0 || d % 3 == 0)
    ensures !Divides(d, n)
  {
    if Divides(d, n) {
      if d % 2 == 0 {
        DividesTrans(2, d, n);
      } else {
        DividesTrans(3, d, n);
      }
    }
  }

  lemma WheelResidues(i: nat)
    requires i % 6 == 5
    ensures (i + 1) % 2 == 0 && (i + 3) % 2 == 0 && (i + 4) % 3 == 0 && (i + 5) % 2 == 0
  {
    var k := i / 6;
    assert i == 6 * k + 5;
    DivUnique(i + 1, 2, 3 * k + 3, 0);
    DivUnique(i + 3, 2, 3 * k + 4, 0);
    DivUnique(i + 4, 3, 2 * k + 3, 0);
    DivUnique(i + 5, 2, 3 * k + 5, 0);
  }

  lemma WheelStep(n: nat, i: nat)
    requires i % 6 == 5 && n % 2 != 0 && n % 3 != 0
    requires forall d: nat :: 2 <= d < i ==> !Divides(d, n)
    requires !Divides(i, n) && !Divides(i + 2, n)
    ensures (i + 6) % 6 == 5 && forall d: nat :: 2 <= d < i + 6 ==> !Divides(d, n)
  {
    hide Divides;
    WheelResidues(i);
    OffTheWheel(n, i + 1);
    OffTheWheel(n, i + 3);
    OffTheWheel(n, i + 4);
    OffTheWheel(n, i + 5);
    forall d: nat | i <= d < i + 6 ensures !Divides(d, n) {
      assert d == i || d == i + 1 || d == i + 2 || d == i + 3 || d == i + 4 || d == i + 5;
    }
  }

  lemma SmallPrimes(n: nat)
    requires n == 2 || n == 3
    ensures Prime(n)
  {
    assert 3 % 2 == 1;
  }

  lemma ProperDivisor(d: nat, n: nat)
    requires 2 <= d < n && n % d == 0
    ensures !Prime(n)
  {
    assert Divides(d, n);
  }

  lemma WheelStart(n: nat)
    requires n % 2 != 0 && n % 3 != 0
    ensures forall d: nat :: 2 <= d < 5 ==> !Divides(d, n)
  {
    OffTheWheel(n, 4);
    forall d: nat | 2 <= d < 5 ensures !Divides(d, n) {
      assert d == 2 || d == 3 || d == 4;
    }
  }

  lemma WheelHits(n: nat, i: nat)
    requires 2 <= i && i + 2 < n && (n % i == 0 || n % (i + 2) == 0)
    ensures !Prime(n)
  {
    ProperDivisor(if n % i == 0 then i else i + 2, n);
  }

  lemma WheelMisses(n: nat, i: nat)
    requires i % 6 == 5 && n % 2 != 0 && n % 3 != 0 && n % i != 0 && n % (i + 2) != 0
    requires forall d: nat :: 2 <= d < i ==> !Divides(d, n)
    ensures (i + 6) % 6 == 5 && forall d: nat :: 2 <= d < i + 6 ==> !Divides(d, n)
  {
    WheelStep(n, i);
  }

  method IsPrime(n: int) returns (b: bool)
    ensures b <==> n >= 0 && Prime(n)
  {
    hide Prime, Divides;
    if n <= 1 {
      NoPrimeBelowTwo(n);
      return false;
    }
    if n <= 3 {
      SmallPrimes(n);
      return true;
    }
    if n % 2 == 0 || n % 3 == 0 {
      ProperDivisor(if n % 2 == 0 then 2 else 3, n);
      return false;
    }
    WheelStart(n);
    var i := 5;
    while i * i <= n
      invariant i >= 5 && i % 6 == 5
      invariant forall d: nat :: 2 <= d < i ==> !Divides(d, n)
      decreases n - i
    {
      RootBelow(n, i);
      if n % i == 0 || n % (i + 2) == 0 {
        WheelHits(n, i);
        return false;
      }
      WheelMisses(n, i);
      i := i + 6;
    }
    NoDivisorToRoot(n, i);
    return true;
  }

  lemma NoPrimeBelowTwo(n: int)
    ensures n <= 1 ==> !(n >= 0 && Prime(n))
  {
  }

  lemma RootBelow(n: nat, i: nat)
    requires 5 <= i && i * i <= n
    ensures i + 2 < n
  {
    assert i * i >= 5 * i;
  }

  // ----- stripping small primes -----

  // temp is n without its prime factors below p.
  ghost predicate Stripped(n: nat, temp: nat, p: nat) {
    && temp > 0 && p >= 2
    && (forall q: nat :: Prime(q) && q < p ==> !Divides(q, temp))
    && (forall q: nat :: Prime(q) && q >= p ==> (Divides(q, n) <==> Divides(q, temp)))
  }

  lemma DivisorOfStripped(n: nat, temp: nat, p: nat)
    requires Stripped(n, temp, p)
    ensures forall d: nat :: 2 <= d < p ==> !Divides(d, temp)
  {
    forall d: nat | 2 <= d < p ensures !Divides(d, temp) {
      if Divides(d, temp) {
        var q := PrimeFactor(d);
        DivisorAtMost(q, d);
        DividesTrans(q, d, temp);
      }
    }
  }

  lemma StrippedFactorIsPrime(n: nat, temp: nat, p: nat)
    requires Stripped(n, temp, p) && Divides(p, temp)
    ensures Prime(p) && Divides(p, n)
  {
    DivisorOfStripped(n, temp, p);
    LeastDivisorIsPrime(p, temp);
  }

  lemma OtherPrimesStay(temp: nat, p: nat, q: nat)
    requires temp > 0 && Prime(p) && Prime(q) && p != q && Divides(p, temp)
    ensures temp / p > 0 && (Divides(q, temp) <==> Divides(q, temp / p))
  {
    Factor(p, temp);
    if Divides(q, temp) {
      PrimeDividesProduct(q, temp / p, p);
      if Divides(q, p) {
        DivisorAtMost(q, p);
      }
    }
    if Divides(q, temp / p) {
      DividesMultiple(q, temp / p, p);
    }
  }

  // The inner loop: divide by p while it goes.
  method StripFactor(n: nat, temp0: nat, p: nat) returns (temp: nat)
    requires Stripped(n, temp0, p) && Prime(p)
    ensures Stripped(n, temp, p + 1) && temp <= temp0
  {
    temp := temp0;
    while temp % p == 0
      invariant 0 < temp <= temp0
      invariant forall q: nat :: Prime(q) && q != p ==> (Divides(q, temp0) <==> Divides(q, temp))
      decreases temp
    {
      forall q: nat | Prime(q) && q != p ensures Divides(q, temp) <==> Divides(q, temp / p) {
        OtherPrimesStay(temp, p, q);
      }
      Factor(p, temp);
      ShrinksBy(temp, p);
      temp := temp / p;
    }
    assert !Divides(p, temp);
  }

  lemma ShrinksBy(t: nat, p: nat)
    requires t > 0 && p >= 2 && t == t / p * p
    ensures 0 < t / p < t
  {
  }

  lemma NotAFactor(n: nat, temp: nat, p: nat)
    requires Stripped(n, temp, p) && !Divides(p, temp)
    ensures Stripped(n, temp, p + 1)
  {
  }

  // When the loop ends what is left is 1 or the one remaining prime.
  lemma Remainder(n: nat, temp: nat, p: nat)
    requires Stripped(n, temp, p) && p * p > temp
    ensures temp > 1 ==> Prime(temp) && temp >= p && Divides(temp, n)
    ensures forall q: nat :: Prime(q) && q >= p ==> (Divides(q, n) <==> temp > 1 && q == temp)
  {
    DivisorOfStripped(n, temp, p);
    if temp > 1 {
      NoDivisorToRoot(temp, p);
      MulCancel(1, temp);
      assert Divides(temp, temp);
    }
    forall q: nat | Prime(q) && q >= p ensures Divides(q, temp) <==> temp > 1 && q == temp {
      if Divides(q, temp) {
        DivisorAtMost(q, temp);
      }
    }
  }

  lemma StrippedStart(n: nat)
    requires n > 0
    ensures Stripped(n, n, 2)
  {
  }

  // ps is the set of the primes below p that divide n.
  ghost predicate FactorsBelow(ps: set<nat>, n: nat, p: nat) {
    forall q: nat :: q in ps <==> Prime(q) && q < p && Divides(q, n)
  }

  lemma FactorFound(ps: set<nat>, n: nat, p: nat)
    requires FactorsBelow(ps, n, p) && Prime(p) && Divides(p, n)
    ensures FactorsBelow(ps + {p}, n, p + 1) && p !in ps
  {
  }

  lemma NoFactorHere(ps: set<nat>, n: nat, temp: nat, p: nat)
    requires FactorsBelow(ps, n, p) && Stripped(n, temp, p) && !Divides(p, temp)
    ensures FactorsBelow(ps, n, p + 1)
  {
  }

  lemma AllFactors(ps: set<nat>, n: nat, temp: nat, p: nat)
    requires FactorsBelow(ps, n, p) && Stripped(n, temp, p) && p * p > temp
    ensures temp > 1 ==> Prime(temp) && Divides(temp, n) && temp !in ps
    ensures forall q: nat :: q in (if temp > 1 then ps + {temp} else ps) <==> Prime(q) && Divides(q, n)
  {
    Remainder(n, temp, p);
  }

  method PrimeFactors(n: nat) returns (factors: set<nat>)
    requires n > 0
    ensures forall q: nat :: q in factors <==> Prime(q) && Divides(q, n)
  {
    factors := {};
    var temp, p := n, 2;
    StrippedStart(n);
    while p * p <= temp
      invariant Stripped(n, temp, p) && FactorsBelow(factors, n, p)
      decreases temp as int - p as int
    {
      MulAtLeast(p, p);
      if temp % p == 0 {
        StrippedFactorIsPrime(n, temp, p);
        FactorFound(factors, n, p);
        factors := factors + {p};
        temp := StripFactor(n, temp, p);
      } else {
        NoFactorHere(factors, n, temp, p);
        NotAFactor(n, temp, p);
      }
      p := p + 1;
    }
    AllFactors(factors, n, temp, p);
    if temp > 1 {
      factors := factors + {temp};
    }
  }

  // ----- Euler's totient -----

  // k is divisible by no member of ps.
  ghost predicate Free(ps: set<nat>, k: nat) {
    forall p :: p in ps && p > 0 ==> !Divides(p, k)
  }

  // How many of 1..m are divisible by no member of ps.
  ghost function CountFree(ps: set<nat>, m: nat): nat {
    if m == 0 then 0 else CountFree(ps, m - 1) + (if Free(ps, m) then 1 else 0)
  }

  // The pattern repeats with every common multiple of ps.
  lemma {:induction false} CountFreePeriod(ps: set<nat>, c: nat, a: nat, j: nat)
    requires c > 0 && forall p :: p in ps && p > 0 ==> Divides(p, c)
    ensures CountFree(ps, a * c + j) == CountFree(ps, a * c) + CountFree(ps, j)
    decreases j
  {
    if j > 0 {
      CountFreePeriod(ps, c, a, j - 1);
      forall p | p in ps && p > 0 ensures Divides(p, a * c + j) <==> Divides(p, j) {
        DividesMultiple(p, c, a);
        DividesSum(p, a * c, j);
      }
      assert a * c + j - 1 == a * c + (j - 1);
    }
  }

  lemma {:induction false} CountFreeMultiple(ps: set<nat>, c: nat, a: nat)
    requires c > 0 && forall p :: p in ps && p > 0 ==> Divides(p, c)
    ensures CountFree(ps, a * c) == a * CountFree(ps, c)
    decreases a
  {
    if a > 0 {
      CountFreeMultiple(ps, c, a - 1);
      assert a * c == (a - 1) * c + c;
      CountFreePeriod(ps, c, a - 1, c);
      assert a * CountFree(ps, c) == (a - 1) * CountFree(ps, c) + CountFree(ps, c);
    }
  }

  // A new prime removes its multiples, and those are counted by the same count further down.
  lemma {:induction false} CountFreeAdd(ps: set<nat>, q: nat, m: nat)
    requires Prime(q) && q !in ps && forall p :: p in ps ==> Prime(p)
    ensures CountFree(ps + {q}, m) + CountFree(ps, m / q) == CountFree(ps, m)
    decreases m
  {
    if m == 0 {
      SmallMod(0, q);
      DivUnique(0, q, 0, 0);
    } else {
      CountFreeAdd(ps, q, m - 1);
      NextQuotient(m, q);
      if Divides(q, m) {
        assert !Free(ps + {q}, m);
        forall p | p in ps ensures Divides(p, m) <==> Divides(p, m / q) {
          OtherPrimesStay(m, q, p);
        }
        assert Free(ps, m) <==> Free(ps, m / q);
      } else {
        assert Free(ps + {q}, m) <==> Free(ps, m);
      }
    }
  }

  lemma NextQuotient(m: nat, q: nat)
    requires m > 0 && q > 0
    ensures m / q == (m - 1) / q + (if Divides(q, m) then 1 else 0)
  {
    DivMod(m, q);
    if Divides(q, m) {
      assert m - 1 == (m / q - 1) * q + (q - 1);
      DivUnique(m - 1, q, m / q - 1, q - 1);
    } else {
      DivUnique(m - 1, q, m / q, m % q - 1);
    }
  }

  // c collects exactly the primes of ps, and divides n.
  ghost predicate Collects(ps: set<nat>, c: nat, n: nat) {
    && c > 0 && Divides(c, n)
    && (forall p :: p in ps ==> Prime(p) && Divides(p, c))
    && (forall q: nat :: Prime(q) && Divides(q, c) ==> q in ps)
  }

  lemma CollectsMore(ps: set<nat>, c: nat, n: nat, q: nat)
    requires n > 0 && Collects(ps, c, n) && Prime(q) && Divides(q, n) && q !in ps
    ensures Collects(ps + {q}, c * q, n)
  {
    PrimeCoprime(q, c);
    Factor(q, n);
    Factor(c, n);
    assert n == c * (n / c);
    CoprimeCancels(q, c, n / c);
    Factor(q, n / c);
    assert n == (n / c / q) * (c * q) by {
      assert n == c * (n / c / q * q);
      assert c * (n / c / q * q) == (n / c / q) * (c * q);
    }
    MulCancel(n / c / q, c * q);
    MulCancel(c, q);
    forall p | p in ps ensures Divides(p, c * q) {
      DividesMultiple(p, c, q);
    }
    forall p: nat | Prime(p) && Divides(p, c * q) ensures p in ps + {q} {
      PrimeDividesProduct(p, c, q);
      if Divides(p, q) {
        DivisorAtMost(p, q);
      }
    }
  }

  // result -= result // q is exact and counts out the multiples of q.
  lemma TotientStep(ps: set<nat>, c: nat, n: nat, q: nat)
    requires n > 0 && Collects(ps, c, n) && Prime(q) && Divides(q, n) && q !in ps
    ensures CountFree(ps + {q}, n) == CountFree(ps, n) - CountFree(ps, n) / q
  {
    hide Collects, Prime, CountFree;
    CollectsMore(ps, c, n, q);
    var a := CollectedQuotient(ps, c, n, q);
    var f := CountFree(ps, c);
    CountFreeMultiple(ps, c, a * q);
    CountFreeMultiple(ps, c, a);
    CountFreeAdd(ps, q, n);
    Regroup(a, q, f);
    MulCancel(a * f, q);
  }

  lemma Regroup(a: int, q: int, f: int)
    ensures (a * q) * f == (a * f) * q
  {
  }

  lemma CollectedQuotient(ps: set<nat>, c: nat, n: nat, q: nat) returns (a: nat)
    requires n > 0 && Collects(ps, c, n) && Collects(ps + {q}, c * q, n) && Prime(q)
    ensures n == (a * q) * c && n / q == a * c
    ensures c > 0 && q !in ps ==> forall p :: p in ps ==> Prime(p) && Divides(p, c)
  {
    Factor(c * q, n);
    a := n / (c * q);
    Regroup3(a, c, q);
    MulCancel(a * c, q);
  }

  lemma Regroup3(a: int, c: int, q: int)
    ensures a * (c * q) == (a * q) * c && a * (c * q) == (a * c) * q
  {
  }

  ghost function Units(n: nat): set<nat> {
    set k: nat | 1 <= k <= n && Coprime(k, n)
  }

  ghost function Totient(n: nat): nat {
    |Units(n)|
  }

  ghost function FreeUpTo(ps: set<nat>, m: nat): set<nat> {
    set k: nat | 1 <= k <= m && Free(ps, k)
  }

  lemma FreeUpToNext(ps: set<nat>, m: nat)
    requires m > 0
    ensures FreeUpTo(ps, m) == FreeUpTo(ps, m - 1) + if Free(ps, m) then {m} else {}
    ensures m !in FreeUpTo(ps, m - 1)
  {
    hide Free;
  }

  lemma {:induction false} CountFreeIsCardinality(ps: set<nat>, m: nat)
    ensures CountFree(ps, m) == |FreeUpTo(ps, m)|
    decreases m
  {
    if m > 0 {
      hide FreeUpTo, Free;
      CountFreeIsCardinality(ps, m - 1);
      FreeUpToNext(ps, m);
    }
  }

  lemma FreeOfAllPrimesIsCoprime(ps: set<nat>, n: nat)
    requires n > 0 && forall q: nat :: q in ps <==> Prime(q) && Divides(q, n)
    ensures CountFree(ps, n) == Totient(n)
  {
    CountFreeIsCardinality(ps, n);
    forall k: nat | 1 <= k <= n ensures Free(ps, k) <==> Coprime(k, n) {
      CoprimeByPrimes(k, n);
    }
    assert FreeUpTo(ps, n) == Units(n);
  }

  // For every n >= 1, euler_phi counts the numbers in 1..n that are coprime to n.
  method EulerPhi(n: nat) returns (result: nat)
    requires n > 0
    ensures result == Totient(n)
  {
    hide Stripped, FactorsBelow, Collects, CountFree, Totient;
    result := n;
    var temp, p := n, 2;
    ghost var ps: set<nat>, c := {}, 1;
    StrippedStart(n);
    NothingFree(n);
    while p * p <= temp
      invariant p >= 2 && Stripped(n, temp, p) && FactorsBelow(ps, n, p)
      invariant Collects(ps, c, n) && result == CountFree(ps, n)
      decreases temp as int - p as int
    {
      MulAtLeast(p, p);
      if temp % p == 0 {
        StrippedFactorIsPrime(n, temp, p);
        FactorFound(ps, n, p);
        temp := StripFactor(n, temp, p);
        QuotientAtMost(result, p);
        TotientStep(ps, c, n, p);
        CollectsMore(ps, c, n, p);
        result := result - result / p;
        ps, c := ps + {p}, c * p;
      } else {
        NoFactorHere(ps, n, temp, p);
        NotAFactor(n, temp, p);
      }
      p := p + 1;
    }
    AllFactors(ps, n, temp, p);
    if temp > 1 {
      QuotientAtMost(result, temp);
      TotientStep(ps, c, n, temp);
      result := result - result / temp;
      ps := ps + {temp};
    }
    FreeOfAllPrimesIsCoprime(ps, n);
  }

  lemma {:induction false} NothingFree(n: nat)
    ensures CountFree({}, n) == n && Collects({}, 1, n) && FactorsBelow({}, n, 2)
    decreases n
  {
    if n > 0 {
      NothingFree(n - 1);
    }
    MulCancel(n, 1);
    forall q: nat | Prime(q) ensures !Divides(q, 1) {
      SmallMod(1, q);
    }
  }

  // The totient of a prime.
  lemma TotientOfPrime(p: nat)
    requires Prime(p)
    ensures (forall k: nat :: k in Units(p) <==> 1 <= k < p) && Totient(p) == p - 1
  {
    forall k: nat | 1 <= k <= p ensures Coprime(k, p) <==> k < p {
      PrimeCoprime(p, k);
      if k < p {
        SmallMod(k, p);
      } else {
        MulCancel(1, p);
      }
    }
    NothingFree(p - 1);
    CountFreeIsCardinality({}, p - 1);
    assert Units(p) == FreeUpTo({}, p - 1);
  }
}
