// Elgamal.py: the primitive-root test.
module PrimitiveRoot {
  import opened Arith
  import opened Primes
  import opened Factoring
  import opened Euler
  import opened Powers

  // Every number coprime to n is a power of g modulo n.
  ghost predicate Generates(g: nat, n: nat)
    requires n > 0
  {
    forall u :: u in Units(n) ==> IsPower(g, n, u)
  }

  ghost predicate IsPower(g: nat, n: nat, u: nat)
    requires n > 0
  {
    exists k: nat :: PowMod(g, k, n) == u
  }

  // The powers with exponents below m.
  ghost function PowersBelow(g: nat, n: nat, m: nat): set<nat>
    requires n > 0
  {
    if m == 0 then {} else PowersBelow(g, n, m - 1) + {PowMod(g, m - 1, n)}
  }

  lemma {:induction false} PowersMembers(g: nat, n: nat, m: nat)
    requires n > 0
    ensures forall k :: 0 <= k < m ==> PowMod(g, k, n) in PowersBelow(g, n, m)
    ensures forall u :: u in PowersBelow(g, n, m) ==> exists k :: 0 <= k < m && PowMod(g, k, n) == u
    ensures |PowersBelow(g, n, m)| <= m
    decreases m
  {
    hide PowMod;
    if m > 0 {
      PowersMembers(g, n, m - 1);
    }
  }

  // Once g^e is 1 the powers repeat.
  lemma PowersRepeat(g: nat, n: nat, e: nat, k: nat)
    requires n >= 2 && e > 0 && PowMod(g, e, n) == 1
    ensures PowMod(g, k, n) == PowMod(g, k % e, n)
  {
    DivMod(k, e);
    var q, r := k / e, k % e;
    PowTimes(g, e, q);
    assert q * e == e * q;
    PowAdd(g, e * q, r);
    PowModBase(Pow(g, e), q, n);
    PowOne(q);
    ModMulLeft(Pow(g, e * q), Pow(g, r), n);
    SmallMod(1, n);
  }

  // A repetition below the totient yields a smaller exponent with power 1.
  lemma RepetitionMeansOne(g: nat, n: nat, i: nat, m: nat)
    requires n >= 2 && Coprime(g, n) && i < m && PowMod(g, i, n) == PowMod(g, m, n)
    ensures PowMod(g, m - i, n) == 1
  {
    PowAdd(g, m - i, i);
    PowCoprime(g, i, n);
    CancelFactor(Pow(g, m - i), Pow(g, i), n);
  }

  lemma {:induction false} LeastExponent(g: nat, n: nat, d: nat, from: nat) returns (e: nat)
    requires n > 0 && 1 <= from <= d && PowMod(g, d, n) == 1
    requires forall k :: 1 <= k < from ==> PowMod(g, k, n) != 1
    ensures 1 <= e <= d && PowMod(g, e, n) == 1 && forall k :: 1 <= k < e ==> PowMod(g, k, n) != 1
    decreases d - from
  {
    hide PowMod;
    if PowMod(g, from, n) == 1 {
      e := from;
    } else {
      e := LeastExponent(g, n, d, from + 1);
    }
  }

  // Some prime factor q of phi gives g^(phi / q) = 1.
  ghost predicate FailsAt(g: nat, n: nat, phi: nat, q: nat)
    requires n > 0
  {
    Prime(q) && Divides(q, phi) && PowMod(g, phi / q, n) == 1
  }

  // The order of g divides phi; if it is smaller, some prime factor of phi exposes it.
  lemma SmallOrderIsExposed(g: nat, n: nat, phi: nat, d: nat) returns (q: nat)
    requires n >= 2 && 1 <= d < phi && PowMod(g, d, n) == 1 && PowMod(g, phi, n) == 1
    ensures FailsAt(g, n, phi, q)
  {
    hide PowMod;
    var e := LeastExponent(g, n, d, 1);
    PowersRepeat(g, n, e, phi);
    DivMod(phi, e);
    assert phi % e == 0;
    var c := phi / e;
    assert phi == c * e;
    q := PrimeFactor(c);
    Factor(q, c);
    var c' := c / q;
    Regroup(c', q, e);
    DividesMultiple(q, c, e);
    MulCancel(c' * e, q);
    PowersRepeat(g, n, e, c' * e);
    MulCancel(c', e);
    PowersRepeat(g, n, e, e);
    MulCancel(1, e);
  }

  lemma {:induction false} PowersAreDistinct(g: nat, n: nat, m: nat)
    requires n >= 2 && Coprime(g, n) && m <= Totient(n)
    requires forall q: nat :: !FailsAt(g, n, Totient(n), q)
    ensures |PowersBelow(g, n, m)| == m && PowersBelow(g, n, m) <= Units(n)
    decreases m
  {
    hide PowMod, Totient, Units;
    if m > 0 {
      PowersAreDistinct(g, n, m - 1);
      PowersMembers(g, n, m - 1);
      PowerIsUnit(g, n, m - 1);
      if PowMod(g, m - 1, n) in PowersBelow(g, n, m - 1) {
        var i :| 0 <= i < m - 1 && PowMod(g, i, n) == PowMod(g, m - 1, n);
        RepetitionMeansOne(g, n, i, m - 1);
        TotientPower(g, n);
        var q := SmallOrderIsExposed(g, n, Totient(n), m - 1 - i);
      }
    }
  }

  lemma TotientPower(g: nat, n: nat)
    requires n >= 2 && Coprime(g, n)
    ensures PowMod(g, Totient(n), n) == 1
  {
    EulerTheorem(g, n);
  }

  lemma PowerIsUnit(g: nat, n: nat, k: nat)
    requires n >= 2 && Coprime(g, n)
    ensures PowMod(g, k, n) in Units(n)
  {
    PowCoprime(g, k, n);
    CoprimeModulo(Pow(g, k), n);
    ZeroIsNoUnit(n);
  }

  lemma NoFailureGenerates(g: nat, n: nat)
    requires n >= 2 && Coprime(g, n) && forall q: nat :: !FailsAt(g, n, Totient(n), q)
    ensures Generates(g, n)
  {
    hide PowMod;
    PowersAreDistinct(g, n, Totient(n));
    PowersMembers(g, n, Totient(n));
    SameSize(PowersBelow(g, n, Totient(n)), Units(n));
  }

  lemma FailureMisses(g: nat, n: nat, q: nat)
    requires n >= 2 && Totient(n) > 0 && FailsAt(g, n, Totient(n), q)
    ensures !Generates(g, n)
  {
    hide PowMod, Totient, Units;
    var phi := Totient(n);
    Factor(q, phi);
    var e := phi / q;
    ShrinksBy(phi, q);
    if Generates(g, n) {
      PowersMembers(g, n, e);
      forall u | u in Units(n) ensures u in PowersBelow(g, n, e) {
        assert IsPower(g, n, u);
        var k: nat :| PowMod(g, k, n) == u;
        PowersRepeat(g, n, e, k);
        DivMod(k, e);
      }
      Fits(n, PowersBelow(g, n, e));
    }
  }

  lemma Fits(n: nat, s: set<nat>)
    requires Units(n) <= s
    ensures Totient(n) <= |s|
  {
    assert |s - Units(n)| == |s| - |Units(n)|;
  }

  lemma OneIsUnit(n: nat)
    requires n > 0
    ensures 1 in Units(n) && Totient(n) > 0
  {
    GcdDivides(1, n);
    DivisorAtMost(Gcd(1, n), 1);
    assert Coprime(1, n) && 1 in Units(n);
  }

  // A generator is itself coprime to n, because it reaches n - 1.
  lemma GeneratorIsCoprime(g: nat, n: nat)
    requires n >= 3 && Generates(g, n)
    ensures Coprime(g, n)
  {
    LastIsUnit(n);
    assert IsPower(g, n, n - 1);
    var k: nat :| PowMod(g, k, n) == n - 1;
    SmallMod(1, n);
    GcdDivides(g, n);
    var d := Gcd(g, n);
    PowNat(g, k - 1);
    DividesMultiple(d, g, Pow(g, k - 1));
    var w := Pow(g, k);
    DivMod(w, n);
    DividesMultiple(d, n, w / n);
    DividesSum(d, w / n * n, n - 1);
    DividesSum(d, n - 1, 1);
    DivisorAtMost(d, 1);
  }

  lemma LastIsUnit(n: nat)
    requires n >= 2
    ensures n - 1 in Units(n)
  {
    GcdDivides(n - 1, n);
    var d := Gcd(n - 1, n);
    DividesSum(d, n - 1, 1);
    DivisorAtMost(d, 1);
  }

  // For a prime modulus that means reaching all of 1..p-1.
  lemma GeneratesPrimeField(g: nat, p: nat)
    requires Prime(p)
    ensures Generates(g, p) <==> forall u: nat :: 1 <= u < p ==> IsPower(g, p, u)
  {
    TotientOfPrime(p);
  }

  // The test is exact for every modulus: true just when 1 < g < p and the powers of g reach every
  // number coprime to p (for a prime p, all of 1..p-1).
  method IsPrimitiveRoot(g: int, p: int) returns (b: bool)
    ensures b <==> 1 < g < p && Generates(g, p)
  {
    if !(1 < g < p) {
      return false;
    }
    if Gcd(g, p) != 1 {
      if Generates(g, p) {
        GeneratorIsCoprime(g, p);
      }
      return false;
    }
    OneIsUnit(p);
    var phi := EulerPhi(p);
    var factors := PrimeFactors(phi);
    var remaining := factors;
    while remaining != {}
      invariant remaining <= factors
      invariant forall q :: q in factors && q !in remaining ==> !FailsAt(g, p, phi, q)
      decreases remaining
    {
      var q :| q in remaining;
      if PowMod(g, phi / q, p) == 1 {
        FailureMisses(g, p, q);
        return false;
      }
      remaining := remaining - {q};
    }
    NoFailureGenerates(g, p);
    return true;
  }
}
