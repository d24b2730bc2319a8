// RSA.py: key generation and textbook RSA on code points. The random primes are parameters.
module Rsa {
  import opened Wrappers
  import opened Arith
  import opened Primes
  import opened Factoring
  import opened Euler
  import opened Powers
  import opened PrimitiveRoot

  datatype Keys = Keys(e: nat, d: nat, n: nat)

  // ----- 65537 is prime -----

  // A prime divisor of 2^16 + 1 is 1 modulo 32, because 2 has order 32 modulo it.
  lemma DivisorOfF4(q: nat)
    requires Prime(q) && q > 2 && Divides(q, 65537)
    ensures (q - 1) % 32 == 0
  {
    hide PowMod, Prime;
    PowersOfTwo(q);
    var e := LeastExponent(2, q, 32, 1);
    PowersRepeat(2, q, e, 32);
    PowersRepeat(2, q, e, 16);
    DivMod(32, e);
    DivMod(16, e);
    assert 32 % e == 0;
    OrderIs32(e);
    SmallMod(2, q);
    Fermat(2, q);
    PowModIsPow(2, q - 1, q);
    PowersRepeat(2, q, 32, q - 1);
  }

  lemma PowModIsPow(b: int, e: nat, n: nat)
    requires n > 0
    ensures PowMod(b, e, n) == Pow(b, e) % n
  {
  }

  lemma OrderIs32(e: nat)
    requires 1 <= e <= 32 && 32 % e == 0 && 16 % e != 0
    ensures e == 32
  {
  }

  lemma PowersOfTwo(q: nat)
    requires q > 2 && Divides(q, 65537)
    ensures PowMod(2, 32, q) == 1 && PowMod(2, 16, q) == q - 1 != 1 && PowMod(2, 0, q) == 1
  {
    PowAdd(2, 8, 8);
    PowAdd(2, 16, 16);
    assert Pow(2, 8) == 256 by { PowAdd(2, 4, 4); }
    assert Pow(2, 16) == 65536;
    SmallMod(1, q);
    Factor(q, 65537);
    assert 65536 == (65537 / q - 1) * q + (q - 1);
    DivUnique(65536, q, 65537 / q - 1, q - 1);
    ModMul(65536, 65536, q);
    assert (q - 1) * (q - 1) == (q - 2) * q + 1;
    DivUnique((q - 1) * (q - 1), q, q - 2, 1);
  }

  lemma F4IsPrime()
    ensures Prime(65537)
  {
    forall d: nat | 2 <= d < 257 ensures !Divides(d, 65537) {
      if Divides(d, 65537) {
        var q := PrimeFactor(d);
        DivisorAtMost(q, d);
        DividesTrans(q, d, 65537);
        if q > 2 {
          DivisorOfF4(q);
          SmallCandidates(q);
        }
      }
    }
    NoDivisorToRoot(65537, 257);
  }

  lemma SmallCandidates(q: nat)
    requires 2 < q < 257 && (q - 1) % 32 == 0
    ensures !Divides(q, 65537)
  {
    var t := (q - 1) / 32;
    assert q == 32 * t + 1 && 1 <= t <= 7;
    assert t == 1 || t == 2 || t == 3 || t == 4 || t == 5 || t == 6 || t == 7;
  }

  // ----- key generation -----

  lemma PhiBounds(p: nat, q: nat)
    requires Prime(p) && Prime(q) && p != q
    ensures (p - 1) * (q - 1) >= 2
    ensures p > 2 && q > 2 ==> (p - 1) * (q - 1) % 2 == 0
    ensures p <= 300 && q <= 300 ==> (p - 1) * (q - 1) < 2 * 65537
  {
    if p == 2 {
      assert (p - 1) * (q - 1) == q - 1;
    } else if q == 2 {
      assert (p - 1) * (q - 1) == p - 1;
    } else {
      MulMono(2, 2, p - 1, q - 1);
      PrimeIsOdd(p);
      DividesMultiple(2, p - 1, q - 1);
    }
    if p <= 300 && q <= 300 {
      MulMono(p - 1, q - 1, 299, 299);
    }
  }

  lemma PrimeIsOdd(p: nat)
    requires Prime(p) && p > 2
    ensures Divides(2, p - 1) && p % 2 == 1
  {
    assert !Divides(2, p);
  }

  // Some odd prime below phi does not divide it: a prime factor of phi - 1.
  lemma FallbackExists(phi: nat) returns (c: nat)
    requires phi > 2 && phi % 2 == 0
    ensures 3 <= c < phi && c % 2 == 1 && Prime(c) && !Divides(c, phi)
  {
    c := PrimeFactor(phi - 1);
    DivisorAtMost(c, phi - 1);
    DividesSum(c, phi - 1, 1);
    SmallMod(1, c);
    assert (phi - 1) % 2 == 1;
    if c > 2 {
      PrimeIsOdd(c);
    }
  }

  // No odd prime below c could serve: all divide phi.
  ghost predicate AllDivide(phi: nat, c: nat) {
    forall q: nat :: 3 <= q < c && Prime(q) ==> Divides(q, phi)
  }

  lemma NoneBelowThree(phi: nat)
    ensures AllDivide(phi, 3)
  {
  }

  lemma NextCandidate(phi: nat, c: nat)
    requires AllDivide(phi, c) && c >= 3 && c % 2 == 1 && (Prime(c) ==> Divides(c, phi))
    ensures AllDivide(phi, c + 2)
  {
    assert Divides(2, c + 1);
    hide Divides;
  }

  // The public exponent: 65537, or if that divides phi the first odd prime that does not.
  method ChooseExponent(phi: nat) returns (e: nat)
    requires phi >= 2 && (phi % 65537 == 0 ==> phi % 2 == 0)
    ensures Prime(e) && !Divides(e, phi)
    ensures phi % 65537 != 0 ==> e == 65537
    ensures phi % 65537 == 0 ==> 3 <= e < phi && AllDivide(phi, e)
  {
    hide Prime, AllDivide;
    e := 65537;
    F4IsPrime();
    if phi % e == 0 {
      DivisorAtMost(e, phi);
      ghost var last := FallbackExists(phi);
      var cand := 3;
      NoneBelowThree(phi);
      while cand < phi
        invariant cand % 2 == 1 && 3 <= cand <= last
        invariant e == 65537
        invariant AllDivide(phi, cand)
      {
        var prime := IsPrime(cand);
        if prime && phi % cand != 0 {
          e := cand;
          return;
        }
        NextCandidate(phi, cand);
        cand := cand + 2;
      }
    }
  }

  // None would be the ValueError of the missing inverse; it never comes. Primes in the range the
  // original draws from always get the exponent 65537.
  method GenerateKeys(p: nat, q: nat) returns (keys: Option<Keys>)
    requires Prime(p) && Prime(q) && p != q
    ensures keys.Some? && keys.value.n == p * q
    ensures keys.value.d < (p - 1) * (q - 1) && (keys.value.e * keys.value.d) % ((p - 1) * (q - 1)) == 1
    ensures 100 <= p <= 300 && 100 <= q <= 300 ==> keys.value.e == 65537
  {
    hide ModInv, Coprime, Prime;
    var n, phi := p * q, (p - 1) * (q - 1);
    PhiBounds(p, q);
    PhiAndF4(p, q);
    var e := ChooseExponent(phi);
    PrimeCoprime(e, phi);
    CoprimeSwap(phi, e);
    ModInvIsInverse(e, phi);
    var d := ModInv(e, phi);
    if d.None? {
      return None;
    }
    return Some(Keys(e, d.value, n));
  }

  lemma PhiAndF4(p: nat, q: nat)
    requires Prime(p) && Prime(q) && p != q
    ensures (p - 1) * (q - 1) % 65537 == 0 ==> (p - 1) * (q - 1) % 2 == 0
    ensures 100 <= p <= 300 && 100 <= q <= 300 ==> (p - 1) * (q - 1) % 65537 != 0
  {
    PhiBounds(p, q);
    var phi := (p - 1) * (q - 1);
    if phi % 65537 == 0 && (p == 2 || q == 2) {
      // p - 1 or q - 1 is 1 and the other is one less than an odd prime
      var r := if p == 2 then q else p;
      assert phi == r - 1;
      PrimeIsOdd(r);
    }
  }

  lemma CoprimeSwap(a: nat, b: nat)
    requires a > 0 && b > 0
    ensures Coprime(a, b) <==> Coprime(b, a)
  {
    CoprimeMeaning(a, b);
    CoprimeMeaning(b, a);
  }

  // ----- the round trip -----

  // Encryption and decryption of each code point is one modular power.
  function Apply(text: seq<nat>, exponent: nat, n: nat): (r: seq<nat>)
    requires n > 0
    ensures |r| == |text|
  {
    seq(|text|, i requires 0 <= i < |text| => PowMod(text[i], exponent, n))
  }

  // Sections 5.1.1 and 5.1.2 of RFC 8017: each output represents the power of the input modulo n.
  ghost predicate ArePowers(text: seq<nat>, exponent: nat, n: nat, out: seq<nat>)
    requires n > 0
  {
    |out| == |text| && forall i :: 0 <= i < |text| ==> IsResidueOfPower(out[i], text[i], exponent, n)
  }

  lemma AppliedArePowers(text: seq<nat>, exponent: nat, n: nat)
    requires n > 0
    ensures ArePowers(text, exponent, n, Apply(text, exponent, n))
  {
    hide IsResidueOfPower;
    forall i | 0 <= i < |text| ensures IsResidueOfPower(Apply(text, exponent, n)[i], text[i], exponent, n) {
      PowModIsPower(text[i], exponent, n);
    }
  }

  // m^x is m modulo a prime p whenever x is 1 modulo p - 1.
  lemma PowerReturns(m: nat, p: nat, x: nat, t: nat)
    requires Prime(p) && x == 1 + (p - 1) * t
    ensures Pow(m, x) % p == m % p
  {
    PowAdd(m, 1, (p - 1) * t);
    if Divides(p, m) {
      DividesMultiple(p, m, Pow(m, (p - 1) * t));
    } else {
      Fermat(m, p);
      PowTimes(m, p - 1, t);
      PowModBase(Pow(m, p - 1), t, p);
      PowOne(t);
      SmallMod(1, p);
      ModMul(m, Pow(m, (p - 1) * t), p);
      ModTwice(m, p);
    }
  }

  // Two distinct primes that divide a number divide it jointly.
  lemma JointlyDivides(p: nat, q: nat, x: int)
    requires Prime(p) && Prime(q) && p != q && Divides(p, x) && Divides(q, x)
    ensures p * q > 0 && Divides(p * q, x)
  {
    MulAtLeast(p, q);
    Factor(p, x);
    if Divides(q, p) {
      DivisorAtMost(q, p);
    }
    PrimeCoprime(q, p);
    assert x == p * (x / p);
    CoprimeCancels(q, p, x / p);
    Factor(q, x / p);
    var k := x / p / q;
    Regroup3(k, p, q);
    assert x == k * (p * q) by {
      assert x == p * (k * q);
    }
    MulCancel(k, p * q);
  }

  lemma ExponentSplits(e: nat, d: nat, p: nat, q: nat) returns (t: nat)
    requires p >= 2 && q >= 2 && (p - 1) * (q - 1) >= 2 && (e * d) % ((p - 1) * (q - 1)) == 1
    ensures (q - 1) * t >= 0 && e * d == 1 + (p - 1) * ((q - 1) * t)
    ensures (p - 1) * t >= 0 && e * d == 1 + (q - 1) * ((p - 1) * t)
  {
    var phi := (p - 1) * (q - 1);
    DivMod(e * d, phi);
    MulMono(0, 0, e, d);
    if e * d / phi < 0 {
      NonzeroMultiple(e * d / phi, phi);
    }
    t := e * d / phi;
    Regroup3(t, p - 1, q - 1);
    assert (p - 1) * ((q - 1) * t) == t * ((p - 1) * (q - 1));
    assert (q - 1) * ((p - 1) * t) == t * ((p - 1) * (q - 1));
  }

  lemma CodePointReturns(m: nat, p: nat, q: nat, e: nat, d: nat)
    requires Prime(p) && Prime(q) && p != q
    requires (p - 1) * (q - 1) >= 2 && (e * d) % ((p - 1) * (q - 1)) == 1
    ensures p * q > 0 && PowMod(PowMod(m, e, p * q), d, p * q) == m % (p * q)
  {
    hide Prime, Pow;
    MulAtLeast(p, q);
    var n := p * q;
    var t := ExponentSplits(e, d, p, q);
    PowerReturns(m, p, e * d, (q - 1) * t);
    PowerReturns(m, q, e * d, (p - 1) * t);
    SameRemainder(Pow(m, e * d), m, p);
    SameRemainder(Pow(m, e * d), m, q);
    JointlyDivides(p, q, Pow(m, e * d) - m);
    SameRemainder(Pow(m, e * d), m, n);
    PowTimes(m, e, d);
    PowModBase(Pow(m, e), d, n);
  }

  // Decrypting an encryption gives every code point modulo n; the text itself comes back exactly
  // when all its code points are below n.
  lemma RoundTrip(text: seq<nat>, p: nat, q: nat, e: nat, d: nat)
    requires Prime(p) && Prime(q) && p != q && p * q > 0
    requires (p - 1) * (q - 1) >= 2 && (e * d) % ((p - 1) * (q - 1)) == 1
    ensures ArePowers(text, e, p * q, Apply(text, e, p * q))
    ensures ArePowers(Apply(text, e, p * q), d, p * q, Apply(Apply(text, e, p * q), d, p * q))
    ensures var back := Apply(Apply(text, e, p * q), d, p * q);
            && (forall i :: 0 <= i < |text| ==> back[i] == text[i] % (p * q))
            && (back == text <==> forall i :: 0 <= i < |text| ==> text[i] < p * q)
  {
    hide PowMod, Prime, IsResidueOfPower;
    var n := p * q;
    AppliedArePowers(text, e, n);
    AppliedArePowers(Apply(text, e, n), d, n);
    var back := Apply(Apply(text, e, n), d, n);
    forall i | 0 <= i < |text| ensures back[i] == text[i] % n && (back[i] == text[i] <==> text[i] < n) {
      CodePointReturns(text[i], p, q, e, d);
      DivMod(text[i], n);
      if text[i] < n {
        SmallMod(text[i], n);
      }
    }
  }
}
