// Elgamal.py and "Public Key Cryptography Assignment 7.py": ElGamal encryption with its two ways of
// decrypting. Random draws are parameters.
module ElGamal {
  import opened Wrappers
  import opened Arith
  import opened Primes
  import opened Euler
  import opened Powers

  function Public(p: nat, g: int, x: nat): nat
    requires p > 0
  {
    PowMod(g, x, p)
  }

  function Encrypt(m: int, p: nat, g: int, y: int, k: nat): (nat, nat)
    requires p > 0
  {
    (PowMod(g, k, p), (m * PowMod(y, k, p)) % p)
  }

  // A pair made of the message with the exponent k: c1 represents g^k and c2 represents m * y^k.
  ghost predicate IsEncryption(m: int, p: nat, g: int, y: int, k: nat, c1: int, c2: int)
    requires p > 0
  {
    IsResidueOfPower(c1, g, k, p) && IsMultipleOfPower(c2, m, y, k, p)
  }

  lemma EncryptionIs(m: int, p: nat, g: int, y: int, k: nat)
    requires p > 0
    ensures IsEncryption(m, p, g, y, k, Encrypt(m, p, g, y, k).0, Encrypt(m, p, g, y, k).1)
  {
    PowModIsPower(g, k, p);
    TimesPowModIsMultiple(m, y, k, p);
  }

  // Elgamal.py: divide by c1^x, with the inverse of Python's pow(s, -1, p); None is its ValueError.
  function DecryptByInverse(c1: nat, c2: nat, p: nat, x: nat): Option<nat>
    requires p > 0
  {
    match ModInv(PowMod(c1, x, p), p)
    case None => None
    case Some(inverse) => Some((c2 * inverse) % p)
  }

  // Assignment 7: multiply by c1^(p-1-a).
  function DecryptByExponent(c1: nat, c2: nat, p: nat, a: nat): nat
    requires p > 0 && a <= p - 1
  {
    (c2 * PowMod(c1, p - 1 - a, p)) % p
  }

  // The two parties compute the same mask: (g^x)^k = (g^k)^x.
  lemma SharedMask(g: int, x: nat, k: nat, p: nat)
    requires p > 0
    ensures PowMod(Public(p, g, x), k, p) == PowMod(PowMod(g, k, p), x, p)
  {
    PowModBase(Pow(g, x), k, p);
    PowModBase(Pow(g, k), x, p);
    PowTimes(g, x, k);
    PowTimes(g, k, x);
    assert x * k == k * x;
  }

  // Masking and then multiplying by anything inverse to the mask leaves m modulo p.
  lemma Unmask(m: int, mask: nat, inverse: nat, p: nat)
    requires p > 1 && (mask * inverse) % p == 1
    ensures ((m * mask) % p * inverse) % p == m % p
  {
    ModMulLeft(m * mask, inverse, p);
    assert (m * mask) * inverse == (mask * inverse) * m;
    ModMulLeft(mask * inverse, m, p);
  }

  lemma PrimePowerIsUnit(g: nat, k: nat, p: nat)
    requires Prime(p) && !Divides(p, g)
    ensures Coprime(PowMod(g, k, p), p) && !Divides(p, PowMod(g, k, p))
  {
    PrimeCoprime(p, g);
    PowCoprime(g, k, p);
    CoprimeModulo(Pow(g, k), p);
    PrimeCoprime(p, PowMod(g, k, p));
  }

  // Decryption by modular inverse never fails and returns the message modulo p: for every prime p,
  // every base not divisible by p, every message and all exponents.
  lemma InverseDecrypts(m: int, p: nat, g: nat, x: nat, k: nat)
    requires Prime(p) && !Divides(p, g)
    ensures var (c1, c2) := Encrypt(m, p, g, Public(p, g, x), k);
            && IsResidueOfPower(Public(p, g, x), g, x, p) && IsEncryption(m, p, g, Public(p, g, x), k, c1, c2)
            && DecryptByInverse(c1, c2, p, x) == Some(m % p)
  {
    hide ModInv, IsResidueOfPower, IsMultipleOfPower;
    PowModIsPower(g, x, p);
    EncryptionIs(m, p, g, Public(p, g, x), k);
    var (c1, c2) := Encrypt(m, p, g, Public(p, g, x), k);
    SharedMask(g, x, k, p);
    PrimePowerIsUnit(g, k, p);
    PrimePowerIsUnit(c1, x, p);
    var mask := PowMod(c1, x, p);
    ModInvIsInverse(mask, p);
    Unmask(m, mask, ModInv(mask, p).value, p);
  }

  // c1^a * c1^(p-1-a) = 1 modulo p, by Fermat.
  lemma ExponentInverse(c1: nat, p: nat, a: nat)
    requires Prime(p) && !Divides(p, c1) && a <= p - 1
    ensures (PowMod(c1, a, p) * PowMod(c1, p - 1 - a, p)) % p == 1
  {
    PowAdd(c1, a, p - 1 - a);
    Fermat(c1, p);
    ModMul(Pow(c1, a), Pow(c1, p - 1 - a), p);
  }

  // Decryption by exponent returns the message modulo p, as decryption by inverse does; it returns
  // the message itself exactly when 0 <= m < p.
  lemma ExponentDecrypts(m: int, p: nat, g: nat, a: nat, k: nat)
    requires Prime(p) && !Divides(p, g) && a <= p - 1
    ensures var (c1, c2) := Encrypt(m, p, g, Public(p, g, a), k);
            && IsResidueOfPower(Public(p, g, a), g, a, p) && IsEncryption(m, p, g, Public(p, g, a), k, c1, c2)
            && DecryptByExponent(c1, c2, p, a) == m % p
            && DecryptByInverse(c1, c2, p, a) == Some(DecryptByExponent(c1, c2, p, a))
            && (DecryptByExponent(c1, c2, p, a) == m <==> 0 <= m < p)
  {
    var (c1, c2) := Encrypt(m, p, g, Public(p, g, a), k);
    SharedMask(g, a, k, p);
    PrimePowerIsUnit(g, k, p);
    ExponentInverse(c1, p, a);
    Unmask(m, PowMod(c1, a, p), PowMod(c1, p - 1 - a, p), p);
    InverseDecrypts(m, p, g, a, k);
    if 0 <= m < p {
      SmallMod(m, p);
    }
  }

  // When multiplying by c1^(p-1-b) gives m: exactly when c2 is m times c1^b.
  lemma DecryptsToExactly(c1: nat, c2: nat, p: nat, b: nat, m: int)
    requires Prime(p) && !Divides(p, c1) && b <= p - 1
    ensures DecryptByExponent(c1, c2, p, b) == m % p <==> c2 % p == (m * PowMod(c1, b, p)) % p
  {
    var mask, inverse := PowMod(c1, b, p), PowMod(c1, p - 1 - b, p);
    ExponentInverse(c1, p, b);
    if c2 % p == (m * mask) % p {
      Unmask(m, mask, inverse, p);
      ModMulLeft(c2, inverse, p);
    }
    if (c2 * inverse) % p == m % p {
      assert mask * inverse == inverse * mask;
      Unmask(c2, inverse, mask, p);
      ModMulLeft(m, mask, p);
    }
  }

  lemma ProductWithMultiple(c2: nat, c1: nat, p: nat, e: nat)
    requires Prime(p) && Divides(p, c1) && e > 0
    ensures (c2 * PowMod(c1, e, p)) % p == 0
  {
    DividesMultiple(p, c1, Pow(c1, e - 1));
    assert PowMod(c1, e, p) == 0;
  }

  // For any ciphertext and any key at all: decrypting gives m exactly when m is in range and the
  // ciphertext is one of m for that exponent. A c1 divisible by p decrypts to 0.
  lemma DecryptsToMessageExactly(c1: nat, c2: nat, p: nat, b: nat, m: int)
    requires Prime(p) && b < p - 1
    ensures DecryptByExponent(c1, c2, p, b) == m <==>
            && 0 <= m < p
            && if Divides(p, c1) then m == 0 else c2 % p == (m * PowMod(c1, b, p)) % p
  {
    if 0 <= m < p {
      SmallMod(m, p);
    }
    if Divides(p, c1) {
      ProductWithMultiple(c2, c1, p, p - 1 - b);
    } else {
      DecryptsToExactly(c1, c2, p, b, m);
    }
  }

  // A ciphertext made with exponent a, decrypted with exponent b under the same p: the message
  // returns exactly when it is 0 or the two exponents give c1 the same power.
  lemma OtherKeyDecryptsExactly(m: int, p: nat, g: nat, a: nat, b: nat, k: nat)
    requires Prime(p) && !Divides(p, g) && a <= p - 1 && b <= p - 1
    ensures var (c1, c2) := Encrypt(m, p, g, Public(p, g, a), k);
            && !Divides(p, c1)
            && (DecryptByExponent(c1, c2, p, b) == m % p <==> m % p == 0 || PowMod(c1, a, p) == PowMod(c1, b, p))
  {
    var (c1, c2) := Encrypt(m, p, g, Public(p, g, a), k);
    SharedMask(g, a, k, p);
    PrimePowerIsUnit(g, k, p);
    DecryptsToExactly(c1, c2, p, b, m);
    var x, y := PowMod(c1, a, p), PowMod(c1, b, p);
    ModTwice(m * x, p);
    assert DecryptByExponent(c1, c2, p, b) == m % p <==> (m * x) % p == (m * y) % p;
    if m % p == 0 {
      ModMulLeft(m, x, p);
      ModMulLeft(m, y, p);
    } else if (m * x) % p == (m * y) % p {
      EqualFactors(m, x, y, p);
    }
  }

  lemma EqualFactors(m: int, x: nat, y: nat, p: nat)
    requires Prime(p) && m % p != 0 && x < p && y < p && (m * x) % p == (m * y) % p
    ensures x == y
  {
    var n := m % p;
    ModMulLeft(m, x, p);
    ModMulLeft(m, y, p);
    SmallMod(n, p);
    PrimeCoprime(p, n);
    TimesInjective(n, x, y, p);
    SmallMod(x, p);
    SmallMod(y, p);
  }

  // ----- Assignment 7: the parameter dictionary behind the window -----

  // An absent key is None; reading one is the KeyError of the original.
  datatype Params = Params(p: nat, g: nat, a: nat, e: nat)
  datatype Cipher = Cipher(c1: nat, c2: nat, m: int)

  class ElgParams {
    var key: Option<Params>
    var cipher: Option<Cipher>
    // the key under which the stored ciphertext was made
    ghost var madeWith: Option<Params>

    ghost predicate Valid()
      reads this
    {
      && (key.Some? ==> WellMade(key.value))
      && (cipher.Some? <==> madeWith.Some?)
      && (cipher.Some? ==> key.Some?)
      && (cipher.Some? ==>
            && WellMade(madeWith.value)
            && exists k: nat :: (cipher.value.c1, cipher.value.c2)
                 == Encrypt(cipher.value.m, madeWith.value.p, madeWith.value.g, madeWith.value.e, k))
    }

    constructor ()
      ensures Valid() && key == None && cipher == None
    {
      key, cipher, madeWith := None, None, None;
    }

    // p is a prime of the requested size and a the private exponent the generator draws. The stored
    // ciphertext is not dropped.
    method GenerateElgParams(p: nat, a: nat)
      requires Valid() && Prime(p) && 2 <= a < p - 2
      modifies this
      ensures Valid() && key == Some(Params(p, 2, a, PowMod(2, a, p))) && IsResidueOfPower(key.value.e, 2, a, p)
      ensures cipher == old(cipher) && madeWith == old(madeWith)
    {
      var g := 2;
      var e := PowMod(g, a, p);
      key := Some(Params(p, g, a, e));
      SmallMod(2, p);
      PowModIsPower(g, a, p);
    }

    // k is the exponent the generator draws. The answer tells whether the key was there.
    method EncryptElg(m: int, k: nat) returns (ok: bool)
      requires Valid() && (key.Some? ==> 2 <= k < key.value.p - 2)
      modifies this
      ensures Valid() && key == old(key) && (ok <==> key.Some?)
      ensures ok ==> cipher.Some? && cipher.value.m == m && madeWith == key
      ensures ok ==> var ps := key.value; IsEncryption(m, ps.p, ps.g, ps.e, k, cipher.value.c1, cipher.value.c2)
      ensures !ok ==> cipher == old(cipher) && madeWith == old(madeWith)
    {
      if key.None? {
        return false;
      }
      var ps := key.value;
      var c1 := PowMod(ps.g, k, ps.p);
      var c2 := (m * PowMod(ps.e, k, ps.p)) % ps.p;
      cipher := Some(Cipher(c1, c2, m));
      madeWith := key;
      assert (c1, c2) == Encrypt(m, ps.p, ps.g, ps.e, k);
      EncryptionIs(m, ps.p, ps.g, ps.e, k);
      return true;
    }

    // None is the request to encrypt first. With the key that made the ciphertext the answer is the
    // message modulo p; with another key of the same p it is the message exactly when that is 0 or
    // both exponents give c1 the same power; with any key at all, exactly when the stored pair is a
    // ciphertext of the message for the current exponent.
    method DecryptElg() returns (m: Option<nat>)
      requires Valid()
      ensures m.None? <==> cipher.None?
      ensures m.Some? ==> m.value == DecryptByExponent(cipher.value.c1, cipher.value.c2, key.value.p, key.value.a)
      ensures m.Some? && madeWith == key ==> m.value == cipher.value.m % key.value.p
      ensures m.Some? && madeWith == key ==> (m.value == cipher.value.m <==> 0 <= cipher.value.m < key.value.p)
      ensures m.Some? && madeWith.value.p == key.value.p ==>
        var Params(p, _, a, _), Cipher(c1, _, message) := key.value, cipher.value;
        (m.value == message <==>
         0 <= message < p && (message == 0 || PowMod(c1, madeWith.value.a, p) == PowMod(c1, a, p)))
      ensures m.Some? ==>
        var Params(p, _, a, _), Cipher(c1, c2, message) := key.value, cipher.value;
        (m.value == message <==>
         0 <= message < p && if Divides(p, c1) then message == 0 else c2 % p == (message * PowMod(c1, a, p)) % p)
    {
      if cipher.None? {
        return None;
      }
      var p, a := key.value.p, key.value.a;
      var c1, c2 := cipher.value.c1, cipher.value.c2;
      StaleOrNot();
      return Some((c2 * PowMod(c1, p - 1 - a, p)) % p);
    }

    // What decrypting the stored ciphertext with the stored key gives.
    lemma StaleOrNot()
      requires Valid() && cipher.Some?
      ensures
        var Params(p, _, a, _), Cipher(c1, c2, m) := key.value, cipher.value;
        var back := DecryptByExponent(c1, c2, p, a);
        && (madeWith == key ==> back == m % p && (back == m <==> 0 <= m < p))
        && (madeWith.value.p == p ==>
              (back == m <==> 0 <= m < p && (m == 0 || PowMod(c1, madeWith.value.a, p) == PowMod(c1, a, p))))
        && (back == m <==> 0 <= m < p && if Divides(p, c1) then m == 0 else c2 % p == (m * PowMod(c1, a, p)) % p)
    {
      hide DecryptByExponent, PowMod, Divides, Prime, Encrypt;
      var p, a := key.value.p, key.value.a;
      var c1, c2, m := cipher.value.c1, cipher.value.c2, cipher.value.m;
      var made := madeWith.value;
      var k: nat :| (c1, c2) == Encrypt(m, made.p, made.g, made.e, k);
      DecryptsToMessageExactly(c1, c2, p, a, m);
      if made.p == p {
        ExponentDecrypts(m, p, made.g, made.a, k);
        OtherKeyDecryptsExactly(m, p, made.g, made.a, a, k);
        if 0 <= m < p {
          SmallMod(m, p);
        }
      }
    }
  }

  ghost predicate WellMade(ps: Params) {
    && Prime(ps.p) && 2 <= ps.a < ps.p - 2 && ps.g == 2 && !Divides(ps.p, ps.g)
    && ps.e == Public(ps.p, ps.g, ps.a)
  }

  // Generating new parameters keeps the old ciphertext, and decrypting it with the new key need not
  // give the message: 3 encrypted with p = 7, a = 2, k = 2 decrypts to 2 under p = 7, a = 3.
  lemma StaleCiphertext()
    ensures var (c1, c2) := Encrypt(3, 7, 2, Public(7, 2, 2), 2);
            DecryptByExponent(c1, c2, 7, 2) == 3 && DecryptByExponent(c1, c2, 7, 3) != 3
  {
    assert Pow(2, 1) == 2 && Pow(2, 2) == 4 && Pow(4, 1) == 4 && Pow(4, 2) == 16 && Pow(4, 3) == 64 && Pow(4, 4) == 256;
    hide Pow;
    assert Encrypt(3, 7, 2, Public(7, 2, 2), 2) == (4, 6);
  }
}
