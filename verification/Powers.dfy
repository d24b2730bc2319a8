// Integer powers.
module Powers {
  import opened Arith

  function Pow(b: int, e: nat): int {
    if e == 0 then 1 else b * Pow(b, e - 1)
  }

  // Python's three-argument pow for a non-negative exponent.
  function PowMod(b: int, e: nat, n: nat): (r: nat)
    requires n > 0
    ensures r < n
  {
    Pow(b, e) % n
  }

  lemma {:induction false} PowNat(b: nat, e: nat)
    ensures Pow(b, e) >= 0
    decreases e
  {
    if e > 0 {
      PowNat(b, e - 1);
    }
  }

  lemma {:induction false} PowAdd(b: int, x: nat, y: nat)
    ensures Pow(b, x + y) == Pow(b, x) * Pow(b, y)
    decreases x
  {
    if x > 0 {
      PowAdd(b, x - 1, y);
      assert b * (Pow(b, x - 1) * Pow(b, y)) == (b * Pow(b, x - 1)) * Pow(b, y);
    }
  }

  lemma {:induction false} PowTimes(b: int, x: nat, y: nat)
    ensures x * y >= 0 && Pow(b, x * y) == Pow(Pow(b, x), y)
    decreases y
  {
    if y == 0 {
      assert x * 0 == 0;
    } else {
      PowTimes(b, x, y - 1);
      assert x * y == x + x * (y - 1);
      PowAdd(b, x, x * (y - 1));
    }
  }

  lemma {:induction false} PowOfProduct(a: int, b: int, e: nat)
    ensures Pow(a * b, e) == Pow(a, e) * Pow(b, e)
    decreases e
  {
    if e > 0 {
      PowOfProduct(a, b, e - 1);
      Interleave(a, b, Pow(a, e - 1), Pow(b, e - 1));
    }
  }

  lemma Interleave(a: int, b: int, c: int, d: int)
    ensures (a * b) * (c * d) == (a * c) * (b * d)
  {
    assert (a * b) * (c * d) == a * (b * (c * d));
    assert b * (c * d) == c * (b * d);
    assert a * (c * (b * d)) == (a * c) * (b * d);
  }

  lemma {:induction false} PowModBase(b: int, e: nat, n: nat)
    requires n > 0
    ensures Pow(b % n, e) % n == Pow(b, e) % n
    decreases e
  {
    if e > 0 {
      PowModBase(b, e - 1, n);
      ModMul(b, Pow(b, e - 1), n);
      ModTwice(b, n);
      ModMul(b % n, Pow(b % n, e - 1), n);
    }
  }

  lemma {:induction false} PowOne(e: nat)
    ensures Pow(1, e) == 1
    decreases e
  {
    if e > 0 {
      PowOne(e - 1);
    }
  }

  lemma PowZero(g: int)
    ensures Pow(g, 0) == 1
  {
  }

  lemma PowNext(g: int, e: nat)
    ensures Pow(g, e + 1) == g * Pow(g, e)
  {
  }
}
