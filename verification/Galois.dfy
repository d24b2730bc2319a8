// AESStandard.py: arithmetic in GF(2^8) (FIPS 197, section 4.2), bytes as 8-bit vectors.
module Galois {
  function Xor(a: bv8, b: bv8): bv8 {
    a ^ b
  }

  function Xtime(x: bv8): bv8 {
    if x & 0x80 != 0 then (x << 1) ^ 0x1B else x << 1
  }

  // a * x^i
  function Raised(a: bv8, i: nat): bv8 {
    if i == 0 then a else Xtime(Raised(a, i - 1))
  }

  function Half(b: bv8): bv8 {
    b >> 1
  }

  // b without its lowest i bits
  function Shifted(b: bv8, i: nat): bv8 {
    if i == 0 then b else Half(Shifted(b, i - 1))
  }

  // a if the lowest bit of b is set
  function Choose(b: bv8, a: bv8): bv8 {
    if b & 1 != 0 then a else 0
  }

  // The sum of a * x^i over the set bits i < n of b.
  function Sum(a: bv8, b: bv8, n: nat): bv8 {
    if n == 0 then 0 else Xor(Sum(a, b, n - 1), Choose(Shifted(b, n - 1), Raised(a, n - 1)))
  }

  function Mul(a: bv8, b: bv8): bv8 {
    Sum(a, b, 8)
  }

  method GfMult(a0: bv8, b0: bv8) returns (p: bv8)
    ensures p == Mul(a0, b0)
  {
    hide Xor, Xtime;
    var a, b := a0, b0;
    p := 0;
    for i := 0 to 8
      invariant a == Raised(a0, i) && b == Shifted(b0, i) && p == Sum(a0, b0, i)
    {
      var bit, hi := b & 1, a & 0x80;
      XorChoice(p, a, b);
      DoublingStep(a);
      if bit != 0 {
        p := p ^ a;
      }
      a := a << 1;
      if hi != 0 {
        a := a ^ 0x1B;
      }
      b := b >> 1;
    }
  }

  lemma XorChoice(p: bv8, a: bv8, b: bv8)
    ensures Xor(p, Choose(b, a)) == if b & 1 != 0 then p ^ a else p
  {
  }

  lemma DoublingStep(a: bv8)
    ensures Xtime(a) == if a & 0x80 != 0 then (a << 1) ^ 0x1B else a << 1
  {
  }

  lemma XorAssoc(p: bv8, q: bv8, r: bv8)
    ensures Xor(Xor(p, q), r) == Xor(p, Xor(q, r))
  {
  }

  lemma XorComm(p: bv8, q: bv8)
    ensures Xor(p, q) == Xor(q, p)
  {
  }

  lemma XorZero(p: bv8)
    ensures Xor(p, 0) == p && Xor(0, p) == p
  {
  }

  lemma XorCancel(p: bv8, k: bv8)
    ensures Xor(Xor(p, k), k) == p
  {
  }

  lemma XorSwap(p: bv8, q: bv8, r: bv8, s: bv8)
    ensures Xor(Xor(p, q), Xor(r, s)) == Xor(Xor(p, r), Xor(q, s))
  {
    hide Xor;
    XorAssoc(p, q, Xor(r, s));
    XorAssoc(q, r, s);
    XorComm(q, r);
    XorAssoc(r, q, s);
    XorAssoc(p, r, Xor(q, s));
  }

  // ----- the product is the field product: bilinear, with 1 as unit and x acting as Xtime -----

  lemma XtimeXor(a: bv8, b: bv8)
    ensures Xtime(Xor(a, b)) == Xor(Xtime(a), Xtime(b))
  {
    if a & 0x80 == 0 { if b & 0x80 == 0 {} else {} } else { if b & 0x80 == 0 {} else {} }
  }

  lemma {:induction false} RaisedXor(a: bv8, c: bv8, i: nat)
    ensures Raised(Xor(a, c), i) == Xor(Raised(a, i), Raised(c, i))
    decreases i
  {
    hide Xor, Xtime;
    if i > 0 {
      RaisedXor(a, c, i - 1);
      XtimeXor(Raised(a, i - 1), Raised(c, i - 1));
    }
  }

  lemma HalfXor(b: bv8, d: bv8)
    ensures Half(Xor(b, d)) == Xor(Half(b), Half(d))
  {
  }

  lemma {:induction false} ShiftedXor(b: bv8, d: bv8, i: nat)
    ensures Shifted(Xor(b, d), i) == Xor(Shifted(b, i), Shifted(d, i))
    decreases i
  {
    hide Xor, Half;
    if i > 0 {
      ShiftedXor(b, d, i - 1);
      HalfXor(Shifted(b, i - 1), Shifted(d, i - 1));
    }
  }

  lemma ChooseXor(b: bv8, a: bv8, c: bv8)
    ensures Choose(b, Xor(a, c)) == Xor(Choose(b, a), Choose(b, c))
  {
  }

  lemma ChooseXorRight(b: bv8, d: bv8, a: bv8)
    ensures Choose(Xor(b, d), a) == Xor(Choose(b, a), Choose(d, a))
  {
    assert (b ^ d) & 1 == (b & 1) ^ (d & 1);
  }

  lemma {:induction false} SumXor(a: bv8, c: bv8, b: bv8, n: nat)
    ensures Sum(Xor(a, c), b, n) == Xor(Sum(a, b, n), Sum(c, b, n))
    decreases n
  {
    hide Xor, Choose;
    if n == 0 {
      XorZero(0);
    } else {
      SumXor(a, c, b, n - 1);
      RaisedXor(a, c, n - 1);
      ChooseXor(Shifted(b, n - 1), Raised(a, n - 1), Raised(c, n - 1));
      XorSwap(Sum(a, b, n - 1), Sum(c, b, n - 1),
              Choose(Shifted(b, n - 1), Raised(a, n - 1)), Choose(Shifted(b, n - 1), Raised(c, n - 1)));
    }
  }

  lemma {:induction false} SumXorRight(a: bv8, b: bv8, d: bv8, n: nat)
    ensures Sum(a, Xor(b, d), n) == Xor(Sum(a, b, n), Sum(a, d, n))
    decreases n
  {
    hide Xor, Choose;
    if n == 0 {
      XorZero(0);
    } else {
      SumXorRight(a, b, d, n - 1);
      ShiftedXor(b, d, n - 1);
      ChooseXorRight(Shifted(b, n - 1), Shifted(d, n - 1), Raised(a, n - 1));
      XorSwap(Sum(a, b, n - 1), Sum(a, d, n - 1),
              Choose(Shifted(b, n - 1), Raised(a, n - 1)), Choose(Shifted(d, n - 1), Raised(a, n - 1)));
    }
  }

  lemma MulXor(a: bv8, c: bv8, b: bv8)
    ensures Mul(Xor(a, c), b) == Xor(Mul(a, b), Mul(c, b))
  {
    SumXor(a, c, b, 8);
  }

  lemma MulXorRight(a: bv8, b: bv8, d: bv8)
    ensures Mul(a, Xor(b, d)) == Xor(Mul(a, b), Mul(a, d))
  {
    SumXorRight(a, b, d, 8);
  }

  lemma {:induction false} RaisedXtime(a: bv8, i: nat)
    ensures Raised(Xtime(a), i) == Xtime(Raised(a, i))
    decreases i
  {
    hide Xtime;
    if i > 0 {
      RaisedXtime(a, i - 1);
    }
  }

  lemma ChooseXtime(b: bv8, a: bv8)
    ensures Choose(b, Xtime(a)) == Xtime(Choose(b, a))
  {
  }

  lemma {:induction false} SumXtime(a: bv8, b: bv8, n: nat)
    ensures Sum(Xtime(a), b, n) == Xtime(Sum(a, b, n))
    decreases n
  {
    if n == 0 {
    } else {
      hide Xor, Choose, Xtime;
      SumXtime(a, b, n - 1);
      RaisedXtime(a, n - 1);
      ChooseXtime(Shifted(b, n - 1), Raised(a, n - 1));
      XtimeXor(Sum(a, b, n - 1), Choose(Shifted(b, n - 1), Raised(a, n - 1)));
    }
  }

  // Once the shifted factor is zero the remaining terms add nothing.
  lemma {:induction false} SumStops(a: bv8, b: bv8, k: nat, n: nat)
    requires k <= n && Shifted(b, k) == 0
    ensures Shifted(b, n) == 0 && Sum(a, b, n) == Sum(a, b, k)
    decreases n
  {
    hide Xor, Xtime;
    if k < n {
      SumStops(a, b, k, n - 1);
      assert Choose(0, Raised(a, n - 1)) == 0;
      XorZero(Sum(a, b, n - 1));
    }
  }

  // The four multipliers of the inverse mixing, in terms of Xtime.
  lemma MulByConstants(a: bv8)
    ensures var a2 := Xtime(a); var a4 := Xtime(a2); var a8 := Xtime(a4);
            && Mul(a, 1) == a && Mul(a, 2) == a2
            && Mul(a, 9) == Xor(a, a8)
            && Mul(a, 11) == Xor(Xor(a, a2), a8)
            && Mul(a, 13) == Xor(Xor(a, a4), a8)
            && Mul(a, 14) == Xor(Xor(a2, a4), a8)
  {
    LowNibble(a, 1);
    LowNibble(a, 2);
    LowNibble(a, 9);
    LowNibble(a, 11);
    LowNibble(a, 13);
    LowNibble(a, 14);
  }

  lemma LowNibble(a: bv8, b: bv8)
    requires b < 16
    ensures Mul(a, b) == Xor(Xor(Xor(Choose(b, a), Choose(b >> 1, Xtime(a))), Choose(b >> 2, Xtime(Xtime(a)))),
                             Choose(b >> 3, Xtime(Xtime(Xtime(a)))))
  {
    ShiftsOf(b);
    SumStops(a, b, 4, 8);
    hide Xor, Choose, Xtime, Half;
    XorZero(Choose(b, a));
    assert Raised(a, 1) == Xtime(a);
    assert Raised(a, 2) == Xtime(Raised(a, 1));
    assert Raised(a, 3) == Xtime(Raised(a, 2));
    assert Sum(a, b, 1) == Xor(0, Choose(b, a));
    assert Sum(a, b, 3) == Xor(Xor(Sum(a, b, 1), Choose(b >> 1, Raised(a, 1))), Choose(b >> 2, Raised(a, 2)));
  }

  lemma ShiftsOf(b: bv8)
    ensures Shifted(b, 0) == b && Shifted(b, 1) == b >> 1 && Shifted(b, 2) == b >> 2 && Shifted(b, 3) == b >> 3
    ensures b < 16 ==> Shifted(b, 4) == 0
  {
    assert Shifted(b, 2) == Half(Shifted(b, 1));
    assert Shifted(b, 4) == Half(Shifted(b, 3));
  }

  lemma PowersOfX()
    ensures Raised(1, 1) == 2 && Raised(1, 2) == 4 && Raised(1, 3) == 8 && Raised(1, 4) == 16
    ensures Raised(1, 5) == 32 && Raised(1, 6) == 64 && Raised(1, 7) == 128
  {
    assert Raised(1, 2) == 4 by { assert Raised(1, 1) == 2; }
    assert Raised(1, 4) == 16 by { assert Raised(1, 3) == 8; }
    assert Raised(1, 6) == 64 by { assert Raised(1, 5) == 32; }
  }

  lemma HighShifts(b: bv8)
    ensures Shifted(b, 4) == b >> 4 && Shifted(b, 5) == b >> 5 && Shifted(b, 6) == b >> 6 && Shifted(b, 7) == b >> 7
  {
    ShiftsOf(b);
    assert Shifted(b, 4) == Half(Shifted(b, 3));
    assert Shifted(b, 6) == Half(Shifted(b, 5));
  }

  lemma AddBit(b: bv8)
    ensures Xor(0, Choose(b, 1)) == b & 0x01
    ensures Xor(b & 0x01, Choose(b >> 1, 2)) == b & 0x03 && Xor(b & 0x03, Choose(b >> 2, 4)) == b & 0x07
    ensures Xor(b & 0x07, Choose(b >> 3, 8)) == b & 0x0F && Xor(b & 0x0F, Choose(b >> 4, 16)) == b & 0x1F
    ensures Xor(b & 0x1F, Choose(b >> 5, 32)) == b & 0x3F && Xor(b & 0x3F, Choose(b >> 6, 64)) == b & 0x7F
    ensures Xor(b & 0x7F, Choose(b >> 7, 128)) == b
  {
  }

  // With MulXor and SumXtime this pins the product down: it is linear in its left factor, turns a
  // left factor x into Xtime, and has 1 as its left unit.
  lemma LeftUnit(b: bv8)
    ensures Mul(1, b) == b
  {
    PowersOfX();
    ShiftsOf(b);
    HighShifts(b);
    AddBit(b);
    hide Xor, Choose, Xtime, Half;
    assert Sum(1, b, 2) == b & 0x03 by { assert Sum(1, b, 1) == b & 0x01; }
    assert Sum(1, b, 4) == b & 0x0F by { assert Sum(1, b, 3) == b & 0x07; }
    assert Sum(1, b, 6) == b & 0x3F by { assert Sum(1, b, 5) == b & 0x1F; }
    assert Sum(1, b, 7) == b & 0x7F;
  }
}
