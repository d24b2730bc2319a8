// AESStandard.py: mixing one column of the state (FIPS 197, sections 5.1.3 and 5.3.3).
module MixColumns {
  import opened Galois

  type Column = seq<bv8>

  function MixSingleColumn(a: Column): (r: Column)
    requires |a| == 4
    ensures |r| == 4
  {
    [ Xor(Xor(Xor(Xor(Xtime(a[0]), Xtime(a[1])), a[1]), a[2]), a[3]),
      Xor(Xor(Xor(Xor(a[0], Xtime(a[1])), Xtime(a[2])), a[2]), a[3]),
      Xor(Xor(Xor(Xor(a[0], a[1]), Xtime(a[2])), Xtime(a[3])), a[3]),
      Xor(Xor(Xor(Xor(Xtime(a[0]), a[0]), a[1]), a[2]), Xtime(a[3])) ]
  }

  function InvMixSingleColumn(c: Column): (r: Column)
    requires |c| == 4
    ensures |r| == 4
  {
    [ Xor(Xor(Xor(Mul(c[0], 14), Mul(c[1], 11)), Mul(c[2], 13)), Mul(c[3], 9)),
      Xor(Xor(Xor(Mul(c[0], 9), Mul(c[1], 14)), Mul(c[2], 11)), Mul(c[3], 13)),
      Xor(Xor(Xor(Mul(c[0], 13), Mul(c[1], 9)), Mul(c[2], 14)), Mul(c[3], 11)),
      Xor(Xor(Xor(Mul(c[0], 11), Mul(c[1], 13)), Mul(c[2], 9)), Mul(c[3], 14)) ]
  }

  // ----- both mixings are linear, so it is enough to invert them on single-entry columns -----

  function Plus(a: Column, b: Column): (r: Column)
    requires |a| == 4 && |b| == 4
    ensures |r| == 4
  {
    [Xor(a[0], b[0]), Xor(a[1], b[1]), Xor(a[2], b[2]), Xor(a[3], b[3])]
  }

  // The column with x in row i and zeros elsewhere.
  function Single(i: nat, x: bv8): (r: Column)
    requires i < 4
    ensures |r| == 4
  {
    [if i == 0 then x else 0, if i == 1 then x else 0, if i == 2 then x else 0, if i == 3 then x else 0]
  }

  lemma Xor4Swap(p: Column, q: Column)
    requires |p| == 4 && |q| == 4
    ensures Xor(Xor(Xor(Xor(p[0], q[0]), Xor(p[1], q[1])), Xor(p[2], q[2])), Xor(p[3], q[3]))
         == Xor(Xor(Xor(Xor(p[0], p[1]), p[2]), p[3]), Xor(Xor(Xor(q[0], q[1]), q[2]), q[3]))
  {
    hide Xor;
    XorSwap(p[0], q[0], p[1], q[1]);
    XorSwap(Xor(p[0], p[1]), Xor(q[0], q[1]), p[2], q[2]);
    XorSwap(Xor(Xor(p[0], p[1]), p[2]), Xor(Xor(q[0], q[1]), q[2]), p[3], q[3]);
  }

  lemma MixIsLinear(a: Column, b: Column)
    requires |a| == 4 && |b| == 4
    ensures MixSingleColumn(Plus(a, b)) == Plus(MixSingleColumn(a), MixSingleColumn(b))
  {
    hide Xor, Xtime;
    forall i | 0 <= i < 4 ensures Xtime(Xor(a[i], b[i])) == Xor(Xtime(a[i]), Xtime(b[i])) {
      XtimeXor(a[i], b[i]);
    }
    var s := [Xtime(a[0]), Xtime(a[1]), a[1], a[2]];
    var t := [Xtime(b[0]), Xtime(b[1]), b[1], b[2]];
    Xor5Swap(s, a[3], t, b[3]);
    Xor5Swap([a[0], Xtime(a[1]), Xtime(a[2]), a[2]], a[3], [b[0], Xtime(b[1]), Xtime(b[2]), b[2]], b[3]);
    Xor5Swap([a[0], a[1], Xtime(a[2]), Xtime(a[3])], a[3], [b[0], b[1], Xtime(b[2]), Xtime(b[3])], b[3]);
    Xor5Swap([Xtime(a[0]), a[0], a[1], a[2]], Xtime(a[3]), [Xtime(b[0]), b[0], b[1], b[2]], Xtime(b[3]));
  }

  lemma Xor5Swap(p: Column, p4: bv8, q: Column, q4: bv8)
    requires |p| == 4 && |q| == 4
    ensures Xor(Xor(Xor(Xor(Xor(p[0], q[0]), Xor(p[1], q[1])), Xor(p[2], q[2])), Xor(p[3], q[3])), Xor(p4, q4))
         == Xor(Xor(Xor(Xor(Xor(p[0], p[1]), p[2]), p[3]), p4), Xor(Xor(Xor(Xor(q[0], q[1]), q[2]), q[3]), q4))
  {
    hide Xor;
    Xor4Swap(p, q);
    XorSwap(Xor(Xor(Xor(p[0], p[1]), p[2]), p[3]), Xor(Xor(Xor(q[0], q[1]), q[2]), q[3]), p4, q4);
  }

  lemma InvMixRowIsLinear(a: Column, b: Column, k: Column)
    requires |a| == 4 && |b| == 4 && |k| == 4
    ensures Xor(Xor(Xor(Mul(Xor(a[0], b[0]), k[0]), Mul(Xor(a[1], b[1]), k[1])), Mul(Xor(a[2], b[2]), k[2])),
                Mul(Xor(a[3], b[3]), k[3]))
         == Xor(Xor(Xor(Xor(Mul(a[0], k[0]), Mul(a[1], k[1])), Mul(a[2], k[2])), Mul(a[3], k[3])),
                Xor(Xor(Xor(Mul(b[0], k[0]), Mul(b[1], k[1])), Mul(b[2], k[2])), Mul(b[3], k[3])))
  {
    hide Xor, Mul;
    MulXor(a[0], b[0], k[0]);
    MulXor(a[1], b[1], k[1]);
    MulXor(a[2], b[2], k[2]);
    MulXor(a[3], b[3], k[3]);
    Xor4Swap([Mul(a[0], k[0]), Mul(a[1], k[1]), Mul(a[2], k[2]), Mul(a[3], k[3])],
             [Mul(b[0], k[0]), Mul(b[1], k[1]), Mul(b[2], k[2]), Mul(b[3], k[3])]);
  }

  lemma InvMixIsLinear(a: Column, b: Column)
    requires |a| == 4 && |b| == 4
    ensures InvMixSingleColumn(Plus(a, b)) == Plus(InvMixSingleColumn(a), InvMixSingleColumn(b))
  {
    hide Xor, Mul;
    InvMixRowIsLinear(a, b, [14, 11, 13, 9]);
    InvMixRowIsLinear(a, b, [9, 14, 11, 13]);
    InvMixRowIsLinear(a, b, [13, 9, 14, 11]);
    InvMixRowIsLinear(a, b, [11, 13, 9, 14]);
  }

  lemma SumOfSingles(a: Column)
    requires |a| == 4
    ensures a == Plus(Plus(Single(0, a[0]), Single(1, a[1])), Plus(Single(2, a[2]), Single(3, a[3])))
  {
    hide Xor;
    XorZero(0);
    forall i | 0 <= i < 4 ensures Xor(a[i], 0) == a[i] && Xor(0, a[i]) == a[i] {
      XorZero(a[i]);
    }
  }

  // One column of the mixing matrix times x, and the same for the inverse matrix.
  function Mixed(i: nat, x: bv8): (r: Column)
    requires i < 4
    ensures |r| == 4
  {
    match i
    case 0 => [Xtime(x), x, x, Xor(x, Xtime(x))]
    case 1 => [Xor(x, Xtime(x)), Xtime(x), x, x]
    case 2 => [x, Xor(x, Xtime(x)), Xtime(x), x]
    case _ => [x, x, Xor(x, Xtime(x)), Xtime(x)]
  }

  function Unmixed(i: nat, x: bv8): (r: Column)
    requires i < 4
    ensures |r| == 4
  {
    match i
    case 0 => [Mul(x, 14), Mul(x, 9), Mul(x, 13), Mul(x, 11)]
    case 1 => [Mul(x, 11), Mul(x, 14), Mul(x, 9), Mul(x, 13)]
    case 2 => [Mul(x, 13), Mul(x, 11), Mul(x, 14), Mul(x, 9)]
    case _ => [Mul(x, 9), Mul(x, 13), Mul(x, 11), Mul(x, 14)]
  }

  lemma MixOfSingle(i: nat, x: bv8)
    requires i < 4
    ensures MixSingleColumn(Single(i, x)) == Mixed(i, x)
  {
    assert Xtime(0) == 0;
    XorZero(0);
    XorZero(x);
    XorZero(Xtime(x));
    XorComm(x, Xtime(x));
    XorZero(Xor(x, Xtime(x)));
    hide Xor, Xtime;
  }

  lemma MulOfZero()
    ensures Mul(0, 9) == 0 && Mul(0, 11) == 0 && Mul(0, 13) == 0 && Mul(0, 14) == 0
  {
    MulByConstants(0);
    hide Mul;
  }

  lemma InvMixOfSingle(i: nat, x: bv8)
    requires i < 4
    ensures InvMixSingleColumn(Single(i, x)) == Unmixed(i, x)
  {
    hide Xor, Mul;
    MulOfZero();
    XorZero(0);
    XorZero(Mul(x, 9));
    XorZero(Mul(x, 11));
    XorZero(Mul(x, 13));
    XorZero(Mul(x, 14));
  }

  lemma UnmixMixed0(x: bv8)
    ensures InvMixSingleColumn(Mixed(0, x)) == Single(0, x)
  {
    MulByConstants(x);
    MulByConstants(Xtime(x));
    MulByConstants(Xor(x, Xtime(x)));
    hide Mul;
  }

  lemma UnmixMixed1(x: bv8)
    ensures InvMixSingleColumn(Mixed(1, x)) == Single(1, x)
  {
    MulByConstants(x);
    MulByConstants(Xtime(x));
    MulByConstants(Xor(x, Xtime(x)));
    hide Mul;
  }

  lemma UnmixMixed2(x: bv8)
    ensures InvMixSingleColumn(Mixed(2, x)) == Single(2, x)
  {
    MulByConstants(x);
    MulByConstants(Xtime(x));
    MulByConstants(Xor(x, Xtime(x)));
    hide Mul;
  }

  lemma UnmixMixed3(x: bv8)
    ensures InvMixSingleColumn(Mixed(3, x)) == Single(3, x)
  {
    MulByConstants(x);
    MulByConstants(Xtime(x));
    MulByConstants(Xor(x, Xtime(x)));
    hide Mul;
  }

  lemma RemixUnmixed0(x: bv8)
    ensures MixSingleColumn(Unmixed(0, x)) == Single(0, x)
  {
    MulByConstants(x);
    hide Mul;
  }

  lemma RemixUnmixed1(x: bv8)
    ensures MixSingleColumn(Unmixed(1, x)) == Single(1, x)
  {
    MulByConstants(x);
    hide Mul;
  }

  lemma RemixUnmixed2(x: bv8)
    ensures MixSingleColumn(Unmixed(2, x)) == Single(2, x)
  {
    MulByConstants(x);
    hide Mul;
  }

  lemma RemixUnmixed3(x: bv8)
    ensures MixSingleColumn(Unmixed(3, x)) == Single(3, x)
  {
    MulByConstants(x);
    hide Mul;
  }

  lemma UnmixSingle(i: nat, x: bv8)
    requires i < 4
    ensures InvMixSingleColumn(MixSingleColumn(Single(i, x))) == Single(i, x)
    ensures MixSingleColumn(InvMixSingleColumn(Single(i, x))) == Single(i, x)
  {
    hide MixSingleColumn, InvMixSingleColumn;
    MixOfSingle(i, x);
    InvMixOfSingle(i, x);
    match i {
      case 0 => UnmixMixed0(x); RemixUnmixed0(x);
      case 1 => UnmixMixed1(x); RemixUnmixed1(x);
      case 2 => UnmixMixed2(x); RemixUnmixed2(x);
      case _ => UnmixMixed3(x); RemixUnmixed3(x);
    }
  }

  // The two column mixings are inverse to each other.
  lemma MixingIsInvertible(a: Column)
    requires |a| == 4
    ensures InvMixSingleColumn(MixSingleColumn(a)) == a
    ensures MixSingleColumn(InvMixSingleColumn(a)) == a
  {
    hide MixSingleColumn, InvMixSingleColumn, Plus, Single;
    var s0, s1, s2, s3 := Single(0, a[0]), Single(1, a[1]), Single(2, a[2]), Single(3, a[3]);
    SumOfSingles(a);
    UnmixSingle(0, a[0]);
    UnmixSingle(1, a[1]);
    UnmixSingle(2, a[2]);
    UnmixSingle(3, a[3]);
    MixIsLinear(s0, s1);
    MixIsLinear(s2, s3);
    MixIsLinear(Plus(s0, s1), Plus(s2, s3));
    InvMixIsLinear(MixSingleColumn(s0), MixSingleColumn(s1));
    InvMixIsLinear(MixSingleColumn(s2), MixSingleColumn(s3));
    InvMixIsLinear(MixSingleColumn(Plus(s0, s1)), MixSingleColumn(Plus(s2, s3)));
    InvMixIsLinear(s0, s1);
    InvMixIsLinear(s2, s3);
    InvMixIsLinear(Plus(s0, s1), Plus(s2, s3));
    MixIsLinear(InvMixSingleColumn(s0), InvMixSingleColumn(s1));
    MixIsLinear(InvMixSingleColumn(s2), InvMixSingleColumn(s3));
    MixIsLinear(InvMixSingleColumn(Plus(s0, s1)), InvMixSingleColumn(Plus(s2, s3)));
  }
}
