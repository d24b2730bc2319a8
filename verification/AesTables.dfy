// AESStandard.py: the substitution tables of AES (FIPS 197, section 5.1.1), bytes as 8-bit vectors.
module AesTables {
  const S_BOX: seq<seq<bv8>> := [
    [0x63, 0x7C, 0x77, 0x7B, 0xF2, 0x6B, 0x6F, 0xC5, 0x30, 0x01, 0x67, 0x2B, 0xFE, 0xD7, 0xAB, 0x76],
    [0xCA, 0x82, 0xC9, 0x7D, 0xFA, 0x59, 0x47, 0xF0, 0xAD, 0xD4, 0xA2, 0xAF, 0x9C, 0xA4, 0x72, 0xC0],
    [0xB7, 0xFD, 0x93, 0x26, 0x36, 0x3F, 0xF7, 0xCC, 0x34, 0xA5, 0xE5, 0xF1, 0x71, 0xD8, 0x31, 0x15],
    [0x04, 0xC7, 0x23, 0xC3, 0x18, 0x96, 0x05, 0x9A, 0x07, 0x12, 0x80, 0xE2, 0xEB, 0x27, 0xB2, 0x75],
    [0x09, 0x83, 0x2C, 0x1A, 0x1B, 0x6E, 0x5A, 0xA0, 0x52, 0x3B, 0xD6, 0xB3, 0x29, 0xE3, 0x2F, 0x84],
    [0x53, 0xD1, 0x00, 0xED, 0x20, 0xFC, 0xB1, 0x5B, 0x6A, 0xCB, 0xBE, 0x39, 0x4A, 0x4C, 0x58, 0xCF],
    [0xD0, 0xEF, 0xAA, 0xFB, 0x43, 0x4D, 0x33, 0x85, 0x45, 0xF9, 0x02, 0x7F, 0x50, 0x3C, 0x9F, 0xA8],
    [0x51, 0xA3, 0x40, 0x8F, 0x92, 0x9D, 0x38, 0xF5, 0xBC, 0xB6, 0xDA, 0x21, 0x10, 0xFF, 0xF3, 0xD2],
    [0xCD, 0x0C, 0x13, 0xEC, 0x5F, 0x97, 0x44, 0x17, 0xC4, 0xA7, 0x7E, 0x3D, 0x64, 0x5D, 0x19, 0x73],
    [0x60, 0x81, 0x4F, 0xDC, 0x22, 0x2A, 0x90, 0x88, 0x46, 0xEE, 0xB8, 0x14, 0xDE, 0x5E, 0x0B, 0xDB],
    [0xE0, 0x32, 0x3A, 0x0A, 0x49, 0x06, 0x24, 0x5C, 0xC2, 0xD3, 0xAC, 0x62, 0x91, 0x95, 0xE4, 0x79],
    [0xE7, 0xC8, 0x37, 0x6D, 0x8D, 0xD5, 0x4E, 0xA9, 0x6C, 0x56, 0xF4, 0xEA, 0x65, 0x7A, 0xAE, 0x08],
    [0xBA, 0x78, 0x25, 0x2E, 0x1C, 0xA6, 0xB4, 0xC6, 0xE8, 0xDD, 0x74, 0x1F, 0x4B, 0xBD, 0x8B, 0x8A],
    [0x70, 0x3E, 0xB5, 0x66, 0x48, 0x03, 0xF6, 0x0E, 0x61, 0x35, 0x57, 0xB9, 0x86, 0xC1, 0x1D, 0x9E],
    [0xE1, 0xF8, 0x98, 0x11, 0x69, 0xD9, 0x8E, 0x94, 0x9B, 0x1E, 0x87, 0xE9, 0xCE, 0x55, 0x28, 0xDF],
    [0x8C, 0xA1, 0x89, 0x0D, 0xBF, 0xE6, 0x42, 0x68, 0x41, 0x99, 0x2D, 0x0F, 0xB0, 0x54, 0xBB, 0x16]
  ]

  // The inverse table of FIPS 197, Figure 14: what the loop over S_BOX has to produce.
  const INVERSE: seq<seq<bv8>> := [
    [0x52, 0x09, 0x6A, 0xD5, 0x30, 0x36, 0xA5, 0x38, 0xBF, 0x40, 0xA3, 0x9E, 0x81, 0xF3, 0xD7, 0xFB],
    [0x7C, 0xE3, 0x39, 0x82, 0x9B, 0x2F, 0xFF, 0x87, 0x34, 0x8E, 0x43, 0x44, 0xC4, 0xDE, 0xE9, 0xCB],
    [0x54, 0x7B, 0x94, 0x32, 0xA6, 0xC2, 0x23, 0x3D, 0xEE, 0x4C, 0x95, 0x0B, 0x42, 0xFA, 0xC3, 0x4E],
    [0x08, 0x2E, 0xA1, 0x66, 0x28, 0xD9, 0x24, 0xB2, 0x76, 0x5B, 0xA2, 0x49, 0x6D, 0x8B, 0xD1, 0x25],
    [0x72, 0xF8, 0xF6, 0x64, 0x86, 0x68, 0x98, 0x16, 0xD4, 0xA4, 0x5C, 0xCC, 0x5D, 0x65, 0xB6, 0x92],
    [0x6C, 0x70, 0x48, 0x50, 0xFD, 0xED, 0xB9, 0xDA, 0x5E, 0x15, 0x46, 0x57, 0xA7, 0x8D, 0x9D, 0x84],
    [0x90, 0xD8, 0xAB, 0x00, 0x8C, 0xBC, 0xD3, 0x0A, 0xF7, 0xE4, 0x58, 0x05, 0xB8, 0xB3, 0x45, 0x06],
    [0xD0, 0x2C, 0x1E, 0x8F, 0xCA, 0x3F, 0x0F, 0x02, 0xC1, 0xAF, 0xBD, 0x03, 0x01, 0x13, 0x8A, 0x6B],
    [0x3A, 0x91, 0x11, 0x41, 0x4F, 0x67, 0xDC, 0xEA, 0x97, 0xF2, 0xCF, 0xCE, 0xF0, 0xB4, 0xE6, 0x73],
    [0x96, 0xAC, 0x74, 0x22, 0xE7, 0xAD, 0x35, 0x85, 0xE2, 0xF9, 0x37, 0xE8, 0x1C, 0x75, 0xDF, 0x6E],
    [0x47, 0xF1, 0x1A, 0x71, 0x1D, 0x29, 0xC5, 0x89, 0x6F, 0xB7, 0x62, 0x0E, 0xAA, 0x18, 0xBE, 0x1B],
    [0xFC, 0x56, 0x3E, 0x4B, 0xC6, 0xD2, 0x79, 0x20, 0x9A, 0xDB, 0xC0, 0xFE, 0x78, 0xCD, 0x5A, 0xF4],
    [0x1F, 0xDD, 0xA8, 0x33, 0x88, 0x07, 0xC7, 0x31, 0xB1, 0x12, 0x10, 0x59, 0x27, 0x80, 0xEC, 0x5F],
    [0x60, 0x51, 0x7F, 0xA9, 0x19, 0xB5, 0x4A, 0x0D, 0x2D, 0xE5, 0x7A, 0x9F, 0x93, 0xC9, 0x9C, 0xEF],
    [0xA0, 0xE0, 0x3B, 0x4D, 0xAE, 0x2A, 0xF5, 0xB0, 0xC8, 0xEB, 0xBB, 0x3C, 0x83, 0x53, 0x99, 0x61],
    [0x17, 0x2B, 0x04, 0x7E, 0xBA, 0x77, 0xD6, 0x26, 0xE1, 0x69, 0x14, 0x63, 0x55, 0x21, 0x0C, 0x7D]
  ]

  lemma TableShapes()
    ensures |S_BOX| == 16 && forall i :: 0 <= i < 16 ==> |S_BOX[i]| == 16
    ensures |INVERSE| == 16 && forall i :: 0 <= i < 16 ==> |INVERSE[i]| == 16
  {
  }

  function Sub(b: bv8): bv8 {
    TableShapes();
    S_BOX[(b >> 4) as int][(b & 0x0F) as int]
  }

  function InvSub(b: bv8): bv8 {
    TableShapes();
    INVERSE[(b >> 4) as int][(b & 0x0F) as int]
  }

  lemma SubAt(b: bv8, i: nat, j: nat)
    requires i < 16 && j < 16 && (b >> 4) as int == i && (b & 0x0F) as int == j
    ensures |S_BOX| == 16 && |S_BOX[i]| == 16 && Sub(b) == S_BOX[i][j]
  {
    TableShapes();
  }

  // The two tables invert each other, shown a quarter at a time with both nibbles split into cases.
  lemma InvSubUndoesSubFirst(b: bv8)
    requires b & 0xC0 == 0x00
    ensures InvSub(Sub(b)) == b
  {
    match b >> 4 { case 0 => case 1 => case 2 => case _ => }
    match b & 0x0F { case 0 => case 1 => case 2 => case 3 => case 4 => case 5 => case 6 => case 7 => case 8 => case 9 => case 10 => case 11 => case 12 => case 13 => case 14 => case _ => }
  }

  lemma InvSubUndoesSubSecond(b: bv8)
    requires b & 0xC0 == 0x40
    ensures InvSub(Sub(b)) == b
  {
    match b >> 4 { case 4 => case 5 => case 6 => case _ => }
    match b & 0x0F { case 0 => case 1 => case 2 => case 3 => case 4 => case 5 => case 6 => case 7 => case 8 => case 9 => case 10 => case 11 => case 12 => case 13 => case 14 => case _ => }
  }

  lemma InvSubUndoesSubThird(b: bv8)
    requires b & 0xC0 == 0x80
    ensures InvSub(Sub(b)) == b
  {
    match b >> 4 { case 8 => case 9 => case 10 => case _ => }
    match b & 0x0F { case 0 => case 1 => case 2 => case 3 => case 4 => case 5 => case 6 => case 7 => case 8 => case 9 => case 10 => case 11 => case 12 => case 13 => case 14 => case _ => }
  }

  lemma InvSubUndoesSubFourth(b: bv8)
    requires b & 0xC0 == 0xC0
    ensures InvSub(Sub(b)) == b
  {
    match b >> 4 { case 12 => case 13 => case 14 => case _ => }
    match b & 0x0F { case 0 => case 1 => case 2 => case 3 => case 4 => case 5 => case 6 => case 7 => case 8 => case 9 => case 10 => case 11 => case 12 => case 13 => case 14 => case _ => }
  }

  lemma SubUndoesInvSubFirst(b: bv8)
    requires b & 0xC0 == 0x00
    ensures Sub(InvSub(b)) == b
  {
    match b >> 4 { case 0 => case 1 => case 2 => case _ => }
    match b & 0x0F { case 0 => case 1 => case 2 => case 3 => case 4 => case 5 => case 6 => case 7 => case 8 => case 9 => case 10 => case 11 => case 12 => case 13 => case 14 => case _ => }
  }

  lemma SubUndoesInvSubSecond(b: bv8)
    requires b & 0xC0 == 0x40
    ensures Sub(InvSub(b)) == b
  {
    match b >> 4 { case 4 => case 5 => case 6 => case _ => }
    match b & 0x0F { case 0 => case 1 => case 2 => case 3 => case 4 => case 5 => case 6 => case 7 => case 8 => case 9 => case 10 => case 11 => case 12 => case 13 => case 14 => case _ => }
  }

  lemma SubUndoesInvSubThird(b: bv8)
    requires b & 0xC0 == 0x80
    ensures Sub(InvSub(b)) == b
  {
    match b >> 4 { case 8 => case 9 => case 10 => case _ => }
    match b & 0x0F { case 0 => case 1 => case 2 => case 3 => case 4 => case 5 => case 6 => case 7 => case 8 => case 9 => case 10 => case 11 => case 12 => case 13 => case 14 => case _ => }
  }

  lemma SubUndoesInvSubFourth(b: bv8)
    requires b & 0xC0 == 0xC0
    ensures Sub(InvSub(b)) == b
  {
    match b >> 4 { case 12 => case 13 => case 14 => case _ => }
    match b & 0x0F { case 0 => case 1 => case 2 => case 3 => case 4 => case 5 => case 6 => case 7 => case 8 => case 9 => case 10 => case 11 => case 12 => case 13 => case 14 => case _ => }
  }

  lemma SubInverse(b: bv8)
    ensures InvSub(Sub(b)) == b && Sub(InvSub(b)) == b
  {
    if b & 0xC0 == 0x00 {
      InvSubUndoesSubFirst(b);
      SubUndoesInvSubFirst(b);
    } else if b & 0xC0 == 0x40 {
      InvSubUndoesSubSecond(b);
      SubUndoesInvSubSecond(b);
    } else if b & 0xC0 == 0x80 {
      InvSubUndoesSubThird(b);
      SubUndoesInvSubThird(b);
    } else {
      InvSubUndoesSubFourth(b);
      SubUndoesInvSubFourth(b);
    }
  }

  // ----- the inverse table is built by scattering S_BOX -----

  function Pack(i: int, j: int): bv8
    requires 0 <= i < 16 && 0 <= j < 16
  {
    ((i as bv8) << 4) | (j as bv8)
  }

  lemma PackNibbles(i: int, j: int)
    requires 0 <= i < 16 && 0 <= j < 16
    ensures (Pack(i, j) >> 4) as int == i && (Pack(i, j) & 0x0F) as int == j
  {
    SmallByte(i);
    SmallByte(j);
    NibblesOfPair(i as bv8, j as bv8);
  }

  lemma SmallByte(i: int)
    requires 0 <= i < 16
    ensures (i as bv8) as int == i && (i as bv8) < 16
  {
  }

  lemma NibblesOfPair(x: bv8, y: bv8)
    requires x < 16 && y < 16
    ensures ((x << 4) | y) >> 4 == x && ((x << 4) | y) & 0x0F == y
  {
  }

  lemma PackOfNibbles(b: bv8)
    ensures (b >> 4) as int < 16 && (b & 0x0F) as int < 16
    ensures Pack((b >> 4) as int, (b & 0x0F) as int) == b
  {
  }

  lemma SameNibbles(b: bv8, i: int, j: int)
    requires 0 <= i < 16 && 0 <= j < 16
    ensures (b >> 4) as int == i && (b & 0x0F) as int == j <==> b == Pack(i, j)
  {
    PackNibbles(i, j);
    PackOfNibbles(b);
  }

  // Byte b was scattered before the entry in row i, column j.
  predicate Before(b: bv8, i: int, j: int) {
    (b >> 4) as int < i || ((b >> 4) as int == i && (b & 0x0F) as int < j)
  }

  lemma BeforeNext(b: bv8, i: int, j: int)
    requires 0 <= i < 16 && 0 <= j < 16
    ensures Before(b, i, j + 1) <==> Before(b, i, j) || b == Pack(i, j)
    ensures Before(b, i, 16) <==> Before(b, i + 1, 0)
    ensures Before(b, 16, 0) && !Before(b, 0, 0)
  {
    SameNibbles(b, i, j);
  }

  function At(inv: array2<bv8>, v: bv8): bv8
    requires inv.Length0 == 16 && inv.Length1 == 16
    reads inv
  {
    inv[(v >> 4) as int, (v & 0x0F) as int]
  }

  // The entries scattered so far are in place.
  ghost predicate Filled(inv: array2<bv8>, inverse: bv8 -> bv8, i: int, j: int)
    requires inv.Length0 == 16 && inv.Length1 == 16
    reads inv
  {
    forall v: bv8 {:trigger At(inv, v)} :: Before(inverse(v), i, j) ==> At(inv, v) == inverse(v)
  }

  lemma SameCell(v: bv8, w: bv8)
    requires v >> 4 == w >> 4 && v & 0x0F == w & 0x0F
    ensures v == w
  {
  }

  // One assignment of the scattering loop.
  method Scatter(inv: array2<bv8>, i: int, j: int, v0: bv8, ghost inverse: bv8 -> bv8)
    requires inv.Length0 == 16 && inv.Length1 == 16 && 0 <= i < 16 && 0 <= j < 16
    requires forall v: bv8 :: inverse(v) == Pack(i, j) <==> v == v0
    requires Filled(inv, inverse, i, j)
    modifies inv
    ensures Filled(inv, inverse, i, j + 1)
  {
    label L:
    inv[(v0 >> 4) as int, (v0 & 0x0F) as int] := Pack(i, j);
    forall v: bv8 ensures Before(inverse(v), i, j + 1) ==> At(inv, v) == inverse(v) {
      BeforeNext(inverse(v), i, j);
      if v != v0 {
        if v >> 4 == v0 >> 4 && v & 0x0F == v0 & 0x0F {
          SameCell(v, v0);
        }
        assert At(inv, v) == old@L(At(inv, v));
      }
    }
  }

  // The loop that builds INV_S_BOX from S_BOX leaves exactly the inverse table.
  method BuildInverse() returns (inv: array2<bv8>)
    ensures inv.Length0 == 16 && inv.Length1 == 16
    ensures forall v: bv8 :: At(inv, v) == InvSub(v)
  {
    TableShapes();
    inv := new bv8[16, 16]((r, c) => 0);
    ghost var inverse := (v: bv8) => InvSub(v);
    for i := 0 to 16
      invariant Filled(inv, inverse, i, 0)
    {
      for j := 0 to 16
        invariant Filled(inv, inverse, i, j)
      {
        EntryTarget(i, j);
        Scatter(inv, i, j, S_BOX[i][j], inverse);
      }
      NextRow(inv, inverse, i);
    }
    AllFilled(inv, inverse);
  }

  lemma NextRow(inv: array2<bv8>, inverse: bv8 -> bv8, i: int)
    requires inv.Length0 == 16 && inv.Length1 == 16 && 0 <= i < 16
    requires Filled(inv, inverse, i, 16)
    ensures Filled(inv, inverse, i + 1, 0)
  {
    forall v: bv8 ensures Before(inverse(v), i + 1, 0) ==> At(inv, v) == inverse(v) {
      BeforeNext(inverse(v), i, 0);
    }
  }

  lemma AllFilled(inv: array2<bv8>, inverse: bv8 -> bv8)
    requires inv.Length0 == 16 && inv.Length1 == 16
    requires Filled(inv, inverse, 16, 0)
    ensures forall v: bv8 :: At(inv, v) == inverse(v)
  {
    forall v: bv8 ensures At(inv, v) == inverse(v) {
      BeforeNext(inverse(v), 0, 0);
    }
  }

  lemma FlipTo(v: bv8, b: bv8)
    requires InvSub(v) == b
    ensures Sub(b) == v
  {
    SubInverse(v);
  }

  lemma FlipBack(v: bv8, b: bv8)
    requires Sub(b) == v
    ensures InvSub(v) == b
  {
    SubInverse(b);
  }

  lemma EntryTarget(i: int, j: int)
    requires 0 <= i < 16 && 0 <= j < 16
    ensures |S_BOX| == 16 && |S_BOX[i]| == 16
    ensures forall v: bv8 :: InvSub(v) == Pack(i, j) <==> v == S_BOX[i][j]
  {
    TableShapes();
    PackNibbles(i, j);
    assert Sub(Pack(i, j)) == S_BOX[i][j];
    forall v: bv8 ensures InvSub(v) == Pack(i, j) <==> v == S_BOX[i][j] {
      if InvSub(v) == Pack(i, j) {
        FlipTo(v, Pack(i, j));
      } else if v == S_BOX[i][j] {
        FlipBack(v, Pack(i, j));
      }
    }
  }
}
