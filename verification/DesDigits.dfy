// DES computed on hexadecimal digits instead of lists of bits, and the proof that this gives what
// DEStandard.py gives, for every text and key.
module DesDigits {
  import opened Powers
  import opened Numerals
  import opened DesTables
  import opened Des

  // ----- digits and six-bit groups -----

  // Bit j of a digit, the highest first.
  function Bit(d: nat, j: nat): (b: nat)
    requires j < 4
    ensures b < 2
  {
    if j == 0 then (if d >= 8 then 1 else 0)
    else if j == 1 then (if 4 <= d < 8 || d >= 12 then 1 else 0)
    else if j == 2 then (if 2 <= d < 4 || 6 <= d < 8 || 10 <= d < 12 || d >= 14 then 1 else 0)
    else (if d == 1 || d == 3 || d == 5 || d == 7 || d == 9 || d == 11 || d == 13 || d >= 15 then 1 else 0)
  }

  function Nibble(d: nat): (b: seq<nat>)
    ensures |b| == 4
  {
    [Bit(d, 0), Bit(d, 1), Bit(d, 2), Bit(d, 3)]
  }

  function Four(p: nat, q: nat, r: nat, s: nat): nat {
    8 * p + 4 * q + 2 * r + s
  }

  function Differ(a: nat, b: nat): (d: nat)
    ensures d < 2
  {
    if a == b then 0 else 1
  }

  // Six bits: the two that choose a row of an S-box, around the digit that chooses the column.
  datatype Group = Group(first: nat, middle: nat, last: nat)

  function GroupBit(g: Group, j: nat): nat
    requires j < 6
  {
    if j == 0 then g.first else if j == 5 then g.last else Bit(g.middle, j - 1)
  }

  ghost predicate IsGroup(g: Group) {
    g.first < 2 && g.middle < 16 && g.last < 2
  }

  lemma LowBits(h: nat, r: nat, s: nat)
    requires (h == 0 || h == 4 || h == 8 || h == 12) && r < 2 && s < 2
    ensures var d := h + 2 * r + s;
            && Bit(d, 0) == (if h >= 8 then 1 else 0) && Bit(d, 1) == (if h == 4 || h == 12 then 1 else 0)
            && Bit(d, 2) == r && Bit(d, 3) == s
  {
    assert (r == 0 || r == 1) && (s == 0 || s == 1);
  }

  lemma BitsOfFour(p: nat, q: nat, r: nat, s: nat)
    requires p < 2 && q < 2 && r < 2 && s < 2
    ensures var d := Four(p, q, r, s);
            d < 16 && Bit(d, 0) == p && Bit(d, 1) == q && Bit(d, 2) == r && Bit(d, 3) == s
  {
    if p == 0 && q == 0 {
      LowBits(0, r, s);
    } else if p == 0 {
      LowBits(4, r, s);
    } else if q == 0 {
      LowBits(8, r, s);
    } else {
      LowBits(12, r, s);
    }
  }

  lemma FourOfBits(d: nat)
    requires d < 16
    ensures Four(Bit(d, 0), Bit(d, 1), Bit(d, 2), Bit(d, 3)) == d
  {
  }

  // The bits of a list of digits, and of a list of groups.
  function BitsOf(ds: seq<nat>): (b: Bits)
    ensures |b| == 4 * |ds| && forall i :: 0 <= i < |b| ==> b[i] == Bit(ds[i / 4], i % 4)
  {
    seq(4 * |ds|, i requires 0 <= i < 4 * |ds| => Bit(ds[i / 4], i % 4))
  }

  function SixesOf(gs: seq<Group>): (b: Bits)
    ensures |b| == 6 * |gs| && forall i :: 0 <= i < |b| ==> b[i] == GroupBit(gs[i / 6], i % 6)
  {
    seq(6 * |gs|, i requires 0 <= i < 6 * |gs| => GroupBit(gs[i / 6], i % 6))
  }

  ghost predicate Groups(gs: seq<Group>) {
    |gs| == 8 && forall i :: 0 <= i < 8 ==> IsGroup(gs[i])
  }

  // The bit at a position, counted from 1 as the tables do.
  function BitAt(ds: seq<nat>, position: nat): (b: nat)
    requires 1 <= position <= 4 * |ds|
    ensures b < 2
  {
    Bit(ds[(position - 1) / 4], (position - 1) % 4)
  }

  lemma SameBits(b: Bits, ds: seq<nat>)
    requires |b| == 4 * |ds|
    requires forall i, j {:trigger ds[i], Bit(ds[i], j)} :: 0 <= i < |ds| && 0 <= j < 4 ==> b[4 * i + j] == Bit(ds[i], j)
    ensures b == BitsOf(ds)
  {
    hide Bit;
    forall k | 0 <= k < |b| ensures b[k] == BitsOf(ds)[k] {
      var i, j := k / 4, k % 4;
      assert k == 4 * i + j;
      assert b[4 * i + j] == Bit(ds[i], j);
    }
  }

  lemma SameGroups(b: Bits, gs: seq<Group>)
    requires |b| == 6 * |gs|
    requires forall i, j {:trigger gs[i], GroupBit(gs[i], j)} :: 0 <= i < |gs| && 0 <= j < 6 ==> b[6 * i + j] == GroupBit(gs[i], j)
    ensures b == SixesOf(gs)
  {
    hide GroupBit;
    forall k | 0 <= k < |b| ensures b[k] == SixesOf(gs)[k] {
      var i, j := k / 6, k % 6;
      assert k == 6 * i + j;
      assert b[6 * i + j] == GroupBit(gs[i], j);
    }
  }

  // ----- the steps of a round -----

  function XorFour(a: nat, b: nat): (r: nat)
    ensures r < 16
  {
    BitsOfFour(Differ(Bit(a, 0), Bit(b, 0)), Differ(Bit(a, 1), Bit(b, 1)), Differ(Bit(a, 2), Bit(b, 2)), Differ(Bit(a, 3), Bit(b, 3)));
    Four(Differ(Bit(a, 0), Bit(b, 0)), Differ(Bit(a, 1), Bit(b, 1)), Differ(Bit(a, 2), Bit(b, 2)), Differ(Bit(a, 3), Bit(b, 3)))
  }

  lemma XorFourBits(a: nat, b: nat, j: nat)
    requires j < 4
    ensures Bit(XorFour(a, b), j) == Differ(Bit(a, j), Bit(b, j))
  {
    hide Bit, Four, Differ;
    BitsOfFour(Differ(Bit(a, 0), Bit(b, 0)), Differ(Bit(a, 1), Bit(b, 1)), Differ(Bit(a, 2), Bit(b, 2)), Differ(Bit(a, 3), Bit(b, 3)));
    assert j == 0 || j == 1 || j == 2 || j == 3;
  }

  function XorDigits(a: seq<nat>, b: seq<nat>): (r: seq<nat>)
    requires |a| == |b|
    ensures |r| == |a| && Digits(r, 16)
  {
    seq(|a|, i requires 0 <= i < |a| => XorFour(a[i], b[i]))
  }

  lemma XorOfDigits(a: seq<nat>, b: seq<nat>)
    requires |a| == |b|
    ensures Xor(BitsOf(a), BitsOf(b)) == BitsOf(XorDigits(a, b))
  {
    hide Bit, XorFour;
    var x := Xor(BitsOf(a), BitsOf(b));
    forall i, j | 0 <= i < |a| && 0 <= j < 4 ensures x[4 * i + j] == Bit(XorDigits(a, b)[i], j) {
      XorFourBits(a[i], b[i], j);
    }
    SameBits(x, XorDigits(a, b));
  }

  // Group i of the expanded half: digit i between the last bit before it and the first bit after it.
  function Expanded(n: seq<nat>): (gs: seq<Group>)
    requires |n| == 8
    ensures |gs| == 8
  {
    seq(8, i requires 0 <= i < 8 => Group(Bit(n[(i + 7) % 8], 3), n[i], Bit(n[(i + 1) % 8], 0)))
  }

  // The table P on eight digits.
  function Placed(ds: seq<nat>): (r: seq<nat>)
    requires |ds| == 8
    ensures |r| == 8
  {
    [
      Four(Bit(ds[3], 3), Bit(ds[1], 2), Bit(ds[4], 3), Bit(ds[5], 0)),
      Four(Bit(ds[7], 0), Bit(ds[2], 3), Bit(ds[6], 3), Bit(ds[4], 0)),
      Four(Bit(ds[0], 0), Bit(ds[3], 2), Bit(ds[5], 2), Bit(ds[6], 1)),
      Four(Bit(ds[1], 0), Bit(ds[4], 1), Bit(ds[7], 2), Bit(ds[2], 1)),
      Four(Bit(ds[0], 1), Bit(ds[1], 3), Bit(ds[5], 3), Bit(ds[3], 1)),
      Four(Bit(ds[7], 3), Bit(ds[6], 2), Bit(ds[0], 2), Bit(ds[2], 0)),
      Four(Bit(ds[4], 2), Bit(ds[3], 0), Bit(ds[7], 1), Bit(ds[1], 1)),
      Four(Bit(ds[5], 1), Bit(ds[2], 2), Bit(ds[0], 3), Bit(ds[6], 0))
    ]
  }

  // The table PC_2 on the fourteen digits of the two key halves.
  function PickedKey(ds: seq<nat>): (r: seq<Group>)
    requires |ds| == 14
    ensures |r| == 8
  {
    [
      Group(Bit(ds[3], 1), Four(Bit(ds[4], 0), Bit(ds[2], 2), Bit(ds[5], 3), Bit(ds[0], 0)), Bit(ds[1], 0)),
      Group(Bit(ds[0], 2), Four(Bit(ds[6], 3), Bit(ds[3], 2), Bit(ds[1], 1), Bit(ds[5], 0)), Bit(ds[2], 1)),
      Group(Bit(ds[5], 2), Four(Bit(ds[4], 2), Bit(ds[2], 3), Bit(ds[0], 3), Bit(ds[6], 1)), Bit(ds[1], 3)),
      Group(Bit(ds[3], 3), Four(Bit(ds[1], 2), Bit(ds[6], 2), Bit(ds[4], 3), Bit(ds[3], 0)), Bit(ds[0], 1)),
      Group(Bit(ds[10], 0), Four(Bit(ds[12], 3), Bit(ds[7], 2), Bit(ds[9], 0), Bit(ds[11], 2)), Bit(ds[13], 2)),
      Group(Bit(ds[7], 1), Four(Bit(ds[9], 3), Bit(ds[12], 2), Bit(ds[11], 0), Bit(ds[8], 0)), Bit(ds[11], 3)),
      Group(Bit(ds[10], 3), Four(Bit(ds[12], 0), Bit(ds[9], 2), Bit(ds[13], 3), Bit(ds[8], 1)), Bit(ds[13], 0)),
      Group(Bit(ds[11], 1), Four(Bit(ds[10], 1), Bit(ds[12], 1), Bit(ds[8], 3), Bit(ds[7], 0)), Bit(ds[7], 3))
    ]
  }

  lemma FirstHalfOfP()
    requires |P| == 32
    ensures P[0] == 16 && P[1] == 7 && P[2] == 20 && P[3] == 21 && P[4] == 29 && P[5] == 12 && P[6] == 28 && P[7] == 17
    ensures P[8] == 1 && P[9] == 15 && P[10] == 23 && P[11] == 26 && P[12] == 5 && P[13] == 18 && P[14] == 31 && P[15] == 10
  {
  }

  lemma LastHalfOfP()
    requires |P| == 32
    ensures P[16] == 2 && P[17] == 8 && P[18] == 24 && P[19] == 14 && P[20] == 32 && P[21] == 27 && P[22] == 3 && P[23] == 9
    ensures P[24] == 19 && P[25] == 13 && P[26] == 30 && P[27] == 6 && P[28] == 22 && P[29] == 11 && P[30] == 4 && P[31] == 25
  {
  }

  lemma FirstHalfOfPC_2()
    requires |PC_2| == 48
    ensures PC_2[0] == 14 && PC_2[1] == 17 && PC_2[2] == 11 && PC_2[3] == 24 && PC_2[4] == 1 && PC_2[5] == 5
    ensures PC_2[6] == 3 && PC_2[7] == 28 && PC_2[8] == 15 && PC_2[9] == 6 && PC_2[10] == 21 && PC_2[11] == 10
    ensures PC_2[12] == 23 && PC_2[13] == 19 && PC_2[14] == 12 && PC_2[15] == 4 && PC_2[16] == 26 && PC_2[17] == 8
    ensures PC_2[18] == 16 && PC_2[19] == 7 && PC_2[20] == 27 && PC_2[21] == 20 && PC_2[22] == 13 && PC_2[23] == 2
  {
  }

  lemma LastHalfOfPC_2()
    requires |PC_2| == 48
    ensures PC_2[24] == 41 && PC_2[25] == 52 && PC_2[26] == 31 && PC_2[27] == 37 && PC_2[28] == 47 && PC_2[29] == 55
    ensures PC_2[30] == 30 && PC_2[31] == 40 && PC_2[32] == 51 && PC_2[33] == 45 && PC_2[34] == 33 && PC_2[35] == 48
    ensures PC_2[36] == 44 && PC_2[37] == 49 && PC_2[38] == 39 && PC_2[39] == 56 && PC_2[40] == 34 && PC_2[41] == 53
    ensures PC_2[42] == 46 && PC_2[43] == 42 && PC_2[44] == 50 && PC_2[45] == 36 && PC_2[46] == 29 && PC_2[47] == 32
  {
  }

  ghost predicate IsRowOfP(ds: seq<nat>, i: nat)
    requires |ds| == 8 && i < 8 && |P| == 32
  {
    Placed(ds)[i] == Four(BitAt(ds, P[4 * i]), BitAt(ds, P[4 * i + 1]), BitAt(ds, P[4 * i + 2]), BitAt(ds, P[4 * i + 3]))
  }

  lemma RowsOfP(ds: seq<nat>)
    requires |ds| == 8 && |P| == 32
    ensures IsRowOfP(ds, 0) && IsRowOfP(ds, 1) && IsRowOfP(ds, 2) && IsRowOfP(ds, 3)
    ensures IsRowOfP(ds, 4) && IsRowOfP(ds, 5) && IsRowOfP(ds, 6) && IsRowOfP(ds, 7)
  {
    hide P, Four, Bit;
    FirstHalfOfP();
    LastHalfOfP();
  }

  ghost predicate IsRowOfPC_2(ds: seq<nat>, i: nat)
    requires |ds| == 14 && i < 8 && |PC_2| == 48
  {
    PickedKey(ds)[i]
      == Group(BitAt(ds, PC_2[6 * i]),
               Four(BitAt(ds, PC_2[6 * i + 1]), BitAt(ds, PC_2[6 * i + 2]), BitAt(ds, PC_2[6 * i + 3]), BitAt(ds, PC_2[6 * i + 4])),
               BitAt(ds, PC_2[6 * i + 5]))
  }

  lemma RowsOfPC_2(ds: seq<nat>)
    requires |ds| == 14 && |PC_2| == 48
    ensures IsRowOfPC_2(ds, 0) && IsRowOfPC_2(ds, 1) && IsRowOfPC_2(ds, 2) && IsRowOfPC_2(ds, 3)
    ensures IsRowOfPC_2(ds, 4) && IsRowOfPC_2(ds, 5) && IsRowOfPC_2(ds, 6) && IsRowOfPC_2(ds, 7)
  {
    hide PC_2, Four, Bit;
    FirstHalfOfPC_2();
    LastHalfOfPC_2();
  }

  // E takes each digit with its two neighbouring bits.
  lemma RowOfE(i: nat)
    requires i < 8 && |E| == 48
    ensures E[6 * i] == 4 * ((i + 7) % 8) + 4 && E[6 * i + 5] == 4 * ((i + 1) % 8) + 1
    ensures E[6 * i + 1] == 4 * i + 1 && E[6 * i + 2] == 4 * i + 2 && E[6 * i + 3] == 4 * i + 3 && E[6 * i + 4] == 4 * i + 4
  {
    match i { case 0 => case 1 => case 2 => case 3 => case 4 => case 5 => case 6 => case _ => }
  }

  lemma PlacedRow(ds: seq<nat>, i: nat)
    requires |ds| == 8 && i < 8 && |P| == 32
    ensures Placed(ds)[i] < 16
    ensures Bit(Placed(ds)[i], 0) == BitAt(ds, P[4 * i]) && Bit(Placed(ds)[i], 1) == BitAt(ds, P[4 * i + 1])
    ensures Bit(Placed(ds)[i], 2) == BitAt(ds, P[4 * i + 2]) && Bit(Placed(ds)[i], 3) == BitAt(ds, P[4 * i + 3])
  {
    hide Placed, P, Bit, Four, BitAt;
    assert IsRowOfP(ds, i) by {
      hide IsRowOfP;
      RowsOfP(ds);
      assert i == 0 || i == 1 || i == 2 || i == 3 || i == 4 || i == 5 || i == 6 || i == 7;
    }
    BitsOfFour(BitAt(ds, P[4 * i]), BitAt(ds, P[4 * i + 1]), BitAt(ds, P[4 * i + 2]), BitAt(ds, P[4 * i + 3]));
  }

  lemma PlacesDigits(ds: seq<nat>)
    requires |ds| == 8
    ensures |P| == 32 && Permute(BitsOf(ds), P) == BitsOf(Placed(ds)) && Digits(Placed(ds), 16)
  {
    TableSizes();
    hide Placed, P, Bit;
    var b := Permute(BitsOf(ds), P);
    forall i | 0 <= i < 8
      ensures Placed(ds)[i] < 16 && forall j :: 0 <= j < 4 ==> b[4 * i + j] == Bit(Placed(ds)[i], j)
    {
      PlacedRow(ds, i);
    }
    SameBits(b, Placed(ds));
  }

  lemma PickedRow(ds: seq<nat>, i: nat)
    requires |ds| == 14 && i < 8 && |PC_2| == 48
    ensures IsGroup(PickedKey(ds)[i])
    ensures forall j :: 0 <= j < 6 ==> GroupBit(PickedKey(ds)[i], j) == BitAt(ds, PC_2[6 * i + j])
  {
    hide PickedKey, PC_2, Bit, Four, BitAt;
    assert IsRowOfPC_2(ds, i) by {
      hide IsRowOfPC_2;
      RowsOfPC_2(ds);
      assert i == 0 || i == 1 || i == 2 || i == 3 || i == 4 || i == 5 || i == 6 || i == 7;
    }
    BitsOfFour(BitAt(ds, PC_2[6 * i + 1]), BitAt(ds, PC_2[6 * i + 2]), BitAt(ds, PC_2[6 * i + 3]), BitAt(ds, PC_2[6 * i + 4]));
    forall j | 0 <= j < 6 ensures GroupBit(PickedKey(ds)[i], j) == BitAt(ds, PC_2[6 * i + j]) {
      assert j == 0 || j == 1 || j == 2 || j == 3 || j == 4 || j == 5;
    }
  }

  lemma PicksKey(ds: seq<nat>)
    requires |ds| == 14
    ensures |PC_2| == 48 && Permute(BitsOf(ds), PC_2) == SixesOf(PickedKey(ds)) && Groups(PickedKey(ds))
  {
    TableSizes();
    hide PickedKey, PC_2, GroupBit, Bit, IsGroup;
    var b := Permute(BitsOf(ds), PC_2);
    forall i | 0 <= i < 8
      ensures IsGroup(PickedKey(ds)[i]) && forall j :: 0 <= j < 6 ==> b[6 * i + j] == GroupBit(PickedKey(ds)[i], j)
    {
      PickedRow(ds, i);
    }
    SameGroups(b, PickedKey(ds));
  }

  lemma BitOfDigit(ds: seq<nat>, i: nat, j: nat)
    requires i < |ds| && j < 4
    ensures BitAt(ds, 4 * i + j + 1) == Bit(ds[i], j)
  {
    hide Bit;
  }

  lemma ExpandedRow(n: seq<nat>, i: nat)
    requires |n| == 8 && i < 8 && |E| == 48
    ensures var g := Expanded(n)[i];
            && g.first == BitAt(n, E[6 * i]) && g.last == BitAt(n, E[6 * i + 5])
            && Bit(g.middle, 0) == BitAt(n, E[6 * i + 1]) && Bit(g.middle, 1) == BitAt(n, E[6 * i + 2])
            && Bit(g.middle, 2) == BitAt(n, E[6 * i + 3]) && Bit(g.middle, 3) == BitAt(n, E[6 * i + 4])
  {
    hide Bit, BitAt, E;
    RowOfE(i);
    BitOfDigit(n, (i + 7) % 8, 3);
    BitOfDigit(n, (i + 1) % 8, 0);
    BitOfDigit(n, i, 0);
    BitOfDigit(n, i, 1);
    BitOfDigit(n, i, 2);
    BitOfDigit(n, i, 3);
  }

  lemma ExpandsDigits(n: seq<nat>)
    requires |n| == 8
    ensures |E| == 48 && Permute(BitsOf(n), E) == SixesOf(Expanded(n)) 
  {
    TableSizes();
    hide E, Bit, Expanded;
    var b := Permute(BitsOf(n), E);
    forall i, j | 0 <= i < 8 && 0 <= j < 6
      ensures b[6 * i + j] == GroupBit(Expanded(n)[i], j)
    {
      ExpandedRow(n, i);
      assert j == 0 || j == 1 || j == 2 || j == 3 || j == 4 || j == 5;
    }
    SameGroups(b, Expanded(n));
  }

  function XorGroups(a: seq<Group>, b: seq<Group>): (r: seq<Group>)
    requires |a| == |b| == 8
    ensures Groups(r)
  {
    seq(8, i requires 0 <= i < 8 =>
      Group(Differ(a[i].first, b[i].first), XorFour(a[i].middle, b[i].middle), Differ(a[i].last, b[i].last)))
  }

  lemma XorOfGroups(a: seq<Group>, b: seq<Group>)
    requires |a| == |b| == 8
    ensures Xor(SixesOf(a), SixesOf(b)) == SixesOf(XorGroups(a, b))
  {
    hide Bit, XorFour;
    var x, d := Xor(SixesOf(a), SixesOf(b)), XorGroups(a, b);
    forall i, j | 0 <= i < 8 && 0 <= j < 6 ensures x[6 * i + j] == GroupBit(d[i], j) {
      if 1 <= j <= 4 {
        XorFourBits(a[i].middle, b[i].middle, j - 1);
      }
    }
    SameGroups(x, d);
  }

  lemma ValueOfNibble(b: Bits, d: nat)
    requires |b| == 4 && d < 16 && forall j :: 0 <= j < 4 ==> b[j] == Bit(d, j)
    ensures Value(b, 2) == d
  {
    hide Bit;
    ValueOfFour(b);
    FourOfBits(d);
  }

  function Selected(g: Group, i: nat): (v: nat)
    requires IsGroup(g) && i < 8
    ensures v < 16
  {
    SBoxShapes();
    S_BOXES[i][2 * g.first + g.last][g.middle]
  }

  function SelectedAll(x: seq<Group>): (s: seq<nat>)
    requires Groups(x)
    ensures |s| == 8 && Digits(s, 16)
  {
    seq(8, i requires 0 <= i < 8 => Selected(x[i], i))
  }

  lemma BlockOf(x: seq<Group>, i: nat)
    requires Groups(x) && i < 8
    ensures var block := SixesOf(x)[6 * i..6 * i + 6];
            IsBits(block) && SBox(block, i) == Selected(x[i], i)
  {
    hide Bit, SBox;
    BlockBits(x, i);
    BlockSelects(SixesOf(x)[6 * i..6 * i + 6], x[i], i);
  }

  lemma BlockBits(x: seq<Group>, i: nat)
    requires Groups(x) && i < 8
    ensures forall j :: 0 <= j < 6 ==> SixesOf(x)[6 * i..6 * i + 6][j] == GroupBit(x[i], j)
  {
    hide GroupBit;
    forall j | 0 <= j < 6 ensures SixesOf(x)[6 * i..6 * i + 6][j] == GroupBit(x[i], j) {
      assert (6 * i + j) / 6 == i && (6 * i + j) % 6 == j;
    }
  }

  lemma BlockSelects(b: Bits, g: Group, i: nat)
    requires |b| == 6 && IsGroup(g) && i < 8 && forall j :: 0 <= j < 6 ==> b[j] == GroupBit(g, j)
    ensures IsBits(b) && SBox(b, i) == Selected(g, i)
  {
    hide Bit;
    assert forall j :: 0 <= j < 4 ==> b[1..5][j] == b[j + 1];
    ValueOfNibble(b[1..5], g.middle);
  }

  lemma FourBits(v: nat)
    requires v < 16
    ensures Zfill(Shortest(v, 2), 4) == Nibble(v)
  {
    assert Pow(2, 4) == 16;
    PaddedIsFixed(v, 2, 4);
    LastDigitsBits(0, v, 0);
  }

  lemma NibbleDigits(v: nat)
    requires v < 16
    ensures Nibble(v) == [v / 2 / 2 / 2 % 2, v / 2 / 2 % 2, v / 2 % 2, v % 2]
  {
    var a := v / 2;
    var b := a / 2;
    var c := b / 2;
    assert c < 2 && v == 8 * c + 4 * (b % 2) + 2 * (a % 2) + v % 2;
    BitsOfFour(c, b % 2, a % 2, v % 2);
  }

  lemma {:induction false} SubstitutesDigits(x: seq<Group>, i: nat)
    requires Groups(x) && i <= 8 && IsBits(SixesOf(x))
    ensures SBoxSubstitution(SixesOf(x), i) == BitsOf(SelectedAll(x)[..i])
  {
    hide Bit, Nibble, GroupBit, Selected, SBox, Zfill, Shortest;
    if i > 0 {
      SubstitutesDigits(x, i - 1);
      BlockOf(x, i - 1);
      FourBits(Selected(x[i - 1], i - 1));
      OneMoreDigit(SelectedAll(x), i - 1);
    }
  }

  lemma GroupsAreBits(x: seq<Group>)
    requires Groups(x)
    ensures IsBits(SixesOf(x))
  {
    hide Bit;
  }

  lemma OneMoreDigit(ds: seq<nat>, i: nat)
    requires i < |ds|
    ensures BitsOf(ds[..i + 1]) == BitsOf(ds[..i]) + Nibble(ds[i])
  {
    hide Bit;
  }

  function FeistelDigits(n: seq<nat>, k: seq<Group>): (f: seq<nat>)
    requires |n| == |k| == 8
    ensures |f| == 8
  {
    Placed(SelectedAll(XorGroups(Expanded(n), k)))
  }

  lemma FeistelOnDigits(n: seq<nat>, k: seq<Group>)
    requires |n| == |k| == 8
    ensures FeistelFunction(BitsOf(n), SixesOf(k)) == BitsOf(FeistelDigits(n, k)) && Digits(FeistelDigits(n, k), 16)
  {
    hide Bit, Expanded, XorGroups, SelectedAll, Placed, Permute, SBoxSubstitution, Xor, BitsOf, SixesOf, E, P, IsGroup;
    TableSizes();
    ExpandsDigits(n);
    XorOfGroups(Expanded(n), k);
    var x := XorGroups(Expanded(n), k);
    GroupsAreBits(x);
    SubstitutesDigits(x, 8);
    assert SelectedAll(x)[..8] == SelectedAll(x);
    PlacesDigits(SelectedAll(x));
  }

  // ----- the key schedule -----

  function Following(h: seq<nat>, i: nat): nat
    requires |h| == 7 && i < 7
  {
    if i == 6 then h[0] else h[i + 1]
  }

  // A key half of seven digits, rotated to the left by n = 0, 1 or 2 bits.
  function Turned(h: seq<nat>, n: nat): (r: seq<nat>)
    requires |h| == 7
    ensures |r| == 7
  {
    if n == 0 then h
    else if n == 1 then
      seq(7, i requires 0 <= i < 7 => Four(Bit(h[i], 1), Bit(h[i], 2), Bit(h[i], 3), Bit(Following(h, i), 0)))
    else
      seq(7, i requires 0 <= i < 7 => Four(Bit(h[i], 2), Bit(h[i], 3), Bit(Following(h, i), 0), Bit(Following(h, i), 1)))
  }

  lemma TurnedRow(h: seq<nat>, i: nat)
    requires |h| == 7 && i < 7
    ensures Turned(h, 1)[i] == Four(Bit(h[i], 1), Bit(h[i], 2), Bit(h[i], 3), Bit(Following(h, i), 0))
    ensures Turned(h, 2)[i] == Four(Bit(h[i], 2), Bit(h[i], 3), Bit(Following(h, i), 0), Bit(Following(h, i), 1))
  {
    hide Bit, Four;
  }

  lemma TurnedBits(h: seq<nat>, n: nat, i: nat, j: nat)
    requires |h| == 7 && 1 <= n <= 2 && i < 7 && j < 4
    ensures Bit(Turned(h, n)[i], j) == if j + n < 4 then Bit(h[i], j + n) else Bit(Following(h, i), j + n - 4)
  {
    hide Bit, Four, Turned;
    var m := Following(h, i);
    TurnedRow(h, i);
    BitsOfFour(Bit(h[i], 1), Bit(h[i], 2), Bit(h[i], 3), Bit(m, 0));
    BitsOfFour(Bit(h[i], 2), Bit(h[i], 3), Bit(m, 0), Bit(m, 1));
    assert n == 1 || n == 2;
    assert j == 0 || j == 1 || j == 2 || j == 3;
  }

  lemma ShiftedBits(h: seq<nat>, n: nat, i: nat, j: nat)
    requires |h| == 7 && 1 <= n <= 2 && i < 7 && j < 4
    ensures ShiftLeft(BitsOf(h), n)[4 * i + j] == if j + n < 4 then Bit(h[i], j + n) else Bit(Following(h, i), j + n - 4)
  {
    hide Bit;
    var b, k := BitsOf(h), 4 * i + j + n;
    if k < 28 {
      assert ShiftLeft(b, n)[4 * i + j] == b[k];
    } else {
      assert ShiftLeft(b, n)[4 * i + j] == b[k - 28];
    }
  }

  lemma ShiftsDigits(h: seq<nat>, n: nat)
    requires |h| == 7 && n <= 2
    ensures ShiftLeft(BitsOf(h), n) == BitsOf(Turned(h, n))
  {
    if n == 0 {
      assert ShiftLeft(BitsOf(h), 0) == BitsOf(h);
    } else {
      hide Bit, BitsOf, Turned, ShiftLeft;
      forall i | 0 <= i < 7 ensures forall j :: 0 <= j < 4 ==> ShiftLeft(BitsOf(h), n)[4 * i + j] == Bit(Turned(h, n)[i], j) {
        forall j | 0 <= j < 4 ensures ShiftLeft(BitsOf(h), n)[4 * i + j] == Bit(Turned(h, n)[i], j) {
          TurnedBits(h, n, i, j);
          ShiftedBits(h, n, i, j);
        }
      }
      SameBits(ShiftLeft(BitsOf(h), n), Turned(h, n));
    }
  }

  // The table takes bits of that many digits, and gives whole digits.
  predicate IsTable(table: seq<nat>, digits: nat) {
    |table| % 4 == 0 && forall i :: 0 <= i < |table| ==> 1 <= table[i] <= 4 * digits
  }

  lemma TheseAreTables()
    ensures |IP| == |FP| == 64 && IsTable(IP, 16) && IsTable(FP, 16)
    ensures |PC_1| == 56 && IsTable(PC_1, 16)
  {
    TableSizes();
    hide IP, FP, PC_1;
  }

  function Gathered(ds: seq<nat>, table: seq<nat>): (r: seq<nat>)
    requires |ds| >= 16 && IsTable(table, 16)
    ensures |r| == |table| / 4
  {
    seq(|table| / 4, i requires 0 <= i < |table| / 4 =>
      Four(BitAt(ds, table[4 * i]), BitAt(ds, table[4 * i + 1]), BitAt(ds, table[4 * i + 2]), BitAt(ds, table[4 * i + 3])))
  }

  lemma GatheredRow(ds: seq<nat>, table: seq<nat>, i: nat)
    requires |ds| >= 16 && IsTable(table, 16) && 4 * i < |table|
    ensures var d := Gathered(ds, table)[i];
            && d < 16 && Bit(d, 0) == BitAt(ds, table[4 * i]) && Bit(d, 1) == BitAt(ds, table[4 * i + 1])
            && Bit(d, 2) == BitAt(ds, table[4 * i + 2]) && Bit(d, 3) == BitAt(ds, table[4 * i + 3])
  {
    hide Bit, Four, BitAt;
    BitsOfFour(BitAt(ds, table[4 * i]), BitAt(ds, table[4 * i + 1]), BitAt(ds, table[4 * i + 2]), BitAt(ds, table[4 * i + 3]));
  }

  lemma GathersDigits(ds: seq<nat>, table: seq<nat>)
    requires |ds| >= 16 && IsTable(table, 16)
    ensures (forall i :: 0 <= i < |table| ==> 1 <= table[i] <= |BitsOf(ds)|)
    ensures Permute(BitsOf(ds), table) == BitsOf(Gathered(ds, table)) && Digits(Gathered(ds, table), 16)
  {
    hide Bit, Gathered;
    var b, g := Permute(BitsOf(ds), table), Gathered(ds, table);
    forall i | 0 <= i < |g| ensures g[i] < 16 && forall j :: 0 <= j < 4 ==> b[4 * i + j] == Bit(g[i], j) {
      GatheredRow(ds, table, i);
    }
    SameBits(b, g);
  }

  function KeyDigits(key: seq<nat>, i: nat): (h: (seq<nat>, seq<nat>))
    requires |key| >= 16 && i <= 16
    ensures |h.0| == |h.1| == 7
  {
    TheseAreTables();
    if i == 0 then (Gathered(key, PC_1)[..7], Gathered(key, PC_1)[7..])
    else
      var (c, d) := KeyDigits(key, i - 1);
      ShiftBounds(i - 1);
      (Turned(c, SHIFT_TABLE[i - 1]), Turned(d, SHIFT_TABLE[i - 1]))
  }

  lemma CutDigits(ds: seq<nat>, k: nat)
    requires k <= |ds|
    ensures BitsOf(ds)[..4 * k] == BitsOf(ds[..k]) && BitsOf(ds)[4 * k..] == BitsOf(ds[k..])
  {
    hide Bit;
  }

  lemma JoinDigits(a: seq<nat>, b: seq<nat>)
    ensures BitsOf(a) + BitsOf(b) == BitsOf(a + b)
  {
    hide Bit;
  }

  lemma {:induction false} KeyHalvesOnDigits(key: seq<nat>, i: nat)
    requires |key| >= 16 && i <= 16
    ensures KeyHalves(BitsOf(key), i) == (BitsOf(KeyDigits(key, i).0), BitsOf(KeyDigits(key, i).1))
  {
    hide Bit, BitsOf, Gathered, Turned, Permute, ShiftLeft, PC_1;
    TheseAreTables();
    if i == 0 {
      GathersDigits(key, PC_1);
      CutDigits(Gathered(key, PC_1), 7);
    } else {
      ShiftBounds(i - 1);
      KeyHalvesOnDigits(key, i - 1);
      ShiftsDigits(KeyDigits(key, i - 1).0, SHIFT_TABLE[i - 1]);
      ShiftsDigits(KeyDigits(key, i - 1).1, SHIFT_TABLE[i - 1]);
    }
  }

  function RoundKeyDigits(key: seq<nat>, i: nat): (k: seq<Group>)
    requires |key| >= 16 && i < 16
    ensures |k| == 8
  {
    PickedKey(KeyDigits(key, i + 1).0 + KeyDigits(key, i + 1).1)
  }

  lemma RoundKeyOnDigits(key: seq<nat>, i: nat)
    requires |key| >= 16 && i < 16
    ensures RoundKey(BitsOf(key), i) == SixesOf(RoundKeyDigits(key, i))
  {
    hide Bit, BitsOf, SixesOf, PickedKey, Permute, PC_2, KeyDigits, KeyHalves;
    TableSizes();
    KeyHalvesOnDigits(key, i + 1);
    JoinDigits(KeyDigits(key, i + 1).0, KeyDigits(key, i + 1).1);
    PicksKey(KeyDigits(key, i + 1).0 + KeyDigits(key, i + 1).1);
  }

  // ----- the cipher on digits -----

  // The right half after i rounds; before the first one, the two halves of the permuted block.
  function RightDigits(text: seq<nat>, key: seq<nat>, i: nat): (r: seq<nat>)
    requires |text| >= 16 && |key| >= 16 && i <= 17
    ensures |r| == 8
  {
    TheseAreTables();
    if i == 0 then Gathered(text, IP)[..8]
    else if i == 1 then Gathered(text, IP)[8..]
    else XorDigits(RightDigits(text, key, i - 2), FeistelDigits(RightDigits(text, key, i - 1), RoundKeyDigits(key, i - 2)))
  }

  function CipherDigits(text: seq<nat>, key: seq<nat>): (r: seq<nat>)
    requires |text| >= 16 && |key| >= 16
    ensures |r| == 16
  {
    TheseAreTables();
    Gathered(RightDigits(text, key, 17) + RightDigits(text, key, 16), FP)
  }

  lemma {:induction false} RoundsOnDigits(text: seq<nat>, key: seq<nat>, i: nat)
    requires |text| >= 16 && |key| >= 16 && i <= 16
    ensures |IP| == 64
    ensures Rounds(Permute(BitsOf(text), IP)[..32], Permute(BitsOf(text), IP)[32..], KeySequence(BitsOf(key)), i)
         == (BitsOf(RightDigits(text, key, i)), BitsOf(RightDigits(text, key, i + 1)))
  {
    hide Bit, BitsOf, SixesOf, Gathered, Permute, IP, XorDigits, FeistelDigits, FeistelFunction, RoundKeyDigits, RoundKey, Xor;
    TheseAreTables();
    if i == 0 {
      GathersDigits(text, IP);
      CutDigits(Gathered(text, IP), 8);
    } else {
      RoundsOnDigits(text, key, i - 1);
      RoundKeyOnDigits(key, i - 1);
      FeistelOnDigits(RightDigits(text, key, i), RoundKeyDigits(key, i - 1));
      XorOfDigits(RightDigits(text, key, i - 1), FeistelDigits(RightDigits(text, key, i), RoundKeyDigits(key, i - 1)));
    }
  }

  lemma CryptOnDigits(text: seq<nat>, key: seq<nat>)
    requires |text| >= 16 && |key| >= 16
    ensures Crypt(BitsOf(text), KeySequence(BitsOf(key))) == BitsOf(CipherDigits(text, key))
    ensures Digits(CipherDigits(text, key), 16)
  {
    hide Bit, BitsOf, Gathered, Permute, IP, FP, RightDigits, Rounds, KeySequence;
    TheseAreTables();
    RoundsOnDigits(text, key, 16);
    var r := RightDigits(text, key, 17) + RightDigits(text, key, 16);
    JoinDigits(RightDigits(text, key, 17), RightDigits(text, key, 16));
    GathersDigits(r, FP);
  }

  // ----- hexadecimal text -----

  lemma LastDigitsBits(v: nat, d: nat, w: nat)
    requires d < 16
    ensures Fixed(v * 16 + d, 2, w + 4) == Fixed(v, 2, w) + Nibble(d)
  {
    var x := v * 16 + d;
    assert x / 2 == v * 8 + d / 2 && x / 2 / 2 == v * 4 + d / 2 / 2 && x / 2 / 2 / 2 == v * 2 + d / 2 / 2 / 2 && x / 2 / 2 / 2 / 2 == v;
    NibbleDigits(d);
    hide Nibble;
    assert Fixed(x, 2, w + 4) == Fixed(x / 2, 2, w + 3) + [x % 2];
    assert Fixed(x / 2, 2, w + 3) == Fixed(x / 2 / 2, 2, w + 2) + [x / 2 % 2];
    assert Fixed(x / 2 / 2, 2, w + 2) == Fixed(x / 2 / 2 / 2, 2, w + 1) + [x / 2 / 2 % 2];
    assert Fixed(x / 2 / 2 / 2, 2, w + 1) == Fixed(v, 2, w) + [x / 2 / 2 / 2 % 2];
  }

  lemma {:induction false} FixedIsBitsOf(ds: seq<nat>)
    requires Digits(ds, 16)
    ensures Fixed(Value(ds, 16), 2, 4 * |ds|) == BitsOf(ds)
  {
    hide Nibble;
    if ds != [] {
      var front := ds[..|ds| - 1];
      FixedIsBitsOf(front);
      hide Fixed;
      LastDigitsBits(Value(front, 16), ds[|ds| - 1], 4 * |front|);
      OneMoreDigit(ds, |front|);
      assert ds[..|front| + 1] == ds;
    }
  }

  // Four bits for every digit, and every four bits a digit again.
  lemma TextOnDigits(s: string, ds: seq<nat>)
    requires IsHex(s) && ds != [] && Digits(ds, 16)
    ensures HexToBin(s) == BitsOf(HexDigits(s))
    ensures IsBits(BitsOf(ds)) && BinToHex(BitsOf(ds)) == UpperText(ds)
  {
    HexToBinIsFixed(s);
    FixedIsBitsOf(HexDigits(s));
    UpperDigitsRead(ds);
    HexToBinIsFixed(UpperText(ds));
    FixedIsBitsOf(ds);
    HexToBinToHex(UpperText(ds));
  }

  // DES on the digits is DES on the text, for every hexadecimal text and key of at least 16 digits.
  lemma DesOnDigits(text: string, key: string)
    requires IsHex(text) && IsHex(key) && |text| >= 16 && |key| >= 16
    ensures DesText(text, key, false) == Text(UpperText(CipherDigits(HexDigits(text), HexDigits(key))))
  {
    hide Bit, BitsOf, Crypt, KeySequence, CipherDigits, HexToBin, BinToHex;
    CryptOnDigits(HexDigits(text), HexDigits(key));
    TextOnDigits(text, CipherDigits(HexDigits(text), HexDigits(key)));
    TextOnDigits(key, CipherDigits(HexDigits(text), HexDigits(key)));
  }
}
