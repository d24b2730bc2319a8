// A known example of DES, text 0123456789ABCDEF under key 133457799BBCDFF1, carried through the key
// schedule and the sixteen rounds.
module DesVector {
  import opened DesTables
  import opened Des
  import opened DesDigits

  const TEXT: seq<nat> := [0, 1, 2, 3, 4, 5, 6, 7, 8, 9, 10, 11, 12, 13, 14, 15]
  const KEY: seq<nat> := [1, 3, 3, 4, 5, 7, 7, 9, 9, 11, 11, 12, 13, 15, 15, 1]
  const LAST: seq<nat> := [0, 10, 4, 12, 13, 9, 9, 5, 4, 3, 4, 2, 3, 2, 3, 4]
  const CIPHER: seq<nat> := [8, 5, 14, 8, 1, 3, 5, 4, 0, 15, 0, 10, 11, 4, 0, 5]

  // The first half of the key after each rotation.
  function Lefts(i: nat): (t: seq<nat>)
    ensures |t| == 7
  {
    match i
    case 0 => [15, 0, 12, 12, 10, 10, 15]
    case 1 => [14, 1, 9, 9, 5, 5, 15]
    case 2 => [12, 3, 3, 2, 10, 11, 15]
    case 3 => [0, 12, 12, 10, 10, 15, 15]
    case 4 => [3, 3, 2, 10, 11, 15, 12]
    case 5 => [12, 12, 10, 10, 15, 15, 0]
    case 6 => [3, 2, 10, 11, 15, 12, 3]
    case 7 => [12, 10, 10, 15, 15, 0, 12]
    case 8 => [2, 10, 11, 15, 12, 3, 3]
    case 9 => [5, 5, 7, 15, 8, 6, 6]
    case 10 => [5, 5, 15, 14, 1, 9, 9]
    case 11 => [5, 7, 15, 8, 6, 6, 5]
    case 12 => [5, 15, 14, 1, 9, 9, 5]
    case 13 => [7, 15, 8, 6, 6, 5, 5]
    case 14 => [15, 14, 1, 9, 9, 5, 5]
    case 15 => [15, 8, 6, 6, 5, 5, 7]
    case _ => [15, 0, 12, 12, 10, 10, 15]
  }

  // The second half.
  function Ends(i: nat): (t: seq<nat>)
    ensures |t| == 7
  {
    match i
    case 0 => [5, 5, 6, 6, 7, 8, 15]
    case 1 => [10, 10, 12, 12, 15, 1, 14]
    case 2 => [5, 5, 9, 9, 14, 3, 13]
    case 3 => [5, 6, 6, 7, 8, 15, 5]
    case 4 => [5, 9, 9, 14, 3, 13, 5]
    case 5 => [6, 6, 7, 8, 15, 5, 5]
    case 6 => [9, 9, 14, 3, 13, 5, 5]
    case 7 => [6, 7, 8, 15, 5, 5, 6]
    case 8 => [9, 14, 3, 13, 5, 5, 9]
    case 9 => [3, 12, 7, 10, 10, 11, 3]
    case 10 => [15, 1, 14, 10, 10, 12, 12]
    case 11 => [12, 7, 10, 10, 11, 3, 3]
    case 12 => [1, 14, 10, 10, 12, 12, 15]
    case 13 => [7, 10, 10, 11, 3, 3, 12]
    case 14 => [14, 10, 10, 12, 12, 15, 1]
    case 15 => [10, 10, 11, 3, 3, 12, 7]
    case _ => [5, 5, 6, 6, 7, 8, 15]
  }

  // The round keys.
  function Keys(i: nat): (t: seq<Group>)
    ensures |t| == 8
  {
    match i
    case 0 => [Group(0, 3, 0), Group(1, 8, 0), Group(0, 5, 1), Group(1, 7, 1), Group(1, 15, 1), Group(0, 3, 1), Group(0, 0, 1), Group(1, 9, 0)]
    case 1 => [Group(0, 15, 0), Group(0, 13, 0), Group(1, 13, 1), Group(0, 12, 1), Group(1, 11, 0), Group(1, 14, 0), Group(1, 3, 1), Group(1, 2, 1)]
    case 2 => [Group(0, 10, 1), Group(0, 15, 1), Group(1, 9, 0), Group(0, 5, 0), Group(0, 8, 0), Group(1, 6, 0), Group(1, 15, 0), Group(0, 12, 1)]
    case 3 => [Group(0, 14, 0), Group(1, 5, 0), Group(1, 11, 1), Group(0, 11, 0), Group(1, 11, 0), Group(1, 9, 1), Group(0, 10, 0), Group(0, 14, 1)]
    case 4 => [Group(0, 15, 1), Group(0, 7, 0), Group(1, 8, 0), Group(0, 3, 1), Group(1, 13, 0), Group(1, 10, 1), Group(0, 7, 0), Group(1, 4, 0)]
    case 5 => [Group(0, 12, 0), Group(1, 13, 0), Group(0, 10, 0), Group(1, 15, 0), Group(0, 10, 0), Group(0, 3, 1), Group(1, 6, 0), Group(1, 7, 1)]
    case 6 => [Group(1, 13, 1), Group(0, 4, 0), Group(0, 9, 0), Group(1, 11, 1), Group(1, 14, 1), Group(1, 0, 1), Group(1, 1, 0), Group(1, 14, 0)]
    case 7 => [Group(1, 14, 1), Group(1, 12, 0), Group(1, 4, 0), Group(1, 13, 0), Group(1, 8, 0), Group(0, 9, 1), Group(1, 7, 1), Group(1, 13, 1)]
    case 8 => [Group(1, 12, 0), Group(0, 6, 1), Group(1, 7, 1), Group(1, 5, 1), Group(1, 13, 1), Group(0, 15, 0), Group(0, 15, 0), Group(0, 0, 1)]
    case 9 => [Group(1, 6, 0), Group(0, 15, 1), Group(0, 6, 1), Group(0, 3, 1), Group(1, 7, 0), Group(1, 2, 0), Group(0, 12, 1), Group(0, 7, 1)]
    case 10 => [Group(0, 4, 0), Group(0, 10, 1), Group(1, 15, 1), Group(0, 9, 1), Group(1, 11, 1), Group(1, 6, 1), Group(0, 7, 0), Group(0, 3, 0)]
    case 11 => [Group(0, 14, 1), Group(0, 11, 1), Group(0, 3, 1), Group(1, 10, 1), Group(1, 2, 1), Group(0, 3, 0), Group(0, 15, 1), Group(1, 4, 1)]
    case 12 => [Group(1, 2, 1), Group(1, 14, 0), Group(0, 11, 1), Group(0, 8, 1), Group(1, 15, 0), Group(1, 5, 1), Group(1, 4, 1), Group(0, 0, 1)]
    case 13 => [Group(0, 11, 1), Group(1, 10, 0), Group(0, 7, 0), Group(1, 11, 1), Group(1, 14, 0), Group(1, 7, 0), Group(0, 14, 0), Group(1, 13, 0)]
    case 14 => [Group(1, 7, 1), Group(1, 12, 1), Group(0, 3, 0), Group(0, 6, 1), Group(0, 7, 1), Group(0, 9, 1), Group(1, 14, 0), Group(0, 5, 0)]
    case _ => [Group(1, 9, 0), Group(1, 9, 1), Group(1, 11, 0), Group(0, 5, 1), Group(0, 1, 1), Group(1, 0, 1), Group(0, 15, 1), Group(1, 10, 1)]
  }

  // The halves of the permuted block, and the right half after each round.
  function Rights(i: nat): (t: seq<nat>)
    ensures |t| == 8
  {
    match i
    case 0 => [12, 12, 0, 0, 12, 12, 15, 15]
    case 1 => [15, 0, 10, 10, 15, 0, 10, 10]
    case 2 => [14, 15, 4, 10, 6, 5, 4, 4]
    case 3 => [12, 12, 0, 1, 7, 7, 0, 9]
    case 4 => [10, 2, 5, 12, 0, 11, 15, 4]
    case 5 => [7, 7, 2, 2, 0, 0, 4, 5]
    case 6 => [8, 10, 4, 15, 10, 6, 3, 7]
    case 7 => [14, 9, 6, 7, 12, 13, 6, 9]
    case 8 => [0, 6, 4, 10, 11, 10, 1, 0]
    case 9 => [13, 5, 6, 9, 4, 11, 9, 0]
    case 10 => [2, 4, 7, 12, 12, 6, 7, 10]
    case 11 => [11, 7, 13, 5, 13, 7, 11, 2]
    case 12 => [12, 5, 7, 8, 3, 12, 7, 8]
    case 13 => [7, 5, 11, 13, 1, 8, 5, 8]
    case 14 => [1, 8, 12, 3, 1, 5, 5, 10]
    case 15 => [12, 2, 8, 12, 9, 6, 0, 13]
    case 16 => [4, 3, 4, 2, 3, 2, 3, 4]
    case _ => [0, 10, 4, 12, 13, 9, 9, 5]
  }

  // What the round function gives.
  function Places(i: nat): (t: seq<nat>)
    ensures |t| == 8
  {
    match i
    case 0 => [2, 3, 4, 10, 10, 9, 11, 11]
    case 1 => [3, 12, 10, 11, 8, 7, 10, 3]
    case 2 => [4, 13, 1, 6, 6, 14, 11, 0]
    case 3 => [11, 11, 2, 3, 7, 7, 4, 12]
    case 4 => [2, 8, 1, 3, 10, 13, 12, 3]
    case 5 => [9, 14, 4, 5, 12, 13, 2, 12]
    case 6 => [8, 12, 0, 5, 1, 12, 2, 7]
    case 7 => [3, 12, 0, 14, 8, 6, 15, 9]
    case 8 => [2, 2, 3, 6, 7, 12, 6, 10]
    case 9 => [6, 2, 11, 12, 9, 12, 2, 2]
    case 10 => [14, 1, 0, 4, 15, 10, 0, 2]
    case 11 => [12, 2, 6, 8, 12, 15, 14, 10]
    case 12 => [13, 13, 11, 11, 2, 9, 2, 2]
    case 13 => [11, 7, 3, 1, 8, 14, 5, 5]
    case 14 => [5, 11, 8, 1, 2, 7, 6, 14]
    case _ => [12, 8, 12, 0, 4, 15, 9, 8]
  }

  // What goes into the S-boxes in each round ...
  function Inputs(i: nat): (t: seq<Group>)
    ensures |t| == 8
  {
    match i
    case 0 => [Group(0, 12, 0), Group(0, 8, 1), Group(0, 15, 0), Group(1, 13, 0), Group(1, 0, 1), Group(1, 3, 0), Group(0, 10, 0), Group(1, 3, 1)]
    case 1 => [Group(0, 1, 1), Group(0, 2, 0), Group(0, 9, 0), Group(0, 6, 1), Group(1, 13, 0), Group(1, 11, 0), Group(0, 7, 1), Group(1, 6, 0)]
    case 2 => [Group(1, 6, 0), Group(0, 3, 1), Group(1, 9, 0), Group(0, 4, 0), Group(1, 15, 0), Group(0, 1, 0), Group(0, 15, 1), Group(0, 5, 0)]
    case 3 => [Group(0, 4, 0), Group(1, 7, 0), Group(1, 14, 0), Group(1, 7, 0), Group(1, 11, 1), Group(1, 2, 0), Group(1, 5, 0), Group(1, 10, 0)]
    case 4 => [Group(1, 8, 1), Group(1, 0, 0), Group(0, 10, 0), Group(0, 1, 1), Group(1, 13, 0), Group(1, 10, 1), Group(0, 3, 0), Group(1, 1, 0)]
    case 5 => [Group(1, 4, 1), Group(1, 7, 0), Group(0, 14, 1), Group(1, 0, 1), Group(1, 0, 0), Group(0, 5, 1), Group(1, 5, 0), Group(0, 0, 0)]
    case 6 => [Group(0, 3, 0), Group(0, 13, 0), Group(1, 15, 0), Group(1, 12, 0), Group(0, 2, 0), Group(1, 13, 1), Group(0, 7, 1), Group(1, 7, 1)]
    case 7 => [Group(1, 14, 1), Group(1, 10, 0), Group(1, 0, 1), Group(1, 7, 1), Group(1, 3, 1), Group(1, 3, 1), Group(1, 6, 1), Group(0, 13, 1)]
    case 8 => [Group(1, 1, 0), Group(1, 3, 1), Group(0, 1, 0), Group(1, 12, 1), Group(0, 9, 0), Group(0, 4, 1), Group(1, 6, 0), Group(1, 0, 0)]
    case 9 => [Group(1, 4, 0), Group(0, 11, 1), Group(0, 1, 0), Group(1, 15, 0), Group(1, 11, 0), Group(1, 4, 0), Group(0, 11, 0), Group(1, 13, 1)]
    case 10 => [Group(0, 15, 0), Group(1, 13, 0), Group(0, 2, 1), Group(1, 12, 0), Group(0, 6, 1), Group(0, 1, 0), Group(1, 12, 0), Group(1, 1, 1)]
    case 11 => [Group(0, 2, 1), Group(0, 14, 1), Group(1, 4, 0), Group(0, 2, 1), Group(1, 1, 0), Group(1, 15, 0), Group(0, 8, 0), Group(0, 12, 0)]
    case 12 => [Group(1, 5, 1), Group(0, 11, 1), Group(1, 0, 0), Group(1, 5, 1), Group(0, 14, 1), Group(0, 13, 1), Group(1, 1, 0), Group(1, 8, 1)]
    case 13 => [Group(0, 10, 0), Group(0, 2, 1), Group(0, 11, 0), Group(1, 8, 1), Group(0, 15, 0), Group(0, 2, 0), Group(1, 11, 1), Group(0, 7, 0)]
    case 14 => [Group(0, 11, 1), Group(1, 14, 0), Group(0, 11, 1), Group(0, 10, 0), Group(0, 14, 1), Group(1, 15, 1), Group(1, 14, 1), Group(0, 8, 1)]
    case _ => [Group(1, 13, 0), Group(1, 10, 1), Group(0, 15, 0), Group(0, 7, 1), Group(0, 2, 1), Group(0, 2, 1), Group(0, 12, 1), Group(0, 14, 1)]
  }

  // ... and what comes out.
  function Boxes(i: nat): (t: seq<nat>)
    ensures |t| == 8
  {
    match i
    case 0 => [5, 12, 8, 2, 11, 5, 9, 7]
    case 1 => [15, 8, 13, 0, 3, 10, 10, 14]
    case 2 => [2, 7, 1, 0, 14, 1, 6, 15]
    case 3 => [2, 1, 14, 13, 9, 15, 3, 10]
    case 4 => [5, 0, 12, 8, 3, 1, 14, 11]
    case 5 => [4, 1, 15, 3, 4, 12, 3, 13]
    case 6 => [1, 0, 7, 5, 4, 0, 10, 13]
    case 7 => [6, 12, 1, 8, 7, 12, 10, 14]
    case 8 => [1, 1, 0, 12, 5, 7, 7, 7]
    case 9 => [13, 10, 0, 4, 5, 2, 7, 5]
    case 10 => [7, 3, 0, 5, 13, 1, 0, 1]
    case 11 => [7, 11, 8, 11, 2, 6, 3, 5]
    case 12 => [9, 10, 13, 1, 8, 11, 4, 15]
    case 13 => [6, 4, 7, 9, 9, 10, 15, 1]
    case 14 => [11, 2, 14, 8, 8, 13, 3, 12]
    case _ => [10, 7, 8, 3, 2, 4, 2, 9]
  }

  // ----- the numbers of the tables follow from one another -----

  // x is the sum of a and b, bit by bit.
  ghost predicate IsSum(a: nat, b: nat, x: nat) {
    && x < 16 && Bit(x, 0) == Differ(Bit(a, 0), Bit(b, 0)) && Bit(x, 1) == Differ(Bit(a, 1), Bit(b, 1))
    && Bit(x, 2) == Differ(Bit(a, 2), Bit(b, 2)) && Bit(x, 3) == Differ(Bit(a, 3), Bit(b, 3))
  }

  ghost predicate HasBits(x: nat, p: nat, q: nat, r: nat, s: nat) {
    x < 16 && Bit(x, 0) == p && Bit(x, 1) == q && Bit(x, 2) == r && Bit(x, 3) == s
  }

  ghost predicate InputFits(before: nat, digit: nat, after: nat, k: Group, g: Group) {
    g.first == Differ(Bit(before, 3), k.first) && IsSum(digit, k.middle, g.middle) && g.last == Differ(Bit(after, 0), k.last)
  }

  ghost predicate InputsFit(r: nat)
    requires r < 16
  {
    var n, k, g := Rights(r + 1), Keys(r), Inputs(r);
    && InputFits(n[7], n[0], n[1], k[0], g[0]) && InputFits(n[0], n[1], n[2], k[1], g[1])
    && InputFits(n[1], n[2], n[3], k[2], g[2]) && InputFits(n[2], n[3], n[4], k[3], g[3])
    && InputFits(n[3], n[4], n[5], k[4], g[4]) && InputFits(n[4], n[5], n[6], k[5], g[5])
    && InputFits(n[5], n[6], n[7], k[6], g[6]) && InputFits(n[6], n[7], n[0], k[7], g[7])
  }

  ghost predicate BoxFits(r: nat, i: nat)
    requires r < 16 && i < 8
  {
    IsGroup(Inputs(r)[i]) && Boxes(r)[i] == Selected(Inputs(r)[i], i)
  }

  ghost predicate FirstBoxesFit(r: nat)
    requires r < 16
  {
    BoxFits(r, 0) && BoxFits(r, 1) && BoxFits(r, 2) && BoxFits(r, 3)
  }

  ghost predicate LastBoxesFit(r: nat)
    requires r < 16
  {
    BoxFits(r, 4) && BoxFits(r, 5) && BoxFits(r, 6) && BoxFits(r, 7)
  }

  ghost predicate PlacesFit(r: nat)
    requires r < 16
  {
    var b, q := Boxes(r), Places(r);
    && HasBits(q[0], Bit(b[3], 3), Bit(b[1], 2), Bit(b[4], 3), Bit(b[5], 0))
    && HasBits(q[1], Bit(b[7], 0), Bit(b[2], 3), Bit(b[6], 3), Bit(b[4], 0))
    && HasBits(q[2], Bit(b[0], 0), Bit(b[3], 2), Bit(b[5], 2), Bit(b[6], 1))
    && HasBits(q[3], Bit(b[1], 0), Bit(b[4], 1), Bit(b[7], 2), Bit(b[2], 1))
    && HasBits(q[4], Bit(b[0], 1), Bit(b[1], 3), Bit(b[5], 3), Bit(b[3], 1))
    && HasBits(q[5], Bit(b[7], 3), Bit(b[6], 2), Bit(b[0], 2), Bit(b[2], 0))
    && HasBits(q[6], Bit(b[4], 2), Bit(b[3], 0), Bit(b[7], 1), Bit(b[1], 1))
    && HasBits(q[7], Bit(b[5], 1), Bit(b[2], 2), Bit(b[0], 3), Bit(b[6], 0))
  }

  ghost predicate RightsFit(r: nat)
    requires r < 16
  {
    var l, p, n := Rights(r), Places(r), Rights(r + 2);
    && IsSum(l[0], p[0], n[0]) && IsSum(l[1], p[1], n[1]) && IsSum(l[2], p[2], n[2]) && IsSum(l[3], p[3], n[3])
    && IsSum(l[4], p[4], n[4]) && IsSum(l[5], p[5], n[5]) && IsSum(l[6], p[6], n[6]) && IsSum(l[7], p[7], n[7])
  }

  ghost predicate KeyFits(g: Group, o: nat, p: nat, q: nat, r: nat, s: nat, t: nat) {
    g.first == o && HasBits(g.middle, p, q, r, s) && g.last == t
  }

  ghost predicate KeysFit(r: nat)
    requires r < 16
  {
    var c, d, k := Lefts(r + 1), Ends(r + 1), Keys(r);
    && KeyFits(k[0], Bit(c[3], 1), Bit(c[4], 0), Bit(c[2], 2), Bit(c[5], 3), Bit(c[0], 0), Bit(c[1], 0))
    && KeyFits(k[1], Bit(c[0], 2), Bit(c[6], 3), Bit(c[3], 2), Bit(c[1], 1), Bit(c[5], 0), Bit(c[2], 1))
    && KeyFits(k[2], Bit(c[5], 2), Bit(c[4], 2), Bit(c[2], 3), Bit(c[0], 3), Bit(c[6], 1), Bit(c[1], 3))
    && KeyFits(k[3], Bit(c[3], 3), Bit(c[1], 2), Bit(c[6], 2), Bit(c[4], 3), Bit(c[3], 0), Bit(c[0], 1))
    && KeyFits(k[4], Bit(d[3], 0), Bit(d[5], 3), Bit(d[0], 2), Bit(d[2], 0), Bit(d[4], 2), Bit(d[6], 2))
    && KeyFits(k[5], Bit(d[0], 1), Bit(d[2], 3), Bit(d[5], 2), Bit(d[4], 0), Bit(d[1], 0), Bit(d[4], 3))
    && KeyFits(k[6], Bit(d[3], 3), Bit(d[5], 0), Bit(d[2], 2), Bit(d[6], 3), Bit(d[1], 1), Bit(d[6], 0))
    && KeyFits(k[7], Bit(d[4], 1), Bit(d[3], 1), Bit(d[5], 1), Bit(d[1], 3), Bit(d[0], 0), Bit(d[0], 3))
  }

  // A half turned by n bits.
  ghost predicate TurnFits(h: seq<nat>, n: nat, t: seq<nat>)
    requires |h| == |t| == 7
  {
    if n == 1 then
      && HasBits(t[0], Bit(h[0], 1), Bit(h[0], 2), Bit(h[0], 3), Bit(h[1], 0))
      && HasBits(t[1], Bit(h[1], 1), Bit(h[1], 2), Bit(h[1], 3), Bit(h[2], 0))
      && HasBits(t[2], Bit(h[2], 1), Bit(h[2], 2), Bit(h[2], 3), Bit(h[3], 0))
      && HasBits(t[3], Bit(h[3], 1), Bit(h[3], 2), Bit(h[3], 3), Bit(h[4], 0))
      && HasBits(t[4], Bit(h[4], 1), Bit(h[4], 2), Bit(h[4], 3), Bit(h[5], 0))
      && HasBits(t[5], Bit(h[5], 1), Bit(h[5], 2), Bit(h[5], 3), Bit(h[6], 0))
      && HasBits(t[6], Bit(h[6], 1), Bit(h[6], 2), Bit(h[6], 3), Bit(h[0], 0))
    else
      && HasBits(t[0], Bit(h[0], 2), Bit(h[0], 3), Bit(h[1], 0), Bit(h[1], 1))
      && HasBits(t[1], Bit(h[1], 2), Bit(h[1], 3), Bit(h[2], 0), Bit(h[2], 1))
      && HasBits(t[2], Bit(h[2], 2), Bit(h[2], 3), Bit(h[3], 0), Bit(h[3], 1))
      && HasBits(t[3], Bit(h[3], 2), Bit(h[3], 3), Bit(h[4], 0), Bit(h[4], 1))
      && HasBits(t[4], Bit(h[4], 2), Bit(h[4], 3), Bit(h[5], 0), Bit(h[5], 1))
      && HasBits(t[5], Bit(h[5], 2), Bit(h[5], 3), Bit(h[6], 0), Bit(h[6], 1))
      && HasBits(t[6], Bit(h[6], 2), Bit(h[6], 3), Bit(h[0], 0), Bit(h[0], 1))
  }

  ghost predicate TurnsFit(r: nat)
    requires r < 16
  {
    TurnFits(Lefts(r), Shift(r), Lefts(r + 1)) && TurnFits(Ends(r), Shift(r), Ends(r + 1))
  }

  function Shift(r: nat): nat {
    if r == 0 || r == 1 || r == 8 || r == 15 then 1 else 2
  }


  lemma InputsOfRound1() ensures InputsFit(0) {}
  lemma FirstBoxesOfRound1() ensures FirstBoxesFit(0) {}
  lemma LastBoxesOfRound1() ensures LastBoxesFit(0) {}
  lemma RightsOfRound1() ensures RightsFit(0) {}
  lemma InputsOfRound2() ensures InputsFit(1) {}
  lemma FirstBoxesOfRound2() ensures FirstBoxesFit(1) {}
  lemma LastBoxesOfRound2() ensures LastBoxesFit(1) {}
  lemma RightsOfRound2() ensures RightsFit(1) {}
  lemma InputsOfRound3() ensures InputsFit(2) {}
  lemma FirstBoxesOfRound3() ensures FirstBoxesFit(2) {}
  lemma LastBoxesOfRound3() ensures LastBoxesFit(2) {}
  lemma RightsOfRound3() ensures RightsFit(2) {}
  lemma InputsOfRound4() ensures InputsFit(3) {}
  lemma FirstBoxesOfRound4() ensures FirstBoxesFit(3) {}
  lemma LastBoxesOfRound4() ensures LastBoxesFit(3) {}
  lemma RightsOfRound4() ensures RightsFit(3) {}
  lemma InputsOfRound5() ensures InputsFit(4) {}
  lemma FirstBoxesOfRound5() ensures FirstBoxesFit(4) {}
  lemma LastBoxesOfRound5() ensures LastBoxesFit(4) {}
  lemma RightsOfRound5() ensures RightsFit(4) {}
  lemma InputsOfRound6() ensures InputsFit(5) {}
  lemma FirstBoxesOfRound6() ensures FirstBoxesFit(5) {}
  lemma LastBoxesOfRound6() ensures LastBoxesFit(5) {}
  lemma RightsOfRound6() ensures RightsFit(5) {}
  lemma InputsOfRound7() ensures InputsFit(6) {}
  lemma FirstBoxesOfRound7() ensures FirstBoxesFit(6) {}
  lemma LastBoxesOfRound7() ensures LastBoxesFit(6) {}
  lemma RightsOfRound7() ensures RightsFit(6) {}
  lemma InputsOfRound8() ensures InputsFit(7) {}
  lemma FirstBoxesOfRound8() ensures FirstBoxesFit(7) {}
  lemma LastBoxesOfRound8() ensures LastBoxesFit(7) {}
  lemma RightsOfRound8() ensures RightsFit(7) {}
  lemma InputsOfRound9() ensures InputsFit(8) {}
  lemma FirstBoxesOfRound9() ensures FirstBoxesFit(8) {}
  lemma LastBoxesOfRound9() ensures LastBoxesFit(8) {}
  lemma RightsOfRound9() ensures RightsFit(8) {}
  lemma InputsOfRound10() ensures InputsFit(9) {}
  lemma FirstBoxesOfRound10() ensures FirstBoxesFit(9) {}
  lemma LastBoxesOfRound10() ensures LastBoxesFit(9) {}
  lemma RightsOfRound10() ensures RightsFit(9) {}
  lemma InputsOfRound11() ensures InputsFit(10) {}
  lemma FirstBoxesOfRound11() ensures FirstBoxesFit(10) {}
  lemma LastBoxesOfRound11() ensures LastBoxesFit(10) {}
  lemma RightsOfRound11() ensures RightsFit(10) {}
  lemma InputsOfRound12() ensures InputsFit(11) {}
  lemma FirstBoxesOfRound12() ensures FirstBoxesFit(11) {}
  lemma LastBoxesOfRound12() ensures LastBoxesFit(11) {}
  lemma RightsOfRound12() ensures RightsFit(11) {}
  lemma InputsOfRound13() ensures InputsFit(12) {}
  lemma FirstBoxesOfRound13() ensures FirstBoxesFit(12) {}
  lemma LastBoxesOfRound13() ensures LastBoxesFit(12) {}
  lemma RightsOfRound13() ensures RightsFit(12) {}
  lemma InputsOfRound14() ensures InputsFit(13) {}
  lemma FirstBoxesOfRound14() ensures FirstBoxesFit(13) {}
  lemma LastBoxesOfRound14() ensures LastBoxesFit(13) {}
  lemma RightsOfRound14() ensures RightsFit(13) {}
  lemma InputsOfRound15() ensures InputsFit(14) {}
  lemma FirstBoxesOfRound15() ensures FirstBoxesFit(14) {}
  lemma LastBoxesOfRound15() ensures LastBoxesFit(14) {}
  lemma RightsOfRound15() ensures RightsFit(14) {}
  lemma InputsOfRound16() ensures InputsFit(15) {}
  lemma FirstBoxesOfRound16() ensures FirstBoxesFit(15) {}
  lemma LastBoxesOfRound16() ensures LastBoxesFit(15) {}
  lemma RightsOfRound16() ensures RightsFit(15) {}
  lemma PlacesOfRounds1And2() ensures PlacesFit(0) && PlacesFit(1) {}
  lemma PlacesOfRounds3And4() ensures PlacesFit(2) && PlacesFit(3) {}
  lemma PlacesOfRounds5And6() ensures PlacesFit(4) && PlacesFit(5) {}
  lemma PlacesOfRounds7And8() ensures PlacesFit(6) && PlacesFit(7) {}
  lemma PlacesOfRounds9And10() ensures PlacesFit(8) && PlacesFit(9) {}
  lemma PlacesOfRounds11And12() ensures PlacesFit(10) && PlacesFit(11) {}
  lemma PlacesOfRounds13And14() ensures PlacesFit(12) && PlacesFit(13) {}
  lemma PlacesOfRounds15And16() ensures PlacesFit(14) && PlacesFit(15) {}
  lemma KeysOfRounds1And2() ensures KeysFit(0) && KeysFit(1) {}
  lemma KeysOfRounds3And4() ensures KeysFit(2) && KeysFit(3) {}
  lemma KeysOfRounds5And6() ensures KeysFit(4) && KeysFit(5) {}
  lemma KeysOfRounds7And8() ensures KeysFit(6) && KeysFit(7) {}
  lemma KeysOfRounds9And10() ensures KeysFit(8) && KeysFit(9) {}
  lemma KeysOfRounds11And12() ensures KeysFit(10) && KeysFit(11) {}
  lemma KeysOfRounds13And14() ensures KeysFit(12) && KeysFit(13) {}
  lemma KeysOfRounds15And16() ensures KeysFit(14) && KeysFit(15) {}
  lemma TurnsOfRound1() ensures TurnsFit(0) {}
  lemma TurnsOfRound2() ensures TurnsFit(1) {}
  lemma TurnsOfRound3() ensures TurnsFit(2) {}
  lemma TurnsOfRound4() ensures TurnsFit(3) {}
  lemma TurnsOfRound5() ensures TurnsFit(4) {}
  lemma TurnsOfRound6() ensures TurnsFit(5) {}
  lemma TurnsOfRound7() ensures TurnsFit(6) {}
  lemma TurnsOfRound8() ensures TurnsFit(7) {}
  lemma TurnsOfRound9() ensures TurnsFit(8) {}
  lemma TurnsOfRound10() ensures TurnsFit(9) {}
  lemma TurnsOfRound11() ensures TurnsFit(10) {}
  lemma TurnsOfRound12() ensures TurnsFit(11) {}
  lemma TurnsOfRound13() ensures TurnsFit(12) {}
  lemma TurnsOfRound14() ensures TurnsFit(13) {}
  lemma TurnsOfRound15() ensures TurnsFit(14) {}
  lemma TurnsOfRound16() ensures TurnsFit(15) {}

  lemma FirstPartOfIP()
    requires |IP| == 64
    ensures IP[0] == 58 && IP[1] == 50 && IP[2] == 42 && IP[3] == 34 && IP[4] == 26 && IP[5] == 18 && IP[6] == 10 && IP[7] == 2
    ensures IP[8] == 60 && IP[9] == 52 && IP[10] == 44 && IP[11] == 36 && IP[12] == 28 && IP[13] == 20 && IP[14] == 12 && IP[15] == 4
  {
  }

  lemma SecondPartOfIP()
    requires |IP| == 64
    ensures IP[16] == 62 && IP[17] == 54 && IP[18] == 46 && IP[19] == 38 && IP[20] == 30 && IP[21] == 22 && IP[22] == 14 && IP[23] == 6
    ensures IP[24] == 64 && IP[25] == 56 && IP[26] == 48 && IP[27] == 40 && IP[28] == 32 && IP[29] == 24 && IP[30] == 16 && IP[31] == 8
  {
  }

  lemma ThirdPartOfIP()
    requires |IP| == 64
    ensures IP[32] == 57 && IP[33] == 49 && IP[34] == 41 && IP[35] == 33 && IP[36] == 25 && IP[37] == 17 && IP[38] == 9 && IP[39] == 1
    ensures IP[40] == 59 && IP[41] == 51 && IP[42] == 43 && IP[43] == 35 && IP[44] == 27 && IP[45] == 19 && IP[46] == 11 && IP[47] == 3
  {
  }

  lemma LastPartOfIP()
    requires |IP| == 64
    ensures IP[48] == 61 && IP[49] == 53 && IP[50] == 45 && IP[51] == 37 && IP[52] == 29 && IP[53] == 21 && IP[54] == 13 && IP[55] == 5
    ensures IP[56] == 63 && IP[57] == 55 && IP[58] == 47 && IP[59] == 39 && IP[60] == 31 && IP[61] == 23 && IP[62] == 15 && IP[63] == 7
  {
  }

  lemma FirstPartOfFP()
    requires |FP| == 64
    ensures FP[0] == 40 && FP[1] == 8 && FP[2] == 48 && FP[3] == 16 && FP[4] == 56 && FP[5] == 24 && FP[6] == 64 && FP[7] == 32
    ensures FP[8] == 39 && FP[9] == 7 && FP[10] == 47 && FP[11] == 15 && FP[12] == 55 && FP[13] == 23 && FP[14] == 63 && FP[15] == 31
  {
  }

  lemma SecondPartOfFP()
    requires |FP| == 64
    ensures FP[16] == 38 && FP[17] == 6 && FP[18] == 46 && FP[19] == 14 && FP[20] == 54 && FP[21] == 22 && FP[22] == 62 && FP[23] == 30
    ensures FP[24] == 37 && FP[25] == 5 && FP[26] == 45 && FP[27] == 13 && FP[28] == 53 && FP[29] == 21 && FP[30] == 61 && FP[31] == 29
  {
  }

  lemma ThirdPartOfFP()
    requires |FP| == 64
    ensures FP[32] == 36 && FP[33] == 4 && FP[34] == 44 && FP[35] == 12 && FP[36] == 52 && FP[37] == 20 && FP[38] == 60 && FP[39] == 28
    ensures FP[40] == 35 && FP[41] == 3 && FP[42] == 43 && FP[43] == 11 && FP[44] == 51 && FP[45] == 19 && FP[46] == 59 && FP[47] == 27
  {
  }

  lemma LastPartOfFP()
    requires |FP| == 64
    ensures FP[48] == 34 && FP[49] == 2 && FP[50] == 42 && FP[51] == 10 && FP[52] == 50 && FP[53] == 18 && FP[54] == 58 && FP[55] == 26
    ensures FP[56] == 33 && FP[57] == 1 && FP[58] == 41 && FP[59] == 9 && FP[60] == 49 && FP[61] == 17 && FP[62] == 57 && FP[63] == 25
  {
  }

  lemma FirstPartOfPC_1()
    requires |PC_1| == 56
    ensures PC_1[0] == 57 && PC_1[1] == 49 && PC_1[2] == 41 && PC_1[3] == 33 && PC_1[4] == 25 && PC_1[5] == 17 && PC_1[6] == 9 && PC_1[7] == 1
    ensures PC_1[8] == 58 && PC_1[9] == 50 && PC_1[10] == 42 && PC_1[11] == 34 && PC_1[12] == 26 && PC_1[13] == 18 && PC_1[14] == 10 && PC_1[15] == 2
  {
  }

  lemma SecondPartOfPC_1()
    requires |PC_1| == 56
    ensures PC_1[16] == 59 && PC_1[17] == 51 && PC_1[18] == 43 && PC_1[19] == 35 && PC_1[20] == 27 && PC_1[21] == 19 && PC_1[22] == 11 && PC_1[23] == 3
    ensures PC_1[24] == 60 && PC_1[25] == 52 && PC_1[26] == 44 && PC_1[27] == 36 && PC_1[28] == 63 && PC_1[29] == 55 && PC_1[30] == 47 && PC_1[31] == 39
  {
  }

  lemma ThirdPartOfPC_1()
    requires |PC_1| == 56
    ensures PC_1[32] == 31 && PC_1[33] == 23 && PC_1[34] == 15 && PC_1[35] == 7 && PC_1[36] == 62 && PC_1[37] == 54 && PC_1[38] == 46 && PC_1[39] == 38
    ensures PC_1[40] == 30 && PC_1[41] == 22 && PC_1[42] == 14 && PC_1[43] == 6 && PC_1[44] == 61 && PC_1[45] == 53 && PC_1[46] == 45 && PC_1[47] == 37
  {
  }

  lemma LastPartOfPC_1()
    requires |PC_1| == 56
    ensures PC_1[48] == 29 && PC_1[49] == 21 && PC_1[50] == 13 && PC_1[51] == 5 && PC_1[52] == 28 && PC_1[53] == 20 && PC_1[54] == 12 && PC_1[55] == 4
  {
  }

  ghost predicate RowFits(ds: seq<nat>, table: seq<nat>, g: seq<nat>, i: nat)
    requires |ds| >= 16 && IsTable(table, 16) && |g| == |table| / 4 && i < |g|
  {
    HasBits(g[i], BitAt(ds, table[4 * i]), BitAt(ds, table[4 * i + 1]), BitAt(ds, table[4 * i + 2]), BitAt(ds, table[4 * i + 3]))
  }

  lemma BlockPermuted()
    requires |IP| == 64 && IsTable(IP, 16)
    ensures RowFits(TEXT, IP, Rights(0) + Rights(1), 0) && RowFits(TEXT, IP, Rights(0) + Rights(1), 1) && RowFits(TEXT, IP, Rights(0) + Rights(1), 2) && RowFits(TEXT, IP, Rights(0) + Rights(1), 3)
    ensures RowFits(TEXT, IP, Rights(0) + Rights(1), 4) && RowFits(TEXT, IP, Rights(0) + Rights(1), 5) && RowFits(TEXT, IP, Rights(0) + Rights(1), 6) && RowFits(TEXT, IP, Rights(0) + Rights(1), 7)
    ensures RowFits(TEXT, IP, Rights(0) + Rights(1), 8) && RowFits(TEXT, IP, Rights(0) + Rights(1), 9) && RowFits(TEXT, IP, Rights(0) + Rights(1), 10) && RowFits(TEXT, IP, Rights(0) + Rights(1), 11)
    ensures RowFits(TEXT, IP, Rights(0) + Rights(1), 12) && RowFits(TEXT, IP, Rights(0) + Rights(1), 13) && RowFits(TEXT, IP, Rights(0) + Rights(1), 14) && RowFits(TEXT, IP, Rights(0) + Rights(1), 15)
  {
    hide IP;
    FirstPartOfIP();
    SecondPartOfIP();
    ThirdPartOfIP();
    LastPartOfIP();
  }

  lemma KeyPermuted()
    requires |PC_1| == 56 && IsTable(PC_1, 16)
    ensures RowFits(KEY, PC_1, Lefts(0) + Ends(0), 0) && RowFits(KEY, PC_1, Lefts(0) + Ends(0), 1) && RowFits(KEY, PC_1, Lefts(0) + Ends(0), 2) && RowFits(KEY, PC_1, Lefts(0) + Ends(0), 3)
    ensures RowFits(KEY, PC_1, Lefts(0) + Ends(0), 4) && RowFits(KEY, PC_1, Lefts(0) + Ends(0), 5) && RowFits(KEY, PC_1, Lefts(0) + Ends(0), 6) && RowFits(KEY, PC_1, Lefts(0) + Ends(0), 7)
    ensures RowFits(KEY, PC_1, Lefts(0) + Ends(0), 8) && RowFits(KEY, PC_1, Lefts(0) + Ends(0), 9) && RowFits(KEY, PC_1, Lefts(0) + Ends(0), 10) && RowFits(KEY, PC_1, Lefts(0) + Ends(0), 11)
    ensures RowFits(KEY, PC_1, Lefts(0) + Ends(0), 12) && RowFits(KEY, PC_1, Lefts(0) + Ends(0), 13)
  {
    hide PC_1;
    FirstPartOfPC_1();
    SecondPartOfPC_1();
    ThirdPartOfPC_1();
    LastPartOfPC_1();
  }

  lemma CipherPermuted()
    requires |FP| == 64 && IsTable(FP, 16)
    ensures RowFits(LAST, FP, CIPHER, 0) && RowFits(LAST, FP, CIPHER, 1) && RowFits(LAST, FP, CIPHER, 2) && RowFits(LAST, FP, CIPHER, 3)
    ensures RowFits(LAST, FP, CIPHER, 4) && RowFits(LAST, FP, CIPHER, 5) && RowFits(LAST, FP, CIPHER, 6) && RowFits(LAST, FP, CIPHER, 7)
    ensures RowFits(LAST, FP, CIPHER, 8) && RowFits(LAST, FP, CIPHER, 9) && RowFits(LAST, FP, CIPHER, 10) && RowFits(LAST, FP, CIPHER, 11)
    ensures RowFits(LAST, FP, CIPHER, 12) && RowFits(LAST, FP, CIPHER, 13) && RowFits(LAST, FP, CIPHER, 14) && RowFits(LAST, FP, CIPHER, 15)
  {
    hide FP;
    FirstPartOfFP();
    SecondPartOfFP();
    ThirdPartOfFP();
    LastPartOfFP();
  }

  // ----- the example -----

  lemma EveryRound(r: nat)
    requires r < 16
    ensures InputsFit(r) && FirstBoxesFit(r) && LastBoxesFit(r) && PlacesFit(r) && RightsFit(r) && KeysFit(r) && TurnsFit(r)
  {
    hide InputsFit, FirstBoxesFit, LastBoxesFit, PlacesFit, RightsFit, KeysFit, TurnsFit;
    match r {
      case 0 =>
        InputsOfRound1(); FirstBoxesOfRound1(); LastBoxesOfRound1(); RightsOfRound1();
        PlacesOfRounds1And2(); KeysOfRounds1And2(); TurnsOfRound1();
      case 1 =>
        InputsOfRound2(); FirstBoxesOfRound2(); LastBoxesOfRound2(); RightsOfRound2();
        PlacesOfRounds1And2(); KeysOfRounds1And2(); TurnsOfRound2();
      case 2 =>
        InputsOfRound3(); FirstBoxesOfRound3(); LastBoxesOfRound3(); RightsOfRound3();
        PlacesOfRounds3And4(); KeysOfRounds3And4(); TurnsOfRound3();
      case 3 =>
        InputsOfRound4(); FirstBoxesOfRound4(); LastBoxesOfRound4(); RightsOfRound4();
        PlacesOfRounds3And4(); KeysOfRounds3And4(); TurnsOfRound4();
      case 4 =>
        InputsOfRound5(); FirstBoxesOfRound5(); LastBoxesOfRound5(); RightsOfRound5();
        PlacesOfRounds5And6(); KeysOfRounds5And6(); TurnsOfRound5();
      case 5 =>
        InputsOfRound6(); FirstBoxesOfRound6(); LastBoxesOfRound6(); RightsOfRound6();
        PlacesOfRounds5And6(); KeysOfRounds5And6(); TurnsOfRound6();
      case 6 =>
        InputsOfRound7(); FirstBoxesOfRound7(); LastBoxesOfRound7(); RightsOfRound7();
        PlacesOfRounds7And8(); KeysOfRounds7And8(); TurnsOfRound7();
      case 7 =>
        InputsOfRound8(); FirstBoxesOfRound8(); LastBoxesOfRound8(); RightsOfRound8();
        PlacesOfRounds7And8(); KeysOfRounds7And8(); TurnsOfRound8();
      case 8 =>
        InputsOfRound9(); FirstBoxesOfRound9(); LastBoxesOfRound9(); RightsOfRound9();
        PlacesOfRounds9And10(); KeysOfRounds9And10(); TurnsOfRound9();
      case 9 =>
        InputsOfRound10(); FirstBoxesOfRound10(); LastBoxesOfRound10(); RightsOfRound10();
        PlacesOfRounds9And10(); KeysOfRounds9And10(); TurnsOfRound10();
      case 10 =>
        InputsOfRound11(); FirstBoxesOfRound11(); LastBoxesOfRound11(); RightsOfRound11();
        PlacesOfRounds11And12(); KeysOfRounds11And12(); TurnsOfRound11();
      case 11 =>
        InputsOfRound12(); FirstBoxesOfRound12(); LastBoxesOfRound12(); RightsOfRound12();
        PlacesOfRounds11And12(); KeysOfRounds11And12(); TurnsOfRound12();
      case 12 =>
        InputsOfRound13(); FirstBoxesOfRound13(); LastBoxesOfRound13(); RightsOfRound13();
        PlacesOfRounds13And14(); KeysOfRounds13And14(); TurnsOfRound13();
      case 13 =>
        InputsOfRound14(); FirstBoxesOfRound14(); LastBoxesOfRound14(); RightsOfRound14();
        PlacesOfRounds13And14(); KeysOfRounds13And14(); TurnsOfRound14();
      case 14 =>
        InputsOfRound15(); FirstBoxesOfRound15(); LastBoxesOfRound15(); RightsOfRound15();
        PlacesOfRounds15And16(); KeysOfRounds15And16(); TurnsOfRound15();
      case _ =>
        InputsOfRound16(); FirstBoxesOfRound16(); LastBoxesOfRound16(); RightsOfRound16();
        PlacesOfRounds15And16(); KeysOfRounds15And16(); TurnsOfRound16();
    }
  }

  lemma FourFromBits(x: nat, p: nat, q: nat, r: nat, s: nat)
    requires HasBits(x, p, q, r, s)
    ensures x == Four(p, q, r, s)
  {
    hide Bit;
    FourOfBits(x);
  }

  lemma SumIsXor(a: nat, b: nat, x: nat)
    requires IsSum(a, b, x)
    ensures x == XorFour(a, b)
  {
    hide Bit, Differ;
    FourOfBits(x);
  }

  lemma InputIsGroup(before: nat, digit: nat, after: nat, k: Group, g: Group)
    requires InputFits(before, digit, after, k, g)
    ensures g == Group(Differ(Bit(before, 3), k.first), XorFour(digit, k.middle), Differ(Bit(after, 0), k.last))
  {
    hide Bit, XorFour, Differ;
    SumIsXor(digit, k.middle, g.middle);
  }

  lemma InputOf(r: nat, i: nat)
    requires r < 16 && i < 8 && InputsFit(r)
    ensures InputFits(Rights(r + 1)[(i + 7) % 8], Rights(r + 1)[i], Rights(r + 1)[(i + 1) % 8], Keys(r)[i], Inputs(r)[i])
  {
    hide Rights, Keys, Inputs, InputFits;
    assert i == 0 || i == 1 || i == 2 || i == 3 || i == 4 || i == 5 || i == 6 || i == 7;
  }

  lemma InputsAre(r: nat)
    requires r < 16 && InputsFit(r)
    ensures Inputs(r) == XorGroups(Expanded(Rights(r + 1)), Keys(r))
  {
    hide Rights, Keys, Inputs, InputFits, InputsFit, Bit, XorFour, Differ;
    var n, k, g := Rights(r + 1), Keys(r), Inputs(r);
    forall i | 0 <= i < 8 ensures g[i] == XorGroups(Expanded(n), k)[i] {
      InputOf(r, i);
      InputIsGroup(n[(i + 7) % 8], n[i], n[(i + 1) % 8], k[i], g[i]);
    }
  }

  lemma BoxesAre(r: nat)
    requires r < 16 && FirstBoxesFit(r) && LastBoxesFit(r)
    ensures Groups(Inputs(r)) && Boxes(r) == SelectedAll(Inputs(r))
  {
    hide BoxFits, Inputs, Boxes, Selected, IsGroup;
    forall i | 0 <= i < 8 ensures IsGroup(Inputs(r)[i]) && Boxes(r)[i] == Selected(Inputs(r)[i], i) {
      assert BoxFits(r, i) by {
        assert i == 0 || i == 1 || i == 2 || i == 3 || i == 4 || i == 5 || i == 6 || i == 7;
      }
      BoxIs(r, i);
    }
  }

  lemma BoxIs(r: nat, i: nat)
    requires r < 16 && i < 8 && BoxFits(r, i)
    ensures IsGroup(Inputs(r)[i]) && Boxes(r)[i] == Selected(Inputs(r)[i], i)
  {
  }

  lemma PlacesAre(r: nat)
    requires r < 16 && PlacesFit(r)
    ensures Places(r) == Placed(Boxes(r))
  {
    var b, q := Boxes(r), Places(r);
    hide Boxes, Places, Bit, Four;
    forall x, p, q, r, s | HasBits(x, p, q, r, s) ensures x == Four(p, q, r, s) {
      FourFromBits(x, p, q, r, s);
    }
  }

  lemma RightsAre(r: nat)
    requires r < 16 && RightsFit(r)
    ensures Rights(r + 2) == XorDigits(Rights(r), Places(r))
  {
    var l, p, n := Rights(r), Places(r), Rights(r + 2);
    hide Rights, Places, IsSum, XorFour;
    forall i | 0 <= i < 8 ensures n[i] == XorDigits(l, p)[i] {
      assert IsSum(l[i], p[i], n[i]) by {
        assert i == 0 || i == 1 || i == 2 || i == 3 || i == 4 || i == 5 || i == 6 || i == 7;
      }
      SumIsXor(l[i], p[i], n[i]);
    }
  }

  lemma RoundIs(r: nat)
    requires r < 16
    ensures Rights(r + 2) == XorDigits(Rights(r), FeistelDigits(Rights(r + 1), Keys(r)))
  {
    hide InputsFit, FirstBoxesFit, LastBoxesFit, PlacesFit, RightsFit, KeysFit, TurnsFit;
    hide Rights, Places, Keys, Inputs, Boxes, XorDigits, Placed, SelectedAll, XorGroups, Expanded;
    EveryRound(r);
    InputsAre(r);
    BoxesAre(r);
    PlacesAre(r);
    RightsAre(r);
  }

  lemma KeyIs(r: nat)
    requires r < 16
    ensures Keys(r) == PickedKey(Lefts(r + 1) + Ends(r + 1))
  {
    hide InputsFit, FirstBoxesFit, LastBoxesFit, PlacesFit, RightsFit, TurnsFit;
    hide KeyFits, Keys, Lefts, Ends, Bit, Four;
    EveryRound(r);
    forall g, o, p, q, r, s, t | KeyFits(g, o, p, q, r, s, t) ensures g == Group(o, Four(p, q, r, s), t) {
      KeyGroup(g, o, p, q, r, s, t);
    }
  }

  lemma KeyGroup(g: Group, o: nat, p: nat, q: nat, r: nat, s: nat, t: nat)
    requires KeyFits(g, o, p, q, r, s, t)
    ensures g == Group(o, Four(p, q, r, s), t)
  {
    hide Bit, Four;
    FourFromBits(g.middle, p, q, r, s);
  }

  lemma TurnIs(h: seq<nat>, n: nat, t: seq<nat>)
    requires |h| == |t| == 7 && TurnFits(h, n, t) && 1 <= n <= 2
    ensures t == Turned(h, n)
  {
    hide Bit, Four, HasBits;
    forall x, p, q, r, s | HasBits(x, p, q, r, s) ensures x == Four(p, q, r, s) {
      FourFromBits(x, p, q, r, s);
    }
    forall i | 0 <= i < 7 ensures t[i] == Turned(h, n)[i] {
      assert i == 0 || i == 1 || i == 2 || i == 3 || i == 4 || i == 5 || i == 6;
    }
  }

  lemma ShiftIs(r: nat)
    requires r < 16
    ensures |SHIFT_TABLE| == 16 && SHIFT_TABLE[r] == Shift(r)
  {
    match r { case 0 => case 1 => case 2 => case 3 => case 4 => case 5 => case 6 => case 7 => case 8 => case 9 => case 10 => case 11 => case 12 => case 13 => case 14 => case _ => }
  }

  lemma GatheredIs(ds: seq<nat>, table: seq<nat>, g: seq<nat>)
    requires |ds| >= 16 && IsTable(table, 16) && |g| == |table| / 4
    requires forall i :: 0 <= i < |g| ==> RowFits(ds, table, g, i)
    ensures g == Gathered(ds, table)
  {
    hide Bit, BitAt, Four, HasBits;
    forall i | 0 <= i < |g| ensures g[i] == Gathered(ds, table)[i] {
      assert RowFits(ds, table, g, i);
      FourFromBits(g[i], BitAt(ds, table[4 * i]), BitAt(ds, table[4 * i + 1]), BitAt(ds, table[4 * i + 2]), BitAt(ds, table[4 * i + 3]));
    }
  }

  lemma {:induction false} KeyHalvesAre(i: nat)
    requires i <= 16
    ensures KeyDigits(KEY, i) == (Lefts(i), Ends(i))
  {
    hide InputsFit, FirstBoxesFit, LastBoxesFit, PlacesFit, RightsFit, KeysFit, TurnFits;
    hide Lefts, Ends, Turned, Gathered, Shift, RowFits, SHIFT_TABLE;
    TheseAreTables();
    if i == 0 {
      hide PC_1, IsTable;
      var g := Lefts(0) + Ends(0);
      KeyPermuted();
      assert forall k :: 0 <= k < 14 ==> RowFits(KEY, PC_1, g, k);
      GatheredIs(KEY, PC_1, g);
      assert g[..7] == Lefts(0) && g[7..] == Ends(0);
    } else {
      KeyHalvesAre(i - 1);
      EveryRound(i - 1);
      ShiftIs(i - 1);
      ShiftBounds(i - 1);
      ShiftIsOneOrTwo(i - 1);
      TurnIs(Lefts(i - 1), Shift(i - 1), Lefts(i));
      TurnIs(Ends(i - 1), Shift(i - 1), Ends(i));
    }
  }

  lemma ShiftIsOneOrTwo(r: nat)
    ensures 1 <= Shift(r) <= 2
  {
  }

  lemma RoundKeyIs(i: nat)
    requires i < 16
    ensures RoundKeyDigits(KEY, i) == Keys(i)
  {
    hide Keys, Lefts, Ends, PickedKey, KeyDigits;
    KeyHalvesAre(i + 1);
    KeyIs(i);
  }

  lemma {:induction false} RightsOfExample(i: nat)
    requires i <= 17
    ensures RightDigits(TEXT, KEY, i) == Rights(i)
  {
    hide Rights, Gathered, FeistelDigits, XorDigits, RoundKeyDigits, RowFits;
    TheseAreTables();
    if i <= 1 {
      hide IP, IsTable;
      var g := Rights(0) + Rights(1);
      BlockPermuted();
      assert forall k :: 0 <= k < 16 ==> RowFits(TEXT, IP, g, k);
      GatheredIs(TEXT, IP, g);
      assert g[..8] == Rights(0) && g[8..] == Rights(1);
    } else {
      RightsOfExample(i - 2);
      RightsOfExample(i - 1);
      RoundKeyIs(i - 2);
      RoundIs(i - 2);
    }
  }

  lemma CipherOfExample()
    ensures CipherDigits(TEXT, KEY) == CIPHER
  {
    hide Rights, Gathered, RightDigits, RowFits, FP, IsTable;
    TheseAreTables();
    RightsOfExample(16);
    RightsOfExample(17);
    CipherPermuted();
    LastHalves();
    assert forall k :: 0 <= k < 16 ==> RowFits(LAST, FP, CIPHER, k);
    GatheredIs(LAST, FP, CIPHER);
  }

  lemma LastHalves()
    ensures Rights(17) + Rights(16) == LAST
  {
  }

  lemma PlainText()
    ensures IsHex("0123456789ABCDEF") && HexDigits("0123456789ABCDEF") == TEXT && UpperText(TEXT) == "0123456789ABCDEF"
  {
  }

  lemma KeyText()
    ensures IsHex("133457799BBCDFF1") && HexDigits("133457799BBCDFF1") == KEY
  {
  }

  lemma CipherText()
    ensures UpperText(CIPHER) == "85E813540F0AB405"
  {
  }

  // The known answer, and back.
  lemma DesExample()
    ensures DesText("0123456789ABCDEF", "133457799BBCDFF1", false) == Text("85E813540F0AB405")
    ensures DesText("85E813540F0AB405", "133457799BBCDFF1", true) == Text("0123456789ABCDEF")
  {
    hide CipherDigits, DesText, HexDigits, UpperText, IsHex;
    PlainText();
    KeyText();
    CipherText();
    CipherOfExample();
    DesOnDigits("0123456789ABCDEF", "133457799BBCDFF1");
    DecryptUndoesEncrypt("0123456789ABCDEF", "133457799BBCDFF1");
    assert "0123456789ABCDEF"[..16] == "0123456789ABCDEF";
    UpperTextOfDigits("0123456789ABCDEF");
  }
}
