// Positional numerals, as Python's int, bin, hex, format and zfill read and write them.
module Numerals {
  import opened Arith
  import opened Powers

  ghost predicate Digits(ds: seq<nat>, base: nat) {
    forall i :: 0 <= i < |ds| ==> ds[i] < base
  }

  // int(s, base)
  function Value(ds: seq<nat>, base: nat): nat {
    if ds == [] then 0 else Value(ds[..|ds| - 1], base) * base + ds[|ds| - 1]
  }

  // The shortest numeral, "0" for zero: bin(v)[2:] and hex(v)[2:].
  function Shortest(v: nat, base: nat): (ds: seq<nat>)
    requires base >= 2
    ensures |ds| >= 1
    decreases v
  {
    if v < base then [v] else (QuotientSmaller(v, base); Shortest(v / base, base) + [v % base])
  }

  function Zfill(ds: seq<nat>, width: nat): seq<nat> {
    if |ds| >= width then ds else [0] + Zfill(ds, width - 1)
  }

  lemma QuotientSmaller(v: nat, base: nat)
    requires base >= 2 && v >= base
    ensures 0 <= v / base < v
  {
    DivMod(v, base);
    QuotientAtMost(v, base);
    MulMono(v / base, 2, v / base, base);
  }

  // The numeral of a given width.
  function Fixed(v: nat, base: nat, width: nat): (ds: seq<nat>)
    requires base >= 2
    ensures |ds| == width
  {
    if width == 0 then [] else Fixed(v / base, base, width - 1) + [v % base]
  }

  lemma PowPositive(base: nat, k: nat)
    requires base >= 1
    ensures Pow(base, k) >= 1
    decreases k
  {
    if k > 0 {
      PowPositive(base, k - 1);
      MulAtLeast(Pow(base, k - 1), base);
    }
  }

  lemma DropDigit(v: nat, base: nat, k: nat)
    requires base >= 2 && k > 0
    ensures v / base >= 0 && (v < Pow(base, k) <==> v / base < Pow(base, k - 1))
  {
    DivMod(v, base);
    PowPositive(base, k - 1);
    var q, m := v / base, Pow(base, k - 1);
    assert Pow(base, k) == base * m == m * base;
    if q < 0 {
      NonzeroMultiple(q, base);
    }
    if q < m {
      MulMono(q + 1, base, m, base);
      assert (q + 1) * base == q * base + base;
    } else {
      MulMono(m, base, q, base);
    }
  }

  lemma {:induction false} ValueBelow(ds: seq<nat>, base: nat)
    requires base >= 2 && Digits(ds, base)
    ensures Value(ds, base) < Pow(base, |ds|)
    decreases |ds|
  {
    if ds != [] {
      var front, last := ds[..|ds| - 1], ds[|ds| - 1];
      ValueBelow(front, base);
      DivUnique(Value(ds, base), base, Value(front, base), last);
      DropDigit(Value(ds, base), base, |ds|);
    }
  }

  // Writing the value of a numeral with its own width gives the numeral back ...
  lemma {:induction false} FixedOfValue(ds: seq<nat>, base: nat)
    requires base >= 2 && Digits(ds, base)
    ensures Fixed(Value(ds, base), base, |ds|) == ds
    decreases |ds|
  {
    if ds != [] {
      var front, last := ds[..|ds| - 1], ds[|ds| - 1];
      FixedOfValue(front, base);
      DivUnique(Value(ds, base), base, Value(front, base), last);
    }
  }

  // ... and a number that fits in a width is the value of its numeral.
  lemma {:induction false} ValueOfFixed(v: nat, base: nat, width: nat)
    requires base >= 2 && v < Pow(base, width)
    ensures Digits(Fixed(v, base, width), base) && Value(Fixed(v, base, width), base) == v
    decreases width
  {
    if width > 0 {
      DropDigit(v, base, width);
      ValueOfFixed(v / base, base, width - 1);
      DivMod(v, base);
      var ds := Fixed(v, base, width);
      assert ds[..|ds| - 1] == Fixed(v / base, base, width - 1);
    }
  }

  lemma {:induction false} LeadingZero(v: nat, base: nat, width: nat)
    requires base >= 2 && v < Pow(base, width)
    ensures Fixed(v, base, width + 1) == [0] + Fixed(v, base, width)
    decreases width
  {
    if width == 0 {
      DivUnique(0, base, 0, 0);
      assert Fixed(0, base, 1) == Fixed(0, base, 0) + [0];
    } else {
      DropDigit(v, base, width);
      LeadingZero(v / base, base, width - 1);
    }
  }

  lemma {:induction false} ShortestIsFixed(v: nat, base: nat, width: nat)
    requires base >= 2 && width >= 1 && v < Pow(base, width)
    ensures |Shortest(v, base)| <= width && v < Pow(base, |Shortest(v, base)|)
    ensures Shortest(v, base) == Fixed(v, base, |Shortest(v, base)|)
    decreases width
  {
    if v < base {
      DivUnique(v, base, 0, v);
      assert Fixed(v, base, 1) == Fixed(0, base, 0) + [v];
      assert Pow(base, 1) == base * Pow(base, 0);
    } else {
      QuotientSmaller(v, base);
      DropDigit(v, base, width);
      if width == 1 {
        assert Pow(base, 0) == 1;
        DivMod(v, base);
      }
      ShortestIsFixed(v / base, base, width - 1);
      DropDigit(v, base, |Shortest(v, base)|);
    }
  }

  lemma {:induction false} ZfillPads(v: nat, base: nat, k: nat, width: nat)
    requires base >= 2 && k <= width && v < Pow(base, k)
    ensures Zfill(Fixed(v, base, k), width) == Fixed(v, base, width)
    decreases width
  {
    if k < width {
      ZfillPads(v, base, k, width - 1);
      PowGrows(base, k, width - 1);
      LeadingZero(v, base, width - 1);
    }
  }

  lemma {:induction false} PowGrows(base: nat, k: nat, n: nat)
    requires base >= 1 && k <= n
    ensures Pow(base, k) <= Pow(base, n)
    decreases n
  {
    if k < n {
      PowGrows(base, k, n - 1);
      PowPositive(base, n - 1);
      MulAtLeast(Pow(base, n - 1), base);
    }
  }

  // Padding the shortest numeral gives the numeral of the full width.
  lemma PaddedIsFixed(v: nat, base: nat, width: nat)
    requires base >= 2 && width >= 1 && v < Pow(base, width)
    ensures Zfill(Shortest(v, base), width) == Fixed(v, base, width)
  {
    ShortestIsFixed(v, base, width);
    ZfillPads(v, base, |Shortest(v, base)|, width);
  }
}
