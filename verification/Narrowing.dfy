// When popping operands into a char, as PostCalculator.c does, leaves an expression's value alone.
module Narrowing {
  import opened Arith
  import opened Infix

  // Narrowed operands cannot leave the 32-bit range: the only fault left is a division by zero.
  lemma {:induction false} CharFaults(t: Ast)
    ensures CharValue(t).Val? || CharValue(t) == DivByZero
  {
    if t.Bin? {
      CharFaults(t.l);
      CharFaults(t.r);
      if CharValue(t.l).Val? && CharValue(t.r).Val? {
        ApplyChars(t.op, ToChar(CharValue(t.l).v), ToChar(CharValue(t.r).v));
      }
    }
  }

  lemma ApplyChars(op: Op, x: int, y: int)
    requires -128 <= x < 128 && -128 <= y < 128
    ensures Apply(op, x, y).Val? || Apply(op, x, y) == DivByZero
  {
    match op {
      case Mul => ProductBound(x, y);
      case Div => if y != 0 { QuotientBound(x, y); }
      case _ =>
    }
  }

  lemma QuotientBound(x: int, y: int)
    requires y != 0
    ensures -Abs(x) <= TruncDiv(x, y) <= Abs(x)
  {
    QuotientAtMost(Abs(x), Abs(y));
  }

  predicate Fits(x: int) {
    -128 <= x < 128
  }

  // Whatever is divided, and whatever it is divided by, fits in a char. Division-free trees qualify.
  ghost predicate DivisionsFit(t: Ast) {
    t.Bin? ==>
      && DivisionsFit(t.l) && DivisionsFit(t.r)
      && (t.op == Div && Value(t.l).Val? && Value(t.r).Val? ==> Fits(Value(t.l).v) && Fits(Value(t.r).v))
  }

  // How many times 256 the conversion to a char takes away.
  function Turns(x: int): int {
    (x - ToChar(x)) / 256
  }

  // Operands on which an operator gives the same result after narrowing.
  predicate Keeps(op: Op, x: int, y: int) {
    match op
    case Add => Turns(x) + Turns(y) == 0
    case Sub => Turns(x) == Turns(y)
    case Mul => (Fits(x) && Fits(y)) || x == 0 || y == 0 || (x == 128 && y == 128)
    case Div => Fits(x) && Fits(y)
  }

  // Only the root matters: what is narrowed further in is lost modulo 256, and narrowed away again.
  ghost predicate NarrowingKeeps(t: Ast) {
    match Value(t)
    case Val(_) => t.Num? || Keeps(t.op, Value(t.l).v, Value(t.r).v)
    case DivByZero => true
    case _ => false
  }

  lemma TurnsOf(x: int)
    ensures x == ToChar(x) + 256 * Turns(x)
    ensures Fits(x) <==> Turns(x) == 0
  {
  }

  lemma SameChar(x: int, y: int)
    requires Same(x, y)
    ensures ToChar(x) == ToChar(y)
  {
    TurnsOf(x);
    TurnsOf(y);
  }

  lemma CharIsNoLarger(x: int)
    ensures Abs(ToChar(x)) <= Abs(x)
    ensures Abs(ToChar(x)) == Abs(x) <==> Fits(x) || x == 128
    ensures x == 128 ==> ToChar(x) == -128
  {
  }

  lemma ProductOfSmaller(p: nat, q: nat, x: nat, y: nat)
    requires p <= x && q <= y && x > 0 && y > 0 && p * q == x * y
    ensures p == x && q == y
  {
    assert x * y - p * q == (x - p) * y + p * (y - q) == x * (y - q) + (x - p) * q;
    MulAtLeast(x - p, y);
    MulAtLeast(y - q, x);
    assert p * (y - q) >= 0 && (x - p) * q >= 0;
  }

  lemma AbsOfProduct(x: int, y: int)
    ensures Abs(x * y) == Abs(x) * Abs(y)
  {
    assert x < 0 ==> (-x) * y == -(x * y);
    assert y < 0 ==> x * (-y) == -(x * y);
    assert x < 0 && y < 0 ==> (-x) * (-y) == x * y;
    assert (x > 0 && y > 0) || (x < 0 && y < 0) ==> x * y > 0;
    assert (x > 0 && y < 0) || (x < 0 && y > 0) ==> x * y < 0;
  }

  lemma ProductKeeps(x: int, y: int)
    ensures ToChar(x) * ToChar(y) == x * y <==> Keeps(Mul, x, y)
  {
    var p, q := ToChar(x), ToChar(y);
    CharIsNoLarger(x);
    CharIsNoLarger(y);
    hide ToChar;
    if x == 0 || y == 0 {
      assert p == 0 || q == 0;
    } else {
      AbsOfProduct(p, q);
      AbsOfProduct(x, y);
      if p * q == x * y {
        ProductOfSmaller(Abs(p), Abs(q), Abs(x), Abs(y));
        assert x == 128 ==> p == -128 && p * q == -128 * q;
        assert y == 128 ==> q == -128 && p * q == p * -128;
      }
    }
  }

  lemma OperationKeeps(op: Op, x: int, y: int)
    requires Apply(op, x, y).Val? && (op == Div ==> Fits(x) && Fits(y))
    ensures Apply(op, ToChar(x), ToChar(y)).Val?
    ensures Same(Apply(op, ToChar(x), ToChar(y)).v, Apply(op, x, y).v)
    ensures Apply(op, ToChar(x), ToChar(y)) == Apply(op, x, y) <==> Keeps(op, x, y)
  {
    ApplyChars(op, ToChar(x), ToChar(y));
    if op != Div {
      ApplyCongruent(op, x, x, y, y);
    }
    ProductKeeps(x, y);
    TurnsOf(x);
    TurnsOf(y);
  }

  // Where the true value exists the narrowed one exists too and differs by a multiple of 256.
  lemma {:induction false} NarrowedValueIsCongruent(t: Ast)
    requires DivisionsFit(t)
    ensures Value(t).Val? ==> CharValue(t).Val? && Same(CharValue(t).v, Value(t).v)
    ensures Value(t) == DivByZero ==> CharValue(t) == DivByZero
  {
    if t.Bin? {
      NarrowedValueIsCongruent(t.l);
      NarrowedValueIsCongruent(t.r);
      if Value(t.l).Val? && Value(t.r).Val? {
        var x, y := Value(t.l).v, Value(t.r).v;
        SameChar(CharValue(t.l).v, x);
        SameChar(CharValue(t.r).v, y);
        if Value(t).Val? {
          OperationKeeps(t.op, x, y);
        }
      }
    }
  }

  lemma {:induction false} ValueFaults(t: Ast)
    ensures Value(t) != Underflow
  {
    if t.Bin? {
      ValueFaults(t.l);
      ValueFaults(t.r);
    }
  }

  // Exactly when popping into chars leaves the value alone.
  lemma NarrowingKeepsExactly(t: Ast)
    requires DivisionsFit(t)
    ensures CharValue(t) == Value(t) <==> NarrowingKeeps(t)
  {
    NarrowedValueIsCongruent(t);
    CharFaults(t);
    if Value(t).Val? && t.Bin? {
      var x, y := Value(t.l).v, Value(t.r).v;
      NarrowedValueIsCongruent(t.l);
      NarrowedValueIsCongruent(t.r);
      SameChar(CharValue(t.l).v, x);
      SameChar(CharValue(t.r).v, y);
      OperationKeeps(t.op, x, y);
    }
  }
}
