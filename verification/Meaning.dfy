// What the expressions of the calculators come to, told without computing it: by a relation between
// trees and outcomes in which every operation is stated by the one that undoes it.
module Meaning {
  import opened Arith
  import opened Infix

  // b times a, by adding
  ghost function Repeated(a: int, b: int): int
    decreases if b < 0 then -b else b
  {
    if b == 0 then 0 else if b > 0 then Repeated(a, b - 1) + a else Repeated(a, b + 1) - a
  }

  // Smaller than the divisor, and on the dividend's side of zero.
  predicate IsRemainder(rem: int, a: int, b: int) {
    && (if b > 0 then -b < rem < b else b < rem < -b)
    && (rem > 0 ==> a > 0) && (rem < 0 ==> a < 0)
  }

  // v is what the operator makes of a and b: adding back what was subtracted gives a again, and so does
  // multiplying the quotient out and adding the remainder.
  ghost predicate Solves(op: Op, a: int, b: int, v: int) {
    match op
    case Add => v - b == a
    case Sub => v + b == a
    case Mul => v == Repeated(a, b)
    case Div => IsRemainder(a - Repeated(v, b), a, b)
  }

  // One operation on two ints: its answer, or a fault if there is none, or none of 32 bits.
  ghost predicate Operates(op: Op, a: int, b: int, o: Outcome) {
    match o
    case Val(v) => -2147483648 <= v <= 2147483647 && Solves(op, a, b, v)
    case DivByZero => op == Div && b == 0
    case Overflow => exists v :: Solves(op, a, b, v) && !(-2147483648 <= v <= 2147483647)
    case Underflow => false
  }

  // x as an operand: itself, or the one number of a signed char that differs by a multiple of 256.
  ghost predicate IsOperand(x: int, c: int, narrow: bool) {
    if narrow then -128 <= c <= 127 && (x - c) % 256 == 0 else c == x
  }

  // The expression comes to o. The left operand is evaluated first, and a fault ends the evaluation.
  ghost predicate Denotes(t: Ast, o: Outcome, narrow: bool) {
    match t
    case Num(d) => o == Val(d)
    case Bin(op, l, r) =>
      || (!o.Val? && Denotes(l, o, narrow))
      || (!o.Val? && (exists a :: Denotes(l, Val(a), narrow)) && Denotes(r, o, narrow))
      || (exists a, b :: Denotes(l, Val(a), narrow) && Denotes(r, Val(b), narrow) && OnOperands(op, a, b, o, narrow))
  }

  ghost predicate OnOperands(op: Op, a: int, b: int, o: Outcome, narrow: bool) {
    exists x, y :: IsOperand(a, x, narrow) && IsOperand(b, y, narrow) && Operates(op, x, y, o)
  }

  lemma {:induction false} RepeatedIsProduct(a: int, b: int)
    ensures Repeated(a, b) == a * b
    decreases if b < 0 then -b else b
  {
    if b > 0 {
      RepeatedIsProduct(a, b - 1);
      assert a * (b - 1) + a == a * b;
    } else if b < 0 {
      RepeatedIsProduct(a, b + 1);
      assert a * (b + 1) - a == a * b;
    }
  }

  // There is only one quotient with such a remainder.
  lemma QuotientIsUnique(a: int, b: int, p: int, q: int)
    requires b != 0 && IsRemainder(a - p * b, a, b) && IsRemainder(a - q * b, a, b)
    ensures p == q
  {
    var n := Abs(b);
    var d := if b > 0 then p - q else q - p;
    assert (a - q * b) - (a - p * b) == d * n by {
      Distributes(p, q, b);
    }
    NonzeroMultiple(d, n);
  }

  lemma Distributes(p: int, q: int, b: int)
    ensures p * b - q * b == (p - q) * b == (q - p) * -b
  {
  }

  lemma SolvesExactly(op: Op, a: int, b: int, v: int)
    ensures op == Add ==> (Solves(op, a, b, v) <==> v == a + b)
    ensures op == Sub ==> (Solves(op, a, b, v) <==> v == a - b)
    ensures op == Mul ==> (Solves(op, a, b, v) <==> v == a * b)
    ensures op == Div ==> (Solves(op, a, b, v) <==> b != 0 && v == TruncDiv(a, b))
  {
    RepeatedIsProduct(a, b);
    RepeatedIsProduct(v, b);
    hide Repeated;
    if op == Div && b != 0 {
      var q := TruncDiv(a, b);
      assert IsRemainder(a - q * b, a, b);
      if Solves(op, a, b, v) {
        QuotientIsUnique(a, b, q, v);
      }
    }
  }

  lemma AppliedExactly(op: Op, a: int, b: int, o: Outcome)
    ensures Operates(op, a, b, o) <==> o == Apply(op, a, b)
  {
    hide Solves, TruncDiv;
    forall v
      ensures op == Add ==> (Solves(op, a, b, v) <==> v == a + b)
      ensures op == Sub ==> (Solves(op, a, b, v) <==> v == a - b)
      ensures op == Mul ==> (Solves(op, a, b, v) <==> v == a * b)
      ensures op == Div ==> (Solves(op, a, b, v) <==> b != 0 && v == TruncDiv(a, b))
    {
      SolvesExactly(op, a, b, v);
    }
    if !(op == Div && b == 0) {
      var v := match op case Add => a + b case Sub => a - b case Mul => a * b case Div => TruncDiv(a, b);
      assert Solves(op, a, b, v);
    }
  }

  function Operand(x: int, narrow: bool): int {
    if narrow then ToChar(x) else x
  }

  ghost function Result(t: Ast, narrow: bool): Outcome {
    if narrow then CharValue(t) else Value(t)
  }

  lemma OneOperand(x: int, narrow: bool)
    ensures forall c :: IsOperand(x, c, narrow) <==> c == Operand(x, narrow)
  {
  }

  lemma OnOperandsExactly(op: Op, a: int, b: int, o: Outcome, narrow: bool)
    ensures OnOperands(op, a, b, o, narrow) <==> o == Apply(op, Operand(a, narrow), Operand(b, narrow))
  {
    hide IsOperand, Operand, Operates, Apply;
    OneOperand(a, narrow);
    OneOperand(b, narrow);
    AppliedExactly(op, Operand(a, narrow), Operand(b, narrow), o);
  }

  // The value of an expression, and the value with char operands, are the one outcome the relation allows.
  lemma {:induction false} DenotesExactly(t: Ast, o: Outcome, narrow: bool)
    ensures Denotes(t, o, narrow) <==> o == Result(t, narrow)
  {
    hide Apply, ToChar, OnOperands;
    if t.Bin? {
      forall p ensures Denotes(t.l, p, narrow) <==> p == Result(t.l, narrow) {
        DenotesExactly(t.l, p, narrow);
      }
      forall p ensures Denotes(t.r, p, narrow) <==> p == Result(t.r, narrow) {
        DenotesExactly(t.r, p, narrow);
      }
      if Result(t.l, narrow).Val? && Result(t.r, narrow).Val? {
        OnOperandsExactly(t.op, Result(t.l, narrow).v, Result(t.r, narrow).v, o, narrow);
      }
    }
  }

  // Where an expression has a value, undoing its operator gives back the left operand.
  lemma OperatorsAreUndone(op: Op, l: Ast, r: Ast, narrow: bool)
    requires Result(Bin(op, l, r), narrow).Val?
    ensures Result(l, narrow).Val? && Result(r, narrow).Val?
    ensures var a, b, v := Operand(Result(l, narrow).v, narrow), Operand(Result(r, narrow).v, narrow), Result(Bin(op, l, r), narrow).v;
            && (op == Add ==> v - b == a) && (op == Sub ==> v + b == a) && (op == Mul ==> v == Repeated(a, b))
            && (op == Div ==> IsRemainder(a - Repeated(v, b), a, b))
  {
    var a, b, v := Operand(Result(l, narrow).v, narrow), Operand(Result(r, narrow).v, narrow), Result(Bin(op, l, r), narrow).v;
    AppliedExactly(op, a, b, Val(v));
  }
}
