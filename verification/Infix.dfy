// Infix arithmetic over single digits: its trees, its printings and what they mean.
module Infix {
  datatype Op = Add | Sub | Mul | Div

  // Running an expression: a value, or the fault that stops the C program.
  datatype Outcome = Val(v: int) | DivByZero | Overflow | Underflow

  datatype Ast = Num(d: nat) | Bin(op: Op, l: Ast, r: Ast)

  // Concrete syntax: an expression tree together with the parentheses a writer put around its parts.
  datatype Syntax = Digit(d: nat) | Paren(e: Syntax) | Infix(op: Op, l: Syntax, r: Syntax)

  function OpChar(op: Op): char {
    match op
    case Add => '+'
    case Sub => '-'
    case Mul => '*'
    case Div => '/'
  }

  function DigitChar(d: nat): char
    requires d < 10
  {
    '0' + d as char
  }

  // C precedence: multiplicative operators bind tighter than additive ones.
  function Level(e: Syntax): int {
    match e
    case Infix(op, _, _) => if op.Mul? || op.Div? then 5 else 3
    case _ => 7
  }

  // A legal printing: digits are single, operators associate to the left and an operand that
  // binds too loosely is parenthesised.
  ghost predicate Legal(e: Syntax) {
    match e
    case Digit(d) => d < 10
    case Paren(b) => Legal(b)
    case Infix(_, l, r) => Legal(l) && Legal(r) && Level(l) >= Level(e) && Level(r) > Level(e)
  }

  ghost function Text(e: Syntax): string
    requires Legal(e)
  {
    match e
    case Digit(d) => [DigitChar(d)]
    case Paren(b) => "(" + Text(b) + ")"
    case Infix(op, l, r) => Text(l) + [OpChar(op)] + Text(r)
  }

  ghost function Tree(e: Syntax): Ast {
    match e
    case Digit(d) => Num(d)
    case Paren(b) => Tree(b)
    case Infix(op, l, r) => Bin(op, Tree(l), Tree(r))
  }

  ghost predicate SingleDigits(t: Ast) {
    match t
    case Num(d) => d < 10
    case Bin(_, l, r) => SingleDigits(l) && SingleDigits(r)
  }

  // Every tree has a legal printing: parenthesise every compound operand.
  ghost function Parenthesised(t: Ast): (e: Syntax)
    requires SingleDigits(t)
    ensures Legal(e) && Tree(e) == t && Level(e) == 7
  {
    match t
    case Num(d) => Digit(d)
    case Bin(op, l, r) => Paren(Infix(op, Parenthesised(l), Parenthesised(r)))
  }

  // C division truncates toward zero.
  function TruncDiv(a: int, b: int): (q: int)
    requires b != 0
    ensures -Abs(b) < a - q * b < Abs(b)
    ensures a >= 0 ==> a - q * b >= 0
    ensures a <= 0 ==> a - q * b <= 0
  {
    var q := Abs(a) / Abs(b);
    if (a < 0) == (b < 0) then q else -q
  }

  function Abs(x: int): int {
    if x < 0 then -x else x
  }

  // One C operation on int operands; leaving the 32-bit range is a fault.
  function Apply(op: Op, a: int, b: int): Outcome {
    match op
    case Add => InRange(a + b)
    case Sub => InRange(a - b)
    case Mul => InRange(a * b)
    case Div => if b == 0 then DivByZero else InRange(TruncDiv(a, b))
  }

  function InRange(x: int): Outcome {
    if -0x8000_0000 <= x < 0x8000_0000 then Val(x) else Overflow
  }

  // The meaning of an expression in C int arithmetic, left operand first.
  ghost function Value(t: Ast): Outcome {
    match t
    case Num(d) => Val(d)
    case Bin(op, l, r) =>
      if !Value(l).Val? then Value(l)
      else if !Value(r).Val? then Value(r)
      else Apply(op, Value(l).v, Value(r).v)
  }

  // Conversion to an 8-bit signed char.
  function ToChar(x: int): (c: int)
    ensures -128 <= c < 128 && (x - c) % 256 == 0
    ensures -128 <= x < 128 ==> c == x
  {
    (x + 128) % 256 - 128
  }

  // The same meaning when every operand first passes through a char.
  ghost function CharValue(t: Ast): Outcome {
    match t
    case Num(d) => Val(d)
    case Bin(op, l, r) =>
      if !CharValue(l).Val? then CharValue(l)
      else if !CharValue(r).Val? then CharValue(r)
      else Apply(op, ToChar(CharValue(l).v), ToChar(CharValue(r).v))
  }

  // Every operand of every operator has a value that a char can hold.
  ghost predicate OperandsFit(t: Ast) {
    match t
    case Num(_) => true
    case Bin(_, l, r) =>
      && OperandsFit(l) && OperandsFit(r)
      && Value(l).Val? && -128 <= Value(l).v < 128
      && Value(r).Val? && -128 <= Value(r).v < 128
  }

  // The postfix form.
  ghost function Rpn(t: Ast): string
    requires SingleDigits(t)
  {
    match t
    case Num(d) => [DigitChar(d)]
    case Bin(op, l, r) => Rpn(l) + Rpn(r) + [OpChar(op)]
  }

  lemma LegalTree(e: Syntax)
    requires Legal(e)
    ensures SingleDigits(Tree(e))
  {
  }

  lemma {:induction false} FittingOperandsKeepTheValue(t: Ast)
    requires OperandsFit(t)
    ensures CharValue(t) == Value(t)
  {
    if t.Bin? {
      FittingOperandsKeepTheValue(t.l);
      FittingOperandsKeepTheValue(t.r);
    }
  }

  ghost predicate DivisionFree(t: Ast) {
    t.Bin? ==> t.op != Div && DivisionFree(t.l) && DivisionFree(t.r)
  }

  // Without division the narrow operands lose only multiples of 256.
  lemma {:induction false} NarrowingLosesMultiplesOf256(t: Ast)
    requires SingleDigits(t) && DivisionFree(t)
    ensures CharValue(t).Val?
    ensures Value(t).Val? ==> Same(CharValue(t).v, Value(t).v)
  {
    if t.Bin? {
      NarrowingLosesMultiplesOf256(t.l);
      NarrowingLosesMultiplesOf256(t.r);
      NarrowApply(t.op, CharValue(t.l).v, CharValue(t.r).v);
      if Value(t).Val? {
        ApplyCongruent(t.op, CharValue(t.l).v, Value(t.l).v, CharValue(t.r).v, Value(t.r).v);
      }
    }
  }

  lemma NarrowApply(op: Op, a: int, b: int)
    requires op != Div
    ensures Apply(op, ToChar(a), ToChar(b)).Val?
  {
    ProductBound(ToChar(a), ToChar(b));
  }

  lemma ApplyCongruent(op: Op, a: int, c: int, b: int, d: int)
    requires Same(a, c) && Same(b, d) && op != Div
    requires Apply(op, ToChar(a), ToChar(b)).Val? && Apply(op, c, d).Val?
    ensures Same(Apply(op, ToChar(a), ToChar(b)).v, Apply(op, c, d).v)
  {
    var x, y := ToChar(a), ToChar(b);
    assert Same(x, c) && Same(y, d);
    hide ToChar;
    SumCongruent(x, c, y, d);
    ProductCongruent(x, c, y, d);
    hide Same;
  }

  lemma SumCongruent(x: int, c: int, y: int, d: int)
    requires Same(x, c) && Same(y, d)
    ensures Same(x + y, c + d) && Same(x - y, c - d)
  {
  }

  ghost predicate Same(x: int, y: int) {
    (x - y) % 256 == 0
  }

  lemma ProductBound(x: int, y: int)
    requires -128 <= x < 128 && -128 <= y < 128
    ensures -16384 <= x * y <= 16384
  {
    ProductBelow(if x < 0 then -x else x, if y < 0 then -y else y);
  }

  lemma ProductBelow(x: nat, y: nat)
    requires x <= 128 && y <= 128
    ensures 0 <= x * y <= 16384
  {
    assert x * y <= 128 * y;
  }

  lemma ProductCongruent(x: int, c: int, y: int, d: int)
    requires Same(x, c) && Same(y, d)
    ensures Same(x * y, c * d)
  {
    var i, j := (x - c) / 256, (y - d) / 256;
    assert x == c + 256 * i && y == d + 256 * j;
    assert x * y == c * y + 256 * (i * y);
    assert c * y == c * d + 256 * (c * j);
    Multiple(i * y + c * j);
  }

  lemma Multiple(k: int)
    ensures (256 * k) % 256 == 0
  {
  }

  // 9*9*2+1: the machine computes with -94 where the tree has 162.
  lemma NarrowingShows()
    ensures var t := Bin(Add, Bin(Mul, Bin(Mul, Num(9), Num(9)), Num(2)), Num(1));
            SingleDigits(t) && Value(t) == Val(163) && CharValue(t) == Val(-93)
  {
    var u := Bin(Mul, Bin(Mul, Num(9), Num(9)), Num(2));
    assert Value(u) == Val(162) && CharValue(u) == Val(162);
  }
}
