// PostCalculator.c and infixCalculator.c: the postfix stack machine and the calculator around it.
module PostCalculator {
  import opened Wrappers
  import opened ListStack
  import opened Infix
  import opened Narrowing
  import opened Meaning
  import opened InfixToPostfix

  function OperatorOf(c: char): Option<Op> {
    if c == '+' then Some(Add)
    else if c == '-' then Some(Sub)
    else if c == '*' then Some(Mul)
    else if c == '/' then Some(Div)
    else None
  }

  // The machine from a point inside the code. Operands are popped into char variables; a character
  // that is neither digit nor operator still pops two operands and pushes nothing.
  function Run(code: string, stack: seq<int>): Outcome
    decreases |code|
  {
    if code == [] then
      if stack == [] then Underflow else Val(stack[0])
    else
      var tmp := code[0];
      if IsDigit(tmp) then Run(code[1..], [tmp as int - '0' as int] + stack)
      else if |stack| < 2 then Underflow
      else
        match OperatorOf(tmp)
        case None => Run(code[1..], stack[2..])
        case Some(op) =>
          var result := Apply(op, ToChar(stack[1]), ToChar(stack[0]));
          if result.Val? then Run(code[1..], [result.v] + stack[2..]) else result
  }

  method EvalRPNEXP(exp: string) returns (r: Outcome)
    ensures r == Run(exp, [])
  {
    var stack := new Stack<int>();
    assert exp[0..] == exp;
    for i := 0 to |exp|
      invariant stack.Valid() && fresh(stack)
      invariant Run(exp[i..], stack.Contents()) == Run(exp, [])
    {
      var tmp := exp[i];
      ghost var st := stack.Contents();
      assert exp[i..][0] == tmp && exp[i..][1..] == exp[i + 1..];
      if IsDigit(tmp) {
        stack.SPush(tmp as int - '0' as int);
        continue;
      }
      var op2 := stack.SPop();
      if op2.None? {
        return Underflow;
      }
      var op1 := stack.SPop();
      if op1.None? {
        return Underflow;
      }
      assert st[1..][1..] == st[2..];
      var op := OperatorOf(tmp);
      if op.Some? {
        var result := Apply(op.value, ToChar(op1.value), ToChar(op2.value));
        if !result.Val? {
          return result;
        }
        stack.SPush(result.v);
      }
    }
    assert exp[|exp|..] == [];
    var top := stack.SPop();
    return if top.None? then Underflow else Val(top.value);
  }

  // infixCalculator.c: compile, then run. A compiler fault ends the program.
  method EvalInfixExp(exp: string) returns (r: Option<Outcome>)
    ensures r == match Compile(exp) { case None => None case Some(code) => Some(Run(code, [])) }
  {
    var code := ConvToRPNEXP(exp);
    if code.None? {
      return None;
    }
    var ret := EvalRPNEXP(code.value);
    return Some(ret);
  }

  // Running a tree's postfix form pushes the tree's char-narrowed value, or stops with its fault.
  lemma {:induction false} RunsRpn(t: Ast, rest: string, stack: seq<int>)
    requires SingleDigits(t)
    ensures Run(Rpn(t) + rest, stack)
         == if CharValue(t).Val? then Run(rest, [CharValue(t).v] + stack) else CharValue(t)
    decreases t
  {
    match t {
      case Num(d) =>
        assert (Rpn(t) + rest)[1..] == rest;
      case Bin(op, l, r) =>
        var tail := [OpChar(op)] + rest;
        assert Rpn(t) + rest == Rpn(l) + (Rpn(r) + tail);
        RunsRpn(l, Rpn(r) + tail, stack);
        if CharValue(l).Val? {
          RunsRpn(r, tail, [CharValue(l).v] + stack);
          if CharValue(r).Val? {
            RunsOperator(op, rest, CharValue(l).v, CharValue(r).v, stack);
          }
        }
    }
  }

  lemma RunsOperator(op: Op, rest: string, a: int, b: int, stack: seq<int>)
    ensures var result := Apply(op, ToChar(a), ToChar(b));
            Run([OpChar(op)] + rest, [b] + ([a] + stack)) == if result.Val? then Run(rest, [result.v] + stack) else result
  {
    assert ([OpChar(op)] + rest)[1..] == rest;
    assert ([b] + ([a] + stack))[2..] == stack;
  }

  // The calculator on any legal printing of a tree: no stack ever underflows, and the answer is the
  // tree's value with char operands. It is the tree's own value whenever the operands fit, and,
  // unless a division has an operand that does not fit, exactly when the root keeps it.
  lemma CalculatorIsCorrect(e: Syntax)
    requires Legal(e)
    ensures Compile(Text(e)).Some?
    ensures var r := Run(Compile(Text(e)).value, []);
            && r == CharValue(Tree(e))
            && (r.Val? || r == DivByZero)
            && (forall o :: Denotes(Tree(e), o, true) <==> o == r)
            && (OperandsFit(Tree(e)) ==> r == Value(Tree(e)))
            && (DivisionsFit(Tree(e)) ==> (r == Value(Tree(e)) <==> NarrowingKeeps(Tree(e))))
  {
    CompilesToRpn(e);
    var t := Tree(e);
    RunsRpn(t, [], []);
    assert Rpn(t) + [] == Rpn(t);
    CharFaults(t);
    forall o ensures Denotes(t, o, true) <==> o == CharValue(t) {
      DenotesExactly(t, o, true);
    }
    if OperandsFit(t) {
      FittingOperandsKeepTheValue(t);
    }
    if DivisionsFit(t) {
      NarrowingKeepsExactly(t);
    }
  }
}
