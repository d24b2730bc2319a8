// InfixToPostfix.c: translation of infix text to postfix with an operator stack.
module InfixToPostfix {
  import opened Wrappers
  import opened ListStack
  import opened Infix

  predicate IsDigit(c: char) {
    '0' <= c <= '9'
  }

  predicate IsOperator(c: char) {
    c == '+' || c == '-' || c == '*' || c == '/'
  }

  function GetOpPrec(op: char): int {
    if op == '*' || op == '/' then 5
    else if op == '+' || op == '-' then 3
    else if op == '(' then 1
    else -1
  }

  function WhoPrecOp(op1: char, op2: char): (c: int)
    ensures -1 <= c <= 1 && (c < 0 <==> GetOpPrec(op1) < GetOpPrec(op2)) && (c > 0 <==> GetOpPrec(op2) < GetOpPrec(op1))
  {
    if GetOpPrec(op1) > GetOpPrec(op2) then 1
    else if GetOpPrec(op1) < GetOpPrec(op2) then -1
    else 0
  }

  // Multiplication and division before addition and subtraction, and these before the bracket.
  lemma Ranks()
    ensures GetOpPrec('*') == GetOpPrec('/') > GetOpPrec('+') == GetOpPrec('-') > GetOpPrec('(') > 0
    ensures forall c :: !IsOperator(c) && c != '(' ==> GetOpPrec(c) == -1
  {
  }

  // How many stacked operators (top first) an incoming operator sends to the output.
  function Outranking(stack: seq<char>, tok: char): (n: nat)
    ensures n <= |stack|
  {
    if stack == [] || WhoPrecOp(stack[0], tok) < 0 then 0 else 1 + Outranking(stack[1..], tok)
  }

  // Position of the topmost '(', or the stack's size when there is none.
  function Opening(stack: seq<char>): (n: nat)
    ensures n <= |stack|
    ensures n < |stack| ==> stack[n] == '('
    ensures forall i :: 0 <= i < n ==> stack[i] != '('
  {
    if stack == [] || stack[0] == '(' then 0 else 1 + Opening(stack[1..])
  }

  // The translation from a point inside the text: what is still to read, the operator stack
  // (top first) and the output so far. None is the fault of popping an empty stack.
  function Translate(rest: string, stack: seq<char>, out: string): Option<string>
    decreases |rest|
  {
    if rest == [] then Some(out + stack)
    else
      var tok := rest[0];
      if IsDigit(tok) then Translate(rest[1..], stack, out + [tok])
      else if tok == '(' then Translate(rest[1..], [tok] + stack, out)
      else if tok == ')' then
        var n := Opening(stack);
        if n == |stack| then None else Translate(rest[1..], stack[n + 1..], out + stack[..n])
      else if IsOperator(tok) then
        var n := Outranking(stack, tok);
        Translate(rest[1..], [tok] + stack[n..], out + stack[..n])
      else Translate(rest[1..], stack, out)
  }

  function Compile(exp: string): Option<string> {
    Translate(exp, [], [])
  }

  // case ')': move operators to the output down to the topmost '(' and drop it.
  method PopToOpening(stack: Stack<char>, result: array<char>, start: nat) returns (idx: nat, ok: bool)
    requires stack.Valid() && start + |stack.Contents()| <= result.Length
    modifies stack, result
    ensures stack.Valid()
    ensures ok <==> Opening(old(stack.Contents())) < |old(stack.Contents())|
    ensures ok ==> stack.Contents() == old(stack.Contents())[Opening(old(stack.Contents())) + 1..]
    ensures ok ==> idx == start + Opening(old(stack.Contents()))
    ensures ok ==> result[..idx] == old(result[..start]) + old(stack.Contents())[..idx - start]
  {
    ghost var st := stack.Contents();
    idx := start;
    while true
      invariant stack.Valid() && start <= idx <= start + Opening(st)
      invariant stack.Contents() == st[idx - start..]
      invariant result[..idx] == old(result[..start]) + st[..idx - start]
      decreases start + |st| - idx
    {
      var popOp := stack.SPop();
      if popOp.None? {
        return idx, false;
      }
      if popOp.value == '(' {
        return idx, true;
      }
      result[idx] := popOp.value;
      idx := idx + 1;
    }
  }

  // case '+', '-', '*', '/': move the operators that bind at least as tightly to the output.
  method PopOutranking(stack: Stack<char>, tok: char, result: array<char>, start: nat) returns (idx: nat)
    requires stack.Valid() && start + |stack.Contents()| <= result.Length
    modifies stack, result
    ensures stack.Valid() && start <= idx
    ensures idx - start == Outranking(old(stack.Contents()), tok)
    ensures stack.Contents() == old(stack.Contents())[idx - start..]
    ensures result[..idx] == old(result[..start]) + old(stack.Contents())[..idx - start]
  {
    ghost var st := stack.Contents();
    idx := start;
    assert st[0..] == st;
    while true
      invariant stack.Valid() && start <= idx <= start + |st|
      invariant stack.Contents() == st[idx - start..]
      invariant idx - start + Outranking(st[idx - start..], tok) == Outranking(st, tok)
      invariant result[..idx] == old(result[..start]) + st[..idx - start]
      decreases start + |st| - idx
    {
      var empty := stack.SIsEmpty();
      if empty {
        return;
      }
      var top := stack.SPeek();
      if WhoPrecOp(top.value, tok) < 0 {
        return;
      }
      var tmp := stack.SPop();
      assert st[idx - start..][1..] == st[idx - start + 1..];
      result[idx] := tmp.value;
      idx := idx + 1;
    }
  }

  // The end of the text: move everything still stacked to the output.
  method PopAll(stack: Stack<char>, result: array<char>, start: nat) returns (idx: nat)
    requires stack.Valid() && start + |stack.Contents()| <= result.Length
    modifies stack, result
    ensures idx == start + |old(stack.Contents())|
    ensures result[..idx] == old(result[..start]) + old(stack.Contents())
  {
    ghost var st := stack.Contents();
    idx := start;
    while true
      invariant stack.Valid() && start <= idx <= start + |st|
      invariant stack.Contents() == st[idx - start..]
      invariant result[..idx] == old(result[..start]) + st[..idx - start]
      decreases start + |st| - idx
    {
      var empty := stack.SIsEmpty();
      if empty {
        return;
      }
      var tmp := stack.SPop();
      result[idx] := tmp.value;
      idx := idx + 1;
    }
  }

  // The answer is the part of the result buffer that was written; the buffer, one longer than the
  // text, is never overrun.
  method ConvToRPNEXP(exp: string) returns (r: Option<string>)
    ensures r == Compile(exp)
    ensures r.Some? ==> |r.value| <= |exp|
  {
    var stack := new Stack<char>();
    var length := |exp|;
    var result := new char[length + 1];
    var idx: nat := 0;
    assert exp[0..] == exp && result[..idx] == [];
    for i := 0 to length
      invariant stack.Valid() && fresh(stack) && fresh(result)
      invariant idx + |stack.Contents()| <= i
      invariant Translate(exp[i..], stack.Contents(), result[..idx]) == Compile(exp)
    {
      var tok := exp[i];
      ghost var out := result[..idx];
      assert exp[i..][0] == tok && exp[i..][1..] == exp[i + 1..];
      if IsDigit(tok) {
        result[idx] := tok;
        idx := idx + 1;
        assert result[..idx] == out + [tok];
      } else if tok == '(' {
        stack.SPush(tok);
      } else if tok == ')' {
        var ok;
        idx, ok := PopToOpening(stack, result, idx);
        if !ok {
          return None;
        }
      } else if IsOperator(tok) {
        idx := PopOutranking(stack, tok, result, idx);
        stack.SPush(tok);
      }
    }
    assert exp[length..] == [];
    idx := PopAll(stack, result, idx);
    return Some(result[..idx]);
  }

  // ----- the compiler is correct on every legal printing -----

  // Once a printed expression has been read, these operators (top first) still wait on the stack ...
  ghost function Pending(e: Syntax): seq<char> {
    match e
    case Infix(op, _, r) => Pending(r) + [OpChar(op)]
    case _ => []
  }

  // ... and this much of its postfix form has been written.
  ghost function Written(e: Syntax): string
    requires Legal(e)
    ensures Written(e) + Pending(e) == (LegalTree(e); Rpn(Tree(e)))
  {
    LegalTree(e);
    match e
    case Digit(d) => [DigitChar(d)]
    case Paren(b) => Rpn(Tree(b))
    case Infix(op, l, r) =>
      assert Rpn(Tree(l)) + (Written(r) + Pending(r)) + [OpChar(op)]
          == (Rpn(Tree(l)) + Written(r)) + (Pending(r) + [OpChar(op)]);
      Rpn(Tree(l)) + Written(r)
  }

  lemma {:induction false} PendingAreOperators(e: Syntax)
    requires Legal(e)
    ensures forall c :: c in Pending(e) ==> IsOperator(c) && GetOpPrec(c) >= Level(e)
  {
    if e.Infix? {
      PendingAreOperators(e.r);
    }
  }

  lemma {:induction false} OpeningAfter(ops: seq<char>, below: seq<char>)
    requires forall i :: 0 <= i < |ops| ==> ops[i] != '('
    ensures Opening(ops + (['('] + below)) == |ops|
  {
    var all := ops + (['('] + below);
    if ops == [] {
      assert all == ['('] + below;
    } else {
      assert all[1..] == ops[1..] + (['('] + below);
      OpeningAfter(ops[1..], below);
    }
  }

  lemma {:induction false} OutrankingAll(ops: seq<char>, below: seq<char>, tok: char)
    requires forall c :: c in ops ==> GetOpPrec(c) >= GetOpPrec(tok)
    requires below == [] || GetOpPrec(below[0]) < GetOpPrec(tok)
    ensures Outranking(ops + below, tok) == |ops|
  {
    if ops == [] {
      assert ops + below == below;
    } else {
      assert (ops + below)[1..] == ops[1..] + below;
      OutrankingAll(ops[1..], below, tok);
    }
  }

  lemma ClosingStep(ops: seq<char>, rest: string, stack: seq<char>, out: string)
    requires forall c :: c in ops ==> IsOperator(c)
    ensures Translate(")" + rest, ops + (['('] + stack), out) == Translate(rest, stack, out + ops)
  {
    var all := ops + (['('] + stack);
    forall i | 0 <= i < |ops| ensures ops[i] != '(' {
      assert ops[i] in ops;
    }
    OpeningAfter(ops, stack);
    assert (")" + rest)[1..] == rest;
    assert all[|ops| + 1..] == stack && all[..|ops|] == ops;
  }

  lemma OperatorStep(ops: seq<char>, tok: char, rest: string, stack: seq<char>, out: string)
    requires IsOperator(tok)
    requires forall c :: c in ops ==> GetOpPrec(c) >= GetOpPrec(tok)
    requires stack == [] || GetOpPrec(stack[0]) < GetOpPrec(tok)
    ensures Translate([tok] + rest, ops + stack, out) == Translate(rest, [tok] + stack, out + ops)
  {
    OutrankingAll(ops, stack, tok);
    assert ([tok] + rest)[1..] == rest;
    assert (ops + stack)[|ops|..] == stack && (ops + stack)[..|ops|] == ops;
  }

  // Reading a printed expression above looser operators is one step: its output and its pending
  // operators are appended, whatever follows.
  lemma {:induction false} ReadsExpression(e: Syntax, rest: string, stack: seq<char>, out: string)
    requires Legal(e)
    requires stack == [] || GetOpPrec(stack[0]) < Level(e)
    ensures Translate(Text(e) + rest, stack, out) == Translate(rest, Pending(e) + stack, out + Written(e))
    decreases e, 1
  {
    match e {
      case Digit(d) =>
        assert (Text(e) + rest)[1..] == rest;
        assert Pending(e) + stack == stack;
      case Paren(b) => ReadsParen(b, rest, stack, out);
      case Infix(op, l, r) => ReadsInfix(e, rest, stack, out);
    }
  }

  lemma {:induction false} ReadsParen(b: Syntax, rest: string, stack: seq<char>, out: string)
    requires Legal(b)
    ensures Translate(Text(Paren(b)) + rest, stack, out) == Translate(rest, [] + stack, out + Written(Paren(b)))
    decreases b, 2
  {
    hide Translate, Pending, Written, Opening;
    var after := ")" + rest;
    assert Text(Paren(b)) + rest == "(" + (Text(b) + after);
    OpeningStep(Text(b) + after, stack, out);
    ReadsExpression(b, after, ['('] + stack, out);
    PendingAreOperators(b);
    ClosingStep(Pending(b), rest, stack, out + Written(b));
    WrittenInParentheses(b, out);
    assert [] + stack == stack;
  }

  lemma OpeningStep(rest: string, stack: seq<char>, out: string)
    ensures Translate("(" + rest, stack, out) == Translate(rest, ['('] + stack, out)
  {
    assert ("(" + rest)[1..] == rest;
  }

  lemma WrittenInParentheses(b: Syntax, out: string)
    requires Legal(b)
    ensures out + Written(b) + Pending(b) == out + Written(Paren(b))
  {
    assert out + Written(b) + Pending(b) == out + (Written(b) + Pending(b));
  }

  lemma {:induction false} ReadsInfix(e: Syntax, rest: string, stack: seq<char>, out: string)
    requires Legal(e) && e.Infix?
    requires stack == [] || GetOpPrec(stack[0]) < Level(e)
    ensures Translate(Text(e) + rest, stack, out) == Translate(rest, Pending(e) + stack, out + Written(e))
    decreases e, 0
  {
    hide Translate, Pending, Written, Outranking;
    var tok := OpChar(e.op);
    var after := Text(e.r) + rest;
    var out1, out2 := out + Written(e.l), out + Written(e.l) + Pending(e.l);
    TextAroundOperator(e, rest);
    ReadsExpression(e.l, [tok] + after, stack, out);
    PendingAreOperators(e.l);
    OperatorStep(Pending(e.l), tok, after, stack, out1);
    ReadsExpression(e.r, rest, [tok] + stack, out2);
    WrittenAroundOperator(e, stack, out);
  }

  lemma TextAroundOperator(e: Syntax, rest: string)
    requires Legal(e) && e.Infix?
    ensures Text(e) + rest == Text(e.l) + ([OpChar(e.op)] + (Text(e.r) + rest))
  {
  }

  lemma WrittenAroundOperator(e: Syntax, stack: seq<char>, out: string)
    requires Legal(e) && e.Infix?
    ensures Pending(e.r) + ([OpChar(e.op)] + stack) == Pending(e) + stack
    ensures out + Written(e.l) + Pending(e.l) + Written(e.r) == out + Written(e)
  {
    WrittenInOrder(e);
    hide Written, Pending;
    Joined(out, Written(e.l), Pending(e.l), Written(e.r));
    assert Pending(e.r) + ([OpChar(e.op)] + stack) == Pending(e.r) + [OpChar(e.op)] + stack;
  }

  lemma WrittenInOrder(e: Syntax)
    requires Legal(e) && e.Infix?
    ensures Written(e) == (Written(e.l) + Pending(e.l)) + Written(e.r)
    ensures Pending(e) == Pending(e.r) + [OpChar(e.op)]
  {
  }

  lemma Joined(a: string, b: string, c: string, d: string)
    ensures a + b + c + d == a + (b + c + d)
  {
  }

  // Compiling any legal printing of a tree yields exactly the tree's postfix form.
  lemma CompilesToRpn(e: Syntax)
    requires Legal(e)
    ensures SingleDigits(Tree(e)) && Compile(Text(e)) == Some(Rpn(Tree(e)))
  {
    LegalTree(e);
    ReadsExpression(e, [], [], []);
    assert Text(e) + [] == Text(e);
    assert Pending(e) + [] == Pending(e) && [] + Written(e) == Written(e);
  }

  // ----- which texts the compiler survives -----

  ghost function Turn(c: char): int {
    if c == '(' then 1 else if c == ')' then -1 else 0
  }

  // Opening minus closing parentheses.
  ghost function Depth(s: string): int {
    if s == [] then 0 else Turn(s[0]) + Depth(s[1..])
  }

  ghost function Opened(stack: seq<char>): nat {
    if stack == [] then 0 else (if stack[0] == '(' then 1 else 0) + Opened(stack[1..])
  }

  lemma {:induction false} OpenedPastOutranking(stack: seq<char>, tok: char)
    requires IsOperator(tok)
    ensures Opened(stack[Outranking(stack, tok)..]) == Opened(stack)
  {
    if stack == [] || WhoPrecOp(stack[0], tok) < 0 {
      assert stack[0..] == stack;
    } else {
      OpenedPastOutranking(stack[1..], tok);
      assert stack[1..][Outranking(stack[1..], tok)..] == stack[Outranking(stack, tok)..];
    }
  }

  lemma {:induction false} OpenedPastOpening(stack: seq<char>)
    ensures Opening(stack) == |stack| ==> Opened(stack) == 0
    ensures Opening(stack) < |stack| ==> Opened(stack[Opening(stack) + 1..]) == Opened(stack) - 1
  {
    if stack != [] && stack[0] != '(' {
      OpenedPastOpening(stack[1..]);
      if Opening(stack) < |stack| {
        assert stack[1..][Opening(stack[1..]) + 1..] == stack[Opening(stack) + 1..];
      }
    }
  }

  ghost predicate Overcloses(rest: string, depth: int) {
    exists k :: 0 <= k <= |rest| && depth + Depth(rest[..k]) < 0
  }

  lemma OverclosesStep(rest: string, depth: nat)
    requires rest != []
    ensures Overcloses(rest, depth) <==> depth + Turn(rest[0]) < 0 || Overcloses(rest[1..], depth + Turn(rest[0]))
  {
    var d := depth + Turn(rest[0]);
    forall k | 1 <= k <= |rest| ensures Depth(rest[..k]) == Turn(rest[0]) + Depth(rest[1..][..k - 1]) {
      assert rest[..k][1..] == rest[1..][..k - 1];
    }
    if Overcloses(rest, depth) {
      var k :| 0 <= k <= |rest| && depth + Depth(rest[..k]) < 0;
      assert k > 0 && d + Depth(rest[1..][..k - 1]) < 0;
    }
    if d < 0 {
      assert rest[1..][..0] == [];
      assert depth + Depth(rest[..1]) < 0;
    } else if Overcloses(rest[1..], d) {
      var k :| 0 <= k <= |rest[1..]| && d + Depth(rest[1..][..k]) < 0;
      assert depth + Depth(rest[..k + 1]) < 0;
    }
  }

  lemma {:induction false} FaultsFrom(rest: string, stack: seq<char>, out: string)
    ensures Translate(rest, stack, out).None? <==> Overcloses(rest, Opened(stack))
    decreases |rest|
  {
    if rest == [] {
      assert forall k :: 0 <= k <= |rest| ==> rest[..k] == [];
    } else {
      var tok := rest[0];
      OverclosesStep(rest, Opened(stack));
      if tok == '(' {
        assert ([tok] + stack)[1..] == stack;
        FaultsFrom(rest[1..], [tok] + stack, out);
      } else if tok == ')' {
        var n := Opening(stack);
        OpenedPastOpening(stack);
        if n < |stack| {
          FaultsFrom(rest[1..], stack[n + 1..], out + stack[..n]);
        }
      } else if IsOperator(tok) {
        var n := Outranking(stack, tok);
        OpenedPastOutranking(stack, tok);
        assert ([tok] + stack[n..])[1..] == stack[n..];
        FaultsFrom(rest[1..], [tok] + stack[n..], out + stack[..n]);
      } else {
        FaultsFrom(rest[1..], stack, if IsDigit(tok) then out + [tok] else out);
      }
    }
  }

  // The compiler faults on exactly the texts in which some prefix closes more than it opens.
  lemma FaultsExactlyWhenOverclosed(exp: string)
    ensures Compile(exp).None? <==> exists k :: 0 <= k <= |exp| && Depth(exp[..k]) < 0
  {
    FaultsFrom(exp, [], []);
    if Overcloses(exp, 0) {
      var k :| 0 <= k <= |exp| && 0 + Depth(exp[..k]) < 0;
      assert Depth(exp[..k]) < 0;
    }
    if exists k :: 0 <= k <= |exp| && Depth(exp[..k]) < 0 {
      var k :| 0 <= k <= |exp| && Depth(exp[..k]) < 0;
      assert 0 + Depth(exp[..k]) < 0;
    }
  }

  // ----- blanks and other marks between tokens -----

  ghost function Tokens(s: string): string {
    if s == [] then []
    else if IsDigit(s[0]) || s[0] == '(' || s[0] == ')' || IsOperator(s[0]) then [s[0]] + Tokens(s[1..])
    else Tokens(s[1..])
  }

  lemma {:induction false} IgnoresOtherMarks(rest: string, stack: seq<char>, out: string)
    ensures Translate(rest, stack, out) == Translate(Tokens(rest), stack, out)
    decreases |rest|
  {
    if rest != [] {
      var tok := rest[0];
      var kept := [tok] + Tokens(rest[1..]);
      assert kept[1..] == Tokens(rest[1..]);
      if tok == '(' {
        IgnoresOtherMarks(rest[1..], [tok] + stack, out);
      } else if tok == ')' {
        var n := Opening(stack);
        if n < |stack| {
          IgnoresOtherMarks(rest[1..], stack[n + 1..], out + stack[..n]);
        }
      } else if IsOperator(tok) {
        var n := Outranking(stack, tok);
        IgnoresOtherMarks(rest[1..], [tok] + stack[n..], out + stack[..n]);
      } else {
        IgnoresOtherMarks(rest[1..], stack, if IsDigit(tok) then out + [tok] else out);
      }
    }
  }
}
