// ExpressionTree.c and BinaryTree2.c: building an expression tree from postfix text, and evaluating it.
module ExpressionTree {
  import opened Wrappers
  import opened ListStack
  import opened Infix
  import opened InfixToPostfix
  import opened Narrowing
  import opened Meaning
  import opened PostCalculator

  class BTreeNode {
    var data: int
    var left: BTreeNode?
    var right: BTreeNode?

    constructor ()
      ensures left == null && right == null
    {
      left, right := null, null;
    }
  }

  // The value a node stands for: data, and the two subtrees if it has them.
  datatype ETree = Leaf(data: int) | Node(data: int, l: ETree, r: ETree)

  // Unfolding bt within a set of nodes gives the tree t.
  ghost predicate Represents(bt: BTreeNode, t: ETree, nodes: set<BTreeNode>)
    reads nodes
    decreases t
  {
    && bt in nodes
    && bt.data == t.data
    && match t
       case Leaf(_) => bt.left == null && bt.right == null
       case Node(_, l, r) =>
         && bt.left != null && Represents(bt.left, l, nodes)
         && bt.right != null && Represents(bt.right, r, nodes)
  }

  lemma {:induction false} RepresentsInMore(bt: BTreeNode, t: ETree, nodes: set<BTreeNode>, more: set<BTreeNode>)
    requires Represents(bt, t, nodes) && nodes <= more
    ensures Represents(bt, t, more)
    decreases t
  {
    if t.Node? {
      RepresentsInMore(bt.left, t.l, nodes, more);
      RepresentsInMore(bt.right, t.r, nodes, more);
    }
  }

  // EvaluateExpTree on the represented tree; an unknown operator evaluates to 0.
  function Evaluate(t: ETree): Outcome {
    match t
    case Leaf(data) => Val(data)
    case Node(data, l, r) =>
      if !Evaluate(l).Val? then Evaluate(l)
      else if !Evaluate(r).Val? then Evaluate(r)
      else match OperatorOfInt(data)
           case None => Val(0)
           case Some(op) => Apply(op, Evaluate(l).v, Evaluate(r).v)
  }

  function OperatorOfInt(data: int): Option<Op> {
    if data == '+' as int then Some(Add)
    else if data == '-' as int then Some(Sub)
    else if data == '*' as int then Some(Mul)
    else if data == '/' as int then Some(Div)
    else None
  }

  // One character of the code: trees wait on a stack, top first; None is the fault of popping an
  // empty stack.
  function Token(c: char, stack: seq<ETree>): Option<seq<ETree>> {
    if IsDigit(c) then Some([Leaf(c as int - '0' as int)] + stack)
    else if |stack| < 2 then None
    else Some([Node(c as int, stack[1], stack[0])] + stack[2..])
  }

  function Build(code: string, stack: seq<ETree>): Option<ETree>
    decreases |code|
  {
    if code == [] then
      if stack == [] then None else Some(stack[0])
    else
      var after := Token(code[0], stack);
      if after.None? then None else Build(code[1..], after.value)
  }

  method EvaluateExpTree(bt: BTreeNode, ghost t: ETree, ghost nodes: set<BTreeNode>) returns (r: Outcome)
    requires Represents(bt, t, nodes)
    ensures r == Evaluate(t)
    decreases t
  {
    if bt.left == null && bt.right == null {
      return Val(bt.data);
    }
    var op1 := EvaluateExpTree(bt.left, t.l, nodes);
    if !op1.Val? {
      return op1;
    }
    var op2 := EvaluateExpTree(bt.right, t.r, nodes);
    if !op2.Val? {
      return op2;
    }
    var op := OperatorOfInt(bt.data);
    return if op.None? then Val(0) else Apply(op.value, op1.v, op2.v);
  }

  ghost predicate Forest(roots: seq<BTreeNode>, trees: seq<ETree>, nodes: set<BTreeNode>)
    reads nodes
  {
    |roots| == |trees| && forall i :: 0 <= i < |roots| ==> Represents(roots[i], trees[i], nodes)
  }

  lemma ForestInMore(roots: seq<BTreeNode>, trees: seq<ETree>, nodes: set<BTreeNode>, more: set<BTreeNode>)
    requires Forest(roots, trees, nodes) && nodes <= more
    ensures Forest(roots, trees, more)
  {
    forall i | 0 <= i < |roots| ensures Represents(roots[i], trees[i], more) {
      RepresentsInMore(roots[i], trees[i], nodes, more);
    }
  }

  // Pop two operands and hang them under tmp.
  method LinkOperands(stack: Stack<BTreeNode>, tmp: BTreeNode, ghost trees: seq<ETree>, ghost nodes: set<BTreeNode>)
    returns (ok: bool)
    requires stack.Valid() && Forest(stack.Contents(), trees, nodes) && tmp !in nodes
    modifies stack, tmp
    ensures stack.Valid()
    ensures ok <==> |trees| >= 2
    ensures ok ==> stack.Contents() == old(stack.Contents())[2..]
    ensures ok ==> tmp.left == old(stack.Contents()[1]) && tmp.right == old(stack.Contents()[0])
    ensures tmp.data == old(tmp.data)
  {
    ghost var roots := stack.Contents();
    var op2 := stack.SPop();
    if op2.None? {
      return false;
    }
    var op1 := stack.SPop();
    if op1.None? {
      return false;
    }
    assert roots[1..][1..] == roots[2..] && op1.value == roots[1];
    tmp.right := op2.value;
    tmp.left := op1.value;
    return true;
  }

  // The loop body of MakeExpTree.
  method ReadToken(stack: Stack<BTreeNode>, pv: char, ghost trees: seq<ETree>, ghost nodes: set<BTreeNode>)
    returns (ok: bool, ghost nodes': set<BTreeNode>)
    requires stack.Valid() && Forest(stack.Contents(), trees, nodes)
    modifies stack
    ensures stack.Valid() && nodes <= nodes' && fresh(nodes' - nodes)
    ensures ok <==> Token(pv, trees).Some?
    ensures ok ==> Forest(stack.Contents(), Token(pv, trees).value, nodes')
  {
    hide Represents;
    var tmp := new BTreeNode();
    nodes' := nodes + {tmp};
    ghost var roots := stack.Contents();
    if IsDigit(pv) {
      tmp.data := pv as int - '0' as int;
      ok := true;
    } else {
      ok := LinkOperands(stack, tmp, trees, nodes);
      tmp.data := pv as int;
    }
    if ok {
      ForestInMore(roots, trees, nodes, nodes');
      TokenOnForest(roots, trees, nodes', pv, tmp);
      stack.SPush(tmp);
    }
  }

  // A node that is a leaf, or hangs over the first two trees, takes the place of what it consumed.
  lemma TokenOnForest(roots: seq<BTreeNode>, trees: seq<ETree>, nodes: set<BTreeNode>, pv: char, tmp: BTreeNode)
    requires Forest(roots, trees, nodes) && tmp in nodes
    requires IsDigit(pv) ==> tmp.data == pv as int - '0' as int && tmp.left == null && tmp.right == null
    requires !IsDigit(pv) ==> |roots| >= 2 && tmp.data == pv as int && tmp.left == roots[1] && tmp.right == roots[0]
    ensures Token(pv, trees).Some?
    ensures Forest([tmp] + (if IsDigit(pv) then roots else roots[2..]), Token(pv, trees).value, nodes)
  {
    var forest, after := [tmp] + (if IsDigit(pv) then roots else roots[2..]), Token(pv, trees).value;
    assert Represents(tmp, after[0], nodes);
    forall i | 1 <= i < |forest| ensures Represents(forest[i], after[i], nodes) {
      var k := if IsDigit(pv) then i - 1 else i + 1;
      assert forest[i] == roots[k] && after[i] == trees[k];
    }
  }

  // The root, or null when an empty stack is popped.
  method MakeExpTree(exp: string) returns (root: BTreeNode?, ghost nodes: set<BTreeNode>)
    ensures root == null <==> Build(exp, []).None?
    ensures root != null ==> Represents(root, Build(exp, []).value, nodes) && fresh(nodes)
  {
    var stack := new Stack<BTreeNode>();
    ghost var trees: seq<ETree> := [];
    nodes := {};
    assert exp[0..] == exp;
    for i := 0 to |exp|
      invariant stack.Valid() && fresh(stack) && fresh(nodes)
      invariant Forest(stack.Contents(), trees, nodes)
      invariant Build(exp[i..], trees) == Build(exp, [])
    {
      assert exp[i..][0] == exp[i] && exp[i..][1..] == exp[i + 1..];
      var ok;
      ok, nodes := ReadToken(stack, exp[i], trees, nodes);
      if !ok {
        return null, {};
      }
      trees := Token(exp[i], trees).value;
    }
    assert exp[|exp|..] == [];
    var top := stack.SPop();
    if top.None? {
      return null, {};
    }
    return top.value, nodes;
  }

  // ----- the tree route agrees with the expression -----

  ghost function TreeOf(t: Ast): ETree {
    match t
    case Num(d) => Leaf(d)
    case Bin(op, l, r) => Node(OpChar(op) as int, TreeOf(l), TreeOf(r))
  }

  lemma {:induction false} BuildsTree(t: Ast, rest: string, stack: seq<ETree>)
    requires SingleDigits(t)
    ensures Build(Rpn(t) + rest, stack) == Build(rest, [TreeOf(t)] + stack)
    decreases t
  {
    match t {
      case Num(d) =>
        assert (Rpn(t) + rest)[1..] == rest;
      case Bin(op, l, r) =>
        var tail := [OpChar(op)] + rest;
        assert Rpn(t) + rest == Rpn(l) + (Rpn(r) + tail);
        BuildsTree(l, Rpn(r) + tail, stack);
        BuildsTree(r, tail, [TreeOf(l)] + stack);
        assert tail[1..] == rest;
        assert ([TreeOf(r)] + ([TreeOf(l)] + stack))[2..] == stack;
    }
  }

  lemma {:induction false} EvaluatesTree(t: Ast)
    ensures Evaluate(TreeOf(t)) == Value(t)
  {
    if t.Bin? {
      EvaluatesTree(t.l);
      EvaluatesTree(t.r);
    }
  }

  lemma {:induction false} TreeOfIsInjective(t: Ast, u: Ast)
    requires TreeOf(t) == TreeOf(u)
    ensures t == u
  {
    if t.Bin? && u.Bin? {
      TreeOfIsInjective(t.l, u.l);
      TreeOfIsInjective(t.r, u.r);
    }
  }

  // From any legal printing of a tree, compiling and then building recovers that very tree, and its
  // evaluation is the expression's value in C; the stack machine on the same code agrees whenever
  // the operands fit in a char, and otherwise exactly when narrowing keeps the value.
  lemma TreeRouteIsCorrect(e: Syntax)
    requires Legal(e)
    ensures Compile(Text(e)).Some?
    ensures var code := Compile(Text(e)).value;
            && Build(code, []) == Some(TreeOf(Tree(e)))
            && Evaluate(Build(code, []).value) == Value(Tree(e))
            && (forall o :: Denotes(Tree(e), o, false) <==> o == Evaluate(Build(code, []).value))
            && (OperandsFit(Tree(e)) ==> Run(code, []) == Evaluate(Build(code, []).value))
            && (DivisionsFit(Tree(e)) ==> (Run(code, []) == Evaluate(Build(code, []).value) <==> NarrowingKeeps(Tree(e))))
  {
    CompilesToRpn(e);
    var t := Tree(e);
    BuildsTree(t, [], []);
    assert Rpn(t) + [] == Rpn(t);
    EvaluatesTree(t);
    forall o ensures Denotes(t, o, false) <==> o == Value(t) {
      DenotesExactly(t, o, false);
    }
    CalculatorIsCorrect(e);
  }

  // The compiler shows the printing to be unambiguous: equal texts have equal trees.
  lemma TextDeterminesTree(e: Syntax, f: Syntax)
    requires Legal(e) && Legal(f) && Text(e) == Text(f)
    ensures Tree(e) == Tree(f)
  {
    TreeRouteIsCorrect(e);
    TreeRouteIsCorrect(f);
    TreeOfIsInjective(Tree(e), Tree(f));
  }
}
