// The binary search tree whose root is rebalanced after every insertion
// (AVLRebalance.c, BinarySearchTree3.c and BinaryTree3.c).

module SearchTree {
  datatype Tree<T> = Empty | Branch(item: T, left: Tree<T>, right: Tree<T>)

  function Inorder<T>(t: Tree<T>): seq<T> {
    match t
    case Empty => []
    case Branch(item, left, right) => Inorder(left) + [item] + Inorder(right)
  }

  function Height<T>(t: Tree<T>): (h: nat)
    ensures h == 0 <==> t.Empty?
  {
    if t.Empty? then 0
    else if Height(t.left) > Height(t.right) then Height(t.left) + 1
    else Height(t.right) + 1
  }

  function HeightDiff<T>(t: Tree<T>): int {
    if t.Empty? then 0 else Height(t.left) - Height(t.right)
  }

  function TurnedRight<T>(t: Tree<T>): Tree<T>
    requires t.Branch? && t.left.Branch?
  {
    Branch(t.left.item, t.left.left, Branch(t.item, t.left.right, t.right))
  }

  function TurnedLeft<T>(t: Tree<T>): Tree<T>
    requires t.Branch? && t.right.Branch?
  {
    Branch(t.right.item, Branch(t.item, t.left, t.right.left), t.right.right)
  }

  // The height differences alone ensure that no rotation goes through a missing child.
  function Rebalanced<T>(t: Tree<T>): Tree<T> {
    if HeightDiff(t) > 1 then
      TurnedRight(if HeightDiff(t.left) > 0 then t else t.(left := TurnedLeft(t.left)))
    else if HeightDiff(t) < -1 then
      TurnedLeft(if HeightDiff(t.right) < 0 then t else t.(right := TurnedRight(t.right)))
    else t
  }

  lemma BranchInorder<T>(t: Tree<T>)
    requires t.Branch?
    ensures Inorder(t) == Inorder(t.left) + [t.item] + Inorder(t.right)
  {
  }

  lemma TurnRegroups<T>(a: seq<T>, x: T, b: seq<T>, y: T, c: seq<T>)
    ensures a + [x] + b + [y] + c == a + [x] + (b + [y] + c)
  {
  }

  lemma TurnsKeepTheOrder<T>(t: Tree<T>)
    ensures t.Branch? && t.left.Branch? ==> Inorder(TurnedRight(t)) == Inorder(t)
    ensures t.Branch? && t.right.Branch? ==> Inorder(TurnedLeft(t)) == Inorder(t)
  {
    hide Inorder;
    if t.Branch? && t.left.Branch? {
      var u := TurnedRight(t);
      BranchInorder(t);
      BranchInorder(t.left);
      BranchInorder(u);
      BranchInorder(u.right);
      TurnRegroups(Inorder(t.left.left), t.left.item, Inorder(t.left.right), t.item, Inorder(t.right));
    }
    if t.Branch? && t.right.Branch? {
      var u := TurnedLeft(t);
      BranchInorder(t);
      BranchInorder(t.right);
      BranchInorder(u);
      BranchInorder(u.left);
      TurnRegroups(Inorder(t.left), t.item, Inorder(t.right.left), t.right.item, Inorder(t.right.right));
    }
  }

  lemma RebalanceKeepsTheOrder<T>(t: Tree<T>)
    ensures Inorder(Rebalanced(t)) == Inorder(t)
  {
    TurnsKeepTheOrder(t);
    if HeightDiff(t) > 1 && HeightDiff(t.left) <= 0 {
      TurnsKeepTheOrder(t.left);
      TurnsKeepTheOrder(t.(left := TurnedLeft(t.left)));
    } else if HeightDiff(t) < -1 && HeightDiff(t.right) >= 0 {
      TurnsKeepTheOrder(t.right);
      TurnsKeepTheOrder(t.(right := TurnedRight(t.right)));
    }
  }

  // Which node comes to the root: the heavier child, or, when that leans the other way or not at all,
  // its inner child. Nothing turns while the root is off by at most one.
  lemma RebalancePromotes<T>(t: Tree<T>)
    ensures HeightDiff(t) > 1 ==>
      if Height(t.left.left) > Height(t.left.right) then Rebalanced(t).item == t.left.item && Rebalanced(t).left == t.left.left
      else t.left.right.Branch? && Rebalanced(t).item == t.left.right.item && Rebalanced(t).left.item == t.left.item
    ensures HeightDiff(t) < -1 ==>
      if Height(t.right.right) > Height(t.right.left) then Rebalanced(t).item == t.right.item && Rebalanced(t).right == t.right.right
      else t.right.left.Branch? && Rebalanced(t).item == t.right.left.item && Rebalanced(t).right.item == t.right.item
    ensures -1 <= HeightDiff(t) <= 1 ==> Rebalanced(t) == t
  {
  }

  // A root out of balance by two, over a child in balance, is brought into balance.
  lemma RebalanceLevelsTheRoot<T>(t: Tree<T>)
    requires t.Branch? && -2 <= HeightDiff(t) <= 2
    requires -1 <= HeightDiff(t.left) <= 1 && -1 <= HeightDiff(t.right) <= 1
    ensures -1 <= HeightDiff(Rebalanced(t)) <= 1
  {
    if HeightDiff(t) == 2 && HeightDiff(t.left) == 0 {
      assert Height(t.left.left) == Height(t.left.right) == Height(t.right) + 1;
    }
  }

  predicate Ordered<T>(s: seq<T>, key: T -> int) {
    forall i, j :: 0 <= i < j < |s| ==> key(s[i]) < key(s[j])
  }

  ghost function KeysOf<T>(s: seq<T>, key: T -> int): set<int> {
    set i | 0 <= i < |s| :: key(s[i])
  }

  // The search goes right below a smaller key and left below a greater one.
  predicate Found<T>(t: Tree<T>, k: int, key: T -> int) {
    t.Branch? && (key(t.item) == k || Found(if key(t.item) < k then t.right else t.left, k, key))
  }

  function Attached<T>(t: Tree<T>, x: T, key: T -> int): Tree<T> {
    if t.Empty? then Branch(x, Empty, Empty)
    else if key(t.item) == key(x) then t
    else if key(t.item) < key(x) then t.(right := Attached(t.right, x, key))
    else t.(left := Attached(t.left, x, key))
  }

  function Inserted<T>(t: Tree<T>, x: T, key: T -> int): Tree<T> {
    if Found(t, key(x), key) then t else Rebalanced(Attached(t, x, key))
  }

  function InsertedAll<T>(xs: seq<T>, key: T -> int): Tree<T> {
    if xs == [] then Empty else Inserted(InsertedAll(xs[..|xs| - 1], key), xs[|xs| - 1], key)
  }

  lemma KeysOfSum<T>(a: seq<T>, b: seq<T>, key: T -> int)
    ensures KeysOf(a + b, key) == KeysOf(a, key) + KeysOf(b, key)
  {
    var s := a + b;
    forall k | k in KeysOf(a, key) ensures k in KeysOf(s, key) {
      var i :| 0 <= i < |a| && key(a[i]) == k;
      assert key(s[i]) == k;
    }
    forall k | k in KeysOf(b, key) ensures k in KeysOf(s, key) {
      var i :| 0 <= i < |b| && key(b[i]) == k;
      assert key(s[|a| + i]) == k;
    }
  }

  predicate AllBelow(a: set<int>, b: set<int>) {
    forall x, y :: x in a && y in b ==> x < y
  }

  lemma PartsOfOrdered<T>(a: seq<T>, b: seq<T>, key: T -> int)
    requires Ordered(a + b, key)
    ensures Ordered(a, key) && Ordered(b, key) && AllBelow(KeysOf(a, key), KeysOf(b, key))
  {
    var s, n := a + b, |a|;
    forall i, j | 0 <= i < j < n ensures key(a[i]) < key(a[j]) {
      assert key(s[i]) < key(s[j]);
    }
    forall i, j | 0 <= i < j < |b| ensures key(b[i]) < key(b[j]) {
      assert key(s[n + i]) < key(s[n + j]);
    }
    forall x, y | x in KeysOf(a, key) && y in KeysOf(b, key) ensures x < y {
      var i :| 0 <= i < |a| && key(a[i]) == x;
      var j :| 0 <= j < |b| && key(b[j]) == y;
      assert key(s[i]) < key(s[n + j]);
    }
  }

  lemma OrderedSum<T>(a: seq<T>, b: seq<T>, key: T -> int)
    ensures Ordered(a + b, key) <==>
            Ordered(a, key) && Ordered(b, key) && AllBelow(KeysOf(a, key), KeysOf(b, key))
  {
    var s, n := a + b, |a|;
    if Ordered(s, key) {
      PartsOfOrdered(a, b, key);
    } else if Ordered(a, key) && Ordered(b, key) && AllBelow(KeysOf(a, key), KeysOf(b, key)) {
      forall i, j | 0 <= i < j < |s| ensures key(s[i]) < key(s[j]) {
        assert i < n ==> key(a[i]) in KeysOf(a, key);
        assert j >= n ==> key(b[j - n]) in KeysOf(b, key);
      }
    }
  }

  lemma OrderedParts<T>(t: Tree<T>, key: T -> int)
    requires t.Branch?
    ensures
      var l, r, k := KeysOf(Inorder(t.left), key), KeysOf(Inorder(t.right), key), {key(t.item)};
      && KeysOf(Inorder(t), key) == l + k + r
      && (Ordered(Inorder(t), key) <==>
          Ordered(Inorder(t.left), key) && Ordered(Inorder(t.right), key) && AllBelow(l, k) && AllBelow(l + k, r))
  {
    hide Ordered, AllBelow, KeysOf;
    var l, r := Inorder(t.left), Inorder(t.right);
    OneKey(t.item, key);
    KeysOfSum(l, [t.item], key);
    KeysOfSum(l + [t.item], r, key);
    OrderedSum(l, [t.item], key);
    OrderedSum(l + [t.item], r, key);
  }

  // In a search tree the search finds exactly the keys that are there.
  lemma {:induction false} SearchIsMembership<T>(t: Tree<T>, k: int, key: T -> int)
    requires Ordered(Inorder(t), key)
    ensures Found(t, k, key) <==> k in KeysOf(Inorder(t), key)
  {
    hide Ordered;
    if t.Branch? {
      OrderedParts(t, key);
      SearchIsMembership(t.left, k, key);
      SearchIsMembership(t.right, k, key);
    }
  }

  lemma OneKey<T>(x: T, key: T -> int)
    ensures Ordered([x], key) && KeysOf([x], key) == {key(x)} && KeysOf([], key) == {}
  {
    assert key([x][0]) in KeysOf([x], key);
  }

  lemma {:induction false} AttachAddsTheKey<T>(t: Tree<T>, x: T, key: T -> int)
    requires Ordered(Inorder(t), key) && !Found(t, key(x), key)
    ensures Ordered(Inorder(Attached(t, x, key)), key)
    ensures KeysOf(Inorder(Attached(t, x, key)), key) == KeysOf(Inorder(t), key) + {key(x)}
  {
    hide Ordered, KeysOf;
    var u := Attached(t, x, key);
    if t.Empty? {
      OneKey(x, key);
      assert Inorder(u) == [x];
    } else {
      OrderedParts(t, key);
      OrderedParts(u, key);
      if key(t.item) < key(x) {
        AttachAddsTheKey(t.right, x, key);
      } else {
        AttachAddsTheKey(t.left, x, key);
      }
    }
  }

  lemma InsertAddsTheKey<T>(t: Tree<T>, x: T, key: T -> int)
    requires Ordered(Inorder(t), key)
    ensures Ordered(Inorder(Inserted(t, x, key)), key)
    ensures KeysOf(Inorder(Inserted(t, x, key)), key) == KeysOf(Inorder(t), key) + {key(x)}
  {
    if Found(t, key(x), key) {
      SearchIsMembership(t, key(x), key);
    } else {
      AttachAddsTheKey(t, x, key);
      RebalanceKeepsTheOrder(Attached(t, x, key));
    }
  }

  lemma EmptyHoldsNothing<T>(key: T -> int)
    ensures Ordered(Inorder<T>(Empty), key) && KeysOf(Inorder<T>(Empty), key) == KeysOf([], key)
  {
  }

  // After any run of insertions: a search tree without duplicates, of exactly the inserted keys.
  lemma {:induction false} AnyRunGivesASearchTree<T>(xs: seq<T>, key: T -> int)
    ensures Ordered(Inorder(InsertedAll(xs, key)), key)
    ensures KeysOf(Inorder(InsertedAll(xs, key)), key) == KeysOf(xs, key)
    ensures forall k :: Found(InsertedAll(xs, key), k, key) <==> k in KeysOf(xs, key)
  {
    hide Ordered, KeysOf, Inorder, Inserted, Found;
    if xs == [] {
      EmptyHoldsNothing(key);
    } else {
      var init, last := xs[..|xs| - 1], xs[|xs| - 1];
      AnyRunGivesASearchTree(init, key);
      OneKey(last, key);
      InsertAddsTheKey(InsertedAll(init, key), last, key);
      KeysOfSum(init, [last], key);
      assert xs == init + [last];
    }
    forall k
      ensures Found(InsertedAll(xs, key), k, key) <==> k in KeysOf(xs, key)
    {
      SearchIsMembership(InsertedAll(xs, key), k, key);
    }
  }

  class Node {
    const data: int
    var left: Node?
    var right: Node?

    constructor (data: int)
      ensures this.data == data && left == null && right == null
    {
      this.data := data;
      left, right := null, null;
    }
  }

  const KEY: Node -> int := (n: Node) => n.data

  function Items(t: Tree<Node>): set<Node> {
    if t.Empty? then {} else {t.item} + Items(t.left) + Items(t.right)
  }

  lemma ItemsAreAllocated(t: Tree<Node>)
    ensures allocated(Items(t))
  {
  }

  // No node occurs twice.
  predicate Apart(t: Tree<Node>) {
    t.Branch? ==>
      && t.item !in Items(t.left) + Items(t.right) && Items(t.left) !! Items(t.right)
      && Apart(t.left) && Apart(t.right)
  }

  // Following the pointers from `n` gives the tree `t`.
  ghost predicate Linked(n: Node?, t: Tree<Node>)
    reads Items(t)
  {
    match t
    case Empty => n == null
    case Branch(item, left, right) => n == item && Linked(item.left, left) && Linked(item.right, right)
  }

  method GetHeight(bst: Node?, ghost t: Tree<Node>) returns (h: nat)
    requires Linked(bst, t)
    ensures h == Height(t)
    decreases t
  {
    ItemsAreAllocated(t);
    if bst == null {
      return 0;
    }
    var left := GetHeight(bst.left, t.left);
    var right := GetHeight(bst.right, t.right);
    h := if left > right then left + 1 else right + 1;
  }

  method GetHeightDiff(bst: Node?, ghost t: Tree<Node>) returns (diff: int)
    requires Linked(bst, t)
    ensures diff == HeightDiff(t)
  {
    ItemsAreAllocated(t);
    if bst == null {
      return 0;
    }
    var left: int := GetHeight(bst.left, t.left);
    var right: int := GetHeight(bst.right, t.right);
    diff := left - right;
  }

  method RotateLL(bst: Node, ghost t: Tree<Node>) returns (cNode: Node)
    requires Linked(bst, t) && Apart(t) && t.left.Branch?
    modifies Items(t)
    ensures Linked(cNode, TurnedRight(t)) && Apart(TurnedRight(t)) && Items(TurnedRight(t)) == Items(t)
  {
    cNode := bst.left;
    bst.left := cNode.right;
    cNode.right := bst;
  }

  method RotateRR(bst: Node, ghost t: Tree<Node>) returns (cNode: Node)
    requires Linked(bst, t) && Apart(t) && t.right.Branch?
    modifies Items(t)
    ensures Linked(cNode, TurnedLeft(t)) && Apart(TurnedLeft(t)) && Items(TurnedLeft(t)) == Items(t)
  {
    cNode := bst.right;
    bst.right := cNode.left;
    cNode.left := bst;
  }

  method RotateLR(bst: Node, ghost t: Tree<Node>) returns (cNode: Node)
    requires Linked(bst, t) && Apart(t) && t.left.Branch? && t.left.right.Branch?
    modifies Items(t)
    ensures
      var u := TurnedRight(t.(left := TurnedLeft(t.left)));
      Linked(cNode, u) && Apart(u) && Items(u) == Items(t)
  {
    ItemsAreAllocated(t);
    cNode := RotateRR(bst.left, t.left);
    bst.left := cNode;
    cNode := RotateLL(bst, t.(left := TurnedLeft(t.left)));
  }

  method RotateRL(bst: Node, ghost t: Tree<Node>) returns (cNode: Node)
    requires Linked(bst, t) && Apart(t) && t.right.Branch? && t.right.left.Branch?
    modifies Items(t)
    ensures
      var u := TurnedLeft(t.(right := TurnedRight(t.right)));
      Linked(cNode, u) && Apart(u) && Items(u) == Items(t)
  {
    ItemsAreAllocated(t);
    cNode := RotateLL(bst.right, t.right);
    bst.right := cNode;
    cNode := RotateRR(bst, t.(right := TurnedRight(t.right)));
  }

  method Rebalance(root: Node?, ghost t: Tree<Node>) returns (newRoot: Node?)
    requires Linked(root, t) && Apart(t)
    modifies Items(t)
    ensures Linked(newRoot, Rebalanced(t)) && Apart(Rebalanced(t)) && Items(Rebalanced(t)) == Items(t)
  {
    ItemsAreAllocated(t);
    newRoot := root;
    var hDiff := GetHeightDiff(root, t);
    if hDiff > 1 {
      var below := GetHeightDiff(root.left, t.left);
      if below > 0 {
        newRoot := RotateLL(root, t);
      } else {
        newRoot := RotateLR(root, t);
      }
    } else if hDiff < -1 {
      var below := GetHeightDiff(root.right, t.right);
      if below < 0 {
        newRoot := RotateRR(root, t);
      } else {
        newRoot := RotateRL(root, t);
      }
    }
  }

  // The node a search for `k` ends at when it does not find it.
  function LastNode(t: Tree<Node>, k: int): (n: Node)
    requires t.Branch?
    ensures n in Items(t)
  {
    var next := if t.item.data < k then t.right else t.left;
    if next.Empty? then t.item else LastNode(next, k)
  }

  lemma {:induction false} AttachingAddsTheNode(t: Tree<Node>, x: Node)
    requires Apart(t) && x !in Items(t) && !Found(t, x.data, KEY)
    ensures Apart(Attached(t, x, KEY)) && Items(Attached(t, x, KEY)) == Items(t) + {x}
  {
    if t.Branch? {
      if t.item.data < x.data {
        AttachingAddsTheNode(t.right, x);
      } else {
        AttachingAddsTheNode(t.left, x);
      }
    }
  }

  type Links = map<Node, Node?>

  ghost function Lefts(nodes: set<Node>): Links
    reads nodes
  {
    map o | o in nodes :: o.left
  }

  ghost function Rights(nodes: set<Node>): Links
    reads nodes
  {
    map o | o in nodes :: o.right
  }

  // `Linked`, over pointers written down in two maps.
  predicate LinkedBy(n: Node?, t: Tree<Node>, lefts: Links, rights: Links) {
    match t
    case Empty => n == null
    case Branch(item, left, right) =>
      && n == item && item in lefts && item in rights
      && LinkedBy(lefts[item], left, lefts, rights) && LinkedBy(rights[item], right, lefts, rights)
  }

  lemma {:induction false} LinkedAsWritten(n: Node?, t: Tree<Node>, nodes: set<Node>)
    requires Items(t) <= nodes
    ensures Linked(n, t) <==> LinkedBy(n, t, Lefts(nodes), Rights(nodes))
    decreases t
  {
    if t.Branch? {
      LinkedAsWritten(t.item.left, t.left, nodes);
      LinkedAsWritten(t.item.right, t.right, nodes);
    }
  }

  predicate SameLinks(nodes: set<Node>, lefts: Links, rights: Links, lefts': Links, rights': Links) {
    forall o :: o in nodes && o in lefts && o in rights ==>
      o in lefts' && o in rights' && lefts'[o] == lefts[o] && rights'[o] == rights[o]
  }

  lemma {:induction false} StaysLinked(n: Node?, t: Tree<Node>, lefts: Links, rights: Links, lefts': Links, rights': Links)
    requires LinkedBy(n, t, lefts, rights) && SameLinks(Items(t), lefts, rights, lefts', rights')
    ensures LinkedBy(n, t, lefts', rights')
  {
    if t.Branch? {
      StaysLinked(lefts[t.item], t.left, lefts, rights, lefts', rights');
      StaysLinked(rights[t.item], t.right, lefts, rights, lefts', rights');
    }
  }

  // Hanging `x` under the last node of its search attaches it to the tree.
  lemma {:induction false} HangingAttaches(n: Node?, t: Tree<Node>, x: Node, lefts: Links, rights: Links,
                                           lefts': Links, rights': Links)
    requires t.Branch? && Apart(t) && LinkedBy(n, t, lefts, rights) && !Found(t, x.data, KEY)
    requires x in lefts' && x in rights' && lefts'[x] == null && rights'[x] == null
    requires
      var p := LastNode(t, x.data);
      && p in lefts && p in rights && p in lefts' && p in rights'
      && SameLinks(Items(t) - {p}, lefts, rights, lefts', rights')
      && lefts'[p] == (if p.data < x.data then lefts[p] else x)
      && rights'[p] == (if p.data < x.data then x else rights[p])
    ensures LinkedBy(n, Attached(t, x, KEY), lefts', rights')
  {
    if t.item.data < x.data {
      StaysLinked(lefts[t.item], t.left, lefts, rights, lefts', rights');
      if t.right.Branch? {
        HangingAttaches(rights[t.item], t.right, x, lefts, rights, lefts', rights');
      }
    } else {
      StaysLinked(rights[t.item], t.right, lefts, rights, lefts', rights');
      if t.left.Branch? {
        HangingAttaches(lefts[t.item], t.left, x, lefts, rights, lefts', rights');
      }
    }
  }

  method BSTSearch(bst: Node?, target: int, ghost t: Tree<Node>) returns (r: Node?)
    requires Linked(bst, t)
    ensures r != null <==> Found(t, target, KEY)
    ensures r != null ==> r in Items(t) && r.data == target
  {
    var tmp := bst;
    ghost var rest := t;
    while tmp != null
      invariant Linked(tmp, rest) && Items(rest) <= Items(t)
      invariant Found(t, target, KEY) <==> Found(rest, target, KEY)
      decreases rest
    {
      if tmp.data == target {
        return tmp;
      } else if tmp.data < target {
        tmp, rest := tmp.right, rest.right;
      } else {
        tmp, rest := tmp.left, rest.left;
      }
    }
    r := null;
  }

  // Walk down to where `data` is, or to the node it belongs under.
  method Descend(root: Node?, data: int, ghost t: Tree<Node>) returns (pNode: Node?, cNode: Node?)
    requires Linked(root, t)
    ensures cNode != null <==> Found(t, data, KEY)
    ensures cNode == null ==> if pNode == null then t == Empty else
      && t.Branch? && pNode == LastNode(t, data) && pNode.data != data
      && (if pNode.data < data then pNode.right else pNode.left) == null
  {
    pNode, cNode := null, root;
    ghost var rest := t;
    while cNode != null
      invariant Linked(cNode, rest)
      invariant Found(t, data, KEY) <==> Found(rest, data, KEY)
      invariant pNode == null ==> rest == t
      invariant pNode != null ==>
        && t.Branch? && pNode.data != data
        && LastNode(t, data) == (if rest.Empty? then pNode else LastNode(rest, data))
        && cNode == if pNode.data < data then pNode.right else pNode.left
      decreases rest
    {
      if cNode.data == data {
        return;
      }
      pNode := cNode;
      if cNode.data < data {
        cNode, rest := cNode.right, rest.right;
      } else {
        cNode, rest := cNode.left, rest.left;
      }
    }
  }

  // `u` is the tree afterwards.
  method BSTInsert(root: Node?, data: int, ghost t: Tree<Node>) returns (newRoot: Node?, ghost u: Tree<Node>)
    requires Linked(root, t) && Apart(t)
    modifies Items(t)
    ensures Linked(newRoot, u) && Apart(u)
    ensures if Found(t, data, KEY) then u == t && newRoot == root
            else exists x: Node :: fresh(x) && x.data == data && u == Inserted(t, x, KEY)
  {
    ItemsAreAllocated(t);
    var pNode, cNode := Descend(root, data, t);
    if cNode != null {
      return root, t;
    }
    var tmp := new Node(data);
    newRoot := root;
    u := Attached(t, tmp, KEY);
    if pNode != null {
      ghost var nodes := Items(t) + {tmp};
      ghost var lefts, rights := Lefts(nodes), Rights(nodes);
      LinkedAsWritten(root, t, nodes);
      if pNode.data < data {
        pNode.right := tmp;
      } else {
        pNode.left := tmp;
      }
      HangingAttaches(root, t, tmp, lefts, rights, Lefts(nodes), Rights(nodes));
      AttachingAddsTheNode(t, tmp);
      LinkedAsWritten(root, u, nodes);
    } else {
      newRoot := tmp;
    }
    newRoot := Rebalance(newRoot, u);
    u := Rebalanced(u);
  }
}
