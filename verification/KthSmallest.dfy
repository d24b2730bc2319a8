// The k-th smallest number by popping a min-heap whose size never shrinks: the holes that popping
// leaves are filled with a value above every element. Cell 0 of the array holds their bound.

module KthSmallest {
  // Cell `j` lies in the subtree below cell `i`.
  predicate InTree(i: nat, j: nat)
    requires i >= 1
  {
    j == i || (j > i && InTree(i, j / 2))
  }

  predicate SubHeap(s: seq<int>, i: nat)
    requires i >= 1
    decreases |s| - i
  {
    i < |s| ==>
      && (2 * i < |s| ==> s[i] <= s[2 * i] && SubHeap(s, 2 * i))
      && (2 * i + 1 < |s| ==> s[i] <= s[2 * i + 1] && SubHeap(s, 2 * i + 1))
  }

  // A subtree is its root and two separate subtrees.
  lemma {:induction false} TreeParts(i: nat, j: nat)
    requires i >= 1
    ensures InTree(i, j) <==> j == i || InTree(2 * i, j) || InTree(2 * i + 1, j)
    ensures InTree(i, j) ==> j >= i
    ensures !(InTree(2 * i, j) && InTree(2 * i + 1, j))
    decreases j
  {
    if j > i {
      TreeParts(i, j / 2);
      TreesContainTheirRoots(2 * i, j);
      TreesContainTheirRoots(2 * i + 1, j);
    }
  }

  lemma TreesContainTheirRoots(i: nat, j: nat)
    requires i >= 1
    ensures InTree(i, j) ==> j >= i
    ensures InTree(i, i)
  {
  }

  predicate AtLeast(s: seq<int>, i: nat, b: int)
    requires i >= 1
  {
    forall j: nat :: j < |s| && InTree(i, j) ==> s[j] >= b
  }

  predicate SameTree(s: seq<int>, t: seq<int>, i: nat)
    requires i >= 1
  {
    |s| == |t| && forall j: nat :: j < |s| && InTree(i, j) ==> s[j] == t[j]
  }

  predicate SameElsewhere(s: seq<int>, t: seq<int>, i: nat)
    requires i >= 1
  {
    |s| == |t| && forall j: nat :: j < |s| && !InTree(i, j) ==> s[j] == t[j]
  }

  lemma {:induction false} HeapStays(s: seq<int>, t: seq<int>, i: nat)
    requires i >= 1 && SubHeap(s, i) && SameTree(s, t, i)
    ensures SubHeap(t, i)
    decreases |s| - i
  {
    if i < |s| {
      forall j: nat
        ensures InTree(2 * i, j) || InTree(2 * i + 1, j) ==> InTree(i, j)
      {
        TreeParts(i, j);
      }
      HeapStays(s, t, 2 * i);
      HeapStays(s, t, 2 * i + 1);
    }
  }

  lemma {:induction false} RootIsLeast(s: seq<int>, i: nat)
    requires 1 <= i < |s| && SubHeap(s, i)
    ensures AtLeast(s, i, s[i])
    decreases |s| - i
  {
    if 2 * i < |s| {
      RootIsLeast(s, 2 * i);
    }
    if 2 * i + 1 < |s| {
      RootIsLeast(s, 2 * i + 1);
    }
    forall j: nat | j < |s| && InTree(i, j)
      ensures s[j] >= s[i]
    {
      TreeParts(i, j);
      TreesContainTheirRoots(2 * i, j);
      TreesContainTheirRoots(2 * i + 1, j);
    }
  }

  // `c` is a child of `i`, and no child is smaller.
  predicate LeastChild(s: seq<int>, i: nat, c: nat) {
    (c == 2 * i || c == 2 * i + 1) && c < |s| && forall o :: 2 * i <= o <= 2 * i + 1 && o < |s| ==> s[c] <= s[o]
  }

  // From `s` to `u` the smaller child `c` of `i` was copied to `i`; `c` may have changed too.
  predicate Promoted(s: seq<int>, u: seq<int>, i: nat, c: nat) {
    && 2 * i < |s| == |u| && LeastChild(s, i, c)
    && u[i] == s[c] && forall j: nat :: j < |s| && j != i && j != c ==> u[j] == s[j]
  }

  lemma SwapPromotes(s: seq<int>, u: seq<int>, i: nat, c: nat)
    requires 1 <= i && 2 * i < |s| && LeastChild(s, i, c) && u == s[i := s[c]][c := s[i]]
    ensures Promoted(s, u, i, c) && multiset(u) == multiset(s)
  {
  }

  lemma CopyPromotes(s: seq<int>, u: seq<int>, i: nat, c: nat)
    requires 1 <= i && 2 * i < |s| && LeastChild(s, i, c) && u == s[i := s[c]]
    ensures Promoted(s, u, i, c)
  {
  }

  lemma CopyDropsTheOldValue(s: seq<int>, u: seq<int>, i: nat, c: nat)
    requires i < |s| && c < |s| && i != c && u == s[i := s[c]]
    ensures multiset(u) - multiset{u[c]} == multiset(s) - multiset{s[i]}
  {
  }

  // From `s` to `u` the smaller child `c` moved up to `i`; then its subtree became a heap again,
  // of no smaller values.
  lemma MovedUp(s: seq<int>, u: seq<int>, t: seq<int>, i: nat, c: nat)
    requires 1 <= i && Promoted(s, u, i, c)
    requires SubHeap(s, 2 * i) && SubHeap(s, 2 * i + 1)
    requires SameElsewhere(u, t, c) && SubHeap(t, c) && AtLeast(t, c, s[c])
    ensures SubHeap(t, i) && SameElsewhere(s, t, i)
    ensures forall b: int :: AtLeast(s, i, b) ==> AtLeast(t, i, b)
    ensures forall b: int :: AtLeast(s, 2 * i, b) && AtLeast(s, 2 * i + 1, b) ==> AtLeast(t, i, b)
  {
    var o := 4 * i + 1 - c;
    forall j: nat
      ensures InTree(o, j) ==> !InTree(c, j) && j >= o
      ensures InTree(c, j) ==> InTree(i, j) && j >= c
      ensures InTree(i, j) <==> j == i || InTree(c, j) || InTree(o, j)
    {
      TreeParts(i, j);
      TreesContainTheirRoots(c, j);
      TreesContainTheirRoots(o, j);
    }
    assert InTree(i, i) && InTree(c, c) && InTree(o, o);
    HeapStays(s, t, o);
    if o < |s| {
      RootIsLeast(t, o);
    }
    assert AtLeast(t, i, s[c]);
    forall b: int | AtLeast(s, i, b) || AtLeast(s, c, b)
      ensures b <= s[c]
    {
    }
  }

  // A root no greater than its children makes a heap of two heaps.
  lemma Settled(s: seq<int>, i: nat)
    requires 1 <= i < |s| && SubHeap(s, 2 * i) && SubHeap(s, 2 * i + 1)
    requires forall o :: 2 * i <= o <= 2 * i + 1 && o < |s| ==> s[i] <= s[o]
    ensures SubHeap(s, i) && SameElsewhere(s, s, i)
  {
  }

  lemma SettledAbove(s: seq<int>, i: nat, c: nat)
    requires 1 <= i < |s| && SubHeap(s, 2 * i) && SubHeap(s, 2 * i + 1) && LeastChild(s, i, c) && s[i] <= s[c]
    ensures SubHeap(s, i) && SameElsewhere(s, s, i)
  {
    Settled(s, i);
  }

  // Comparing the two children, if there are two, finds the least.
  lemma ChildChosen(s: seq<int>, i: nat, c: nat)
    requires 1 <= i && 2 * i < |s| && 2 * i <= c <= 2 * i + 1 && c < |s|
    requires 2 * i + 1 < |s| ==> s[c] <= s[2 * i] && s[c] <= s[2 * i + 1]
    ensures LeastChild(s, i, c)
  {
  }

  lemma HeapOfChild(s: seq<int>, i: nat, c: nat)
    requires 1 <= i && LeastChild(s, i, c) && SubHeap(s, 2 * i) && SubHeap(s, 2 * i + 1)
    ensures SubHeap(s, c) && c > i && c < |s|
  {
  }

  // Changes at `i` and at its child `c` leave the subtrees below `c` alone.
  lemma BelowTheChild(s: seq<int>, t: seq<int>, i: nat, c: nat)
    requires 1 <= i && Promoted(s, t, i, c) && SubHeap(s, 2 * i) && SubHeap(s, 2 * i + 1)
    ensures SubHeap(t, 2 * c) && SubHeap(t, 2 * c + 1)
    ensures AtLeast(t, 2 * c, s[c]) && AtLeast(t, 2 * c + 1, s[c])
    ensures t[c] >= s[c] ==> AtLeast(t, c, s[c])
    ensures !InTree(c, i)
  {
    hide SubHeap, InTree, LeastChild, AtLeast;
    HeapOfChild(s, i, c);
    TreesContainTheirRoots(c, i);
    HeapIsBelow(s, c);
    RootIsLeast(s, c);
    ChangesAreAbove(s, t, i, c, 2 * c);
    ChangesAreAbove(s, t, i, c, 2 * c + 1);
    if t[c] >= s[c] {
      StillAtLeast(s, t, i, c, s[c]);
    }
  }

  lemma StillAtLeast(s: seq<int>, t: seq<int>, i: nat, c: nat, b: int)
    requires 1 <= i < c < |s| == |t| && AtLeast(s, c, b) && t[c] >= b
    requires forall j: nat :: j < |s| && j != i && j != c ==> t[j] == s[j]
    ensures AtLeast(t, c, b)
  {
    forall j: nat | j < |t| && InTree(c, j)
      ensures t[j] >= b
    {
      TreesContainTheirRoots(c, j);
    }
  }

  lemma ChangesAreAbove(s: seq<int>, t: seq<int>, i: nat, c: nat, d: nat)
    requires 1 <= i < c < |s| == |t| && (d == 2 * c || d == 2 * c + 1)
    requires forall j: nat :: j < |s| && j != i && j != c ==> t[j] == s[j]
    requires SubHeap(s, d) && AtLeast(s, c, s[c])
    ensures SubHeap(t, d) && AtLeast(t, d, s[c])
  {
    forall j: nat | j < |s| && InTree(d, j)
      ensures t[j] == s[j] >= s[c]
    {
      TreeParts(c, j);
      TreesContainTheirRoots(d, j);
    }
    HeapStays(s, t, d);
  }

  lemma HeapIsBelow(s: seq<int>, c: nat)
    requires 1 <= c && SubHeap(s, c)
    ensures SubHeap(s, 2 * c) && SubHeap(s, 2 * c + 1)
  {
  }

  method Swap(a: array<int>, x: nat, y: nat)
    requires x < a.Length && y < a.Length
    modifies a
    ensures a[..] == old(a[..])[x := old(a[y])][y := old(a[x])]
    ensures multiset(a[..]) == multiset(old(a[..]))
  {
    var temp := a[x];
    a[x] := a[y];
    a[y] := temp;
    assert a[..] == old(a[..])[x := old(a[y])][y := old(a[x])];
  }

  method DownHeap(a: array<int>, i: nat, n: nat)
    requires 1 <= i <= n == a.Length - 1
    requires SubHeap(a[..], 2 * i) && SubHeap(a[..], 2 * i + 1)
    modifies a
    ensures SubHeap(a[..], i) && SameElsewhere(old(a[..]), a[..], i)
    ensures multiset(a[..]) == multiset(old(a[..]))
    ensures forall b: int :: AtLeast(old(a[..]), i, b) ==> AtLeast(a[..], i, b)
    decreases n - i
  {
    hide SubHeap, InTree, AtLeast, SameElsewhere, LeastChild, Promoted;
    ghost var s := a[..];
    if n < i * 2 && n < i * 2 + 1 {
      Settled(s, i);
      return;
    }
    var bigger := i * 2;
    if n >= i * 2 + 1 {
      if a[i * 2 + 1] < a[bigger] {
        bigger := i * 2 + 1;
      }
    }
    ChildChosen(s, i, bigger);
    if a[i] <= a[bigger] {
      SettledAbove(s, i, bigger);
      return;
    }
    Swap(a, i, bigger);
    ghost var u := a[..];
    SwapPromotes(s, u, i, bigger);
    BelowTheChild(s, u, i, bigger);
    DownHeap(a, bigger, n);
    MovedUp(s, u, a[..], i, bigger);
  }

  method RBuildHeap(a: array<int>, i: nat, n: nat)
    requires 1 <= i && n == a.Length - 1
    modifies a
    ensures SubHeap(a[..], i) && SameElsewhere(old(a[..]), a[..], i)
    ensures multiset(a[..]) == multiset(old(a[..]))
    decreases if i > n then 0 else n + 1 - i
  {
    if i > n {
      return;
    }
    RBuildHeap(a, 2 * i, n);
    ghost var s := a[..];
    RBuildHeap(a, 2 * i + 1, n);
    forall j: nat
      ensures InTree(2 * i, j) || InTree(2 * i + 1, j) ==> InTree(i, j)
      ensures InTree(2 * i, j) ==> !InTree(2 * i + 1, j)
    {
      TreeParts(i, j);
    }
    HeapStays(s, a[..], 2 * i);
    DownHeap(a, i, n);
  }

  // The hole at `i` is filled: the value there is gone, the bound plus one has come, below `i` is
  // a heap of no smaller values, and nothing else has changed.
  ghost predicate HoleFilled(s: seq<int>, t: seq<int>, i: nat)
    requires 1 <= i < |s|
  {
    && SubHeap(t, i) && SameElsewhere(s, t, i)
    && multiset(t) == multiset(s) - multiset{s[i]} + multiset{s[0] + 1}
    && forall b: int :: b <= s[0] + 1 && AtLeast(s, 2 * i, b) && AtLeast(s, 2 * i + 1, b) ==> AtLeast(t, i, b)
  }

  lemma LeafFilled(s: seq<int>, i: nat)
    requires 1 <= i < |s| <= 2 * i
    ensures HoleFilled(s, s[i := s[0] + 1], i)
  {
    forall j: nat | j < |s| && InTree(i, j)
      ensures j == i
    {
      TreeParts(i, j);
      TreesContainTheirRoots(2 * i, j);
      TreesContainTheirRoots(2 * i + 1, j);
    }
    assert InTree(i, i);
    var t := s[i := s[0] + 1];
    assert multiset(t) == multiset(s) - multiset{s[i]} + multiset{s[0] + 1};
  }

  predicate Bounded(s: seq<int>) {
    s != [] && forall j :: 0 <= j < |s| ==> s[j] <= s[0] + 1
  }

  lemma HoleBelow(s: seq<int>, u: seq<int>, i: nat, c: nat)
    requires 1 <= i && 2 * i < |s| && LeastChild(s, i, c) && u == s[i := s[c]] && Bounded(s)
    requires SubHeap(s, 2 * i) && SubHeap(s, 2 * i + 1)
    ensures SubHeap(u, 2 * c) && SubHeap(u, 2 * c + 1) && Bounded(u)
  {
    CopyPromotes(s, u, i, c);
    BelowTheChild(s, u, i, c);
  }

  // Filling the hole at `i` with the least child leaves a hole at that child.
  lemma HoleMovesDown(s: seq<int>, u: seq<int>, t: seq<int>, i: nat, c: nat)
    requires 1 <= i && 2 * i < |s| && LeastChild(s, i, c) && u == s[i := s[c]]
    requires SubHeap(s, 2 * i) && SubHeap(s, 2 * i + 1) && Bounded(s)
    requires HoleFilled(u, t, c)
    ensures HoleFilled(s, t, i)
  {
    hide SubHeap, InTree, Promoted, SameElsewhere, AtLeast, LeastChild, HoleFilled, Bounded;
    HeapOfChild(s, i, c);
    CopyPromotes(s, u, i, c);
    BoundedBy(s, c);
    BelowTheChild(s, u, i, c);
    HoleFilledKeeps(u, t, c, s[c]);
    CopyDropsTheOldValue(s, u, i, c);
    HoleFilledAbove(s, u, t, i, c);
  }

  lemma HoleFilledAbove(s: seq<int>, u: seq<int>, t: seq<int>, i: nat, c: nat)
    requires 1 <= i < |s| == |u| && c < |s| && Promoted(s, u, i, c) && SubHeap(s, 2 * i) && SubHeap(s, 2 * i + 1)
    requires SameElsewhere(u, t, c) && SubHeap(t, c) && AtLeast(t, c, s[c])
    requires multiset(u) - multiset{s[c]} == multiset(s) - multiset{s[i]}
    requires multiset(t) == multiset(u) - multiset{s[c]} + multiset{s[0] + 1}
    ensures HoleFilled(s, t, i)
  {
    hide SubHeap, InTree, Promoted, SameElsewhere, AtLeast, LeastChild, HoleFilled;
    MovedUp(s, u, t, i, c);
    HoleFillsFrom(s, t, i);
  }

  lemma BoundedBy(s: seq<int>, c: nat)
    requires Bounded(s) && c < |s|
    ensures s[c] <= s[0] + 1
  {
  }

  lemma HoleFilledKeeps(u: seq<int>, t: seq<int>, c: nat, b: int)
    requires 1 <= c < |u| && HoleFilled(u, t, c)
    requires b <= u[0] + 1 && AtLeast(u, 2 * c, b) && AtLeast(u, 2 * c + 1, b)
    ensures SubHeap(t, c) && SameElsewhere(u, t, c) && AtLeast(t, c, b)
    ensures multiset(t) == multiset(u) - multiset{u[c]} + multiset{u[0] + 1}
  {
  }

  lemma HoleFillsFrom(s: seq<int>, t: seq<int>, i: nat)
    requires 1 <= i < |s| && SubHeap(t, i) && SameElsewhere(s, t, i)
    requires multiset(t) == multiset(s) - multiset{s[i]} + multiset{s[0] + 1}
    requires forall b: int :: AtLeast(s, 2 * i, b) && AtLeast(s, 2 * i + 1, b) ==> AtLeast(t, i, b)
    ensures HoleFilled(s, t, i)
  {
  }

  // Fill the hole at `index` from below; the last hole, at a leaf, takes the bound plus one.
  method ListHeap(a: array<int>, index: nat, n: nat)
    requires 1 <= index <= n == a.Length - 1
    requires Bounded(a[..])
    requires SubHeap(a[..], 2 * index) && SubHeap(a[..], 2 * index + 1)
    modifies a
    ensures HoleFilled(old(a[..]), a[..], index)
    decreases n - index
  {
    hide SubHeap, HoleFilled, Bounded;
    ghost var s := a[..];
    if n < index * 2 && n < index * 2 + 1 {
      a[index] := a[0] + 1;
      assert a[..] == s[index := s[0] + 1];
      LeafFilled(s, index);
    } else {
      var child := index * 2 + 1;
      if n == index * 2 || a[index * 2] < a[index * 2 + 1] {
        child := index * 2;
      }
      assert LeastChild(s, index, child);
      hide LeastChild;
      a[index] := a[child];
      ghost var u := a[..];
      assert u == s[index := s[child]];
      HoleBelow(s, u, index, child);
      ListHeap(a, child, n);
      HoleMovesDown(s, u, a[..], index, child);
    }
  }

  // What the cells hold: the elements left and copies of the bound plus one.
  ghost predicate Holds(s: seq<int>, left: multiset<int>, tops: multiset<int>) {
    && |s| >= 2 && multiset(s[1..]) == left + tops
    && (forall y :: y in left ==> y <= s[0]) && (forall y :: y in tops ==> y == s[0] + 1)
    && SubHeap(s, 1)
  }

  predicate NoneAbove(a: multiset<int>, b: multiset<int>) {
    forall x, y :: x in a && y in b ==> x <= y
  }

  lemma {:induction false} EveryCellIsBelowTheRoot(j: nat)
    ensures j >= 1 ==> InTree(1, j)
  {
    if j >= 2 {
      EveryCellIsBelowTheRoot(j / 2);
    }
  }

  lemma RootIsALeastCell(s: seq<int>)
    requires |s| >= 2 && SubHeap(s, 1)
    ensures s[1] in multiset(s[1..]) && forall v :: v in multiset(s[1..]) ==> s[1] <= v
  {
    RootIsLeast(s, 1);
    var cells := s[1..];
    assert cells[0] == s[1];
    forall v | v in multiset(cells)
      ensures s[1] <= v
    {
      var j :| 0 <= j < |cells| && cells[j] == v;
      EveryCellIsBelowTheRoot(j + 1);
      assert s[j + 1] == v;
    }
  }

  lemma HoldsIsBounded(s: seq<int>, left: multiset<int>, tops: multiset<int>)
    requires Holds(s, left, tops)
    ensures Bounded(s) && SubHeap(s, 2) && SubHeap(s, 3)
  {
    HeapIsBelow(s, 1);
    forall j | 1 <= j < |s|
      ensures s[j] <= s[0] + 1
    {
      assert s[j] == s[1..][j - 1] && s[j] in multiset(s[1..]);
    }
  }

  // While elements are left the root is the least of them.
  lemma RootIsTheLeastLeft(s: seq<int>, left: multiset<int>, tops: multiset<int>)
    requires Holds(s, left, tops)
    ensures left == multiset{} ==> s[1] == s[0] + 1
    ensures left != multiset{} ==> s[1] in left && NoneAbove(multiset{s[1]}, left)
  {
    RootIsALeastCell(s);
    if left != multiset{} {
      assert exists y :: y in left by {
        assert (forall y :: y !in left) ==> left == multiset{};
      }
      var y :| y in left;
      assert y in left + tops;
      assert s[1] !in tops;
    }
    assert forall y :: y in left ==> y in left + tops;
  }

  lemma WithoutFirst(s: seq<int>)
    requires s != []
    ensures multiset(s) == multiset(s[1..]) + multiset{s[0]}
  {
    assert s == [s[0]] + s[1..];
  }

  lemma ExchangeBesides(cells: multiset<int>, x: int, y: int, z: int)
    requires y in cells
    ensures cells + multiset{x} - multiset{y} + multiset{z} - multiset{x} == cells - multiset{y} + multiset{z}
  {
  }

  lemma PopReplaces(s: seq<int>, t: seq<int>)
    requires |s| >= 2 && HoleFilled(s, t, 1)
    ensures |t| == |s| && t[0] == s[0] && SubHeap(t, 1)
    ensures multiset(t[1..]) == multiset(s[1..]) - multiset{s[1]} + multiset{s[0] + 1}
  {
    TreesContainTheirRoots(1, 0);
    assert s[1..][0] == s[1];
    hide SubHeap, InTree, AtLeast;
    WithoutFirst(s);
    WithoutFirst(t);
    ExchangeBesides(multiset(s[1..]), s[0], s[1], s[0] + 1);
    assert multiset(t[1..]) == multiset(t) - multiset{s[0]};
  }

  // Popping moves the least element left to the popped ones, and brings one more copy of the top.
  lemma PopStep(s: seq<int>, t: seq<int>, left: multiset<int>, tops: multiset<int>)
    requires Holds(s, left, tops) && HoleFilled(s, t, 1) && left != multiset{}
    ensures s[1] in left && NoneAbove(multiset{s[1]}, left)
    ensures Holds(t, left - multiset{s[1]}, tops + multiset{s[0] + 1}) && t[0] == s[0]
  {
    hide HoleFilled, SubHeap;
    RootIsTheLeastLeft(s, left, tops);
    PopReplaces(s, t);
    assert left + tops - multiset{s[1]} + multiset{s[0] + 1} == left - multiset{s[1]} + (tops + multiset{s[0] + 1});
  }

  // With nothing left popping changes nothing.
  lemma EmptyStep(s: seq<int>, t: seq<int>, tops: multiset<int>)
    requires Holds(s, multiset{}, tops) && HoleFilled(s, t, 1)
    ensures Holds(t, multiset{}, tops) && t[0] == s[0]
  {
    hide HoleFilled, SubHeap;
    RootIsTheLeastLeft(s, multiset{}, tops);
    RootIsALeastCell(s);
    PopReplaces(s, t);
    assert tops - multiset{s[1]} + multiset{s[1]} == tops;
  }

  // `v` is the `k`-th smallest element of `m`: some `k - 1` others are no greater, the rest no smaller.
  ghost predicate IsKth(m: multiset<int>, k: int, v: int) {
    exists popped: multiset<int>, left: multiset<int> :: KthAfter(m, k, v, popped, left)
  }

  ghost predicate KthAfter(m: multiset<int>, k: int, v: int, popped: multiset<int>, left: multiset<int>) {
    && m == popped + left && |popped| == k - 1 && v in left
    && NoneAbove(popped, left) && NoneAbove(multiset{v}, left)
  }

  lemma Fewer(a: multiset<int>, b: multiset<int>)
    requires a <= b
    ensures |a| <= |b|
  {
    assert b == a + (b - a);
  }

  // That is the element at place `k` in sorted order.
  lemma KthIsInItsSortedPlace(sorted: seq<int>, k: int, v: int)
    requires forall x, y :: 0 <= x < y < |sorted| ==> sorted[x] <= sorted[y]
    requires IsKth(multiset(sorted), k, v)
    ensures 1 <= k <= |sorted| && sorted[k - 1] == v
  {
    var popped: multiset<int>, left: multiset<int> :| KthAfter(multiset(sorted), k, v, popped, left);
    assert |multiset(sorted)| == |popped| + |left|;
    NotTooSmall(sorted, k, v, popped, left);
    NotTooGreat(sorted, k, v, popped, left);
  }

  lemma NotTooSmall(sorted: seq<int>, k: int, v: int, popped: multiset<int>, left: multiset<int>)
    requires forall x, y :: 0 <= x < y < |sorted| ==> sorted[x] <= sorted[y]
    requires KthAfter(multiset(sorted), k, v, popped, left) && 1 <= k <= |sorted|
    ensures v <= sorted[k - 1]
  {
    if sorted[k - 1] < v {
      var low := sorted[..k];
      assert low + sorted[k..] == sorted;
      BelowTheSmaller(sorted, k, v);
      PartOfWhole(low, sorted[k..], sorted);
      OutsideIsInTheRest(multiset(low), popped, left, v);
      Fewer(multiset(low), popped);
    }
  }

  lemma BelowTheSmaller(sorted: seq<int>, k: int, v: int)
    requires forall x, y :: 0 <= x < y < |sorted| ==> sorted[x] <= sorted[y]
    requires 1 <= k <= |sorted| && sorted[k - 1] < v
    ensures forall x :: x in sorted[..k] ==> x < v
  {
  }

  lemma PartOfWhole(low: seq<int>, high: seq<int>, s: seq<int>)
    requires s == low + high
    ensures multiset(low) <= multiset(s) && multiset(high) <= multiset(s)
    ensures |multiset(low)| == |low| && |multiset(high)| == |high|
  {
  }

  lemma OutsideIsInTheRest(low: multiset<int>, popped: multiset<int>, left: multiset<int>, v: int)
    requires low <= popped + left && (forall x :: x in low ==> x < v) && NoneAbove(multiset{v}, left)
    ensures low <= popped
  {
    forall x | x in low
      ensures low[x] <= popped[x]
    {
      assert x !in left;
    }
  }

  lemma NotTooGreat(sorted: seq<int>, k: int, v: int, popped: multiset<int>, left: multiset<int>)
    requires forall x, y :: 0 <= x < y < |sorted| ==> sorted[x] <= sorted[y]
    requires KthAfter(multiset(sorted), k, v, popped, left) && 1 <= k <= |sorted|
    ensures sorted[k - 1] <= v
  {
    assert |multiset(sorted)| == |popped| + |left|;
    if sorted[k - 1] > v {
      var high, rest := sorted[k - 1..], left - multiset{v};
      assert sorted == sorted[..k - 1] + high;
      assert multiset(high) <= multiset(sorted);
      forall x | x in multiset(high)
        ensures multiset(high)[x] <= rest[x]
      {
        assert x in high && x > v;
        assert x !in popped;
      }
      assert multiset(high) <= rest;
      Fewer(multiset(high), rest);
    }
  }

  // The numbers of a list without the bound in front.
  function Numbers(s: seq<int>): multiset<int>
    requires s != []
  {
    multiset(s[1..])
  }

  // The heap after `i` pops: some of the numbers `m` are popped, `left` are in the heap.
  datatype Contents = Contents(popped: multiset<int>, left: multiset<int>, tops: multiset<int>)

  ghost predicate Popped(m: multiset<int>, s: seq<int>, i: nat, c: Contents) {
    && Holds(s, c.left, c.tops) && NoneAbove(c.popped, c.left) && c.popped + c.left == m
    && |c.popped| == if i < |m| then i else |m|
  }

  lemma PopOnce(m: multiset<int>, s: seq<int>, t: seq<int>, i: nat, c: Contents) returns (d: Contents)
    requires |s| >= 2 && Popped(m, s, i, c) && HoleFilled(s, t, 1)
    ensures Popped(m, t, i + 1, d) && t[0] == s[0]
  {
    hide Holds, HoleFilled, NoneAbove;
    assert |c.popped| + |c.left| == |m|;
    if c.left != multiset{} {
      PopStep(s, t, c.left, c.tops);
      OneMorePopped(c.popped, c.left, s[1]);
      d := Contents(c.popped + multiset{s[1]}, c.left - multiset{s[1]}, c.tops + multiset{s[0] + 1});
    } else {
      EmptyStep(s, t, c.tops);
      d := c;
    }
  }

  lemma RootIsTheNext(m: multiset<int>, s: seq<int>, i: nat, c: Contents)
    requires Popped(m, s, i, c)
    ensures |s| >= 2 && if i < |m| then IsKth(m, i + 1, s[1]) else s[1] == s[0] + 1
  {
    RootIsTheLeastLeft(s, c.left, c.tops);
    hide Holds, NoneAbove;
    assert |c.popped| + |c.left| == |m|;
    if c.left != multiset{} {
      assert KthAfter(m, |c.popped| + 1, s[1], c.popped, c.left);
    }
  }

  lemma PoppedCanBePopped(m: multiset<int>, s: seq<int>, i: nat, c: Contents)
    requires Popped(m, s, i, c)
    ensures |s| >= 2 && Bounded(s) && SubHeap(s, 2) && SubHeap(s, 3)
  {
    HoldsIsBounded(s, c.left, c.tops);
  }

  lemma NothingPopped(s: seq<int>)
    requires s != [] && Holds(s, Numbers(s), multiset{})
    ensures Popped(Numbers(s), s, 0, Contents(multiset{}, Numbers(s), multiset{})) && |Numbers(s)| == |s| - 1
  {
    NothingAbove(Numbers(s));
    assert |multiset(s[1..])| == |s[1..]|;
  }

  method PopHeap(a: array<int>, n: nat, k: int) returns (num: int)
    requires n >= 1 && n == a.Length - 1 && Holds(a[..], Numbers(a[..]), multiset{})
    modifies a
    ensures var m := old(Numbers(a[..]));
      if k <= 1 then IsKth(m, 1, num) else if k <= n then IsKth(m, k, num) else num == old(a[0]) + 1
  {
    hide Holds, HoleFilled, Numbers, IsKth, Popped, SubHeap, Bounded;
    ghost var m := Numbers(a[..]);
    ghost var c := Contents(multiset{}, m, multiset{});
    NothingPopped(a[..]);
    var i := 0;
    while i < k - 1
      invariant 0 <= i && (i <= k - 1 || i == 0) && a[0] == old(a[0]) && Popped(m, a[..], i, c)
    {
      ghost var s := a[..];
      PoppedCanBePopped(m, s, i, c);
      ListHeap(a, 1, n);
      c := PopOnce(m, s, a[..], i, c);
      i := i + 1;
    }
    RootIsTheNext(m, a[..], i, c);
    num := a[1];
  }

  lemma NothingAbove(m: multiset<int>)
    ensures NoneAbove(multiset{}, m)
  {
  }

  lemma OneMorePopped(popped: multiset<int>, left: multiset<int>, v: int)
    requires v in left && NoneAbove(popped, left) && NoneAbove(multiset{v}, left)
    ensures NoneAbove(popped + multiset{v}, left - multiset{v})
    ensures popped + multiset{v} + (left - multiset{v}) == popped + left
    ensures |left - multiset{v}| == |left| - 1
  {
  }

  method FindKthSmallest(L: array<int>, n: nat, k: int) returns (num: int)
    requires n >= 1 && n == L.Length - 1 && forall j :: 1 <= j <= n ==> L[j] <= L[0]
    ensures if k <= 1 then IsKth(Numbers(L[..]), 1, num)
            else if k <= n then IsKth(Numbers(L[..]), k, num)
            else num == L[0] + 1
  {
    var newarr := new int[n + 1];
    for j := 0 to n + 1
      invariant newarr[..j] == L[..j]
    {
      newarr[j] := L[j];
    }
    ghost var s := L[..];
    assert newarr[..] == s;
    RBuildHeap(newarr, 1, n);
    HeapBuilt(s, newarr[..]);
    num := PopHeap(newarr, n, k);
  }

  lemma HeapBuilt(s: seq<int>, t: seq<int>)
    requires |s| == |t| >= 2 && multiset(s) == multiset(t) && SameElsewhere(s, t, 1) && SubHeap(t, 1)
    requires forall j :: 1 <= j < |s| ==> s[j] <= s[0]
    ensures t[0] == s[0] && Numbers(t) == Numbers(s) && Holds(t, Numbers(s), multiset{})
  {
    TreesContainTheirRoots(1, 0);
    hide SubHeap, InTree;
    WithoutFirst(s);
    WithoutFirst(t);
    SameAfterTheFirst(multiset(s[1..]), multiset(t[1..]), s[0]);
    assert forall y :: y in multiset(s[1..]) ==> y in s[1..];
  }

  lemma SameAfterTheFirst(a: multiset<int>, b: multiset<int>, x: int)
    requires a + multiset{x} == b + multiset{x}
    ensures a == b
  {
    assert a == a + multiset{x} - multiset{x} == b;
  }
}
