// Quicksort that stops at short ranges and leaves them to one insertion sort at the end.

module HybridSort {
  import opened Arith

  predicate Sorted(s: seq<int>) {
    forall x, y :: 0 <= x < y < |s| ==> s[x] <= s[y]
  }

  // No two elements `limit` or more apart are out of order.
  predicate NearlySorted(s: seq<int>, limit: nat) {
    forall x, y :: 0 <= x && x + limit <= y < |s| ==> s[x] <= s[y]
  }

  // `t` is `s` with the elements from `l` to `r` in another order.
  ghost predicate Rearranged(s: seq<int>, t: seq<int>, l: int, r: int)
    requires 0 <= l <= r + 1 <= |s|
  {
    && |t| == |s| && t[..l] == s[..l] && t[r + 1..] == s[r + 1..]
    && multiset(t[l..r + 1]) == multiset(s[l..r + 1])
  }

  lemma RearrangedAtFirst(s: seq<int>, l: int, r: int)
    requires 0 <= l <= r + 1 <= |s|
    ensures Rearranged(s, s, l, r)
  {
  }

  lemma RearrangedTwice(s: seq<int>, t: seq<int>, u: seq<int>, l: int, r: int)
    requires 0 <= l <= r + 1 <= |s| && Rearranged(s, t, l, r) && Rearranged(t, u, l, r)
    ensures Rearranged(s, u, l, r)
  {
  }

  lemma InThree(s: seq<int>, l: int, r: int, x: int, y: int)
    requires 0 <= l <= x <= y + 1 <= r + 1 <= |s|
    ensures s[l..r + 1] == s[l..x] + s[x..y + 1] + s[y + 1..r + 1]
  {
  }

  lemma RearrangedWithin(s: seq<int>, t: seq<int>, l: int, r: int, x: int, y: int)
    requires 0 <= l <= x <= y + 1 <= r + 1 <= |s| && Rearranged(s, t, x, y)
    ensures Rearranged(s, t, l, r)
  {
    assert t[..l] == t[..x][..l] && s[..l] == s[..x][..l];
    assert t[r + 1..] == t[y + 1..][r - y..] && s[r + 1..] == s[y + 1..][r - y..];
    assert t[l..x] == t[..x][l..] && s[l..x] == s[..x][l..];
    assert t[y + 1..r + 1] == t[y + 1..][..r - y] && s[y + 1..r + 1] == s[y + 1..][..r - y];
    InThree(s, l, r, x, y);
    InThree(t, l, r, x, y);
  }

  function Swapped(s: seq<int>, x: nat, y: nat): seq<int>
    requires x < |s| && y < |s|
  {
    s[x := s[y]][y := s[x]]
  }

  lemma SwappedIsRearranged(s: seq<int>, x: nat, y: nat, l: int, r: int)
    requires 0 <= l <= x <= r < |s| && l <= y <= r
    ensures Rearranged(s, Swapped(s, x, y), l, r)
  {
    var t := Swapped(s, x, y);
    assert t[..l] == s[..l] && t[r + 1..] == s[r + 1..];
    var a, b := s[l..r + 1], t[l..r + 1];
    assert b == a[x - l := a[y - l]][y - l := a[x - l]];
  }

  // What bounds a range bounds every rearrangement of it.
  lemma RearrangedKeepsBounds(s: seq<int>, t: seq<int>, l: int, r: int, p: int)
    requires 0 <= l <= r + 1 <= |s| && Rearranged(s, t, l, r)
    ensures (forall x :: l <= x <= r ==> s[x] <= p) ==> (forall x :: l <= x <= r ==> t[x] <= p)
    ensures (forall x :: l <= x <= r ==> s[x] > p) ==> (forall x :: l <= x <= r ==> t[x] > p)
  {
    forall x | l <= x <= r
      ensures exists y :: l <= y <= r && s[y] == t[x]
    {
      assert t[x] == t[l..r + 1][x - l];
      assert t[x] in multiset(t[l..r + 1]);
      assert t[x] in s[l..r + 1];
    }
  }

  // Everything up to `a` is at most the element there, everything after it is greater.
  predicate Partitioned(s: seq<int>, l: int, r: int, a: int)
    requires 0 <= l <= a <= r < |s|
  {
    (forall x :: l <= x < a ==> s[x] <= s[a]) && (forall x :: a < x <= r ==> s[x] > s[a])
  }

  // Cut at elements in their places into blocks of at most `limit` elements; order is broken only
  // inside a block.
  ghost predicate InBlocks(s: seq<int>, l: int, r: int, limit: nat)
    requires 0 <= l <= r + 1 <= |s|
    decreases r - l + 1
  {
    r - l < limit || exists a :: CutAt(s, l, r, limit, a)
  }

  ghost predicate CutAt(s: seq<int>, l: int, r: int, limit: nat, a: int)
    requires 0 <= l <= r + 1 <= |s|
    decreases r - l + 1, 0
  {
    l <= a <= r && Partitioned(s, l, r, a) && InBlocks(s, l, a - 1, limit) && InBlocks(s, a + 1, r, limit)
  }

  lemma {:induction false} BlocksStay(s: seq<int>, t: seq<int>, l: int, r: int, limit: nat)
    requires 0 <= l <= r + 1 <= |s| == |t| && InBlocks(s, l, r, limit)
    requires forall x :: l <= x <= r ==> t[x] == s[x]
    ensures InBlocks(t, l, r, limit)
    decreases r - l + 1
  {
    if r - l >= limit {
      var a :| CutAt(s, l, r, limit, a);
      BlocksStay(s, t, l, a - 1, limit);
      BlocksStay(s, t, a + 1, r, limit);
      assert CutAt(t, l, r, limit, a);
    }
  }

  lemma {:induction false} OrderBreaksOnlyNearby(s: seq<int>, l: int, r: int, limit: nat, x: int, y: int)
    requires 0 <= l <= r + 1 <= |s| && InBlocks(s, l, r, limit) && l <= x && x + limit <= y <= r
    ensures s[x] <= s[y]
    decreases r - l + 1
  {
    var a :| CutAt(s, l, r, limit, a);
    if y < a {
      OrderBreaksOnlyNearby(s, l, a - 1, limit, x, y);
    } else if x > a {
      OrderBreaksOnlyNearby(s, a + 1, r, limit, x, y);
    }
  }

  lemma BlocksAreNearlySorted(s: seq<int>, limit: nat)
    requires InBlocks(s, 0, |s| - 1, limit)
    ensures NearlySorted(s, limit)
  {
    forall x, y | 0 <= x && x + limit <= y < |s|
      ensures s[x] <= s[y]
    {
      OrderBreaksOnlyNearby(s, 0, |s| - 1, limit, x, y);
    }
  }

  // How many elements of `s` exceed `v`.
  function Exceeding(s: seq<int>, v: int): nat {
    if s == [] then 0 else Exceeding(s[..|s| - 1], v) + if s[|s| - 1] > v then 1 else 0
  }

  // The pairs that are out of order.
  function Inversions(s: seq<int>): nat {
    if s == [] then 0 else Inversions(s[..|s| - 1]) + Exceeding(s[..|s| - 1], s[|s| - 1])
  }

  lemma {:induction false} ExceedingAppend(a: seq<int>, b: seq<int>, v: int)
    ensures Exceeding(a + b, v) == Exceeding(a, v) + Exceeding(b, v)
  {
    if b == [] {
      assert a + b == a;
    } else {
      ExceedingAppend(a, b[..|b| - 1], v);
      assert (a + b)[..|a + b| - 1] == a + b[..|b| - 1];
    }
  }

  function Without(s: seq<int>, k: nat): seq<int>
    requires k < |s|
  {
    s[..k] + s[k + 1..]
  }

  lemma TakingOneOut(s: seq<int>, k: nat, v: int)
    requires k < |s|
    ensures multiset(Without(s, k)) == multiset(s) - multiset{s[k]}
    ensures Exceeding(s, v) == Exceeding(Without(s, k), v) + if s[k] > v then 1 else 0
  {
    var a, b := s[..k], s[k + 1..];
    assert s == a + [s[k]] + b;
    ExceedingAppend(a, b, v);
    ExceedingAppend(a + [s[k]], b, v);
    assert (a + [s[k]])[..k] == a;
  }

  lemma {:induction false} ExceedingIsOrderless(s: seq<int>, t: seq<int>, v: int)
    requires multiset(s) == multiset(t)
    ensures Exceeding(s, v) == Exceeding(t, v)
    decreases |s|
  {
    hide Exceeding, Without;
    assert |s| == |multiset(s)| == |t|;
    if s == [] {
      assert t == [];
    } else {
      assert s[0] in multiset(t);
      var k :| 0 <= k < |t| && t[k] == s[0];
      TakingOneOut(s, 0, v);
      TakingOneOut(t, k, v);
      assert |Without(s, 0)| < |s| by {
        assert |multiset(Without(s, 0))| == |multiset(s)| - 1;
      }
      ExceedingIsOrderless(Without(s, 0), Without(t, k), v);
    }
  }

  lemma {:induction false} ExceedingSplit(s: seq<int>, j: nat, v: int)
    requires j <= |s| && forall x :: 0 <= x < j ==> s[x] <= v
    ensures Exceeding(s, v) <= |s| - j
    ensures (forall x :: j <= x < |s| ==> s[x] > v) ==> Exceeding(s, v) == |s| - j
  {
    if |s| > j {
      ExceedingSplit(s[..|s| - 1], j, v);
    } else if s != [] {
      ExceedingSplit(s[..|s| - 1], j - 1, v);
    }
  }

  lemma OneMore(n: nat, m: nat)
    ensures (n + 1) * m == n * m + m
  {
  }

  lemma LastExceedsFew(s: seq<int>, limit: nat)
    requires s != [] && limit >= 1 && NearlySorted(s, limit)
    ensures Exceeding(s[..|s| - 1], s[|s| - 1]) <= limit - 1
  {
    var init, last := s[..|s| - 1], s[|s| - 1];
    ExceedingSplit(init, if |init| >= limit then |init| - limit + 1 else 0, last);
  }

  // Short-range disorder means few inversions.
  lemma {:induction false} NearlySortedHasFewInversions(s: seq<int>, limit: nat)
    requires limit >= 1 && NearlySorted(s, limit)
    ensures Inversions(s) <= |s| * (limit - 1)
  {
    if s == [] {
    } else {
      LastExceedsFew(s, limit);
      NearlySortedHasFewInversions(s[..|s| - 1], limit);
      OneMore(|s| - 1, limit - 1);
    }
  }

  // What the recursion leaves for the insertion sort: nothing at all when the blocks are single elements.
  lemma BlocksHaveFewInversions(s: seq<int>, limit: nat)
    requires limit >= 1 && InBlocks(s, 0, |s| - 1, limit)
    ensures Inversions(s) <= |s| * (limit - 1)
    ensures limit == 1 ==> Sorted(s)
  {
    BlocksAreNearlySorted(s, limit);
    NearlySortedHasFewInversions(s, limit);
  }

  lemma WholeRearranged(s: seq<int>, t: seq<int>)
    requires Rearranged(s, t, 0, |s| - 1)
    ensures multiset(t) == multiset(s)
  {
    assert s[0..|s|] == s && t[0..|s|] == t;
  }

  // The middle one of three values: at least two are no greater and at least two no smaller.
  predicate Median(v: int, x: int, y: int, z: int) {
    && (v == x || v == y || v == z)
    && ((x <= v && y <= v) || (x <= v && z <= v) || (y <= v && z <= v))
    && ((x >= v && y >= v) || (x >= v && z >= v) || (y >= v && z >= v))
  }

  // `s` with the element at `i` moved down to `j`.
  function Sunk(s: seq<int>, i: nat, j: nat): (t: seq<int>)
    requires j <= i < |s|
    ensures |t| == |s|
  {
    s[..j] + [s[i]] + s[j..i] + s[i + 1..]
  }

  lemma SunkSteps(s: seq<int>, i: nat, j: nat)
    requires j <= i < |s|
    ensures Sunk(s, i, i) == s && Sunk(s, i, j)[j] == s[i]
    ensures j > 0 ==> Sunk(s, i, j)[j - 1] == s[j - 1]
    ensures j > 0 ==> Swapped(Sunk(s, i, j), j - 1, j) == Sunk(s, i, j - 1)
  {
  }

  lemma SunkInPlace(s: seq<int>, i: nat, j: nat)
    requires j <= i < |s| && Sorted(s[..i]) && (j == 0 || s[j - 1] <= s[i]) && forall x :: j <= x < i ==> s[x] > s[i]
    ensures
      var t := Sunk(s, i, j);
      && Sorted(t[..i + 1]) && multiset(t[..i + 1]) == multiset(s[..i + 1]) && t[i + 1..] == s[i + 1..]
      && Exceeding(s[..i], s[i]) == i - j
  {
    hide Sorted, Exceeding;
    Inserted(s[..i], s[i], j);
    assert s[..i][..j] == s[..j] && s[..i][j..] == s[j..i];
    assert Sunk(s, i, j)[..i + 1] == s[..i][..j] + [s[i]] + s[..i][j..];
    assert s[..i + 1] == s[..i] + [s[i]];
  }

  // `t` is `s` with its first `i` elements sorted, which took as many exchanges as there were
  // inversions among them.
  ghost predicate SortedUpTo(s: seq<int>, t: seq<int>, i: nat, swaps: nat) {
    && i <= |s| == |t| && Sorted(t[..i]) && multiset(t[..i]) == multiset(s[..i])
    && t[i..] == s[i..] && swaps == Inversions(s[..i])
  }

  lemma FewElements(s: seq<int>)
    ensures SortedUpTo(s, s, if |s| == 0 then 0 else 1, 0)
  {
    assert s[..0] == [];
    assert |s| >= 1 ==> s[..1][..0] == [];
  }

  lemma SortedSoFar(s: seq<int>, t: seq<int>, i: nat, swaps: nat)
    requires SortedUpTo(s, t, i, swaps)
    ensures i <= |t| && Sorted(t[..i])
  {
  }

  lemma OneMoreSorted(s: seq<int>, t: seq<int>, u: seq<int>, i: nat, swaps: nat, more: nat)
    requires SortedUpTo(s, t, i, swaps) && i < |t| == |u|
    requires Sorted(u[..i + 1]) && multiset(u[..i + 1]) == multiset(t[..i + 1]) && u[i + 1..] == t[i + 1..]
    requires more == Exceeding(t[..i], t[i])
    ensures SortedUpTo(s, u, i + 1, swaps + more)
  {
    hide Exceeding, Sorted;
    ExceedingIsOrderless(t[..i], s[..i], t[i]);
    assert t[i..][0] == s[i..][0] && t[i..][1..] == t[i + 1..] && s[i..][1..] == s[i + 1..];
    assert s[..i + 1][..i] == s[..i];
    assert t[..i + 1] == t[..i] + [t[i]] && s[..i + 1] == s[..i] + [s[i]];
  }

  lemma SunkKeepsSorted(s: seq<int>, t: seq<int>, u: seq<int>, i: nat, j: nat, swaps: nat, more: nat)
    requires SortedUpTo(s, t, i, swaps) && j <= i < |t| && u == Sunk(t, i, j) && more == i - j
    requires (j > 0 ==> t[j - 1] <= t[i]) && forall x :: j <= x < i ==> t[x] > t[i]
    ensures SortedUpTo(s, u, i + 1, swaps + more)
  {
    hide SortedUpTo, Sorted, Sunk, Exceeding, Inversions;
    SortedSoFar(s, t, i, swaps);
    SunkInPlace(t, i, j);
    OneMoreSorted(s, t, u, i, swaps, more);
  }

  lemma AllSorted(s: seq<int>, t: seq<int>, swaps: nat)
    requires SortedUpTo(s, t, |s|, swaps)
    ensures Sorted(t) && multiset(t) == multiset(s) && swaps == Inversions(s)
  {
    assert t[..|s|] == t && s[..|s|] == s;
  }

  lemma InsertedInOrder(a: seq<int>, v: int, b: seq<int>)
    requires Sorted(a + b) && (a == [] || a[|a| - 1] <= v) && forall x :: 0 <= x < |b| ==> b[x] > v
    ensures Sorted(a + [v] + b)
  {
    var s, t, n := a + b, a + [v] + b, |a|;
    forall x | 0 <= x < n
      ensures t[x] == s[x] <= v
    {
      assert s[x] == a[x] && s[n - 1] == a[n - 1];
    }
    assert forall y :: n < y < |t| ==> t[y] == s[y - 1] == b[y - 1 - n];
  }

  // Where a greater element begins is where the new one goes.
  lemma Inserted(s: seq<int>, v: int, j: nat)
    requires Sorted(s) && j <= |s| && (j == 0 || s[j - 1] <= v) && forall x :: j <= x < |s| ==> s[x] > v
    ensures Sorted(s[..j] + [v] + s[j..]) && multiset(s[..j] + [v] + s[j..]) == multiset(s + [v])
    ensures Exceeding(s, v) == |s| - j
  {
    assert s == s[..j] + s[j..];
    InsertedInOrder(s[..j], v, s[j..]);
    ExceedingSplit(s, j, v);
    hide Sorted, Exceeding;
  }

  // Rearranging the two sides keeps the partition.
  lemma SidesKeepThePartition(t: seq<int>, u: seq<int>, v: seq<int>, l: int, r: int, a: int)
    requires 0 <= l <= a <= r < |t| && Partitioned(t, l, r, a)
    requires Rearranged(t, u, l, a - 1) && Rearranged(u, v, a + 1, r)
    ensures Partitioned(v, l, r, a) && forall x :: l <= x <= a ==> v[x] == u[x]
  {
    assert forall x :: a <= x <= r ==> u[x] == u[a..][x - a] && t[x] == t[a..][x - a];
    assert forall x :: l <= x <= a ==> v[x] == v[..a + 1][x] && u[x] == u[..a + 1][x];
    RearrangedKeepsBounds(t, u, l, a - 1, t[a]);
    RearrangedKeepsBounds(u, v, a + 1, r, t[a]);
  }

  // The first of the three places that holds a median.
  function FirstMedian(s: seq<int>, a: nat, b: nat, c: nat): (k: nat)
    requires a < |s| && b < |s| && c < |s|
    ensures k in {a, b, c} && Median(s[k], s[a], s[b], s[c])
  {
    if Median(s[a], s[a], s[b], s[c]) then a else if Median(s[b], s[a], s[b], s[c]) then b else c
  }

  lemma ShortBlock(s: seq<int>, l: int, r: int, limit: nat)
    requires 0 <= l <= r + 1 <= |s| && r - l < limit
    ensures InBlocks(s, l, r, limit)
  {
  }

  // x lies between the elements of the range that do not exceed it and those that do.
  ghost predicate InItsPlace(s: seq<int>, l: int, r: int, x: int)
    requires 0 <= l <= r < |s|
  {
    exists a :: l <= a <= r && Partitioned(s, l, r, a) && s[a] == x
  }

  // A partition both of whose sides are in blocks is in blocks.
  lemma SidesInBlocks(t: seq<int>, u: seq<int>, v: seq<int>, l: int, r: int, a: int, limit: nat)
    requires 0 <= l <= a <= r < |t| && Partitioned(t, l, r, a)
    requires Rearranged(t, u, l, a - 1) && Rearranged(u, v, a + 1, r)
    requires InBlocks(u, l, a - 1, limit) && InBlocks(v, a + 1, r, limit)
    ensures Rearranged(t, v, l, r) && InBlocks(v, l, r, limit) && InItsPlace(v, l, r, t[a])
  {
    SidesKeepThePartition(t, u, v, l, r, a);
    assert u[a] == u[a..][0] && t[a] == t[a..][0];
    RearrangedWithin(t, u, l, r, l, a - 1);
    RearrangedWithin(u, v, l, r, a + 1, r);
    RearrangedTwice(t, u, v, l, r);
    hide Rearranged, Partitioned;
    BlocksStay(u, v, l, a - 1, limit);
    assert CutAt(v, l, r, limit, a);
  }

  lemma RemainderOf(x: nat, m: nat)
    requires m > 0
    ensures (x - x % m) % m == 0
  {
    ModTwice(x, m);
    SameRemainder(x, x % m, m);
  }

  class Sorter {
    const limit: nat
    const mode: nat
    const random: nat -> nat // the n-th number drawn
    var draws: nat

    constructor (limit: nat, mode: nat, random: nat -> nat)
      ensures this.limit == limit && this.mode == mode && this.random == random && draws == 0
    {
      this.limit := limit;
      this.mode := mode;
      this.random := random;
      draws := 0;
    }

    // The place in the range that the i-th number drawn stands for.
    function Drawn(l: nat, r: nat, i: nat): (k: nat)
      requires l <= r
      ensures l <= k <= r && (random(i) - (k - l)) % (r - l + 1) == 0
    {
      RemainderOf(random(i), r - l + 1);
      random(i) % (r - l + 1) + l
    }

    method DrawBetween(l: nat, r: nat) returns (k: nat)
      requires l <= r
      modifies this
      ensures k == Drawn(l, r, old(draws)) && draws == old(draws) + 1
    {
      k := random(draws) % (r - l + 1) + l;
      draws := draws + 1;
    }

    method FindIndexOfMedianOfThree(A: array<int>, a: nat, b: nat, c: nat) returns (k: nat)
      requires a < A.Length && b < A.Length && c < A.Length
      ensures k in {a, b, c} && Median(A[k], A[a], A[b], A[c])
      ensures k == FirstMedian(A[..], a, b, c)
    {
      if (A[a] >= A[b] && A[a] <= A[c]) || (A[a] <= A[b] && A[a] >= A[c]) {
        k := a;
      } else if (A[b] >= A[a] && A[b] <= A[c]) || (A[b] <= A[a] && A[b] >= A[c]) {
        k := b;
      } else {
        k := c;
      }
    }

    // The place of the pivot in each mode, the next number to draw being the i-th.
    function PivotOf(s: seq<int>, l: nat, r: nat, i: nat): (k: nat)
      requires l <= r < |s| && mode <= 3
      ensures l <= k <= r
      ensures mode == 1 ==> Median(s[k], s[l], s[(l + r) / 2], s[r])
      ensures mode == 3 ==> Median(s[k], s[Drawn(l, r, i)], s[Drawn(l, r, i + 1)], s[Drawn(l, r, i + 2)])
    {
      if mode == 0 then r
      else if mode == 1 then FirstMedian(s, l, (l + r) / 2, r)
      else if mode == 2 then Drawn(l, r, i)
      else FirstMedian(s, Drawn(l, r, i), Drawn(l, r, i + 1), Drawn(l, r, i + 2))
    }

    method FindPivot(A: array<int>, l: nat, r: nat) returns (k: nat)
      requires l <= r < A.Length && mode <= 3
      modifies this
      ensures l <= k <= r && k == PivotOf(A[..], l, r, old(draws))
    {
      if mode == 0 {
        return r;
      } else if mode == 2 {
        k := DrawBetween(l, r);
        return;
      }
      var a, b, c;
      if mode == 1 {
        a, b, c := l, (l + r) / 2, r;
      } else {
        a := DrawBetween(l, r);
        b := DrawBetween(l, r);
        c := DrawBetween(l, r);
      }
      k := FindIndexOfMedianOfThree(A, a, b, c);
    }

    // Swap two elements of the range from `l` to `r`, which was `s` at first.
    method Swap(A: array<int>, x: nat, y: nat, ghost s: seq<int>, ghost l: nat, ghost r: nat)
      requires l <= x <= r < A.Length == |s| && l <= y <= r && Rearranged(s, A[..], l, r)
      modifies A
      ensures A[..] == Swapped(old(A[..]), x, y) && Rearranged(s, A[..], l, r)
    {
      SwappedIsRearranged(A[..], x, y, l, r);
      RearrangedTwice(s, A[..], Swapped(A[..], x, y), l, r);
      var tmp := A[x];
      A[x] := A[y];
      A[y] := tmp;
      assert A[..] == Swapped(old(A[..]), x, y);
    }

    method InPlacePartition(A: array<int>, l: nat, r: nat, k: nat) returns (a: nat)
      requires l <= k <= r < A.Length
      modifies A
      ensures l <= a <= r && Partitioned(A[..], l, r, a) && Rearranged(old(A[..]), A[..], l, r)
      ensures A[a] == old(A[k])
    {
      ghost var s := A[..];
      RearrangedAtFirst(s, l, r);
      hide Rearranged;
      var p := A[k];
      Swap(A, k, r, s, l, r);
      var i, j: int := l, r - 1;
      while i <= j
        invariant l <= i <= j + 1 <= r && A[r] == p
        invariant Rearranged(s, A[..], l, r)
        invariant forall x :: l <= x < i ==> A[x] <= p
        invariant forall x :: j < x < r ==> A[x] > p
        decreases j - i, if i <= j && A[i] > p then 1 else 0
      {
        while i <= j && A[i] <= p
          invariant l <= i <= j + 1
          invariant forall x :: l <= x < i ==> A[x] <= p
        {
          i := i + 1;
        }
        while i <= j && A[j] > p
          invariant i <= j + 1 <= r
          invariant forall x :: j < x < r ==> A[x] > p
        {
          j := j - 1;
        }
        if i < j {
          Swap(A, i, j, s, l, r);
        }
      }
      Swap(A, i, r, s, l, r);
      a := i;
    }

    method RQuickSort(A: array<int>, l: int, r: int)
      requires 0 <= l <= r + 1 <= A.Length && limit >= 1 && mode <= 3
      modifies this, A
      ensures Rearranged(old(A[..]), A[..], l, r) && InBlocks(A[..], l, r, limit)
      ensures r - l >= limit ==> InItsPlace(A[..], l, r, old(A[PivotOf(A[..], l, r, draws)]))
      decreases r - l + 1
    {
      hide Rearranged, Partitioned, InBlocks, InItsPlace;
      ghost var s := A[..];
      RearrangedAtFirst(s, l, r);
      if r - l < limit {
        ShortBlock(s, l, r, limit);
      } else {
        var k := FindPivot(A, l, r);
        var a: int := InPlacePartition(A, l, r, k);
        ghost var t := A[..];
        RQuickSort(A, l, a - 1);
        ghost var u := A[..];
        RQuickSort(A, a + 1, r);
        SidesInBlocks(t, u, A[..], l, r, a, limit);
        RearrangedTwice(s, t, A[..], l, r);
      }
    }

    // Exchange the element at `i` downwards to its place `j` among the sorted ones before it.
    method SinkInto(A: array<int>, i: nat) returns (ghost swaps: nat, j: nat)
      requires i < A.Length
      modifies A
      ensures j <= i && A[..] == Sunk(old(A[..]), i, j) && swaps == i - j
      ensures (j > 0 ==> old(A[j - 1]) <= old(A[i])) && forall x :: j <= x < i ==> old(A[x]) > old(A[i])
    {
      hide Sunk;
      ghost var s := A[..];
      swaps, j := 0, i;
      SunkSteps(s, i, j);
      while j > 0 && A[j - 1] > A[j]
        invariant 0 <= j <= i && swaps == i - j && A[..] == Sunk(s, i, j)
        invariant forall x :: j <= x < i ==> s[x] > s[i]
      {
        SunkSteps(s, i, j);
        var tmp := A[j];
        A[j] := A[j - 1];
        A[j - 1] := tmp;
        assert A[..] == Swapped(Sunk(s, i, j), j - 1, j);
        j := j - 1;
        swaps := swaps + 1;
      }
      SunkSteps(s, i, j);
    }

    // Also counts its exchanges: exactly one for every inversion.
    method InsertionSort(A: array<int>, n: nat) returns (ghost swaps: nat)
      requires n == A.Length
      modifies A
      ensures Sorted(A[..]) && multiset(A[..]) == multiset(old(A[..]))
      ensures swaps == Inversions(old(A[..]))
    {
      hide SortedUpTo, Sorted, Sunk, Exceeding, Inversions;
      ghost var s := A[..];
      FewElements(s);
      swaps := 0;
      var i := 1;
      while i < n
        invariant 1 <= i && (i <= n || n == 0)
        invariant SortedUpTo(s, A[..], if n == 0 then 0 else i, swaps)
      {
        ghost var t := A[..];
        ghost var more, j := SinkInto(A, i);
        SunkKeepsSorted(s, t, A[..], i, j, swaps, more);
        swaps := swaps + more;
        i := i + 1;
      }
      AllSorted(s, A[..], swaps);
    }

    method QuickSort(A: array<int>, n: nat) returns (ghost swaps: nat)
      requires n == A.Length && limit >= 1 && mode <= 3
      modifies this, A
      ensures Sorted(A[..]) && multiset(A[..]) == multiset(old(A[..]))
      ensures swaps <= n * (limit - 1)
    {
      hide Rearranged, InBlocks, Sorted, Inversions;
      ghost var s := A[..];
      RQuickSort(A, 0, n - 1);
      WholeRearranged(s, A[..]);
      BlocksHaveFewInversions(A[..], limit);
      swaps := 0;
      if limit > 1 {
        swaps := InsertionSort(A, n);
      }
    }
  }
}
