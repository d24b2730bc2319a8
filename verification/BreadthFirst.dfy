// Breadth-first traversal over an adjacency matrix, filling `label` in visiting order.

module BreadthFirst {
  type Edges = set<(nat, nat)>

  // A walk of exactly `d` edges leads from `s` to `v`.
  ghost predicate WalkTo(edges: Edges, s: nat, v: nat, d: nat)
    decreases d
  {
    if d == 0 then v == s else exists u: nat :: StepTo(edges, s, u, v, d)
  }

  // The last step of such a walk comes from `u`.
  ghost predicate StepTo(edges: Edges, s: nat, u: nat, v: nat, d: nat)
    requires d > 0
    decreases d, 0
  {
    (u, v) in edges && WalkTo(edges, s, u, d - 1)
  }

  lemma LastStep(edges: Edges, s: nat, v: nat, d: nat) returns (u: nat)
    requires d > 0 && WalkTo(edges, s, v, d)
    ensures (u, v) in edges && WalkTo(edges, s, u, d - 1)
  {
    u :| StepTo(edges, s, u, v, d);
  }

  // The shortest walk from `s` to `v` has `d` edges.
  ghost predicate Distance(edges: Edges, s: nat, v: nat, d: nat) {
    WalkTo(edges, s, v, d) && forall e: nat :: e < d ==> !WalkTo(edges, s, v, e)
  }

  ghost predicate Reachable(edges: Edges, s: nat, v: nat) {
    exists d: nat :: WalkTo(edges, s, v, d)
  }

  ghost predicate Connected(edges: Edges, s: nat, n: nat) {
    forall v: nat :: 1 <= v <= n ==> Reachable(edges, s, v)
  }

  predicate OnVertices(edges: Edges, n: nat) {
    forall e :: e in edges ==> 1 <= e.0 <= n && 1 <= e.1 <= n
  }

  lemma DistanceIsUnique(edges: Edges, s: nat, v: nat, d: nat, e: nat)
    requires Distance(edges, s, v, d) && Distance(edges, s, v, e)
    ensures d == e
  {
  }

  predicate Distinct(labels: seq<nat>) {
    forall i, j :: 0 <= i < j < |labels| ==> labels[i] != labels[j]
  }

  predicate AmongVertices(labels: seq<nat>, n: nat) {
    forall v :: v in labels ==> 1 <= v <= n
  }

  function Without(labels: seq<nat>, i: nat): seq<nat>
    requires i < |labels|
  {
    labels[..i] + labels[i + 1..]
  }

  lemma OthersRemain(labels: seq<nat>, i: nat)
    requires i < |labels|
    ensures forall v :: v in labels && v != labels[i] ==> v in Without(labels, i)
    ensures forall v :: v in Without(labels, i) ==> v in labels
    ensures Distinct(labels) ==> Distinct(Without(labels, i)) && labels[i] !in Without(labels, i)
  {
    var rest := Without(labels, i);
    forall j | 0 <= j < |labels| && j != i
      ensures labels[j] in rest
    {
      assert labels[j] == rest[if j < i then j else j - 1];
    }
    assert forall j :: 0 <= j < |rest| ==> rest[j] == labels[if j < i then j else j + 1];
  }

  // Different vertices are at most as many as there are vertices.
  lemma {:induction false} LabelsFit(labels: seq<nat>, n: nat)
    requires Distinct(labels) && AmongVertices(labels, n)
    ensures |labels| <= n
    ensures |labels| == n ==> forall v :: 1 <= v <= n ==> v in labels
    decreases n
  {
    if labels == [] {
    } else {
      assert labels[0] in labels;
      if n in labels {
        var i :| 0 <= i < |labels| && labels[i] == n;
        OthersRemain(labels, i);
        LabelsFit(Without(labels, i), n - 1);
      } else {
        LabelsFit(labels, n - 1);
      }
    }
  }

  lemma {:induction false} AllLabelled(labels: seq<nat>, n: nat)
    requires forall v: nat :: 1 <= v <= n ==> v in labels
    ensures |labels| >= n
  {
    if n > 0 {
      assert n in labels;
      var i :| 0 <= i < |labels| && labels[i] == n;
      OthersRemain(labels, i);
      AllLabelled(Without(labels, i), n - 1);
    }
  }

  // The state of the traversal: `labels` with the distances of its entries, of which the first
  // `k` have had all their neighbours labelled.
  ghost predicate Traversed(edges: Edges, n: nat, s: nat, labels: seq<nat>, dist: seq<nat>, k: nat) {
    && 0 < |labels| == |dist| && k <= |labels| && labels[0] == s
    && Distinct(labels) && AmongVertices(labels, n)
    && (forall i :: 0 <= i < |labels| ==> Distance(edges, s, labels[i], dist[i]))
    && (forall i, j :: 0 <= i <= j < |dist| ==> dist[i] <= dist[j])
    && (forall i, v :: 0 <= i < k && (labels[i], v) in edges ==> v in labels)
  }

  // While the neighbours of the entry at `k` are being labelled, entries reach one level further.
  ghost predicate Expanding(dist: seq<nat>, k: nat) {
    forall i :: 0 <= i < |dist| && k < |dist| ==> dist[i] <= dist[k] + 1
  }

  // Every vertex with a walk shorter than the level of entry `k` was labelled before it.
  lemma {:induction false} NearerIsEarlier(edges: Edges, n: nat, s: nat, labels: seq<nat>, dist: seq<nat>,
                                           k: nat, v: nat, d: nat)
    requires Traversed(edges, n, s, labels, dist, k) && k < |labels|
    requires WalkTo(edges, s, v, d) && d < dist[k]
    ensures v in labels[..k]
    decreases d
  {
    var j := 0;
    if d > 0 {
      var u := LastStep(edges, s, v, d);
      NearerIsEarlier(edges, n, s, labels, dist, k, u, d - 1);
      var i :| 0 <= i < k && labels[i] == u;
      assert v in labels;
      j :| 0 <= j < |labels| && labels[j] == v;
    }
    assert Distance(edges, s, labels[j], dist[j]);
    assert dist[j] <= d;
    assert j < k;
    assert labels[..k][j] == v;
  }

  // A neighbour of entry `k` that is not labelled yet is exactly one level further away.
  lemma NewLabel(edges: Edges, n: nat, s: nat, labels: seq<nat>, dist: seq<nat>, k: nat, v: nat)
    requires Traversed(edges, n, s, labels, dist, k) && k < |labels| && Expanding(dist, k)
    requires (labels[k], v) in edges && v !in labels && 1 <= v <= n
    ensures Traversed(edges, n, s, labels + [v], dist + [dist[k] + 1], k)
    ensures Expanding(dist + [dist[k] + 1], k) && |labels| < n
  {
    var d := dist[k] + 1;
    assert StepTo(edges, s, labels[k], v, d);
    assert labels[0] in labels;
    forall e: nat | e < d
      ensures !WalkTo(edges, s, v, e)
    {
      if WalkTo(edges, s, v, e) {
        if e > 0 {
          var u := LastStep(edges, s, v, e);
          NearerIsEarlier(edges, n, s, labels, dist, k, u, e - 1);
        }
      }
    }
    assert Distance(edges, s, v, d);
    LabelsFit(labels + [v], n);
  }

  lemma FirstLabel(edges: Edges, n: nat, s: nat)
    requires 1 <= s <= n
    ensures Traversed(edges, n, s, [s], [0], 0) && Expanding([0], 0)
  {
    assert WalkTo(edges, s, s, 0);
  }

  lemma {:induction false} ClosedLabelsHoldEveryReachable(edges: Edges, n: nat, s: nat, labels: seq<nat>,
                                                          dist: seq<nat>, v: nat, d: nat)
    requires Traversed(edges, n, s, labels, dist, |labels|) && WalkTo(edges, s, v, d)
    ensures v in labels
    decreases d
  {
    if d > 0 {
      var u := LastStep(edges, s, v, d);
      ClosedLabelsHoldEveryReachable(edges, n, s, labels, dist, u, d - 1);
    }
  }

  // When every entry is expanded, the labels are exactly the reachable vertices.
  lemma ClosedLabelsAreTheReachable(edges: Edges, n: nat, s: nat, labels: seq<nat>, dist: seq<nat>)
    requires Traversed(edges, n, s, labels, dist, |labels|)
    ensures forall v: nat :: v in labels <==> Reachable(edges, s, v)
    ensures |labels| == n <==> Connected(edges, s, n)
  {
    forall v: nat
      ensures v in labels <==> Reachable(edges, s, v)
    {
      if v in labels {
        var i :| 0 <= i < |labels| && labels[i] == v;
        assert Distance(edges, s, labels[i], dist[i]);
      }
      if Reachable(edges, s, v) {
        var d: nat :| WalkTo(edges, s, v, d);
        ClosedLabelsHoldEveryReachable(edges, n, s, labels, dist, v, d);
      }
    }
    LabelsFit(labels, n);
    if Connected(edges, s, n) && |labels| < n {
      AllLabelled(labels, n);
    }
  }

  // The parent of the entry at `j` is the first entry joined to it.
  ghost predicate IsParent(edges: Edges, labels: seq<nat>, p: nat, j: nat) {
    && p < j < |labels| && (labels[p], labels[j]) in edges
    && forall h: nat :: h < p ==> (labels[h], labels[j]) !in edges
  }

  ghost predicate HasParent(edges: Edges, labels: seq<nat>, j: nat) {
    exists p: nat :: IsParent(edges, labels, p, j)
  }

  // Entries follow the order of their parents, and those of one parent the order of their numbers.
  ghost predicate InOrder(edges: Edges, labels: seq<nat>) {
    && (forall j: nat :: 0 < j < |labels| ==> HasParent(edges, labels, j))
    && forall p: nat, q: nat, i: nat, j: nat {:trigger IsParent(edges, labels, p, i), IsParent(edges, labels, q, j)} ::
         i < j && IsParent(edges, labels, p, i) && IsParent(edges, labels, q, j) ==>
           p < q || (p == q && labels[i] < labels[j])
  }

  // The children of entry `k` found so far are below `b`; later entries have none yet.
  ghost predicate ParentsBefore(edges: Edges, labels: seq<nat>, k: nat, b: nat) {
    forall p: nat, j: nat :: IsParent(edges, labels, p, j) ==> p < k || (p == k && labels[j] < b)
  }

  lemma FirstInOrder(edges: Edges, s: nat)
    ensures InOrder(edges, [s]) && ParentsBefore(edges, [s], 0, 0)
  {
  }

  lemma ParentStays(edges: Edges, labels: seq<nat>, v: nat, p: nat, j: nat)
    requires j < |labels|
    ensures IsParent(edges, labels + [v], p, j) <==> IsParent(edges, labels, p, j)
  {
    var longer := labels + [v];
    if p < j {
      forall h: nat | h < p
        ensures longer[h] == labels[h] && longer[j] == labels[j]
      {
      }
      if IsParent(edges, longer, p, j) {
        forall h: nat | h < p ensures (labels[h], labels[j]) !in edges {
          assert (longer[h], longer[j]) !in edges;
        }
      }
    }
  }

  // A label added while scanning the neighbours of entry `k` in ascending order is a child of `k`.
  lemma NewLabelInOrder(edges: Edges, n: nat, s: nat, labels: seq<nat>, dist: seq<nat>, k: nat, v: nat)
    requires Traversed(edges, n, s, labels, dist, k) && k < |labels|
    requires (labels[k], v) in edges && v !in labels
    requires InOrder(edges, labels) && ParentsBefore(edges, labels, k, v)
    ensures InOrder(edges, labels + [v]) && ParentsBefore(edges, labels + [v], k, v + 1)
  {
    var longer, m := labels + [v], |labels|;
    assert IsParent(edges, longer, k, m);
    forall p: nat | IsParent(edges, longer, p, m)
      ensures p == k
    {
      assert (longer[k], longer[m]) in edges && (longer[p], longer[m]) in edges;
    }
    forall p: nat, j: nat | j < m
      ensures IsParent(edges, longer, p, j) <==> IsParent(edges, labels, p, j)
    {
      ParentStays(edges, labels, v, p, j);
    }
    assert forall j: nat :: 0 < j < m && HasParent(edges, labels, j) ==> HasParent(edges, longer, j);
  }

  lemma BoundGrows(edges: Edges, labels: seq<nat>, k: nat, b: nat, c: nat)
    requires ParentsBefore(edges, labels, k, b)
    ensures b <= c ==> ParentsBefore(edges, labels, k, c)
    ensures ParentsBefore(edges, labels, k + 1, c)
  {
  }

  // Where two traversals first differ, the one with the earlier parent or the lower number comes first.
  lemma OrderDecides(edges: Edges, a: seq<nat>, b: seq<nat>, k: nat, p: nat, q: nat)
    requires k < |a| && k < |b| && a[..k] == b[..k] && Distinct(b) && b[k] in a && a[k] != b[k]
    requires InOrder(edges, a) && IsParent(edges, a, p, k) && IsParent(edges, b, q, k)
    ensures p < q || (p == q && a[k] < b[k])
  {
    assert forall h: nat :: h < k ==> a[h] == a[..k][h] == b[..k][h] == b[h];
    var j: nat :| j < |a| && a[j] == b[k];
    assert IsParent(edges, a, q, j);
  }

  lemma {:induction false} SamePrefix(edges: Edges, a: seq<nat>, b: seq<nat>, k: nat)
    requires Distinct(a) && Distinct(b) && a != [] && b != [] && a[0] == b[0] && (forall v :: v in a <==> v in b)
    requires InOrder(edges, a) && InOrder(edges, b) && 1 <= k <= |a| && k <= |b|
    ensures a[..k] == b[..k]
  {
    if k > 1 {
      SamePrefix(edges, a, b, k - 1);
      assert a[k - 1] in a && b[k - 1] in b;
      assert HasParent(edges, a, k - 1) && HasParent(edges, b, k - 1);
      var p: nat :| IsParent(edges, a, p, k - 1);
      var q: nat :| IsParent(edges, b, q, k - 1);
      hide InOrder, IsParent;
      if a[k - 1] != b[k - 1] {
        OrderDecides(edges, a, b, k - 1, p, q);
        OrderDecides(edges, b, a, k - 1, q, p);
      }
      assert a[..k] == a[..k - 1] + [a[k - 1]] && b[..k] == b[..k - 1] + [b[k - 1]];
    }
  }

  lemma NothingMore(a: seq<nat>, b: seq<nat>)
    requires |a| <= |b| && a == b[..|a|] && Distinct(b) && forall v :: v in b ==> v in a
    ensures a == b
  {
    forall v | v in b
      ensures exists i :: 0 <= i < |a| && b[i] == v
    {
      var h :| 0 <= h < |a| && a[h] == v;
      assert b[h] == v;
    }
    assert |b| > 0 ==> b[|b| - 1] in b;
  }

  // Start and order leave no choice: two traversals of the same vertices are the same.
  lemma OrderDeterminesTheTraversal(edges: Edges, a: seq<nat>, b: seq<nat>)
    requires Distinct(a) && Distinct(b) && a != [] && b != [] && a[0] == b[0] && (forall v :: v in a <==> v in b)
    requires InOrder(edges, a) && InOrder(edges, b)
    ensures a == b
  {
    if |a| <= |b| {
      SamePrefix(edges, a, b, |a|);
      NothingMore(a, b);
    } else {
      SamePrefix(edges, a, b, |b|);
      NothingMore(b, a);
    }
  }

  // A finished traversal lists every vertex once, nearest first, and in the one order that start and
  // edges determine.
  lemma TraversalIsByDistance(edges: Edges, n: nat, s: nat, labels: seq<nat>, dist: seq<nat>)
    requires Traversed(edges, n, s, labels, dist, n) && |labels| == n && InOrder(edges, labels)
    ensures forall other: seq<nat> ::
      (Distinct(other) && other != [] && other[0] == s && (forall v: nat :: v in other <==> 1 <= v <= n) && InOrder(edges, other))
        <==> other == labels
    ensures labels[0] == s && Distinct(labels) && forall v: nat :: v in labels <==> 1 <= v <= n
    ensures forall i, j, d: nat, e: nat ::
      0 <= i <= j < n && Distance(edges, s, labels[i], d) && Distance(edges, s, labels[j], e) ==> d <= e
  {
    LabelsFit(labels, n);
    forall other: seq<nat> | && Distinct(other) && other != [] && other[0] == s
                             && (forall v: nat :: v in other <==> 1 <= v <= n) && InOrder(edges, other)
      ensures other == labels
    {
      OrderDeterminesTheTraversal(edges, labels, other);
    }
    forall i, j, d: nat, e: nat | 0 <= i <= j < n && Distance(edges, s, labels[i], d) && Distance(edges, s, labels[j], e)
      ensures d <= e
    {
      DistanceIsUnique(edges, s, labels[i], d, dist[i]);
      DistanceIsUnique(edges, s, labels[j], e, dist[j]);
    }
  }

  lemma AllNeighboursLabelled(edges: Edges, n: nat, s: nat, labels: seq<nat>, dist: seq<nat>, k: nat)
    requires Traversed(edges, n, s, labels, dist, k) && k < |labels| && OnVertices(edges, n)
    requires forall v: nat :: v <= n && (labels[k], v) in edges ==> v in labels
    ensures Traversed(edges, n, s, labels, dist, k + 1)
  {
    assert forall v: nat :: (labels[k], v) in edges ==> (labels[k], v).1 <= n;
  }

  class Graph {
    const matrix: array2<int>
    const vertexCount: nat

    ghost predicate Valid()
      reads this
    {
      matrix.Length0 == vertexCount + 1 && matrix.Length1 == vertexCount + 1
    }

    // Vertices joined in either direction; row and column 0 are unused.
    ghost function Joined(): (edges: Edges)
      requires Valid()
      reads this, matrix
      ensures OnVertices(edges, vertexCount)
    {
      set u: nat, v: nat | 1 <= u <= vertexCount && 1 <= v <= vertexCount
                           && (matrix[u, v] != 0 || matrix[v, u] != 0) :: (u, v)
    }

    constructor (n: nat)
      ensures Valid() && fresh(matrix) && vertexCount == n && Joined() == {}
    {
      vertexCount := n;
      matrix := new int[n + 1, n + 1]((_, _) => 0);
    }

    // Weight 0 takes the edge out again; the unused vertex 0 joins nothing.
    method AddEdge(from: nat, target: nat, weight: int)
      requires Valid() && from <= vertexCount && target <= vertexCount
      modifies matrix
      ensures
        var both := {(from, target), (target, from)};
        Joined() == if from == 0 || target == 0 then old(Joined())
                    else if weight == 0 then old(Joined()) - both else old(Joined()) + both
    {
      matrix[from, target] := weight;
      matrix[target, from] := weight;
    }

    // Whether `v` is among the first `cnt` labels.
    method Labelled(labels: array<nat>, cnt: nat, v: nat) returns (flag: bool)
      requires cnt <= labels.Length
      ensures flag <==> v in labels[..cnt]
    {
      flag := false;
      for j := 0 to cnt
        invariant flag <==> v in labels[..j]
      {
        if v == labels[j] {
          flag := true;
        }
      }
    }

    // Store the neighbour `v` of the entry at `k`, unless it is there already.
    method Visit(labels: array<nat>, cnt: nat, v: nat, ghost edges: Edges, ghost s: nat, ghost k: nat, ghost dist: seq<nat>)
      returns (next: nat, ghost further: seq<nat>)
      requires 1 <= v <= labels.Length && k < cnt <= labels.Length
      requires Traversed(edges, labels.Length, s, labels[..cnt], dist, k) && Expanding(dist, k)
      requires (labels[k], v) in edges
      requires InOrder(edges, labels[..cnt]) && ParentsBefore(edges, labels[..cnt], k, v)
      modifies labels
      ensures cnt <= next <= labels.Length && labels[..cnt] == old(labels[..cnt]) && v in labels[..next]
      ensures Traversed(edges, labels.Length, s, labels[..next], further, k) && Expanding(further, k)
      ensures InOrder(edges, labels[..next]) && ParentsBefore(edges, labels[..next], k, v + 1)
    {
      hide InOrder, ParentsBefore;
      BoundGrows(edges, labels[..cnt], k, v, v + 1);
      next, further := cnt, dist;
      var flag := Labelled(labels, cnt, v);
      if !flag {
        NewLabel(edges, labels.Length, s, labels[..cnt], dist, k, v);
        NewLabelInOrder(edges, labels.Length, s, labels[..cnt], dist, k, v);
        labels[cnt] := v;
        next := cnt + 1;
        further := dist + [dist[k] + 1];
        assert labels[..next] == labels[..cnt] + [v];
      }
    }

    // Look at every possible neighbour of the entry at `k`.
    method Expand(labels: array<nat>, cnt: nat, k: nat, ghost s: nat, ghost dist: seq<nat>)
      returns (next: nat, ghost further: seq<nat>)
      requires Valid() && labels.Length == vertexCount && k < cnt <= labels.Length
      requires Traversed(Joined(), labels.Length, s, labels[..cnt], dist, k) && Expanding(dist, k)
      requires InOrder(Joined(), labels[..cnt]) && ParentsBefore(Joined(), labels[..cnt], k, 0)
      modifies labels
      ensures cnt <= next <= labels.Length
      ensures InOrder(Joined(), labels[..next]) && ParentsBefore(Joined(), labels[..next], k + 1, 0)
      ensures Traversed(Joined(), labels.Length, s, labels[..next], further, k + 1) && Expanding(further, k)
    {
      hide Distance, Expanding, OnVertices, InOrder, ParentsBefore;
      var n := labels.Length;
      var start := labels[k];
      assert start == labels[..cnt][k] && start in labels[..cnt];
      hide Traversed;
      next, further := cnt, dist;
      BoundGrows(Joined(), labels[..next], k, 0, 1);
      for i := 1 to n + 1
        invariant cnt <= next <= n && labels[k] == start && Joined() == old(Joined())
        invariant Traversed(Joined(), n, s, labels[..next], further, k) && Expanding(further, k)
        invariant InOrder(Joined(), labels[..next]) && ParentsBefore(Joined(), labels[..next], k, i)
        invariant forall v: nat :: v < i && (start, v) in Joined() ==> v in labels[..next]
      {
        BoundGrows(Joined(), labels[..next], k, i, i + 1);
        ghost var before := labels[..next];
        if matrix[start, i] != 0 {
          next, further := Visit(labels, next, i, Joined(), s, k, further);
        } else if matrix[i, start] != 0 {
          next, further := Visit(labels, next, i, Joined(), s, k, further);
        }
        assert before <= labels[..next];
      }
      AllNeighboursLabelled(Joined(), n, s, labels[..next], further, k);
      BoundGrows(Joined(), labels[..next], k, n + 1, 0);
    }

    // `unset` reports that a cell of `label` was needed before anything was stored in it.
    method BFS(labels: array<nat>, start: nat, n: nat) returns (unset: bool, ghost dist: seq<nat>)
      requires Valid() && n == vertexCount == labels.Length && 1 <= start <= n
      modifies labels
      ensures unset <==> !Connected(Joined(), start, n)
      ensures !unset ==> Traversed(Joined(), n, start, labels[..], dist, n) && InOrder(Joined(), labels[..])
      ensures unset ==>
        && 0 < |dist| < n && (forall v: nat :: v in labels[..|dist|] <==> Reachable(Joined(), start, v))
        && labels[0] == start && Distinct(labels[..|dist|]) && InOrder(Joined(), labels[..|dist|])
    {
      hide Distance, InOrder, ParentsBefore;
      var cnt, k := 1, 0;
      labels[0] := start;
      dist := [0];
      FirstLabel(Joined(), n, start);
      FirstInOrder(Joined(), start);
      assert labels[..1] == [start];
      while k < n
        invariant k <= cnt <= n && Joined() == old(Joined())
        invariant Traversed(Joined(), n, start, labels[..cnt], dist, k)
        invariant k < cnt ==> Expanding(dist, k)
        invariant InOrder(Joined(), labels[..cnt]) && ParentsBefore(Joined(), labels[..cnt], k, 0)
      {
        if k == cnt {
          ClosedLabelsAreTheReachable(Joined(), n, start, labels[..cnt], dist);
          return true, dist;
        }
        cnt, dist := Expand(labels, cnt, k, start, dist);
        k := k + 1;
      }
      assert labels[..cnt] == labels[..];
      ClosedLabelsAreTheReachable(Joined(), n, start, labels[..], dist);
      unset := false;
    }
  }
}
