// deadlock_hunters.c: the wait-for graph and its depth-first cycle detector, for any number of threads.
module WaitForGraph {
  type Graph = set<(nat, nat)>

  // Consecutive vertices of p are joined by edges.
  ghost predicate IsPath(g: Graph, p: seq<nat>) {
    forall k :: 0 <= k < |p| - 1 ==> (p[k], p[k + 1]) in g
  }

  ghost predicate IsCycle(g: Graph, p: seq<nat>) {
    |p| >= 2 && IsPath(g, p) && p[0] == p[|p| - 1]
  }

  ghost predicate HasCycle(g: Graph) {
    exists p :: IsCycle(g, p)
  }

  // The graph held in the edge matrix.
  ghost function GraphOf(edge: array2<int>): Graph
    requires edge.Length0 == edge.Length1
    reads edge
  {
    set i: nat, j: nat | i < edge.Length0 && j < edge.Length0 && edge[i, j] != 0 :: (i, j)
  }

  // Every edge out of a listed vertex leads to an earlier vertex of the list.
  ghost predicate Settled(g: Graph, order: seq<nat>) {
    forall k, w :: 0 <= k < |order| && (order[k], w) in g ==> w in order[..k]
  }

  // visited and stack as the search sees them: path is the chain of calls in progress, order lists
  // the vertices whose calls have ended.
  ghost predicate Searching(g: Graph, visited: array<bool>, stack: array<bool>, path: seq<nat>, order: seq<nat>)
    requires visited.Length == stack.Length
    reads visited, stack
  {
    && IsPath(g, path) && Settled(g, order)
    && (forall v: nat :: v < visited.Length ==> (visited[v] <==> v in path || v in order))
    && (forall v: nat :: v < visited.Length ==> (stack[v] <==> v in path))
    && (forall v :: v in path || v in order ==> v < visited.Length)
  }

  ghost function Unseen(visited: array<bool>): set<nat>
    reads visited
  {
    set v: nat | v < visited.Length && !visited[v]
  }

  lemma SettledExtends(g: Graph, order: seq<nat>, node: nat)
    requires Settled(g, order) && forall w :: (node, w) in g ==> w in order
    ensures Settled(g, order + [node])
  {
    var longer := order + [node];
    forall k, w | 0 <= k < |longer| && (longer[k], w) in g ensures w in longer[..k] {
      assert longer[..k] == order[..k];
    }
  }

  lemma PathExtends(g: Graph, path: seq<nat>, node: nat)
    requires IsPath(g, path) && (path == [] || (path[|path| - 1], node) in g)
    ensures IsPath(g, path + [node])
  {
  }

  method DfsCycle(edge: array2<int>, node: nat, visited: array<bool>, stack: array<bool>,
                  ghost path: seq<nat>, ghost order: seq<nat>)
    returns (found: bool, ghost order': seq<nat>)
    requires edge.Length0 == edge.Length1 == visited.Length == stack.Length && visited != stack
    requires node < visited.Length && !visited[node]
    requires Searching(GraphOf(edge), visited, stack, path, order)
    requires path == [] || (path[|path| - 1], node) in GraphOf(edge)
    modifies visited, stack
    ensures found ==> HasCycle(GraphOf(edge))
    ensures !found ==> Searching(GraphOf(edge), visited, stack, path, order')
    ensures !found ==> node in order' && forall v :: v in order ==> v in order'
    ensures Unseen(visited) <= old(Unseen(visited))
    decreases Unseen(visited)
  {
    hide Settled, IsPath, HasCycle;
    ghost var g := GraphOf(edge);
    ghost var unseen := Unseen(visited);
    PathExtends(g, path, node);
    visited[node] := true;
    stack[node] := true;
    ghost var path' := path + [node];
    order' := order;
    for next: nat := 0 to visited.Length
      invariant Searching(g, visited, stack, path', order')
      invariant forall v :: v in order ==> v in order'
      invariant forall w: nat :: w < next && (node, w) in g ==> w in order'
      invariant Unseen(visited) <= unseen - {node}
    {
      if edge[node, next] == 0 {
        continue;
      }
      assert (node, next) in g;
      if !visited[next] {
        var deeper;
        assert node in unseen;
        deeper, order' := DfsCycle(edge, next, visited, stack, path', order');
        if deeper {
          return true, order';
        }
      }
      if stack[next] {
        BackEdge(g, path', next);
        return true, order';
      }
    }
    stack[node] := false;
    SettledExtends(g, order', node);
    order' := order' + [node];
    assert path'[..|path|] == path;
    return false, order';
  }

  // An edge from the end of a path back onto it closes a cycle.
  lemma BackEdge(g: Graph, path: seq<nat>, next: nat)
    requires IsPath(g, path) && next in path && (path[|path| - 1], next) in g
    ensures HasCycle(g)
  {
    var k :| 0 <= k < |path| && path[k] == next;
    assert IsCycle(g, path[k..] + [next]);
  }

  method DetectCycle(edge: array2<int>) returns (found: bool)
    requires edge.Length0 == edge.Length1
    ensures found <==> HasCycle(GraphOf(edge))
  {
    ghost var g := GraphOf(edge);
    var n := edge.Length0;
    var visited := new bool[n](_ => false);
    var stack := new bool[n](_ => false);
    ghost var order: seq<nat> := [];
    for i: nat := 0 to n
      invariant Searching(g, visited, stack, [], order)
      invariant forall v: nat :: v < i ==> v in order
    {
      if !visited[i] {
        var deeper;
        deeper, order := DfsCycle(edge, i, visited, stack, [], order);
        if deeper {
          return true;
        }
      }
    }
    SettledHasNoCycle(g, order);
    return false;
  }

  lemma {:induction false} PathDescends(g: Graph, order: seq<nat>, k: nat, p: seq<nat>)
    requires Settled(g, order) && k < |order| && IsPath(g, p) && |p| >= 2 && p[0] == order[k]
    ensures p[|p| - 1] in order[..k]
    decreases |p|
  {
    assert (p[0], p[1]) in g;
    var i :| 0 <= i < k && order[i] == p[1];
    if |p| > 2 {
      var q := p[1..];
      assert IsPath(g, q) by {
        forall j | 0 <= j < |q| - 1 ensures (q[j], q[j + 1]) in g {
          assert (p[j + 1], p[j + 2]) in g;
        }
      }
      PathDescends(g, order, i, q);
    }
  }

  lemma {:induction false} NoCycleFrom(g: Graph, order: seq<nat>, k: nat, p: seq<nat>)
    requires Settled(g, order) && k < |order| && IsCycle(g, p) && p[0] == order[k]
    ensures false
    decreases k
  {
    PathDescends(g, order, k, p);
    var i :| 0 <= i < k && order[i] == p[0];
    NoCycleFrom(g, order, i, p);
  }

  lemma SettledHasNoCycle(g: Graph, order: seq<nat>)
    requires Settled(g, order)
    requires forall i, j :: (i, j) in g ==> i in order
    ensures !HasCycle(g)
  {
    if HasCycle(g) {
      var p :| IsCycle(g, p);
      assert (p[0], p[1]) in g;
      var k :| 0 <= k < |order| && order[k] == p[0];
      NoCycleFrom(g, order, k, p);
    }
  }
}
