/** The circularity checks of the module builder: a depth-first search over struct fields, and
    over superclasses, that reports the cycle it closes. */
module Cycles {
  import opened Wrappers

  /** Who depends on whom; a superclass graph has at most one edge per node. */
  type Graph = g: seq<seq<nat>> | forall n, k :: 0 <= n < |g| && 0 <= k < |g[n]| ==> g[n][k] < |g| witness []

  predicate Edge(g: Graph, a: nat, b: nat) {
    a < |g| && b in g[a]
  }

  predicate IsWalk(g: Graph, w: seq<nat>) {
    && (forall k :: 0 <= k < |w| ==> w[k] < |g|)
    && (forall k :: 0 <= k < |w| - 1 ==> Edge(g, w[k], w[k + 1]))
  }

  /** A walk of real edges that comes back to where it started. */
  predicate IsCycle(g: Graph, w: seq<nat>) {
    |w| >= 2 && w[0] == w[|w| - 1] && IsWalk(g, w)
  }

  /** A walk from a root that passes some node twice. */
  ghost predicate Circular(g: Graph, roots: seq<nat>) {
    exists w: seq<nat>, i: nat, j: nat :: IsWalk(g, w) && w != [] && w[0] in roots && i < j < |w| && w[i] == w[j]
  }

  // ---------------------------------------------------------------- finished nodes

  /** Nodes in the order they were finished: all that a node depends on was finished before it. */
  ghost predicate Ordered(g: Graph, done: seq<nat>) {
    && (forall k :: 0 <= k < |done| ==> done[k] < |g|)
    && (forall k, b :: 0 <= k < |done| && Edge(g, done[k], b) ==> b in done[..k])
    && (forall j, k :: 0 <= j < k < |done| ==> done[j] != done[k])
  }

  ghost function Rank(done: seq<nat>, n: nat): (k: nat)
    requires n in done
    ensures k < |done| && done[k] == n
  {
    var k: nat :| k < |done| && done[k] == n;
    k
  }

  lemma RankDrops(g: Graph, done: seq<nat>, a: nat, b: nat)
    requires Ordered(g, done) && a in done && Edge(g, a, b)
    ensures b in done && Rank(done, b) < Rank(done, a)
  {
    assert b in done[..Rank(done, a)];
    var j :| 0 <= j < Rank(done, a) && done[j] == b;
  }

  /** Along a walk from a finished node the rank drops, so no node comes twice. */
  lemma {:induction false} WalkDescends(g: Graph, done: seq<nat>, w: seq<nat>, i: nat, j: nat)
    requires Ordered(g, done) && IsWalk(g, w) && w != [] && w[0] in done && i <= j < |w|
    ensures w[i] in done && w[j] in done && (i < j ==> Rank(done, w[j]) < Rank(done, w[i]))
    decreases j
  {
    if j > 0 {
      if i < j {
        WalkDescends(g, done, w, i, j - 1);
      } else {
        WalkDescends(g, done, w, j - 1, j - 1);
      }
      RankDrops(g, done, w[j - 1], w[j]);
    }
  }

  function Nodes(n: nat): (r: set<nat>)
    ensures forall i: nat :: i in r <==> i < n
  {
    if n == 0 then {} else Nodes(n - 1) + {n - 1}
  }

  // ---------------------------------------------------------------- the search

  /** The path is a walk through the nodes on the stack; whatever else was visited is finished. */
  ghost predicate Consistent(g: Graph, visited: set<nat>, inStack: set<nat>, path: seq<nat>, done: seq<nat>) {
    && IsWalk(g, path)
    && (forall n :: n in inStack <==> n in path)
    && (forall n :: n in visited <==> n in inStack || n in done)
    && (forall n :: n in done ==> n !in inStack)
    && Ordered(g, done)
  }

  lemma Push(g: Graph, visited: set<nat>, inStack: set<nat>, path: seq<nat>, done: seq<nat>, node: nat)
    requires Consistent(g, visited, inStack, path, done) && node < |g|
              && (path != [] ==> Edge(g, path[|path| - 1], node))
    ensures IsWalk(g, path + [node])
    ensures node in inStack ==> node in path
    ensures node !in visited ==> Consistent(g, visited + {node}, inStack + {node}, path + [node], done)
    ensures node !in inStack && node in visited ==> node in done
    ensures node !in visited ==> node !in inStack
  {
    hide Ordered;
  }

  lemma Pop(g: Graph, visited: set<nat>, inStack: set<nat>, path: seq<nat>, done: seq<nat>, node: nat)
    requires Consistent(g, visited, inStack + {node}, path + [node], done) && node < |g| && node !in inStack
    requires forall n :: n in inStack <==> n in path
    requires forall j :: 0 <= j < |g[node]| ==> g[node][j] in done
    ensures Consistent(g, visited, inStack, path, done + [node])
  {
    assert node in inStack + {node};
    Finish(g, done, node);
    hide Ordered;
    assert forall k :: 0 <= k < |path| ==> path[k] == (path + [node])[k];
  }

  class Search {
    const g: Graph
    var visited: set<nat>
    var inStack: set<nat>
    var path: seq<nat>
    ghost var done: seq<nat>

    ghost predicate Valid()
      reads this
    {
      Consistent(g, visited, inStack, path, done)
    }

    constructor (g: Graph)
      ensures this.g == g && Valid() && path == [] && visited == {} && done == []
    {
      this.g := g;
      visited, inStack, path, done := {}, {}, [], [];
    }

    /** Visits `node`. Either the path ends in a node it has passed before, or everything is as it was
        but that the node is finished. */
    method Dfs(node: nat) returns (found: bool)
      requires Valid() && node < |g| && (path != [] ==> Edge(g, path[|path| - 1], node))
      modifies this
      ensures found ==> IsWalk(g, path) && old(path) + [node] <= path && path[|path| - 1] in path[..|path| - 1]
      ensures !found ==> Valid() && path == old(path) && inStack == old(inStack) && node in done
      ensures !found ==> old(visited) <= visited && (forall n :: n in old(done) ==> n in done)
      decreases Nodes(|g|) - visited
    {
      Push(g, visited, inStack, path, done, node);
      hide Consistent, IsWalk, Ordered, Nodes;
      ghost var visited0, inStack0, path0, done0 := visited, inStack, path, done;
      if node in inStack {
        path := path + [node];
        assert path[..|path| - 1] == old(path);
        return true;
      }
      if node in visited {
        return false;
      }
      assert node in Nodes(|g|) - visited;
      visited := visited + {node};
      inStack := inStack + {node};
      path := path + [node];
      for k := 0 to |g[node]|
        invariant Valid() && path == old(path) + [node] && inStack == old(inStack) + {node}
                  && old(visited) + {node} <= visited
        invariant forall j :: 0 <= j < k ==> g[node][j] in done
        invariant forall n :: n in old(done) ==> n in done
      {
        assert g[node][k] in g[node];
        var hit := Dfs(g[node][k]);
        if hit {
          return true;
        }
      }
      assert Consistent(g, visited, inStack0, path0, done + [node]) by {
        StackIsPath(g, visited0, inStack0, path0, done0);
        Pop(g, visited, inStack0, path0, done, node);
      }
      path := path[..|path| - 1];
      inStack := inStack - {node};
      assert path == path0 && inStack == inStack0;
      done := done + [node];
      return false;
    }
  }

  lemma StackIsPath(g: Graph, visited: set<nat>, inStack: set<nat>, path: seq<nat>, done: seq<nat>)
    requires Consistent(g, visited, inStack, path, done)
    ensures forall n :: n in inStack <==> n in path
  {
  }

  lemma Finish(g: Graph, done: seq<nat>, node: nat)
    requires Ordered(g, done) && node < |g| && node !in done && forall j :: 0 <= j < |g[node]| ==> g[node][j] in done
    ensures Ordered(g, done + [node])
  {
    var more := done + [node];
    forall k, b | 0 <= k < |more| && Edge(g, more[k], b)
      ensures b in more[..k]
    {
      if k < |done| {
        assert more[..k] == done[..k];
      } else {
        assert more[..k] == done;
      }
    }
  }

  /** The tail of the path from the first time it met the repeated node. */
  method CycleText(path: seq<nat>, repeated: nat) returns (cycle: seq<nat>)
    ensures repeated !in path ==> cycle == []
    ensures repeated in path ==>
              && cycle != [] && cycle[0] == repeated && |cycle| <= |path|
              && cycle == path[|path| - |cycle|..] && repeated !in path[..|path| - |cycle|]
  {
    cycle := [];
    var found := false;
    ghost var first: nat := |path|;
    for i := 0 to |path|
      invariant !found ==> cycle == [] && repeated !in path[..i]
      invariant found ==> first < i && cycle == path[first..i] && path[first] == repeated && repeated !in path[..first]
    {
      if path[i] == repeated {
        first := if found then first else i;
        found := true;
      }
      if found {
        cycle := cycle + [path[i]];
      }
    }
    assert path[..|path|] == path;
    assert found ==> path[first..|path|] == path[first..];
  }

  /** The checks are exact: a cycle is reported if and only if a walk from the checked declarations
      comes back on itself, and what is printed is then a closed walk of real edges. */
  method CheckCircular(g: Graph, roots: seq<nat>) returns (report: Option<seq<nat>>)
    requires forall k :: 0 <= k < |roots| ==> roots[k] < |g|
    ensures report.Some? <==> Circular(g, roots)
    ensures report.Some? ==> IsCycle(g, report.value)
  {
    var search := new Search(g);
    for k := 0 to |roots|
      invariant fresh(search) && search.g == g && search.Valid() && search.path == [] && search.inStack == {}
      invariant forall j :: 0 <= j < k ==> roots[j] in search.done
    {
      if roots[k] !in search.visited {
        search.path := [];
        var found := search.Dfs(roots[k]);
        if found {
          var path := search.path;
          var cycle := CycleText(path, path[|path| - 1]);
          Reported(g, roots, path, cycle, roots[k]);
          return Some(cycle);
        }
      }
    }
    NoCycle(g, roots, search.done);
    return None;
  }

  lemma Reported(g: Graph, roots: seq<nat>, path: seq<nat>, cycle: seq<nat>, root: nat)
    requires IsWalk(g, path) && path != [] && path[|path| - 1] in path[..|path| - 1] && path[0] == root && root in roots
    requires cycle != [] && cycle[0] == path[|path| - 1] && |cycle| <= |path| && cycle == path[|path| - |cycle|..]
    requires path[|path| - 1] !in path[..|path| - |cycle|]
    ensures Circular(g, roots) && IsCycle(g, cycle)
  {
    var last := |path| - 1;
    var i :| 0 <= i < last && path[..last][i] == path[last];
    assert forall k :: 0 <= k < |path| - |cycle| ==> path[k] == path[..|path| - |cycle|][k];
    assert forall k :: 0 <= k < |cycle| ==> cycle[k] == path[|path| - |cycle| + k];
  }

  lemma NoCycle(g: Graph, roots: seq<nat>, done: seq<nat>)
    requires Ordered(g, done) && forall j :: 0 <= j < |roots| ==> roots[j] in done
    ensures !Circular(g, roots)
  {
    forall w: seq<nat>, i: nat, j: nat | IsWalk(g, w) && w != [] && w[0] in roots && i < j < |w|
      ensures w[i] != w[j]
    {
      WalkDescends(g, done, w, i, j);
    }
  }
}
