/** The dependency graph of a saga and its three-colour depth-first cycle check. */
module SagaGraph {
  type StepId = string

  /** The dictionary the check builds: a step's id mapped to the ids it depends on. */
  type Graph = map<StepId, seq<StepId>>

  datatype Colour = OnPath | Finished

  function Deps(g: Graph, n: StepId): seq<StepId> {
    if n in g then g[n] else []
  }

  ghost function Nodes(g: Graph): set<StepId> {
    g.Keys + set n, d | n in g.Keys && d in g[n] :: d
  }

  ghost function Elements(p: seq<StepId>): set<StepId> {
    set n | n in p
  }

  /** Every node of `p` depends on its successor in `p`. */
  ghost predicate Chain(g: Graph, p: seq<StepId>) {
    forall i :: 0 <= i < |p| - 1 ==> p[i + 1] in Deps(g, p[i])
  }

  ghost predicate IsCycle(g: Graph, p: seq<StepId>) {
    |p| >= 2 && p[0] == p[|p| - 1] && Chain(g, p)
  }

  ghost predicate Acyclic(g: Graph) {
    forall p :: !IsCycle(g, p)
  }

  ghost predicate Distinct(p: seq<StepId>) {
    forall i, j :: 0 <= i < j < |p| ==> p[i] != p[j]
  }

  /** Each element of `order` comes after everything it depends on. */
  ghost predicate Ordered(g: Graph, order: seq<StepId>) {
    Distinct(order) &&
    forall i, d :: 0 <= i < |order| && d in Deps(g, order[i]) ==> d in order[..i]
  }

  ghost predicate Topological(g: Graph, order: seq<StepId>) {
    Ordered(g, order) && Nodes(g) == Elements(order)
  }

  /** The step `d` is a dependency of a step that has it among its nodes. */
  lemma DepIsNode(g: Graph, n: StepId, d: StepId)
    requires d in Deps(g, n)
    ensures n in g && d in Nodes(g)
  {
  }

  lemma OrderedAppend(g: Graph, order: seq<StepId>, n: StepId)
    requires Ordered(g, order) && n !in order
    requires forall d :: d in Deps(g, n) ==> d in order
    ensures Ordered(g, order + [n])
  {
    var order' := order + [n];
    forall i, d | 0 <= i < |order'| && d in Deps(g, order'[i]) ensures d in order'[..i] {
      assert order'[..i] == order[..i];
    }
  }

  /** Going along a chain moves strictly towards the front of a topological order. */
  lemma {:induction false} ChainDescends(g: Graph, order: seq<StepId>, p: seq<StepId>, i: nat) returns (j: nat)
    requires Ordered(g, order) && Chain(g, p) && |p| >= 2
    requires i < |order| && order[i] == p[0]
    ensures j < i && order[j] == p[|p| - 1]
    decreases |p|
  {
    assert p[1] in Deps(g, p[0]);
    j :| 0 <= j < i && order[j] == p[1];
    if |p| > 2 {
      var q := p[1..];
      assert Chain(g, q) by {
        forall k | 0 <= k < |q| - 1 ensures q[k + 1] in Deps(g, q[k]) {
          assert p[k + 2] in Deps(g, p[k + 1]);
        }
      }
      j := ChainDescends(g, order, q, j);
    }
  }

  /** A graph with a topological order has no directed cycle. */
  lemma TopologicalIsAcyclic(g: Graph, order: seq<StepId>)
    requires Topological(g, order)
    ensures Acyclic(g)
  {
    forall p ensures !IsCycle(g, p) {
      if IsCycle(g, p) {
        assert p[1] in Deps(g, p[0]);
        DepIsNode(g, p[0], p[1]);
        var i :| 0 <= i < |order| && order[i] == p[0];
        var j := ChainDescends(g, order, p, i);
        assert false;
      }
    }
  }

  lemma {:induction false} DistinctSize(p: seq<StepId>, s: set<StepId>)
    requires Distinct(p) && Elements(p) <= s
    ensures |p| <= |s|
  {
    if p != [] {
      var n := |p| - 1;
      var rest := s - {p[n]};
      assert Elements(p[..n]) <= rest;
      DistinctSize(p[..n], rest);
      assert p[n] in s;
    }
  }

  /** The chain `p` followed by one more dependency. */
  lemma ChainAppend(g: Graph, p: seq<StepId>, d: StepId)
    requires Chain(g, p) && p != [] && d in Deps(g, p[|p| - 1])
    ensures Chain(g, p + [d])
  {
    var q := p + [d];
    forall k | 0 <= k < |q| - 1 ensures q[k + 1] in Deps(g, q[k]) {
      if k < |p| - 1 {
        assert p[k + 1] in Deps(g, p[k]);
      }
    }
  }

  lemma ChainSuffix(g: Graph, p: seq<StepId>, i: nat)
    requires Chain(g, p) && i <= |p|
    ensures Chain(g, p[i..])
  {
    var q := p[i..];
    forall k | 0 <= k < |q| - 1 ensures q[k + 1] in Deps(g, q[k]) {
      assert p[i + k + 1] in Deps(g, p[i + k]);
    }
  }

  ghost predicate DependsInto(g: Graph, n: StepId, s: set<StepId>) {
    exists d :: d in s && d in Deps(g, n)
  }

  ghost predicate NeededFrom(g: Graph, d: StepId, s: set<StepId>) {
    exists n :: n in s && d in Deps(g, n)
  }

  /** Walking along dependencies inside `s` revisits no step of an acyclic graph,
      so it stops at a member that depends on no other. */
  lemma {:induction false} FindSource(g: Graph, s: set<StepId>, p: seq<StepId>) returns (n: StepId)
    requires Acyclic(g)
    requires p != [] && Chain(g, p) && Distinct(p) && Elements(p) <= s
    ensures n in s && !DependsInto(g, n, s)
    decreases |s| - |p|
  {
    n := p[|p| - 1];
    assert n in Elements(p);
    if DependsInto(g, n, s) {
      var d :| d in s && d in Deps(g, n);
      ChainAppend(g, p, d);
      var q := p + [d];
      if d in p {
        var i :| 0 <= i < |p| && p[i] == d;
        ChainSuffix(g, q, i);
        assert IsCycle(g, q[i..]);
      }
      assert Elements(q) <= s;
      DistinctSize(q, s);
      n := FindSource(g, s, q);
    }
  }

  /** The same walk against the dependencies: `p` grows at its front. */
  lemma {:induction false} FindSink(g: Graph, s: set<StepId>, p: seq<StepId>) returns (d: StepId)
    requires Acyclic(g)
    requires p != [] && Chain(g, p) && Distinct(p) && Elements(p) <= s
    ensures d in s && !NeededFrom(g, d, s)
    decreases |s| - |p|
  {
    d := p[0];
    assert d in Elements(p);
    if NeededFrom(g, d, s) {
      var n :| n in s && d in Deps(g, n);
      var q := [n] + p;
      assert Chain(g, q) by {
        forall k | 0 <= k < |q| - 1 ensures q[k + 1] in Deps(g, q[k]) {
          if k > 0 {
            assert p[k] in Deps(g, p[k - 1]);
          }
        }
      }
      if n in p {
        var i :| 0 <= i < |p| && p[i] == n;
        assert IsCycle(g, q[..i + 2]);
      }
      assert Elements(q) <= s;
      DistinctSize(q, s);
      d := FindSink(g, s, q);
    }
  }

  /** Some member of a nonempty set of steps depends on no other member. */
  lemma SourceExists(g: Graph, s: set<StepId>)
    requires Acyclic(g) && s != {}
    ensures exists n :: n in s && !DependsInto(g, n, s)
  {
    var n :| n in s;
    n := FindSource(g, s, [n]);
  }

  /** Some member of a nonempty set of steps has no dependent in it. */
  lemma SinkExists(g: Graph, s: set<StepId>)
    requires Acyclic(g) && s != {}
    ensures exists d :: d in s && !NeededFrom(g, d, s)
  {
    var d :| d in s;
    d := FindSink(g, s, [d]);
  }

  /** The closure `dfs` and the dictionary `visited` it shares with its caller. */
  class CycleCheck {
    const graph: Graph
    var visited: map<StepId, Colour>
    ghost var finish: seq<StepId>  // the finished nodes, in finishing order

    ghost predicate Sound()
      reads this
    {
      && visited.Keys <= Nodes(graph)
      && Ordered(graph, finish)
      && forall n :: n in finish <==> n in visited && visited[n] == Finished
    }

    ghost function Grey(): set<StepId>
      reads this
    {
      set n | n in visited.Keys && visited[n] == OnPath
    }

    constructor (graph: Graph)
      ensures this.graph == graph && Sound() && Grey() == {} && finish == []
    {
      this.graph := graph;
      visited, finish := map[], [];
    }

    /** A node not seen before goes on the current path. */
    method Enter(node: StepId, ghost path: seq<StepId>)
      requires Sound() && Grey() == Elements(path) && node in Nodes(graph) && node !in visited
      modifies this`visited
      ensures Sound() && Grey() == Elements(path + [node]) && visited.Keys == old(visited.Keys) + {node}
    {
      visited := visited[node := OnPath];
      assert Grey() == old(Grey()) + {node};
      assert Elements(path + [node]) == Elements(path) + {node};
    }

    /** The last node of the current path is finished, after all its dependencies. */
    method Leave(node: StepId, ghost path: seq<StepId>)
      requires Sound() && Grey() == Elements(path + [node]) && node !in path
      requires forall d :: d in Deps(graph, node) ==> d in finish
      modifies this
      ensures Sound() && Grey() == Elements(path) && finish == old(finish) + [node] && visited.Keys == old(visited.Keys)
    {
      assert node in Elements(path + [node]) && node in Grey() && node !in finish;
      OrderedAppend(graph, finish, node);
      visited := visited[node := Finished];
      finish := finish + [node];
      assert Grey() == old(Grey()) - {node};
      assert Elements(path + [node]) == Elements(path) + {node};
    }

    method Dfs(node: StepId, ghost path: seq<StepId>) returns (found: bool)
      requires Sound() && node in Nodes(graph)
      requires Grey() == Elements(path) && Chain(graph, path + [node])
      modifies this
      ensures old(visited.Keys) <= visited.Keys <= Nodes(graph)
      ensures found ==> exists c :: IsCycle(graph, c)
      ensures !found ==> Sound() && Grey() == old(Grey()) && node in finish && old(finish) <= finish
      decreases Nodes(graph) - visited.Keys
    {
      if node in visited && visited[node] == OnPath {
        assert node in Grey();
        ghost var i :| 0 <= i < |path| && path[i] == node;
        ChainSuffix(graph, path + [node], i);
        assert IsCycle(graph, (path + [node])[i..]);
        return true;
      }
      if node in visited && visited[node] == Finished {
        return false;
      }
      ghost var here := path + [node];
      assert node !in path by {
        assert node !in Grey();
      }
      Enter(node, path);
      var deps := Deps(graph, node);
      for i := 0 to |deps|
        invariant old(visited.Keys) + {node} <= visited.Keys
        invariant Sound() && Grey() == Elements(here) && old(finish) <= finish
        invariant forall k :: 0 <= k < i ==> deps[k] in finish
      {
        DepIsNode(graph, node, deps[i]);
        ChainAppend(graph, here, deps[i]);
        found := Dfs(deps[i], here);
        if found {
          return true;
        }
      }
      assert node in Grey();
      Leave(node, path);
      return false;
    }
  }

  /** has_cycle: the outer loop over the dictionary's keys, in insertion order `keys`. */
  method HasCycle(graph: Graph, keys: seq<StepId>) returns (r: bool, ghost order: seq<StepId>)
    requires Elements(keys) == graph.Keys
    ensures r <==> exists c :: IsCycle(graph, c)
    ensures !r ==> Topological(graph, order)
  {
    var check := new CycleCheck(graph);
    for i := 0 to |keys|
      invariant check.graph == graph && check.Sound() && check.Grey() == {}
      invariant forall k :: 0 <= k < i ==> keys[k] in check.finish
    {
      assert keys[i] in Elements(keys);
      var found := check.Dfs(keys[i], []);
      if found {
        return true, [];
      }
    }
    order := check.finish;
    forall n | n in Nodes(graph) ensures n in order {
      if n in graph.Keys {
        assert n in keys;
      } else {
        var m :| m in graph.Keys && n in graph[m];
        assert m in keys;
        var i :| 0 <= i < |order| && order[i] == m;
        assert n in Deps(graph, order[i]);
      }
    }
    TopologicalIsAcyclic(graph, order);
    return false, order;
  }
}
