/** The step graph of a deployment process: the API's check over declared dependencies and condition
    references, the database's check over declared dependencies alone, and their shared depth-first search. */
module StepGraph {
  import opened Conditions

  type Key = string
  type Graph = map<Key, seq<Key>>

  datatype Step = Step(key: Key, dependencies: seq<Key>, condition: Parsed)

  // ---------------------------------------------------------------- graphs, cycles, topological orders

  predicate Closed(g: Graph) {
    forall k, i :: k in g && 0 <= i < |g[k]| ==> g[k][i] in g
  }

  predicate Edge(g: Graph, from: Key, to: Key) {
    from in g && to in g[from]
  }

  predicate IsPath(g: Graph, path: seq<Key>) {
    forall i :: 0 <= i < |path| - 1 ==> Edge(g, path[i], path[i + 1])
  }

  predicate IsCycle(g: Graph, path: seq<Key>) {
    |path| > 1 && path[0] == path[|path| - 1] && IsPath(g, path)
  }

  ghost predicate Acyclic(g: Graph) {
    forall path :: !IsCycle(g, path)
  }

  predicate Distinct(s: seq<Key>) {
    forall i, j :: 0 <= i < j < |s| ==> s[i] != s[j]
  }

  /** Every step comes after everything it depends on. */
  ghost predicate Ordered(g: Graph, order: seq<Key>) {
    forall i, d :: 0 <= i < |order| && Edge(g, order[i], d) ==> d in order[..i]
  }

  ghost predicate Topological(g: Graph, order: seq<Key>) {
    Distinct(order) && Ordered(g, order) && forall k :: k in order <==> k in g
  }

  lemma {:induction false} PathDescends(g: Graph, order: seq<Key>, path: seq<Key>, i: nat, j: nat)
    requires Distinct(order) && Ordered(g, order) && IsPath(g, path) && |path| > 0
    requires i < |order| && j < |order| && path[0] == order[i] && path[|path| - 1] == order[j]
    ensures |path| > 1 ==> j < i
  {
    if |path| > 1 {
      assert Edge(g, path[0], path[1]);
      var n :| 0 <= n < i && order[..i][n] == path[1];
      assert order[n] == path[1];
      PathDescends(g, order, path[1..], n, j);
    }
  }

  /** A topological order rules every cycle out. */
  lemma TopologicalAcyclic(g: Graph, order: seq<Key>)
    requires Topological(g, order)
    ensures Acyclic(g)
  {
    forall path | IsCycle(g, path)
      ensures false
    {
      assert Edge(g, path[0], path[1]);
      var i :| 0 <= i < |order| && order[i] == path[0];
      PathDescends(g, order, path, i, i);
    }
  }

  // ---------------------------------------------------------------- the search

  /** The state of one depth-first search. */
  class Walk {
    const graph: Graph
    var visiting: set<Key>
    var visited: set<Key>
    ghost var order: seq<Key>

    constructor (g: Graph)
      ensures graph == g && visiting == {} && visited == {} && order == []
    {
      graph, visiting, visited, order := g, {}, {}, [];
    }

    ghost predicate Valid()
      reads this
    {
      && Distinct(order) && Ordered(graph, order)
      && (forall k :: k in visited <==> k in order)
      && visited !! visiting && visiting <= graph.Keys && visited <= graph.Keys
    }

    /** Returns whether the search from `key` closes a cycle. `stack` is the path being visited. */
    method Visit(key: Key, ghost stack: seq<Key>) returns (cyclic: bool)
      requires Valid() && Closed(graph) && key in graph
      requires (forall k :: k in visiting <==> k in stack) && IsPath(graph, stack + [key])
      modifies this
      ensures cyclic ==> !Acyclic(graph)
      ensures !cyclic ==> Valid() && visiting == old(visiting) && key in visited && old(visited) <= visited
      decreases graph.Keys - visiting
    {
      if key in visited {
        return false;
      }
      if key in visiting {
        ghost var i :| 0 <= i < |stack| && stack[i] == key;
        assert (stack + [key])[i..] == stack[i..] + [key];
        assert IsCycle(graph, stack[i..] + [key]);
        return true;
      }
      ghost var around := visiting;
      visiting := visiting + {key};
      for i := 0 to |graph[key]|
        invariant Valid() && visiting == around + {key} && old(visited) <= visited
        invariant forall j :: 0 <= j < i ==> graph[key][j] in visited
      {
        PathGrows(graph, stack, key, graph[key][i]);
        var closes := Visit(graph[key][i], stack + [key]);
        if closes {
          return true;
        }
      }
      visiting := visiting - {key};
      visited := visited + {key};
      OrderGrows(graph, order, key);
      order := order + [key];
      return false;
    }

    method Search() returns (cyclic: bool)
      requires Valid() && visiting == {} && visited == {} && Closed(graph)
      modifies this
      ensures cyclic <==> !Acyclic(graph)
      ensures !cyclic ==> Topological(graph, order)
    {
      var rest := graph.Keys;
      while rest != {}
        invariant Valid() && visiting == {} && rest <= graph.Keys
        invariant forall k :: k in graph && k !in rest ==> k in visited
      {
        var key :| key in rest;
        var closes := Visit(key, []);
        if closes {
          return true;
        }
        rest := rest - {key};
      }
      TopologicalAcyclic(graph, order);
      return false;
    }
  }

  lemma PathGrows(g: Graph, stack: seq<Key>, key: Key, next: Key)
    requires IsPath(g, stack + [key]) && Edge(g, key, next)
    ensures IsPath(g, (stack + [key]) + [next])
  {
    var path, longer := stack + [key], (stack + [key]) + [next];
    forall i | 0 <= i < |longer| - 1
      ensures Edge(g, longer[i], longer[i + 1])
    {
      if i < |path| - 1 { assert Edge(g, path[i], path[i + 1]); }
    }
  }

  lemma OrderGrows(g: Graph, order: seq<Key>, key: Key)
    requires Distinct(order) && Ordered(g, order) && key in g && key !in order
    requires forall j :: 0 <= j < |g[key]| ==> g[key][j] in order
    ensures Distinct(order + [key]) && Ordered(g, order + [key])
  {
    var longer := order + [key];
    forall i, d | 0 <= i < |longer| && Edge(g, longer[i], d)
      ensures d in longer[..i]
    {
      assert longer[..i] == order[..i];
    }
  }
}
