/** Three-colour depth-first cycle detection over a dependency graph (trusted_plan.py, `_is_acyclic`). */
module DependencyGraph {
  import Basics

  type Id = string
  type Graph = map<Id, seq<Id>>

  /** `b` is a known dependency of `a`; an edge to an unknown node does not count. */
  ghost predicate Edge(g: Graph, a: Id, b: Id) {
    a in g && b in g && b in g[a]
  }

  ghost predicate IsPath(g: Graph, p: seq<Id>) {
    forall k :: 0 <= k < |p| - 1 ==> Edge(g, p[k], p[k + 1])
  }

  /** A cycle of any length; a self-loop is a cycle of length one. */
  ghost predicate IsCycle(g: Graph, c: seq<Id>) {
    c != [] && IsPath(g, c) && Edge(g, c[|c| - 1], c[0])
  }

  ghost predicate Acyclic(g: Graph) {
    forall c :: !IsCycle(g, c)
  }

  /** Every node is listed after its known dependencies. */
  ghost predicate DependenciesFirst(g: Graph, order: seq<Id>) {
    forall k :: 0 <= k < |order| ==> order[k] in g && forall d :: d in g[order[k]] && d in g ==> d in order[..k]
  }

  ghost predicate TopologicalOrder(g: Graph, order: seq<Id>) {
    DependenciesFirst(g, order) && forall n :: n in g ==> n in order
  }

  ghost function IndexIn(order: seq<Id>, n: Id): (k: nat)
    requires n in order
    ensures k < |order| && order[k] == n && forall j :: 0 <= j < k ==> order[j] != n
  {
    if order[0] == n then 0 else 1 + IndexIn(order[1..], n)
  }

  /** The index of a node falls along every edge. */
  lemma EdgeDescends(g: Graph, order: seq<Id>, a: Id, b: Id)
    requires TopologicalOrder(g, order) && Edge(g, a, b)
    ensures IndexIn(order, b) < IndexIn(order, a)
  {
    var k := IndexIn(order, a);
    var j :| 0 <= j < k && order[..k][j] == b;
    assert order[j] == b;
  }

  lemma {:induction false} PathDescends(g: Graph, order: seq<Id>, p: seq<Id>)
    requires TopologicalOrder(g, order) && p != [] && IsPath(g, p) && p[0] in g
    ensures p[|p| - 1] in g && IndexIn(order, p[|p| - 1]) <= IndexIn(order, p[0])
  {
    if |p| > 1 {
      var shorter := p[..|p| - 1];
      PathDescends(g, order, shorter);
      assert Edge(g, p[|p| - 2], p[|p| - 1]);
      EdgeDescends(g, order, p[|p| - 2], p[|p| - 1]);
    }
  }

  /** A graph with a topological order has no cycle. */
  lemma TopologicalOrderExcludesCycles(g: Graph, order: seq<Id>)
    requires TopologicalOrder(g, order)
    ensures Acyclic(g)
  {
    forall c | c != [] && IsPath(g, c) && c[0] in g ensures !Edge(g, c[|c| - 1], c[0]) {
      PathDescends(g, order, c);
      if Edge(g, c[|c| - 1], c[0]) {
        EdgeDescends(g, order, c[|c| - 1], c[0]);
      }
    }
  }

  // ---- An acyclic graph has a topological order ------------------------------------------------------------------

  lemma {:induction false} Pigeonhole(p: seq<Id>, holes: set<Id>) returns (i: nat, j: nat)
    requires |p| > |holes| && forall k :: 0 <= k < |p| ==> p[k] in holes
    ensures i < j < |p| && p[i] == p[j]
  {
    var last, rest := p[|p| - 1], p[..|p| - 1];
    if last in rest {
      i :| 0 <= i < |rest| && rest[i] == last;
      j := |p| - 1;
    } else {
      i, j := Pigeonhole(rest, holes - {last});
    }
  }

  ghost predicate DependsInto(g: Graph, n: Id, nodes: set<Id>) {
    n in g && exists d :: d in nodes && d in g[n]
  }

  /** A walk of any length inside a set in which every node has a dependency in the set. */
  lemma {:induction false} Walk(g: Graph, nodes: set<Id>, start: Id, length: nat) returns (p: seq<Id>)
    requires start in nodes && nodes <= g.Keys
    requires forall n {:trigger DependsInto(g, n, nodes)} :: n in nodes ==> DependsInto(g, n, nodes)
    ensures |p| == length + 1 && IsPath(g, p) && forall k :: 0 <= k < |p| ==> p[k] in nodes
  {
    if length == 0 {
      p := [start];
    } else {
      p := Walk(g, nodes, start, length - 1);
      assert DependsInto(g, p[|p| - 1], nodes);
      var d :| d in nodes && d in g[p[|p| - 1]];
      p := p + [d];
    }
  }

  /** Some node of a non-empty set has no dependency inside it. */
  lemma SinkExists(g: Graph, nodes: set<Id>) returns (sink: Id)
    requires Acyclic(g) && nodes != {} && nodes <= g.Keys
    ensures sink in nodes && forall d :: d in g[sink] ==> d !in nodes
  {
    if forall n {:trigger DependsInto(g, n, nodes)} :: n in nodes ==> DependsInto(g, n, nodes) {
      var start :| start in nodes;
      var p := Walk(g, nodes, start, |nodes|);
      var i, j := Pigeonhole(p, nodes);
      assert IsCycle(g, p[i..j]) by {
        assert Edge(g, p[j - 1], p[j]);
      }
      sink := start;
    } else {
      sink :| sink in nodes && !DependsInto(g, sink, nodes);
    }
  }

  lemma {:induction false} ExtendOrder(g: Graph, done: seq<Id>, rest: set<Id>) returns (order: seq<Id>)
    requires Acyclic(g) && DependenciesFirst(g, done) && rest <= g.Keys
    requires forall n :: n in g ==> n in done || n in rest
    ensures TopologicalOrder(g, order)
    decreases rest
  {
    if rest == {} {
      order := done;
    } else {
      var n := SinkExists(g, rest);
      var longer := done + [n];
      forall k | 0 <= k < |longer| ensures longer[k] in g && forall d :: d in g[longer[k]] && d in g ==> d in longer[..k] {
        assert longer[..k] == done[..k];
        assert k == |done| ==> done[..k] == done;
      }
      order := ExtendOrder(g, longer, rest - {n});
    }
  }

  /** No cycle if and only if there is a topological order. */
  lemma AcyclicIffOrdered(g: Graph)
    ensures Acyclic(g) <==> exists order :: TopologicalOrder(g, order)
  {
    if Acyclic(g) {
      var order := ExtendOrder(g, [], g.Keys);
    }
    if order :| TopologicalOrder(g, order) {
      TopologicalOrderExcludesCycles(g, order);
    }
  }

  datatype Color = White | Grey | Black

  /** The closure of `_is_acyclic`: the colour table that `visit` updates. `path` is the chain of calls in progress,
      `finished` the order in which nodes turn black. */
  class DepthFirst {
    const g: Graph
    var color: map<Id, Color>
    ghost var path: seq<Id>
    ghost var finished: seq<Id>

    ghost predicate Valid()
      reads this
    {
      && color.Keys == g.Keys
      && (forall n :: n in g ==> (color[n].Grey? <==> n in path) && (color[n].Black? <==> n in finished))
      && (forall n :: n in path || n in finished ==> n in g)
      && IsPath(g, path)
      && DependenciesFirst(g, finished)
    }

    ghost function Whites(): set<Id>
      reads this
    {
      set n | n in g && n in color && color[n].White?
    }

    constructor (g: Graph)
      ensures this.g == g && Valid() && path == [] && finished == []
      ensures forall n :: n in g ==> color[n].White?
    {
      this.g := g;
      color := map n | n in g :: White;
      path, finished := [], [];
    }

    method Visit(node: Id) returns (ok: bool, ghost cycle: seq<Id>)
      requires Valid() && node in g && color[node].White?
      requires path != [] ==> Edge(g, path[|path| - 1], node)
      modifies this
      ensures ok ==> Valid() && path == old(path) && old(finished) <= finished && node in finished
      ensures ok ==> Whites() < old(Whites())
      ensures !ok ==> IsCycle(g, cycle)
      decreases |Whites()|
    {
      hide DependenciesFirst;
      cycle := [];
      Enter(node);
      var dependencies := g[node];
      for i := 0 to |dependencies|
        invariant Valid() && path == old(path) + [node] && old(finished) <= finished
        invariant Whites() <= old(Whites()) - {node}
        invariant forall j :: 0 <= j < i && dependencies[j] in g ==> dependencies[j] in finished
      {
        var next := dependencies[i];
        if next !in color {
          continue;
        }
        if color[next].Grey? {
          ghost var k :| 0 <= k < |path| && path[k] == next;
          cycle := path[k..];
          assert Edge(g, node, next);
          return false, cycle;
        }
        if color[next].White? {
          SmallerSet(Whites(), old(Whites()), node);
          ok, cycle := Visit(next);
          if !ok {
            return;
          }
        }
      }
      Blacken(node, |old(path)|);
      return true, cycle;
    }

    method Enter(node: Id)
      requires Valid() && node in g && color[node].White?
      requires path != [] ==> Edge(g, path[|path| - 1], node)
      modifies this
      ensures Valid() && path == old(path) + [node] && finished == old(finished)
      ensures Whites() == old(Whites()) - {node}
    {
      color := color[node := Grey];
      path := path + [node];
    }

    method Blacken(node: Id, ghost depth: nat)
      requires Valid() && node in g && |path| == depth + 1 && path[depth] == node && node !in path[..depth]
      requires forall d :: d in g[node] && d in g ==> d in finished
      modifies this
      ensures Valid() && path == old(path)[..depth] && finished == old(finished) + [node]
      ensures Whites() == old(Whites())
    {
      hide DependenciesFirst;
      FinishOne(g, finished, node);
      color := color[node := Black];
      path := path[..depth];
      finished := finished + [node];
    }
  }

  lemma FinishOne(g: Graph, done: seq<Id>, node: Id)
    requires DependenciesFirst(g, done) && node in g && forall d :: d in g[node] && d in g ==> d in done
    ensures DependenciesFirst(g, done + [node])
  {
    var order := done + [node];
    assert order[..|done|] == done;
    assert forall k :: 0 <= k < |done| ==> order[..k] == done[..k];
  }

  lemma SmallerSet(a: set<Id>, b: set<Id>, x: Id)
    requires a <= b - {x} && x in b
    ensures |a| < |b|
  {
    var rest := b - {x};
    assert b == rest + {x};
    Basics.SubsetSize(a, rest);
  }

  /** `keys` lists the keys of the dictionary in insertion order. True comes with the blackening order, which is
      topological; False with a cycle on the grey path. */
  method IsAcyclic(g: Graph, keys: seq<Id>) returns (ok: bool, ghost order: seq<Id>, ghost cycle: seq<Id>)
    requires forall n :: n in keys <==> n in g
    ensures ok <==> Acyclic(g)
    ensures ok ==> TopologicalOrder(g, order)
    ensures !ok ==> IsCycle(g, cycle)
  {
    order, cycle := [], [];
    var search := new DepthFirst(g);
    for i := 0 to |keys|
      invariant search.Valid() && search.g == g && search.path == [] && fresh(search)
      invariant forall j :: 0 <= j < i ==> keys[j] in search.finished
    {
      if search.color[keys[i]].White? {
        ok, cycle := search.Visit(keys[i]);
        if !ok {
          return;
        }
      }
    }
    order := search.finished;
    TopologicalOrderExcludesCycles(g, order);
    return true, order, cycle;
  }
}
