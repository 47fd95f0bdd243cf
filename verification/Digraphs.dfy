/** Finite directed graphs as values, paths and reachability.
    The compiler's graph container (graph_lite.h, Graph.hpp) is read through this view:
    no parallel edges, self-loops allowed. */
module Digraphs {

  // A node stands for the pointer that identifies it.
  type Node = nat

  datatype Digraph = Digraph(succ: map<Node, set<Node>>) {
    predicate WellFormed() {
      forall v | v in succ :: succ[v] <= succ.Keys
    }

    predicate Edge(a: Node, b: Node) {
      a in succ && b in succ[a]
    }

    function Incoming(b: Node): set<Node> {
      set a | a in succ && b in succ[a]
    }
  }

  // There is a walk of exactly n edges from a to b.
  ghost predicate Walk(g: Digraph, a: Node, b: Node, n: nat)
    decreases n
  {
    if n == 0 then a == b else exists c :: g.Edge(a, c) && Walk(g, c, b, n - 1)
  }

  ghost predicate Reaches(g: Digraph, a: Node, b: Node) {
    exists n: nat :: Walk(g, a, b, n)
  }

  // At least one edge is taken.
  ghost predicate ReachesByEdge(g: Digraph, a: Node, b: Node) {
    exists c :: g.Edge(a, c) && Reaches(g, c, b)
  }

  ghost predicate Mutual(g: Digraph, a: Node, b: Node) {
    Reaches(g, a, b) && Reaches(g, b, a)
  }

  // No cycle; a self-loop counts as one.
  ghost predicate Acyclic(g: Digraph) {
    forall v | v in g.succ :: !ReachesByEdge(g, v, v)
  }

  // Cycles are self-loops: no two different nodes reach each other.
  ghost predicate OnlySelfCycles(g: Digraph) {
    forall a, b {:trigger Mutual(g, a, b)} | Mutual(g, a, b) :: a == b
  }

  // No edge leaves s.
  ghost predicate Closed(g: Digraph, s: set<Node>) {
    forall a, b | a in s && g.Edge(a, b) :: b in s
  }

  lemma ReachesSelf(g: Digraph, a: Node)
    ensures Reaches(g, a, a)
  {
    assert Walk(g, a, a, 0);
  }

  lemma ReachesEdge(g: Digraph, a: Node, b: Node)
    requires g.Edge(a, b)
    ensures Reaches(g, a, b)
  {
    assert Walk(g, b, b, 0);
    assert Walk(g, a, b, 1);
  }

  lemma {:induction false} WalkTrans(g: Digraph, a: Node, b: Node, c: Node, m: nat, n: nat)
    requires Walk(g, a, b, m) && Walk(g, b, c, n)
    ensures Walk(g, a, c, m + n)
    decreases m
  {
    if m > 0 {
      var x :| g.Edge(a, x) && Walk(g, x, b, m - 1);
      WalkTrans(g, x, b, c, m - 1, n);
    }
  }

  lemma ReachesTrans(g: Digraph, a: Node, b: Node, c: Node)
    requires Reaches(g, a, b) && Reaches(g, b, c)
    ensures Reaches(g, a, c)
  {
    var m: nat :| Walk(g, a, b, m);
    var n: nat :| Walk(g, b, c, n);
    WalkTrans(g, a, b, c, m, n);
  }

  lemma {:induction false} ClosedKeepsWalks(g: Digraph, s: set<Node>, a: Node, b: Node, n: nat)
    requires Closed(g, s) && a in s && Walk(g, a, b, n)
    ensures b in s
    decreases n
  {
    if n > 0 {
      var x :| g.Edge(a, x) && Walk(g, x, b, n - 1);
      ClosedKeepsWalks(g, s, x, b, n - 1);
    }
  }

  // What is reachable from a closed set stays in it.
  lemma ClosedKeepsPaths(g: Digraph, s: set<Node>, a: Node, b: Node)
    requires Closed(g, s) && a in s && Reaches(g, a, b)
    ensures b in s
  {
    var n: nat :| Walk(g, a, b, n);
    ClosedKeepsWalks(g, s, a, b, n);
  }

  ghost predicate Subgraph(d: Digraph, g: Digraph) {
    forall a, b | d.Edge(a, b) :: g.Edge(a, b)
  }

  lemma {:induction false} SubgraphWalk(d: Digraph, g: Digraph, a: Node, b: Node, n: nat)
    requires Subgraph(d, g) && Walk(d, a, b, n)
    ensures Walk(g, a, b, n)
    decreases n
  {
    if n > 0 {
      var c :| d.Edge(a, c) && Walk(d, c, b, n - 1);
      SubgraphWalk(d, g, c, b, n - 1);
    }
  }

  lemma SubgraphReaches(d: Digraph, g: Digraph, a: Node, b: Node)
    requires Subgraph(d, g) && Reaches(d, a, b)
    ensures Reaches(g, a, b)
  {
    var n: nat :| Walk(d, a, b, n);
    SubgraphWalk(d, g, a, b, n);
  }
}
