/** Topological sorting by depth-first search (Graph.hpp, topological_order and its helper). */
module TopologicalOrder {
  import opened Digraphs
  import opened Lists
  import opened Traversals
  import opened Options

  // Lists every node once, and every edge goes forward.
  ghost predicate IsTopological(g: Digraph, order: seq<Node>) {
    && NoDuplicates(order)
    && (forall v :: v in order <==> v in g.succ)
    && (forall i, j | 0 <= i < |order| && 0 <= j < |order| && g.Edge(order[i], order[j]) :: i < j)
  }

  // Every edge goes from a node to one listed before it.
  ghost predicate Backward(g: Digraph, order: seq<Node>) {
    && NoDuplicates(order)
    && forall i, w {:trigger g.Edge(order[i], w)} | 0 <= i < |order| && g.Edge(order[i], w) :: w in order[..i]
  }

  lemma BackwardExtend(g: Digraph, order: seq<Node>, v: Node)
    requires Backward(g, order) && v !in order
    requires forall w | g.Edge(v, w) :: w in order
    ensures Backward(g, order + [v])
  {
    var next := order + [v];
    forall i, w | 0 <= i < |next| && g.Edge(next[i], w) ensures w in next[..i] {
      if i < |order| {
        assert next[i] == order[i] && next[..i] == order[..i];
      } else {
        assert next[..i] == order;
      }
    }
  }

  // From a node at position i every walk goes to earlier positions.
  lemma {:induction false} WalksGoBack(g: Digraph, order: seq<Node>, i: nat, b: Node, n: nat)
    requires Backward(g, order) && i < |order| && Walk(g, order[i], b, n)
    ensures if n == 0 then b == order[i] else b in order[..i]
    decreases n
  {
    if n > 0 {
      var c :| g.Edge(order[i], c) && Walk(g, c, b, n - 1);
      assert c in order[..i];
      var j :| 0 <= j < i && order[j] == c;
      WalksGoBack(g, order, j, b, n - 1);
      if n > 1 {
        assert b in order[..j];
        assert order[..j] <= order[..i];
      }
    }
  }

  lemma NoCycleThrough(g: Digraph, order: seq<Node>, i: nat)
    requires Backward(g, order) && i < |order|
    ensures !ReachesByEdge(g, order[i], order[i])
  {
    var v := order[i];
    if ReachesByEdge(g, v, v) {
      var c :| g.Edge(v, c) && Reaches(g, c, v);
      var n: nat :| Walk(g, c, v, n);
      WalksGoBack(g, order, i, v, n + 1);
    }
  }

  lemma BackwardIsAcyclic(g: Digraph, order: seq<Node>)
    requires Backward(g, order) && forall v | v in g.succ :: v in order
    ensures Acyclic(g)
  {
    hide Backward, ReachesByEdge;
    forall v | v in g.succ ensures !ReachesByEdge(g, v, v) {
      var i :| 0 <= i < |order| && order[i] == v;
      NoCycleThrough(g, order, i);
    }
  }

  function Reverse(s: seq<Node>): seq<Node> {
    seq(|s|, i requires 0 <= i < |s| => s[|s| - 1 - i])
  }

  lemma ReverseIsTopological(g: Digraph, order: seq<Node>)
    requires Backward(g, order) && forall v :: v in order <==> v in g.succ
    ensures IsTopological(g, Reverse(order))
  {
    var r := Reverse(order);
    forall v ensures v in order <==> v in r {
      if v in order {
        var i :| 0 <= i < |order| && order[i] == v;
        assert r[|order| - 1 - i] == v;
      }
    }
    forall i, j | 0 <= i < |r| && 0 <= j < |r| && g.Edge(r[i], r[j]) ensures i < j {
      var k := |order| - 1 - i;
      assert g.Edge(order[k], r[j]);
      var l :| 0 <= l < k && order[l] == r[j];
      assert order[|order| - 1 - j] == order[l];
    }
  }

  // An edge goes forward in a topological order, so no walk returns.
  lemma TopologicalIsAcyclic(g: Digraph, order: seq<Node>)
    requires IsTopological(g, order) && g.WellFormed()
    ensures Acyclic(g)
  {
    var r := Reverse(order);
    forall i, w | 0 <= i < |r| && g.Edge(r[i], w) ensures w in r[..i] {
      assert r[i] in order && w in order;
      var j :| 0 <= j < |order| && order[j] == w;
      assert g.Edge(order[|order| - 1 - i], order[j]);
      assert r[..i][|order| - 1 - j] == w;
    }
    forall v | v in g.succ ensures v in r {
      var i :| 0 <= i < |order| && order[i] == v;
      assert r[|order| - 1 - i] == v;
    }
    BackwardIsAcyclic(g, r);
  }

  class Sorter {
    const g: Digraph
    var order: seq<Node>
    var permanent: set<Node>
    var temporary: set<Node>

    ghost predicate Valid()
      reads this
    {
      && g.WellFormed() && Backward(g, order)
      && permanent == (set v | v in order) && permanent <= g.succ.Keys
      && temporary <= g.succ.Keys && temporary !! permanent
    }

    constructor (g: Digraph)
      requires g.WellFormed()
      ensures this.g == g && Valid() && permanent == {} && temporary == {}
    {
      this.g := g;
      order, permanent, temporary := [], {}, {};
    }

    // topological_order_helper: false signals a cycle through a temporarily marked node.
    method Visit(node: Node) returns (ok: bool)
      requires Valid() && node in g.succ
      requires forall t | t in temporary :: ReachesByEdge(g, t, node)
      modifies this
      ensures ok ==> Valid() && node in permanent && temporary == old(temporary) && old(permanent) <= permanent
      ensures !ok ==> !Acyclic(g)
      decreases g.succ.Keys - temporary
    {
      hide Backward, Walk, Reaches;
      if node in permanent {
        return true;
      }
      if node in temporary {
        return false;
      }
      temporary := temporary + {node};
      var pending := g.succ[node];
      while pending != {}
        invariant pending <= g.succ[node]
        invariant Valid() && temporary == old(temporary) + {node} && old(permanent) <= permanent
        invariant g.succ[node] - pending <= permanent
        decreases pending
      {
        var out :| out in pending;
        forall t | t in temporary ensures ReachesByEdge(g, t, out) {
          MarkedReaches(g, t, node, out);
        }
        var found := Visit(out);
        if !found {
          return false;
        }
        pending := pending - {out};
      }
      temporary := temporary - {node};
      permanent := permanent + {node};
      assert forall w | g.Edge(node, w) :: w in permanent;
      BackwardExtend(g, order, node);
      order := order + [node];
      return true;
    }
  }

  lemma MarkedReaches(g: Digraph, t: Node, node: Node, out: Node)
    requires g.Edge(node, out) && (t == node || ReachesByEdge(g, t, node))
    ensures ReachesByEdge(g, t, out)
  {
    ReachesEdge(g, node, out);
    if t == node {
      ReachesSelf(g, out);
    } else {
      var c :| g.Edge(t, c) && Reaches(g, c, node);
      ReachesTrans(g, c, node, out);
    }
  }

  // There is an order exactly when the graph has no cycle.
  method TopologicalOrder(g: Digraph) returns (r: Option<seq<Node>>)
    requires g.WellFormed()
    ensures r.Some? <==> Acyclic(g)
    ensures r.Some? ==> IsTopological(g, r.value)
  {
    hide Backward, Acyclic, IsTopological;
    var sorter := new Sorter(g);
    var nodes := g.succ.Keys;
    while nodes != {}
      invariant sorter.g == g && sorter.Valid() && sorter.temporary == {} && fresh(sorter)
      invariant nodes <= g.succ.Keys && g.succ.Keys - nodes <= sorter.permanent
      decreases nodes
    {
      var node :| node in nodes;
      if node !in sorter.permanent {
        var ok := sorter.Visit(node);
        if !ok {
          return None;
        }
      }
      nodes := nodes - {node};
    }
    assert forall v :: v in sorter.order <==> v in sorter.permanent;
    BackwardIsAcyclic(g, sorter.order);
    ReverseIsTopological(g, sorter.order);
    return Some(Reverse(sorter.order));
  }
}
