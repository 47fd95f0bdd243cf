/** The condensation graph (Graph.hpp, condense). */
module Condensation {
  import opened Digraphs
  import opened GraphLite
  import TarjanScc

  // c has the components as nodes, keyed by root, and exactly the edges of s that join two
  // different roots, with their properties.
  ghost predicate IsCondensation<P, E>(s: Store<P, E>, components: map<Node, set<Node>>, c: Store<set<Node>, E>) {
    && Owned(s) && Owned(c)
    && c.adj.Keys == components.Keys
    && (forall r | r in components :: c.adj[r].prop == components[r])
    && (forall a: Node, b: Node {:trigger HasOut(c, a, b)} ::
          HasOut(c, a, b) <==> a in components && b in components && a != b && HasOut(s, a, b))
    && (forall a: Node, b: Node {:trigger PropOf(c, a, b)} | HasOut(c, a, b) && HasOut(s, a, b) ::
          PropOf(c, a, b) == PropOf(s, a, b))
  }

  // c has the edges of s between its nodes, but for self-loops and the pending ones.
  ghost predicate Joined<P, E>(s: Store<P, E>, c: Store<set<Node>, E>, pending: set<(Node, Node)>) {
    && Owned(s) && Owned(c) && Consistent(c)
    && (forall a: Node, b: Node {:trigger HasOut(c, a, b)} ::
          HasOut(c, a, b) <==> a in c.adj && b in c.adj && a != b && HasOut(s, a, b) && (a, b) !in pending)
    && (forall a: Node, b: Node {:trigger PropOf(c, a, b)} | HasOut(c, a, b) && HasOut(s, a, b) ::
          PropOf(c, a, b) == PropOf(s, a, b))
  }

  lemma JoinedIsConsistent<P, E>(s: Store<P, E>, c: Store<set<Node>, E>, pending: set<(Node, Node)>)
    requires Joined(s, c, pending)
    ensures Consistent(c)
  {
  }

  lemma JoinedEmpty<P, E>(s: Store<P, E>, c: Store<set<Node>, E>)
    requires Owned(s) && Consistent(c) && c.adj == map[]
    ensures Joined(s, c, {})
  {
  }

  ghost function InEdges(root: Node, ins: set<Node>): set<(Node, Node)> {
    set a | a in ins && a != root :: (a, root)
  }

  ghost function OutEdges(root: Node, outs: set<Node>): set<(Node, Node)> {
    set b | b in outs && b != root :: (root, b)
  }

  lemma NodeEdges<P, E>(s: Store<P, E>, root: Node, a: Node, b: Node)
    requires Mirrored(s) && root in s.adj && HasOut(s, a, b) && a != b
    ensures a == root || b == root <==>
            (a, b) in InEdges(root, s.adj[root].ins.Keys) + OutEdges(root, s.adj[root].outs.Keys)
  {
    assert HasIn(s, a, b);
  }

  // A new node leaves all its edges pending.
  lemma JoinedNode<P, E>(s: Store<P, E>, c: Store<set<Node>, E>, root: Node, nodes: set<Node>)
    requires Mirrored(s) && Joined(s, c, {}) && root in s.adj && root !in c.adj
    ensures Joined(s, NodeAdded(c, root, nodes),
                   InEdges(root, s.adj[root].ins.Keys) + OutEdges(root, s.adj[root].outs.Keys))
  {
    hide Mirrored, Owned, Consistent, HasOut, InEdges, OutEdges;
    var d := NodeAdded(c, root, nodes);
    NodeAddedConsistent(c, root, nodes);
    var added := InEdges(root, s.adj[root].ins.Keys) + OutEdges(root, s.adj[root].outs.Keys);
    forall a: Node, b: Node
      ensures HasOut(d, a, b) <==> (a in d.adj && b in d.adj && a != b && HasOut(s, a, b) && (a, b) !in added)
    {
      if HasOut(s, a, b) && a != b {
        NodeEdges(s, root, a, b);
      }
    }
    forall a: Node, b: Node | HasOut(d, a, b) && HasOut(s, a, b) ensures PropOf(d, a, b) == PropOf(s, a, b) {
      assert HasOut(c, a, b) && PropOf(c, a, b) == PropOf(s, a, b);
    }
  }

  lemma JoinedEdge<P, E>(s: Store<P, E>, c: Store<set<Node>, E>, pending: set<(Node, Node)>, v: Node, w: Node)
    requires Joined(s, c, pending) && (v, w) in pending && HasOut(s, v, w) && v != w && v in c.adj && w in c.adj
    ensures !HasOut(c, v, w) && Joined(s, EdgeAdded(c, v, w, PropOf(s, v, w)), pending - {(v, w)})
  {
    hide Mirrored, Owned, Consistent, HasOut;
    var d := EdgeAdded(c, v, w, PropOf(s, v, w));
    assert !HasOut(c, v, w);
    EdgeAddedConsistent(c, v, w, PropOf(s, v, w));
    forall a: Node, b: Node | HasOut(d, a, b) && HasOut(s, a, b) ensures PropOf(d, a, b) == PropOf(s, a, b) {
      assert !(a == v && b == w) ==> HasOut(c, a, b) && PropOf(c, a, b) == PropOf(s, a, b);
    }
  }

  lemma EdgeAddedProps<P, E>(s: Store<P, E>, v: Node, w: Node, e: E)
    requires v in s.adj && w in s.adj
    ensures EdgeAdded(s, v, w, e).adj.Keys == s.adj.Keys
    ensures forall r | r in s.adj :: EdgeAdded(s, v, w, e).adj[r].prop == s.adj[r].prop
  {
  }

  // An edge whose other end is no node yet, or a self-loop, is not joined.
  lemma JoinedNot<P, E>(s: Store<P, E>, c: Store<set<Node>, E>, pending: set<(Node, Node)>, v: Node, w: Node)
    requires Joined(s, c, pending) && (v !in c.adj || w !in c.adj || v == w)
    ensures Joined(s, c, pending - {(v, w)})
  {
    hide Consistent, Owned;
  }

  // One edge at root, unless its other end is in root's component.
  method JoinEdge<P, E>(g: DirectedGraph<P, E>, c: DirectedGraph<set<Node>, E>, nodes: set<Node>, v: Node, w: Node,
                        other: Node, ghost root: Node, ghost pending: set<(Node, Node)>)
    requires g.Valid() && (g as object) != c
    requires root in nodes && root in c.adj && forall r | r in c.adj && r in nodes :: r == root
    requires Joined(g.Now(), c.Now(), pending) && HasOut(g.Now(), v, w) && (v == w || (v, w) in pending)
    requires (v == root && other == w) || (w == root && other == v)
    modifies c
    ensures Joined(g.Now(), c.Now(), pending - {(v, w)})
    ensures c.adj.Keys == old(c.adj.Keys) && forall r | r in c.adj :: c.adj[r].prop == old(c.adj[r].prop)
  {
    hide Mirrored, Owned, EdgeAdded;
    if other in nodes {
      JoinedNot(g.Now(), c.Now(), pending, v, w);
    } else {
      if v in c.adj && w in c.adj {
        EdgeAddedProps(c.Now(), v, w, PropOf(g.Now(), v, w));
        JoinedEdge(g.Now(), c.Now(), pending, v, w);
      } else {
        JoinedNot(g.Now(), c.Now(), pending, v, w);
      }
      var e := g.GetEdge(v, w);
      var _ := c.AddEdge(v, w, e.value);
    }
  }

  method JoinRoot<P, E>(g: DirectedGraph<P, E>, c: DirectedGraph<set<Node>, E>, root: Node, nodes: set<Node>)
    requires g.Valid() && (g as object) != c && root in g.adj && root in nodes
    requires Joined(g.Now(), c.Now(), {}) && root !in c.adj && forall r | r in c.adj :: r !in nodes
    modifies c
    ensures Joined(g.Now(), c.Now(), {})
    ensures c.adj.Keys == old(c.adj.Keys) + {root} && c.adj[root].prop == nodes
    ensures forall r | r in old(c.adj) :: c.adj[r].prop == old(c.adj[r].prop)
  {
    hide Mirrored, Owned, Joined, HasOut;
    JoinedIsConsistent(g.Now(), c.Now(), {});
    JoinedNode(g.Now(), c.Now(), root, nodes);
    var _ := c.AddNode(root, nodes);
    var outs := g.adj[root].outs.Keys;
    var ins := g.adj[root].ins.Keys;
    while ins != {}
      invariant ins <= g.adj[root].ins.Keys
      invariant Joined(g.Now(), c.Now(), InEdges(root, ins) + OutEdges(root, outs))
      invariant c.adj.Keys == old(c.adj.Keys) + {root} && c.adj[root].prop == nodes
      invariant forall r | r in old(c.adj) :: c.adj[r].prop == old(c.adj[r].prop)
      decreases ins
    {
      var v :| v in ins;
      NeighbourEdges(g.Now(), root, v);
      EdgesStep(root, ins, outs, v);
      JoinEdge(g, c, nodes, v, root, v, root, InEdges(root, ins) + OutEdges(root, outs));
      ins := ins - {v};
    }
    while outs != {}
      invariant outs <= g.adj[root].outs.Keys
      invariant Joined(g.Now(), c.Now(), InEdges(root, {}) + OutEdges(root, outs))
      invariant c.adj.Keys == old(c.adj.Keys) + {root} && c.adj[root].prop == nodes
      invariant forall r | r in old(c.adj) :: c.adj[r].prop == old(c.adj[r].prop)
      decreases outs
    {
      var w :| w in outs;
      NeighbourEdges(g.Now(), root, w);
      EdgesStep(root, {}, outs, w);
      JoinEdge(g, c, nodes, root, w, w, root, InEdges(root, {}) + OutEdges(root, outs));
      outs := outs - {w};
    }
    assert InEdges(root, {}) + OutEdges(root, {}) == {};
  }

  lemma NeighbourEdges<P, E>(s: Store<P, E>, root: Node, v: Node)
    requires Mirrored(s) && root in s.adj
    ensures v in s.adj[root].ins ==> HasOut(s, v, root)
    ensures v in s.adj[root].outs ==> HasOut(s, root, v)
  {
    assert HasOut(s, v, root) == HasIn(s, v, root);
  }

  lemma EdgesStep(root: Node, ins: set<Node>, outs: set<Node>, v: Node)
    ensures v in ins ==>
              (InEdges(root, ins) + OutEdges(root, outs)) - {(v, root)}
               == InEdges(root, ins - {v}) + OutEdges(root, outs)
    ensures v in outs ==>
              (InEdges(root, {}) + OutEdges(root, outs)) - {(root, v)} == InEdges(root, {}) + OutEdges(root, outs - {v})
  {
  }

  lemma ConsistentParts<P, E>(s: Store<P, E>)
    requires Consistent(s)
    ensures Mirrored(s) && Owned(s)
  {
  }

  lemma RootsApart(g: Digraph, components: map<Node, set<Node>>)
    requires TarjanScc.AreTheSccs(g, components)
    ensures forall r | r in components :: r in components[r] && r in g.succ
    ensures forall r, q | r in components && q in components && r != q :: r !in components[q]
  {
  }

  lemma JoinedAll<P, E>(s: Store<P, E>, components: map<Node, set<Node>>, c: Store<set<Node>, E>)
    requires Joined(s, c, {}) && c.adj.Keys == components.Keys
    requires forall r | r in components :: c.adj[r].prop == components[r]
    ensures IsCondensation(s, components, c) && Consistent(c)
  {
    hide Mirrored, Owned, HasOut;
  }

  method JoinRoots<P, E>(g: DirectedGraph<P, E>, components: map<Node, set<Node>>)
    returns (c: DirectedGraph<set<Node>, E>)
    requires g.Valid() && components.Keys <= g.adj.Keys
    requires forall r | r in components :: r in components[r]
    requires forall r, q | r in components && q in components && r != q :: r !in components[q]
    ensures fresh(c) && c.Valid() && IsCondensation(g.Now(), components, c.Now())
  {
    hide Consistent, Mirrored, Owned, HasOut, Joined, IsCondensation;
    ConsistentParts(g.Now());
    c := new DirectedGraph<set<Node>, E>();
    JoinedEmpty(g.Now(), c.Now());
    var todo := components.Keys;
    while todo != {}
      invariant fresh(c) && todo !! c.adj.Keys && c.adj.Keys + todo == components.Keys
      invariant Joined(g.Now(), c.Now(), {})
      invariant forall r | r in c.adj :: c.adj[r].prop == components[r]
      decreases todo
    {
      var root :| root in todo;
      JoinRoot(g, c, root, components[root]);
      todo := todo - {root};
    }
    JoinedAll(g.Now(), components, c.Now());
  }

  // condense. Edges between nodes that are not roots of their components are not joined.
  method Condense<P, E>(g: DirectedGraph<P, E>)
    returns (c: DirectedGraph<set<Node>, E>, ghost components: map<Node, set<Node>>)
    requires g.Valid()
    ensures fresh(c) && c.Valid()
    ensures TarjanScc.AreTheSccs(View(g.adj), components)
    ensures IsCondensation(g.Now(), components, c.Now())
  {
    hide Mirrored, Owned, HasOut, IsCondensation, TarjanScc.AreTheSccs;
    ViewOf(g.Now());
    var tarjan := new TarjanScc.Tarjan(View(g.adj));
    tarjan.Run();
    components := tarjan.components;
    RootsApart(View(g.adj), components);
    c := JoinRoots(g, tarjan.components);
  }

  // d has as edges those of g that join roots of different components.
  ghost predicate JoinsRoots(g: Digraph, components: map<Node, set<Node>>, d: Digraph) {
    && d.succ.Keys == components.Keys
    && forall a, b :: d.Edge(a, b) <==> a in components && b in components && a != b && g.Edge(a, b)
  }

  lemma CondensationJoinsRoots<P, E>(s: Store<P, E>, components: map<Node, set<Node>>, c: Store<set<Node>, E>)
    requires Mirrored(s) && Mirrored(c) && IsCondensation(s, components, c)
    ensures JoinsRoots(View(s.adj), components, View(c.adj))
  {
    hide Mirrored, Owned, HasOut;
    ViewOf(s);
    ViewOf(c);
  }

  // The condensation has no cycle, whatever the graph, so it has a topological order.
  lemma JoinedRootsAcyclic(g: Digraph, components: map<Node, set<Node>>, d: Digraph)
    requires TarjanScc.AreTheSccs(g, components) && JoinsRoots(g, components, d)
    ensures Acyclic(d)
  {
    hide TarjanScc.AreTheSccs;
    forall v | v in d.succ ensures !ReachesByEdge(d, v, v) {
      if ReachesByEdge(d, v, v) {
        var w :| d.Edge(v, w) && Reaches(d, w, v);
        SubgraphReaches(d, g, w, v);
        ReachesEdge(g, v, w);
        RootsApart(g, components);
        TarjanScc.TogetherIffMutual(g, components, v, w, v, w);
      }
    }
  }

  // The quotient joins two components whenever any edge does.
  ghost predicate QuotientEdge(g: Digraph, components: map<Node, set<Node>>, r: Node, q: Node) {
    && r in components && q in components && r != q
    && exists x, y :: x in components[r] && y in components[q] && g.Edge(x, y)
  }

  ghost predicate IsQuotient(g: Digraph, components: map<Node, set<Node>>, d: Digraph) {
    forall r, q {:trigger d.Edge(r, q)} {:trigger QuotientEdge(g, components, r, q)} ::
      d.Edge(r, q) <==> QuotientEdge(g, components, r, q)
  }

  // An edge between two components comes with the edges between all their members.
  ghost predicate WhollyJoined(g: Digraph) {
    forall x, y, u, v {:trigger g.Edge(x, y), Mutual(g, x, u), Mutual(g, y, v)}
      | g.Edge(x, y) && !Mutual(g, x, y) && Mutual(g, x, u) && Mutual(g, y, v) :: g.Edge(u, v)
  }

  // The edges that condense joins, for components keyed as they are.
  ghost function JoinedRoots(g: Digraph, components: map<Node, set<Node>>): Digraph {
    Digraph(map r | r in components :: set q | q in components && q != r && g.Edge(r, q))
  }

  // One component keyed by another of its members.
  ghost function Rekeyed(components: map<Node, set<Node>>, r: Node, u: Node): map<Node, set<Node>>
    requires r in components
  {
    (components - {r})[u := components[r]]
  }

  lemma RekeyedAt(components: map<Node, set<Node>>, r: Node, u: Node)
    requires r in components && u in components[r]
    requires forall p, q | p in components && q in components && p != q :: components[p] !! components[q]
    ensures var next := Rekeyed(components, r, u);
            && (forall q :: q in next <==> q == u || (q in components && q != r))
            && (forall q | q in next :: next[q] == if q == u then components[r] else components[q])
            && (forall p, q | p in next && q in next && p != q :: next[p] !! next[q])
  {
  }

  lemma RekeyedAreSccs(g: Digraph, components: map<Node, set<Node>>, r: Node, u: Node)
    requires TarjanScc.AreTheSccs(g, components) && r in components && u in components[r]
    ensures TarjanScc.AreTheSccs(g, Rekeyed(components, r, u))
  {
    hide TarjanScc.IsScc, TarjanScc.InSome, Rekeyed;
    var next := Rekeyed(components, r, u);
    RekeyedAt(components, r, u);
    assert TarjanScc.IsScc(g, components[r]);
    forall q | q in next
      ensures q in next[q] && next[q] <= g.succ.Keys && TarjanScc.IsScc(g, next[q])
    {
      assert q != u ==> TarjanScc.IsScc(g, components[q]);
    }
    forall v | v in g.succ ensures TarjanScc.InSome(next, v) {
      RekeyedCovers(g, components, r, u, v);
    }
  }

  lemma RekeyedCovers(g: Digraph, components: map<Node, set<Node>>, r: Node, u: Node, v: Node)
    requires TarjanScc.AreTheSccs(g, components) && r in components && u in components[r] && v in g.succ
    ensures TarjanScc.InSome(Rekeyed(components, r, u), v)
  {
    hide TarjanScc.IsScc;
    assert TarjanScc.InSome(components, v);
    var q :| q in components && v in components[q];
    var next := Rekeyed(components, r, u);
    assert if q == r then v in next[u] else q != u && v in next[q];
  }

  // The components keyed by their least members.
  ghost function LeastKeyed(g: Digraph): map<Node, set<Node>> {
    map r | r in g.succ && (forall s | s in g.succ && Mutual(g, r, s) :: r <= s) ::
      set x | x in g.succ && Mutual(g, r, x)
  }

  lemma {:induction false} LeastMember(g: Digraph, v: Node) returns (r: Node)
    requires v in g.succ
    ensures r in LeastKeyed(g) && Mutual(g, r, v)
    decreases v
  {
    ReachesSelf(g, v);
    if s :| s in g.succ && Mutual(g, v, s) && s < v {
      r := LeastMember(g, s);
      MutualTrans(g, r, s, v);
    } else {
      r := v;
    }
  }

  lemma MutualTrans(g: Digraph, a: Node, b: Node, c: Node)
    requires Mutual(g, a, b) && Mutual(g, b, c)
    ensures Mutual(g, a, c)
  {
    ReachesTrans(g, a, b, c);
    ReachesTrans(g, c, b, a);
  }

  // Every graph has its components.
  lemma LeastKeyedAreSccs(g: Digraph)
    requires g.WellFormed()
    ensures TarjanScc.AreTheSccs(g, LeastKeyed(g))
  {
    hide Reaches;
    var components := LeastKeyed(g);
    forall r | r in components ensures r in components[r] && TarjanScc.IsScc(g, components[r]) {
      ReachesSelf(g, r);
      forall x, y | x in components[r] ensures y in components[r] <==> Mutual(g, x, y) {
        if y in components[r] {
          MutualTrans(g, x, r, y);
        }
        if Mutual(g, x, y) {
          MutualTrans(g, r, x, y);
          ClosedKeepsPaths(g, g.succ.Keys, x, y);
        }
      }
    }
    forall r, q, x | r in components && q in components && x in components[r] && x in components[q] ensures r == q {
      MutualTrans(g, r, x, q);
    }
    forall v | v in g.succ ensures TarjanScc.InSome(components, v) {
      var r := LeastMember(g, v);
    }
  }

  // Whatever members the components are keyed by, and so whatever order the nodes are taken
  // in, condense finds the quotient exactly when the graph is wholly joined.
  lemma QuotientIffWhollyJoined(g: Digraph)
    requires g.WellFormed()
    ensures (forall components, d {:trigger JoinsRoots(g, components, d)}
               | TarjanScc.AreTheSccs(g, components) && JoinsRoots(g, components, d) :: IsQuotient(g, components, d))
            <==> WhollyJoined(g)
  {
    hide TarjanScc.AreTheSccs, Reaches;
    if WhollyJoined(g) {
      forall components, d {:trigger JoinsRoots(g, components, d)}
        | TarjanScc.AreTheSccs(g, components) && JoinsRoots(g, components, d)
        ensures IsQuotient(g, components, d)
      {
        WholeQuotient(g, components, d);
      }
    }
    if !WhollyJoined(g) {
      var x, y, u, v :| g.Edge(x, y) && !Mutual(g, x, y) && Mutual(g, x, u) && Mutual(g, y, v) && !g.Edge(u, v);
      var components := KeyedBy(g, x, y, u, v);
      var d := JoinedRoots(g, components);
      assert JoinsRoots(g, components, d);
      assert QuotientEdge(g, components, u, v) && !d.Edge(u, v);
      assert !IsQuotient(g, components, d);
    }
  }

  lemma WholeQuotient(g: Digraph, components: map<Node, set<Node>>, d: Digraph)
    requires WhollyJoined(g) && TarjanScc.AreTheSccs(g, components) && JoinsRoots(g, components, d)
    ensures IsQuotient(g, components, d)
  {
    hide TarjanScc.AreTheSccs, Mutual;
    RootsApart(g, components);
    forall r, q ensures d.Edge(r, q) <==> QuotientEdge(g, components, r, q) {
      if d.Edge(r, q) {
        assert r in components[r] && q in components[q] && g.Edge(r, q);
      }
      if QuotientEdge(g, components, r, q) {
        var x, y :| x in components[r] && y in components[q] && g.Edge(x, y);
        TarjanScc.TogetherIffMutual(g, components, r, q, x, y);
        TarjanScc.TogetherIffMutual(g, components, r, r, x, r);
        TarjanScc.TogetherIffMutual(g, components, q, q, y, q);
      }
    }
  }

  // The components keyed so that u and v are roots, for an edge from one's to the other's.
  lemma KeyedBy(g: Digraph, x: Node, y: Node, u: Node, v: Node) returns (components: map<Node, set<Node>>)
    requires g.WellFormed() && g.Edge(x, y) && !Mutual(g, x, y) && Mutual(g, x, u) && Mutual(g, y, v)
    ensures TarjanScc.AreTheSccs(g, components) && QuotientEdge(g, components, u, v)
  {
    hide TarjanScc.AreTheSccs, Mutual;
    LeastKeyedAreSccs(g);
    var least := LeastKeyed(g);
    var r := ComponentOf(g, least, x, u);
    var once := Rekeyed(least, r, u);
    RekeyedAreSccs(g, least, r, u);
    var q := ComponentOf(g, once, y, v);
    TarjanScc.TogetherIffMutual(g, once, u, q, x, y);
    components := Rekeyed(once, q, v);
    RekeyedAreSccs(g, once, q, v);
    TarjanScc.TogetherIffMutual(g, once, u, q, x, y);
    RootsApart(g, components);
    RootsApart(g, once);
    assert v in once[q] && u in once[u] && u != q;
    assert x in components[u] && y in components[v];
  }

  lemma ComponentOf(g: Digraph, components: map<Node, set<Node>>, x: Node, u: Node) returns (r: Node)
    requires TarjanScc.AreTheSccs(g, components) && x in g.succ && Mutual(g, x, u)
    ensures r in components && x in components[r] && u in components[r]
  {
    assert TarjanScc.InSome(components, x);
    r :| r in components && x in components[r];
    assert TarjanScc.IsScc(g, components[r]);
  }

  // Two two-node cycles {0, 1} and {2, 3} with an edge from 1 to 2, rooted at 0 and at 2:
  // the edge is lost, and an order of the condensation may put the second component first.
  lemma QuotientEdgeLost()
    ensures var g := Digraph(map[0 := {1}, 1 := {0, 2}, 2 := {3}, 3 := {2}]);
            var components := map[0 := {0, 1}, 2 := {2, 3}];
            && TarjanScc.AreTheSccs(g, components)
            && QuotientEdge(g, components, 0, 2)
            && !exists d :: JoinsRoots(g, components, d) && d.Edge(0, 2)
  {
    var g := Digraph(map[0 := {1}, 1 := {0, 2}, 2 := {3}, 3 := {2}]);
    var components: map<Node, set<Node>> := map[0 := {0, 1}, 2 := {2, 3}];
    assert 1 in components[0] && 2 in components[2] && g.Edge(1, 2);
    forall v | v in {0, 1, 2, 3} ensures Reaches(g, v, v) { ReachesSelf(g, v); }
    ReachesEdge(g, 0, 1);
    ReachesEdge(g, 1, 0);
    ReachesEdge(g, 2, 3);
    ReachesEdge(g, 3, 2);
    forall x, y | x in {0, 1} ensures y in {0, 1} <==> Mutual(g, x, y) {
      if Mutual(g, x, y) && y !in {0, 1} {
        ClosedKeepsPaths(g, {0, 1, 2, 3}, x, y);
        ClosedKeepsPaths(g, {2, 3}, y, x);
      }
    }
    forall x, y | x in {2, 3} ensures y in {2, 3} <==> Mutual(g, x, y) {
      if Mutual(g, x, y) {
        ClosedKeepsPaths(g, {2, 3}, x, y);
      }
    }
    assert TarjanScc.IsScc(g, components[0]) && TarjanScc.IsScc(g, components[2]);
    forall v | v in g.succ ensures TarjanScc.InSome(components, v) {
      assert v in components[0] || v in components[2];
    }
  }
}
