/** Evaluation of the live-range constraint graph (LiveRangeAnalysis.cpp, LiveRangeConstraintGraph.cpp). */
module LiveRanges {
  import opened Digraphs
  import opened GraphLite
  import opened Options
  import opened ValueRanges
  import TarjanScc
  import Condensation
  import TopologicalOrder

  // propagate_range, the copy constraint with the range of its start index, and the
  // constraints of the operations that are not supported yet.
  datatype Constraint = Propagate | Shift(start: Bounds) | Unimplemented

  type LiveGraph = DirectedGraph<Option<Range>, Constraint>
  type LiveStore = Store<Option<Range>, Constraint>

  // What a supported constraint makes of a range, up to the identity of the result.
  function Image(c: Constraint, b: Option<Bounds>): Option<Bounds> {
    match c
    case Propagate => b
    case Shift(start) =>
      if b.None? then None
      else Some(Shifted(start, b.value))
    case Unimplemented => None
  }

  function BoundsOf(r: Option<Range>): Option<Bounds> {
    if r.None? then None else Some(r.value.bounds)
  }

  type Valuation = map<Node, Option<Bounds>>

  ghost function Valued(s: LiveStore): Valuation {
    map v | v in s.adj :: BoundsOf(s.adj[v].prop)
  }

  // The constraint of the edge from u to v gives v a range.
  ghost predicate Feeds(s: LiveStore, val: Valuation, u: Node, v: Node)
    requires Owned(s)
  {
    HasOut(s, u, v) && u in val && Image(PropOf(s, u, v), val[u]).Some?
  }

  // Among its preset range and the edges from sources, at most one gives v a range, and that
  // one is v's range; without one, v has none.
  ghost predicate Justified(s: LiveStore, preset: Valuation, val: Valuation, v: Node, sources: set<Node>)
    requires Owned(s) && v in preset && v in val
  {
    && (forall u | u in sources :: u != v && HasOut(s, u, v))
    && (forall u | u in sources && Feeds(s, val, u, v) ::
          preset[v].None? && val[v] == Image(PropOf(s, u, v), val[u]))
    && (forall u, w | u in sources && w in sources && Feeds(s, val, u, v) && Feeds(s, val, w, v) :: u == w)
    && (preset[v].Some? ==> val[v] == preset[v])
    && (val[v].Some? && preset[v].None? ==> exists u :: u in sources && Feeds(s, val, u, v))
  }

  // val satisfies every constraint, with one source of range at each node, and every
  // constraint is supported. Self-loops constrain nothing.
  ghost predicate Solution(s: LiveStore, preset: Valuation, val: Valuation)
    requires Owned(s) && preset.Keys == s.adj.Keys
  {
    && val.Keys == s.adj.Keys
    && (forall v | v in s.adj :: Justified(s, preset, val, v, s.adj[v].ins.Keys - {v}))
    && (forall u, v | HasOut(s, u, v) && u != v :: !PropOf(s, u, v).Unimplemented?)
  }

  // What the edge from u to v makes of u's range is nothing, or v's range.
  ghost predicate Met(s: LiveStore, val: Valuation, u: Node, v: Node)
    requires Owned(s)
  {
    && HasOut(s, u, v) && u in val && v in val && !PropOf(s, u, v).Unimplemented?
    && var image := Image(PropOf(s, u, v), val[u]); image.None? || image == val[v]
  }

  // In a solution every constraint is met: what an edge makes of the range of its source is
  // nothing, or the range of its target.
  lemma SolutionMeetsConstraints(s: LiveStore, preset: Valuation, val: Valuation, u: Node, v: Node)
    requires Mirrored(s) && Owned(s) && preset.Keys == s.adj.Keys && Solution(s, preset, val)
    requires HasOut(s, u, v) && u != v
    ensures Met(s, val, u, v)
  {
    hide Owned, PropOf;
    assert HasIn(s, u, v);
    assert u in Sources(s, v);
    assert Feeds(s, val, u, v) || Image(PropOf(s, u, v), val[u]).None?;
  }

  ghost predicate Solvable(s: LiveStore)
    requires Owned(s)
  {
    exists sol :: Solution(s, Valued(s), sol)
  }

  // t is s with other node properties.
  ghost predicate SameEdges(s: LiveStore, t: LiveStore) {
    && t == s.(adj := t.adj) && t.adj.Keys == s.adj.Keys
    && forall v | v in s.adj :: t.adj[v].outs == s.adj[v].outs && t.adj[v].ins == s.adj[v].ins
  }

  ghost function Sources(s: LiveStore, v: Node): set<Node>
    requires v in s.adj
  {
    s.adj[v].ins.Keys - {v}
  }

  // Whether a range is justified depends only on the ranges of the node and its sources.
  lemma JustifiedFrame(s: LiveStore, preset: Valuation, val: Valuation, val': Valuation, v: Node, sources: set<Node>)
    requires Owned(s) && v in preset && v in val && v in val' && sources <= val.Keys && sources <= val'.Keys
    requires forall u | u in sources + {v} :: val'[u] == val[u]
    requires Justified(s, preset, val, v, sources)
    ensures Justified(s, preset, val', v, sources)
  {
    hide Owned, HasOut, PropOf;
    forall u | u in sources ensures Feeds(s, val', u, v) == Feeds(s, val, u, v) {
    }
  }

  // The sources of a node are ordered before it.
  ghost predicate SourcesFirst(s: LiveStore, order: seq<Node>) {
    forall i, u | 0 <= i < |order| && order[i] in s.adj && u in Sources(s, order[i]) :: u in order[..i]
  }

  // Two justified ranges of a node agree when its sources do.
  lemma JustifiedUnique(s: LiveStore, preset: Valuation, val: Valuation, val': Valuation, v: Node)
    requires Owned(s) && v in s.adj && v in preset && v in val && v in val'
    requires Sources(s, v) <= val.Keys && Sources(s, v) <= val'.Keys
    requires forall u | u in Sources(s, v) :: val'[u] == val[u]
    requires Justified(s, preset, val, v, Sources(s, v)) && Justified(s, preset, val', v, Sources(s, v))
    ensures val'[v] == val[v]
  {
    hide Owned, HasOut, PropOf;
    forall u | u in Sources(s, v) ensures Feeds(s, val', u, v) == Feeds(s, val, u, v) {
    }
  }

  // Every solution agrees with what is justified so far.
  lemma {:induction false} SolutionsAgree(s: LiveStore, preset: Valuation, order: seq<Node>, k: nat,
                                          val: Valuation, sol: Valuation)
    requires Owned(s) && preset.Keys == s.adj.Keys == val.Keys && Solution(s, preset, sol)
    requires SourcesFirst(s, order) && k <= |order|
    requires forall i | 0 <= i < |order| :: order[i] in s.adj
    requires forall i | 0 <= i < k :: Justified(s, preset, val, order[i], Sources(s, order[i]))
    ensures forall i | 0 <= i < k :: sol[order[i]] == val[order[i]]
    decreases k
  {
    hide Owned, HasOut, PropOf, Justified;
    if k > 0 {
      SolutionsAgree(s, preset, order, k - 1, val, sol);
      var v := order[k - 1];
      forall u | u in Sources(s, v) ensures u in s.adj && sol[u] == val[u] {
        assert u in order[..k - 1];
      }
      JustifiedUnique(s, preset, val, sol, v);
    }
  }

  // A second source of range rules out every solution that agrees so far.
  lemma SecondSource(s: LiveStore, preset: Valuation, val: Valuation, v: Node, done: set<Node>, u: Node, sol: Valuation)
    requires Owned(s) && preset.Keys == s.adj.Keys == val.Keys && v in s.adj
    requires u in Sources(s, v) && u !in done && done <= Sources(s, v) <= s.adj.Keys
    requires Justified(s, preset, val, v, done) && Feeds(s, val, u, v) && val[v].Some?
    requires sol.Keys == s.adj.Keys && forall w | w in Sources(s, v) :: sol[w] == val[w]
    ensures !Solution(s, preset, sol)
  {
    hide Owned, HasOut, PropOf;
    forall w | w in Sources(s, v) ensures Feeds(s, sol, w, v) == Feeds(s, val, w, v) {
    }
  }

  // One more source, when it gives no range or is the first to give one.
  lemma NextSource(s: LiveStore, preset: Valuation, val: Valuation, v: Node, done: set<Node>, u: Node)
    requires Owned(s) && preset.Keys == s.adj.Keys == val.Keys && v in s.adj
    requires u != v && HasOut(s, u, v) && u in s.adj && u !in done && done <= s.adj.Keys
    requires Justified(s, preset, val, v, done)
    ensures !Feeds(s, val, u, v) ==> Justified(s, preset, val, v, done + {u})
    ensures Feeds(s, val, u, v) && val[v].None? ==>
              Justified(s, preset, val[v := Image(PropOf(s, u, v), val[u])], v, done + {u})
  {
    hide Owned, HasOut, PropOf;
    if Feeds(s, val, u, v) && val[v].None? {
      var val' := val[v := Image(PropOf(s, u, v), val[u])];
      forall w | w in done ensures !Feeds(s, val, w, v) && !Feeds(s, val', w, v) {
      }
      assert Feeds(s, val', u, v);
    }
  }

  // Every range found is preset or what an edge makes of its source's range.
  ghost predicate Supported(s: LiveStore, preset: Valuation, val: Valuation)
    requires Owned(s) && preset.Keys == s.adj.Keys == val.Keys
  {
    && (forall v | v in s.adj && preset[v].Some? :: val[v] == preset[v])
    && (forall v | v in s.adj && preset[v].None? && val[v].Some? ::
          exists u :: u != v && Feeds(s, val, u, v) && val[v] == Image(PropOf(s, u, v), val[u]))
  }

  lemma SupportedSet(s: LiveStore, preset: Valuation, val: Valuation, u: Node, v: Node)
    requires Owned(s) && preset.Keys == s.adj.Keys == val.Keys && v in s.adj
    requires Supported(s, preset, val) && Feeds(s, val, u, v) && val[v].None?
    ensures Supported(s, preset, val[v := Image(PropOf(s, u, v), val[u])])
  {
    hide Owned, HasOut, PropOf;
    var val' := val[v := Image(PropOf(s, u, v), val[u])];
    forall w | w in s.adj && preset[w].None? && val'[w].Some?
      ensures exists x :: x != w && Feeds(s, val', x, w) && val'[w] == Image(PropOf(s, x, w), val'[x])
    {
      if w == v {
        assert u != v && Feeds(s, val', u, v);
      } else {
        var x :| x != w && Feeds(s, val, x, w) && val[w] == Image(PropOf(s, x, w), val[x]);
        assert x != v;
        assert Feeds(s, val', x, w) && val'[w] == Image(PropOf(s, x, w), val'[x]);
      }
    }
  }

  // propagate_edge; a copy makes a new range object.
  function PropagateEdge(r: Option<Range>, c: Constraint, id: nat): (q: Option<Range>)
    requires !c.Unimplemented?
    ensures BoundsOf(q) == Image(c, BoundsOf(r))
  {
    match c
    case Propagate => r
    case Shift(start) =>
      if r.None? then None else Some(Range(id, Shifted(start, r.value.bounds)))
  }

  // What stays as it was while ranges are propagated.
  ghost predicate Evaluating(s: LiveStore, t: LiveStore) {
    && Owned(s) && SameEdges(s, t) && Consistent(t)
    && Supported(s, Valued(s), Valued(t))
  }

  lemma EvaluatingStart(s: LiveStore)
    requires Consistent(s)
    ensures Evaluating(s, s)
  {
  }

  lemma SameEdgesSet(s: LiveStore, t: LiveStore, v: Node, r: Option<Range>)
    requires SameEdges(s, t) && v in s.adj
    ensures t.adj.Keys == s.adj.Keys
    ensures SameEdges(s, t.(adj := t.adj[v := t.adj[v].(prop := r)]))
    ensures Valued(t.(adj := t.adj[v := t.adj[v].(prop := r)])) == Valued(t)[v := BoundsOf(r)]
  {
  }

  // Giving v the range an edge makes.
  lemma EvaluatingSet(s: LiveStore, t: LiveStore, u: Node, v: Node, r: Option<Range>)
    requires Evaluating(s, t) && v in s.adj && t.adj[v].prop.None?
    requires Feeds(s, Valued(t), u, v) && BoundsOf(r) == Image(PropOf(s, u, v), Valued(t)[u])
    ensures var t' := t.(adj := t.adj[v := t.adj[v].(prop := r)]);
            Consistent(t') ==> Evaluating(s, t') && Valued(t') == Valued(t)[v := BoundsOf(r)]
  {
    hide Consistent, Owned, HasOut, PropOf, Supported, Feeds, SameEdges;
    SameEdgesSet(s, t, v, r);
    SupportedSet(s, Valued(s), Valued(t), u, v);
  }

  // What the condensation offers the evaluation of one root.
  ghost predicate Incoming(s: LiveStore, c: Store<set<Node>, Constraint>, root: Node) {
    && Owned(s) && Owned(c) && Mirrored(c) && root in s.adj && root in c.adj
    && forall u | u in c.adj[root].ins ::
         HasOut(c, u, root) && HasOut(s, u, root) && u in s.adj && u != root && PropOf(c, u, root) == PropOf(s, u, root)
  }

  // One edge into root: its range, if it makes one, becomes the range of root unless root has one.
  method MergeEdge(g: LiveGraph, u: Node, root: Node, e: Constraint, id: nat, ghost s: LiveStore, ghost done: set<Node>)
    returns (ok: bool)
    requires g.Valid() && Evaluating(s, g.Now()) && g.adj.Keys == s.adj.Keys == Valued(g.Now()).Keys
    requires Owned(s) && root in s.adj && u in s.adj && u != root && HasOut(s, u, root) && e == PropOf(s, u, root)
    requires done <= s.adj.Keys && u !in done && Justified(s, Valued(s), Valued(g.Now()), root, done)
    modifies g
    ensures g.Valid() && Evaluating(s, g.Now()) && g.adj.Keys == s.adj.Keys == Valued(g.Now()).Keys
    ensures forall v | v in s.adj && v != root :: g.adj[v].prop == old(g.adj)[v].prop
    ensures ok ==> Justified(s, Valued(s), Valued(g.Now()), root, done + {u}) && !e.Unimplemented?
    ensures !ok ==> g.Now() == old(g.Now())
                    && (e.Unimplemented? || (Feeds(s, Valued(g.Now()), u, root) && Valued(g.Now())[root].Some?))
  {
    hide Consistent, Owned, HasOut, Evaluating, Justified, Feeds;
    if e.Unimplemented? {
      return false;
    }
    NextSource(s, Valued(s), Valued(g.Now()), root, done, u);
    FeedsIff(s, g.Now(), u, root);
    var range := PropagateEdge(g.adj[u].prop, e, id);
    if range.None? {
      return true;
    }
    if g.adj[root].prop.Some? {
      return false;
    }
    EvaluatingSet(s, g.Now(), u, root, range);
    g.SetNodeProp(root, range);
    return true;
  }

  // The root of a component, from the roots with an edge to it. Without success, a
  // constraint is not supported or a second source gives the root a range.
  method EvaluateRoot(g: LiveGraph, c: DirectedGraph<set<Node>, Constraint>, root: Node, fresh0: nat,
                      ghost s: LiveStore)
    returns (ok: bool, fresh1: nat, ghost done: set<Node>, ghost u: Node)
    requires g.Valid() && c.Valid() && (g as object) != c
    requires Evaluating(s, g.Now()) && Incoming(s, c.Now(), root)
    requires Justified(s, Valued(s), Valued(g.Now()), root, {})
    modifies g
    ensures Evaluating(s, g.Now()) && g.Valid() && done <= c.adj[root].ins.Keys
    ensures forall v | v in s.adj && v != root :: g.adj[v].prop == old(g.adj)[v].prop
    ensures Justified(s, Valued(s), Valued(g.Now()), root, done)
    ensures ok ==> done == c.adj[root].ins.Keys
    ensures ok ==> forall v | v in c.adj[root].ins :: !PropOf(s, v, root).Unimplemented?
    ensures !ok ==> u in c.adj[root].ins && u !in done
                    && (PropOf(s, u, root).Unimplemented?
                        || (Feeds(s, Valued(g.Now()), u, root) && Valued(g.Now())[root].Some?))
  {
    hide Consistent, Owned, Mirrored, HasOut, Evaluating, Justified, Feeds, PropOf, Valued, Incoming;
    done, u, fresh1 := {}, root, fresh0;
    EvaluatingFacts(s, g.Now());
    IncomingFacts(s, c.Now(), root);
    ghost var all := c.adj[root].ins.Keys;
    var todo := c.adj[root].ins.Keys;
    while todo != {}
      invariant todo !! done && done + todo == all
      invariant g.Valid() && Evaluating(s, g.Now()) && g.adj.Keys == s.adj.Keys == Valued(g.Now()).Keys
      invariant forall v | v in s.adj && v != root :: g.adj[v].prop == old(g.adj)[v].prop
      invariant Justified(s, Valued(s), Valued(g.Now()), root, done)
      invariant forall v | v in done :: !PropOf(s, v, root).Unimplemented?
      decreases todo
    {
      var in_ :| in_ in todo;
      u := in_;
      IncomingEdge(s, c.Now(), root, in_);
      EvaluatingFacts(s, g.Now());
      MoveOne(done, todo, in_);
      var e := c.IncomingProp(in_, root);
      ok := MergeEdge(g, in_, root, e, fresh1, s, done);
      fresh1 := fresh1 + 1;
      if !ok {
        return;
      }
      todo := todo - {in_};
      done := done + {in_};
    }
    ok := true;
  }

  lemma MoveOne(a: set<Node>, b: set<Node>, x: Node)
    requires x in b && a !! b
    ensures (a + {x}) + (b - {x}) == a + b && a + {x} !! b - {x} && x !in a
  {
  }

  lemma IncomingFacts(s: LiveStore, c: Store<set<Node>, Constraint>, root: Node)
    requires Incoming(s, c, root)
    ensures root in s.adj && root in c.adj && Owned(s) && Owned(c)
    ensures forall u | u in c.adj[root].ins :: u in s.adj && u != root && HasOut(s, u, root)
  {
  }

  lemma IncomingEdge(s: LiveStore, c: Store<set<Node>, Constraint>, root: Node, u: Node)
    requires Incoming(s, c, root) && u in c.adj[root].ins
    ensures Owned(c) && Owned(s) && root in s.adj
    ensures HasOut(c, u, root) && HasOut(s, u, root) && u in s.adj && u != root
    ensures PropOf(c, u, root) == PropOf(s, u, root)
  {
  }

  lemma EvaluatingFacts(s: LiveStore, t: LiveStore)
    requires Evaluating(s, t)
    ensures Owned(s) && t.adj.Keys == s.adj.Keys && Consistent(t)
    ensures Valued(t).Keys == s.adj.Keys == Valued(s).Keys
  {
  }

  lemma FeedsIff(s: LiveStore, t: LiveStore, u: Node, v: Node)
    requires Owned(s) && HasOut(s, u, v) && u in t.adj
    ensures Feeds(s, Valued(t), u, v) <==> Image(PropOf(s, u, v), BoundsOf(t.adj[u].prop)).Some?
  {
  }

  // The edge is not supported, or makes a range of v although v has one.
  ghost predicate Clashes(s: LiveStore, val: Valuation, u: Node, v: Node)
    requires Owned(s)
  {
    HasOut(s, u, v) && v in val && (PropOf(s, u, v).Unimplemented? || (Feeds(s, val, u, v) && val[v].Some?))
  }

  ghost predicate Clash(s: LiveStore, val: Valuation)
    requires Owned(s)
  {
    exists u, v :: Clashes(s, val, u, v)
  }

  // The other nodes of the component of root, each from all its edges in the graph. Here a
  // range that arrives twice as the same object is accepted. With success, every edge to such a
  // node from outside or from root is met by the ranges; edges among them are when their target
  // is evaluated, but a source may get its range later.
  method EvaluateScc(g: LiveGraph, root: Node, scc: set<Node>, fresh0: nat, ghost s: LiveStore)
    returns (ok: bool, fresh1: nat)
    requires g.Valid() && Evaluating(s, g.Now()) && scc <= g.adj.Keys
    modifies g
    ensures g.Valid() && Evaluating(s, g.Now()) && g.adj.Keys == old(g.adj).Keys && Owned(s)
    ensures forall v | v in g.adj && v !in scc - {root} :: g.adj[v].prop == old(g.adj)[v].prop
    ensures ok ==> forall u, v | v in scc - {root} && HasOut(s, u, v) && u !in scc - {root} ::
                Met(s, Valued(g.Now()), u, v)
    ensures !ok ==> exists u, v :: v in scc - {root} && Clashes(s, Valued(g.Now()), u, v)
    ensures scc == {root} ==> ok
  {
    hide Consistent, Owned, Mirrored, HasOut, Evaluating, Feeds, PropOf, Valued, Met, Clashes;
    fresh1 := fresh0;
    EvaluatingFacts(s, g.Now());
    var nodes := scc - {root};
    while nodes != {}
      invariant nodes <= scc - {root}
      invariant g.Valid() && Evaluating(s, g.Now()) && g.adj.Keys == old(g.adj).Keys
      invariant forall v | v in g.adj && v !in scc - {root} :: g.adj[v].prop == old(g.adj)[v].prop
      invariant forall u, v | v in scc - {root} - nodes && HasOut(s, u, v) && u !in scc - {root} ::
                  Met(s, Valued(g.Now()), u, v)
      decreases nodes
    {
      var node :| node in nodes;
      ghost var t := g.Now();
      ok, fresh1 := EvaluateNode(g, node, fresh1, s);
      if !ok {
        return;
      }
      MetKeeps(s, t, g.Now(), node);
      nodes := nodes - {node};
    }
    ok := true;
  }

  lemma MetKeeps(s: LiveStore, t: LiveStore, t': LiveStore, node: Node)
    requires Owned(s) && t.adj.Keys == t'.adj.Keys
    requires forall v | v in t.adj && v != node :: t'.adj[v].prop == t.adj[v].prop
    ensures forall u, v | u != node && v != node && Met(s, Valued(t), u, v) :: Met(s, Valued(t'), u, v)
  {
    hide Owned, HasOut, PropOf;
  }

  method MergeWithin(g: LiveGraph, u: Node, node: Node, e: Constraint, id: nat, ghost s: LiveStore) returns (ok: bool)
    requires g.Valid() && Evaluating(s, g.Now()) && g.adj.Keys == s.adj.Keys
    requires Owned(s) && node in s.adj && u in s.adj && HasOut(s, u, node) && e == PropOf(s, u, node)
    modifies g
    ensures g.Valid() && Evaluating(s, g.Now()) && g.adj.Keys == s.adj.Keys
    ensures forall v | v in s.adj && v != node :: g.adj[v].prop == old(g.adj)[v].prop
    ensures old(g.adj)[node].prop.Some? ==> g.adj[node].prop == old(g.adj)[node].prop
    ensures ok && u != node ==> Met(s, Valued(g.Now()), u, node)
    ensures !ok ==> Clashes(s, Valued(g.Now()), u, node)
  {
    hide Consistent, Owned, Mirrored, HasOut, Evaluating, PropOf;
    EvaluatingFacts(s, g.Now());
    if e.Unimplemented? {
      return false;
    }
    var range := PropagateEdge(g.adj[u].prop, e, id);
    if range.None? || g.adj[node].prop == range {
      return true;
    }
    if g.adj[node].prop.Some? {
      return false;
    }
    FeedsIff(s, g.Now(), u, node);
    EvaluatingSet(s, g.Now(), u, node, range);
    g.SetNodeProp(node, range);
    return true;
  }

  ghost predicate MetFrom(s: LiveStore, val: Valuation, done: set<Node>, v: Node)
    requires Owned(s)
  {
    forall u | u in done && u != v :: Met(s, val, u, v)
  }

  lemma MetGrows(s: LiveStore, t: LiveStore, t': LiveStore, done: set<Node>, u: Node, node: Node)
    requires Owned(s) && t.adj.Keys == t'.adj.Keys && node in t.adj
    requires forall v | v in t.adj && v != node :: t'.adj[v].prop == t.adj[v].prop
    requires t.adj[node].prop.Some? ==> t'.adj[node].prop == t.adj[node].prop
    requires MetFrom(s, Valued(t), done, node) && (u != node ==> Met(s, Valued(t'), u, node))
    ensures MetFrom(s, Valued(t'), done + {u}, node)
  {
    hide Owned, HasOut, PropOf;
  }

  method EvaluateNode(g: LiveGraph, node: Node, fresh0: nat, ghost s: LiveStore) returns (ok: bool, fresh1: nat)
    requires g.Valid() && Evaluating(s, g.Now()) && node in g.adj
    modifies g
    ensures g.Valid() && Evaluating(s, g.Now()) && g.adj.Keys == old(g.adj).Keys && Owned(s)
    ensures forall v | v in g.adj && v != node :: g.adj[v].prop == old(g.adj)[v].prop
    ensures ok ==> forall u | HasOut(s, u, node) && u != node :: Met(s, Valued(g.Now()), u, node)
    ensures !ok ==> exists u :: Clashes(s, Valued(g.Now()), u, node)
  {
    hide Consistent, Owned, Mirrored, HasOut, Evaluating, Feeds, PropOf, Valued, Met, Clashes;
    fresh1 := fresh0;
    EvaluatingFacts(s, g.Now());
    EvaluatingIn(s, g.Now(), node);
    ghost var ins, done := s.adj[node].ins.Keys, {};
    var todo := g.adj[node].ins.Keys;
    while todo != {}
      invariant todo !! done && done + todo == ins
      invariant g.Valid() && Evaluating(s, g.Now()) && g.adj.Keys == old(g.adj).Keys
      invariant forall v | v in g.adj && v != node :: g.adj[v].prop == old(g.adj)[v].prop
      invariant MetFrom(s, Valued(g.Now()), done, node)
      decreases todo
    {
      var in_ :| in_ in todo;
      MoveOne(done, todo, in_);
      ok, fresh1 := EvaluateEdge(g, in_, node, fresh1, s, done);
      if !ok {
        return;
      }
      todo := todo - {in_};
      done := done + {in_};
    }
    ok := true;
  }

  method EvaluateEdge(g: LiveGraph, u: Node, node: Node, fresh0: nat, ghost s: LiveStore, ghost done: set<Node>)
    returns (ok: bool, fresh1: nat)
    requires g.Valid() && Evaluating(s, g.Now()) && node in g.adj && node in s.adj && u in s.adj[node].ins
    requires Owned(s) && MetFrom(s, Valued(g.Now()), done, node)
    modifies g
    ensures g.Valid() && Evaluating(s, g.Now()) && g.adj.Keys == old(g.adj).Keys
    ensures forall v | v in g.adj && v != node :: g.adj[v].prop == old(g.adj)[v].prop
    ensures ok ==> MetFrom(s, Valued(g.Now()), done + {u}, node)
    ensures !ok ==> Clashes(s, Valued(g.Now()), u, node)
  {
    hide Consistent, Owned, Mirrored, HasOut, Evaluating, Feeds, PropOf, Valued, Met, MetFrom, Clashes;
    EvaluatingFacts(s, g.Now());
    EvaluatingIn(s, g.Now(), node);
    ghost var t := g.Now();
    var e := g.IncomingProp(u, node);
    ok := MergeWithin(g, u, node, e, fresh0, s);
    fresh1 := fresh0 + 1;
    if ok {
      MetGrows(s, t, g.Now(), done, u, node);
    }
  }

  lemma EvaluatingIn(s: LiveStore, t: LiveStore, v: Node)
    requires Evaluating(s, t) && v in t.adj
    ensures v in s.adj && t.adj[v].ins.Keys == s.adj[v].ins.Keys && Owned(s) && Owned(t)
    ensures forall u | u in s.adj[v].ins ::
                HasOut(s, u, v) && HasOut(t, u, v) && u in t.adj && PropOf(t, u, v) == PropOf(s, u, v)
    ensures forall u | HasOut(s, u, v) :: u in s.adj[v].ins
    ensures forall u | u in t.adj :: u in Valued(t) && Valued(t)[u] == BoundsOf(t.adj[u].prop)
  {
    forall u | u in s.adj[v].ins ensures HasOut(t, u, v) && HasOut(s, u, v) {
      assert HasIn(t, u, v);
    }
    forall u | HasOut(s, u, v) ensures u in s.adj[v].ins {
      assert HasOut(t, u, v) && HasIn(t, u, v);
    }
  }

  lemma CondensedIncoming(s: LiveStore, components: map<Node, set<Node>>, c: Store<set<Node>, Constraint>, root: Node)
    requires Condensation.IsCondensation(s, components, c) && Consistent(c) && root in components
    requires components.Keys <= s.adj.Keys
    ensures Incoming(s, c, root)
    ensures forall u | u in c.adj[root].ins :: u in components
    ensures forall u | HasOut(s, u, root) && u in components && u != root :: u in c.adj[root].ins
  {
    forall u | u in c.adj[root].ins
      ensures HasOut(c, u, root) && HasOut(s, u, root) && u in s.adj && u != root
      ensures PropOf(c, u, root) == PropOf(s, u, root)
    {
      assert HasIn(c, u, root);
    }
    forall u | HasOut(s, u, root) && u in components && u != root ensures u in c.adj[root].ins {
      assert HasOut(c, u, root) && HasIn(c, u, root);
    }
  }

  lemma SingleComponent(g: Digraph, components: map<Node, set<Node>>, v: Node)
    requires OnlySelfCycles(g) && TarjanScc.AreTheSccs(g, components) && v in g.succ
    ensures v in components && components[v] == {v}
  {
    assert TarjanScc.InSome(components, v);
    var r :| r in components && v in components[r];
    assert TarjanScc.IsScc(g, components[r]);
    assert Mutual(g, r, v);
    assert r == v;
    forall x | x in components[v] ensures x == v {
      assert Mutual(g, x, v);
    }
  }

  // Without cycles of two or more nodes, every node is a root, alone in its component.
  lemma EveryNodeRoot(g: Digraph, components: map<Node, set<Node>>)
    requires OnlySelfCycles(g) && TarjanScc.AreTheSccs(g, components)
    ensures components.Keys == g.succ.Keys && forall v | v in g.succ :: components[v] == {v}
  {
    hide TarjanScc.AreTheSccs, OnlySelfCycles;
    Condensation.RootsApart(g, components);
    forall v | v in g.succ ensures v in components && components[v] == {v} {
      SingleComponent(g, components, v);
    }
  }

  // An order of all nodes, sources first.
  ghost predicate SourceOrder(s: LiveStore, order: seq<Node>) {
    && SourcesFirst(s, order)
    && (forall i | 0 <= i < |order| :: order[i] in s.adj)
    && (forall v | v in s.adj :: v in order)
  }

  // The sources of v among the roots.
  ghost function RootSources(s: LiveStore, roots: set<Node>, v: Node): set<Node>
    requires v in s.adj
  {
    Sources(s, v) * roots
  }

  // The range of v is justified by the roots with an edge to it, and their constraints are
  // supported.
  ghost predicate JustifiedRoot(s: LiveStore, roots: set<Node>, val: Valuation, v: Node)
    requires Owned(s) && v in s.adj && val.Keys == s.adj.Keys
  {
    && Justified(s, Valued(s), val, v, RootSources(s, roots, v))
    && forall u | u in RootSources(s, roots, v) && HasOut(s, u, v) :: !PropOf(s, u, v).Unimplemented?
  }

  // Everything before position k is justified.
  ghost predicate JustifiedBefore(s: LiveStore, roots: set<Node>, val: Valuation, order: seq<Node>, k: nat)
    requires Owned(s) && k <= |order| && val.Keys == s.adj.Keys
  {
    forall i | 0 <= i < k :: order[i] in s.adj && JustifiedRoot(s, roots, val, order[i])
  }

  // A solution cannot agree with what is justified before a root that fails.
  lemma NotASolution(s: LiveStore, order: seq<Node>, k: nat, val: Valuation, done: set<Node>, u: Node, sol: Valuation)
    requires Owned(s) && val.Keys == s.adj.Keys && k < |order| && SourceOrder(s, order)
    requires forall i | 0 <= i < k :: Justified(s, Valued(s), val, order[i], Sources(s, order[i]))
    requires done <= Sources(s, order[k]) && u in Sources(s, order[k]) && u !in done && HasOut(s, u, order[k])
    requires Justified(s, Valued(s), val, order[k], done)
    requires PropOf(s, u, order[k]).Unimplemented? || (Feeds(s, val, u, order[k]) && val[order[k]].Some?)
    ensures !Solution(s, Valued(s), sol)
  {
    hide Owned, HasOut, PropOf, Justified, Feeds;
    var v := order[k];
    if Solution(s, Valued(s), sol) {
      SolutionsAgree(s, Valued(s), order, k, val, sol);
      forall w | w in Sources(s, v) ensures w in s.adj && sol[w] == val[w] {
        assert w in order[..k];
      }
      if !PropOf(s, u, v).Unimplemented? {
        SecondSource(s, Valued(s), val, v, done, u, sol);
      }
    }
  }

  // A root that fails leaves no solution.
  lemma NoSolution(s: LiveStore, order: seq<Node>, k: nat, val: Valuation, done: set<Node>, u: Node)
    requires Owned(s) && val.Keys == s.adj.Keys && k < |order| && SourceOrder(s, order)
    requires forall i | 0 <= i < k :: Justified(s, Valued(s), val, order[i], Sources(s, order[i]))
    requires done <= Sources(s, order[k]) && u in Sources(s, order[k]) && u !in done && HasOut(s, u, order[k])
    requires Justified(s, Valued(s), val, order[k], done)
    requires PropOf(s, u, order[k]).Unimplemented? || (Feeds(s, val, u, order[k]) && val[order[k]].Some?)
    ensures !exists sol :: Solution(s, Valued(s), sol)
  {
    hide Owned, HasOut, PropOf, Justified, Feeds, Solution;
    forall sol ensures !Solution(s, Valued(s), sol) {
      NotASolution(s, order, k, val, done, u, sol);
    }
  }

  // Justified everywhere is a solution.
  lemma JustifiedSolves(s: LiveStore, order: seq<Node>, val: Valuation)
    requires Mirrored(s) && Owned(s) && val.Keys == s.adj.Keys && SourceOrder(s, order)
    requires JustifiedBefore(s, s.adj.Keys, val, order, |order|)
    ensures Solution(s, Valued(s), val)
  {
    hide Justified;
    forall v | v in s.adj
      ensures JustifiedRoot(s, s.adj.Keys, val, v) && RootSources(s, s.adj.Keys, v) == Sources(s, v)
    {
      assert v in order;
      AllSources(s, v);
    }
    forall u, v | HasOut(s, u, v) && u != v ensures !PropOf(s, u, v).Unimplemented? {
      assert HasIn(s, u, v);
      assert JustifiedRoot(s, s.adj.Keys, val, v);
    }
  }

  lemma AllSources(s: LiveStore, v: Node)
    requires Mirrored(s) && v in s.adj
    ensures RootSources(s, s.adj.Keys, v) == Sources(s, v)
  {
    forall u | u in Sources(s, v) ensures u in s.adj {
      assert HasIn(s, u, v);
    }
  }

  // The roots with an edge to a root are ordered before it.
  ghost predicate RootOrder(s: LiveStore, roots: set<Node>, order: seq<Node>) {
    && (forall i | 0 <= i < |order| :: order[i] in s.adj)
    && (forall i, u | 0 <= i < |order| && u in RootSources(s, roots, order[i]) :: u in order[..i])
  }

  // What happens to other nodes than the roots before position k does not matter to them.
  lemma JustifiedKeeps(s: LiveStore, roots: set<Node>, order: seq<Node>, k: nat,
                                          val: Valuation, val': Valuation)
    requires Owned(s) && val.Keys == s.adj.Keys == val'.Keys && k <= |order| && RootOrder(s, roots, order)
    requires JustifiedBefore(s, roots, val, order, k)
    requires forall v | v in order[..k] && v in s.adj :: val'[v] == val[v]
    ensures JustifiedBefore(s, roots, val', order, k)
  {
    hide Owned, HasOut, PropOf, Justified;
    forall i | 0 <= i < k ensures JustifiedRoot(s, roots, val', order[i]) {
      assert JustifiedRoot(s, roots, val, order[i]);
      assert order[i] in order[..k];
      forall u | u in RootSources(s, roots, order[i]) ensures u in s.adj && u in order[..k] {
        assert u in order[..i] && order[..i] <= order[..k];
      }
      JustifiedFrame(s, Valued(s), val, val', order[i], RootSources(s, roots, order[i]));
    }
  }

  lemma JustifiedEmpty(s: LiveStore, val: Valuation, v: Node)
    requires Owned(s) && v in s.adj && v in val && val[v] == Valued(s)[v]
    ensures Justified(s, Valued(s), val, v, {})
  {
  }

  // Where the evaluation stands before the k-th component of the order.
  ghost predicate Evaluated(s: LiveStore, roots: set<Node>, t: LiveStore, order: seq<Node>, k: nat) {
    && Evaluating(s, t) && k <= |order| && t.adj.Keys == s.adj.Keys && Valued(t).Keys == s.adj.Keys
    && (forall i | k <= i < |order| :: order[i] in s.adj && t.adj[order[i]].prop == s.adj[order[i]].prop)
    && JustifiedBefore(s, roots, Valued(t), order, k)
  }

  // What the order and the condensation are to the graph.
  ghost predicate Prepared(s: LiveStore, components: map<Node, set<Node>>, c: Store<set<Node>, Constraint>,
                           order: seq<Node>) {
    && Consistent(s) && Consistent(c) && Condensation.IsCondensation(s, components, c)
    && TarjanScc.AreTheSccs(View(s.adj), components)
    && TopologicalOrder.IsTopological(View(c.adj), order)
  }

  // The component of a root holds no other root of the order.
  lemma PreparedRoot(s: LiveStore, components: map<Node, set<Node>>, c: Store<set<Node>, Constraint>,
                     order: seq<Node>, k: nat)
    requires Prepared(s, components, c, order) && k < |order|
    ensures order[k] in components && order[k] in s.adj && order[k] in c.adj
    ensures c.adj[order[k]].prop == components[order[k]]
    ensures components[order[k]] <= s.adj.Keys && Incoming(s, c, order[k]) && order[k] !in order[..k]
    ensures forall i | k < i < |order| :: order[i] !in components[order[k]]
  {
    hide TarjanScc.AreTheSccs, Incoming;
    ViewOf(s);
    ViewOf(c);
    Condensation.RootsApart(View(s.adj), components);
    assert order[k] in order;
    ComponentNodes(View(s.adj), components, order[k]);
    CondensedIncoming(s, components, c, order[k]);
    forall i | k < i < |order| ensures order[i] !in components[order[k]] {
      assert order[i] in order;
    }
  }

  lemma ComponentNodes(g: Digraph, components: map<Node, set<Node>>, r: Node)
    requires TarjanScc.AreTheSccs(g, components) && r in components
    ensures components[r] <= g.succ.Keys
  {
  }

  lemma PreparedOrder(s: LiveStore, components: map<Node, set<Node>>, c: Store<set<Node>, Constraint>, order: seq<Node>)
    requires Prepared(s, components, c, order)
    ensures RootOrder(s, components.Keys, order)
    ensures forall v | v in components :: v in order && v in s.adj
    ensures forall i | 0 <= i < |order| ::
              order[i] in c.adj && c.adj[order[i]].ins.Keys == RootSources(s, components.Keys, order[i])
  {
    hide Owned, TarjanScc.AreTheSccs;
    ViewOf(s);
    ViewOf(c);
    Condensation.RootsApart(View(s.adj), components);
    forall i | 0 <= i < |order|
      ensures order[i] in c.adj && order[i] in s.adj
      ensures c.adj[order[i]].ins.Keys == RootSources(s, components.Keys, order[i])
    {
      assert order[i] in order;
      CondensedSources(s, components, c, order[i]);
    }
    forall i, u | 0 <= i < |order| && u in RootSources(s, components.Keys, order[i]) ensures u in order[..i] {
      assert HasIn(c, u, order[i]) && HasOut(c, u, order[i]);
      assert View(c.adj).Edge(u, order[i]);
      var j :| 0 <= j < |order| && order[j] == u;
      assert View(c.adj).Edge(order[j], order[i]);
      assert order[..i][j] == u;
    }
  }

  lemma CondensedSources(s: LiveStore, components: map<Node, set<Node>>, c: Store<set<Node>, Constraint>, root: Node)
    requires Condensation.IsCondensation(s, components, c) && Consistent(s) && Consistent(c)
    requires root in components && components.Keys <= s.adj.Keys
    ensures root in c.adj && c.adj[root].ins.Keys == RootSources(s, components.Keys, root)
  {
    hide Owned;
    CondensedIncoming(s, components, c, root);
    forall u ensures u in c.adj[root].ins <==> u in RootSources(s, components.Keys, root) {
      assert HasOut(s, u, root) == HasIn(s, u, root) && HasOut(c, u, root) == HasIn(c, u, root);
    }
  }

  // val is what was found before the k-th root, val' what was found at it.
  ghost predicate AtRoot(s: LiveStore, components: map<Node, set<Node>>, c: Store<set<Node>, Constraint>,
                         order: seq<Node>, k: nat, val: Valuation, val': Valuation) {
    && Prepared(s, components, c, order) && k < |order|
    && Owned(s) && val.Keys == s.adj.Keys == val'.Keys && JustifiedBefore(s, components.Keys, val, order, k)
    && order[k] in s.adj && order[k] in c.adj && order[k] !in order[..k]
    && forall v | v in s.adj && v != order[k] :: val'[v] == val[v]
  }

  lemma AtRootKeeps(s: LiveStore, components: map<Node, set<Node>>, c: Store<set<Node>, Constraint>,
                    order: seq<Node>, k: nat, val: Valuation, val': Valuation)
    requires AtRoot(s, components, c, order, k, val, val')
    ensures Owned(s) && k < |order| && order[k] in s.adj && order[k] in c.adj
    ensures val.Keys == s.adj.Keys == val'.Keys && JustifiedBefore(s, components.Keys, val', order, k)
    ensures c.adj[order[k]].ins.Keys == RootSources(s, components.Keys, order[k])
  {
    hide Prepared, Owned, HasOut, PropOf, Justified, JustifiedRoot, JustifiedBefore, RootOrder;
    PreparedOrder(s, components, c, order);
    JustifiedKeeps(s, components.Keys, order, k, val, val');
  }

  // Without cycles of two or more nodes, the order is one of all nodes.
  lemma SingletonOrder(s: LiveStore, components: map<Node, set<Node>>, c: Store<set<Node>, Constraint>,
                       order: seq<Node>)
    requires Prepared(s, components, c, order) && OnlySelfCycles(View(s.adj))
    ensures SourceOrder(s, order) && components.Keys == s.adj.Keys && Mirrored(s)
    ensures forall v | v in s.adj :: RootSources(s, components.Keys, v) == Sources(s, v)
  {
    hide Prepared, Mirrored, OnlySelfCycles, TarjanScc.AreTheSccs, RootSources, Sources;
    PreparedFacts(s, components, c, order);
    EveryNodeRoot(View(s.adj), components);
    PreparedOrder(s, components, c, order);
    assert components.Keys == s.adj.Keys;
    forall v | v in s.adj ensures RootSources(s, components.Keys, v) == Sources(s, v) {
      AllSources(s, v);
    }
  }

  lemma PreparedFacts(s: LiveStore, components: map<Node, set<Node>>, c: Store<set<Node>, Constraint>, order: seq<Node>)
    requires Prepared(s, components, c, order)
    ensures Mirrored(s) && TarjanScc.AreTheSccs(View(s.adj), components) && components.Keys == c.adj.Keys
    ensures forall i | 0 <= i < |order| :: order[i] in components
  {
    hide TarjanScc.AreTheSccs;
    forall i | 0 <= i < |order| ensures order[i] in components {
      assert order[i] in order;
    }
  }

  lemma AllJustified(s: LiveStore, roots: set<Node>, val: Valuation, order: seq<Node>, k: nat)
    requires Owned(s) && k <= |order| && val.Keys == s.adj.Keys && JustifiedBefore(s, roots, val, order, k)
    requires forall v | v in s.adj :: RootSources(s, roots, v) == Sources(s, v)
    ensures forall i | 0 <= i < k :: order[i] in s.adj && Justified(s, Valued(s), val, order[i], Sources(s, order[i]))
  {
    hide Owned, Justified;
    forall i | 0 <= i < k ensures Justified(s, Valued(s), val, order[i], Sources(s, order[i])) {
      assert JustifiedRoot(s, roots, val, order[i]);
    }
  }

  // After the k-th root without success.
  lemma RootFails(s: LiveStore, components: map<Node, set<Node>>, c: Store<set<Node>, Constraint>,
                  order: seq<Node>, k: nat, val: Valuation, val': Valuation, done: set<Node>, u: Node)
    requires AtRoot(s, components, c, order, k, val, val') && OnlySelfCycles(View(s.adj))
    requires done <= c.adj[order[k]].ins.Keys && Justified(s, Valued(s), val', order[k], done)
    requires u in c.adj[order[k]].ins && u !in done && HasOut(s, u, order[k])
    requires PropOf(s, u, order[k]).Unimplemented? || (Feeds(s, val', u, order[k]) && val'[order[k]].Some?)
    ensures !Solvable(s)
  {
    hide Prepared, Owned, HasOut, PropOf, Justified, JustifiedBefore, SourceOrder, Solution, Feeds, OnlySelfCycles,
      RootSources, Sources;
    AtRootKeeps(s, components, c, order, k, val, val');
    SingletonOrder(s, components, c, order);
    AllJustified(s, components.Keys, val', order, k);
    NoSolution(s, order, k, val', done, u);
  }

  // After the k-th root with success.
  lemma RootSucceeds(s: LiveStore, components: map<Node, set<Node>>, c: Store<set<Node>, Constraint>,
                     order: seq<Node>, k: nat, val: Valuation, val': Valuation)
    requires AtRoot(s, components, c, order, k, val, val')
    requires Justified(s, Valued(s), val', order[k], c.adj[order[k]].ins.Keys)
    requires forall u | u in c.adj[order[k]].ins && HasOut(s, u, order[k]) :: !PropOf(s, u, order[k]).Unimplemented?
    ensures JustifiedBefore(s, components.Keys, val', order, k + 1)
  {
    hide AtRoot, Owned, HasOut, PropOf, Justified;
    AtRootKeeps(s, components, c, order, k, val, val');
    assert JustifiedRoot(s, components.Keys, val', order[k]);
  }

  // The other nodes of the k-th component are no roots.
  lemma SccKeeps(s: LiveStore, components: map<Node, set<Node>>, c: Store<set<Node>, Constraint>,
                 order: seq<Node>, k: nat, val: Valuation, val': Valuation)
    requires Prepared(s, components, c, order) && k < |order| && order[k] in components && Owned(s)
    requires val.Keys == s.adj.Keys == val'.Keys && JustifiedBefore(s, components.Keys, val, order, k + 1)
    requires forall v | v in s.adj && v !in components[order[k]] - {order[k]} :: val'[v] == val[v]
    ensures JustifiedBefore(s, components.Keys, val', order, k + 1)
  {
    hide Prepared, Owned, JustifiedRoot, JustifiedBefore, RootOrder, TarjanScc.AreTheSccs, Mirrored;
    PreparedFacts(s, components, c, order);
    Condensation.RootsApart(View(s.adj), components);
    PreparedOrder(s, components, c, order);
    JustifiedKeeps(s, components.Keys, order, k + 1, val, val');
  }

  method RootStep(g: LiveGraph, c: DirectedGraph<set<Node>, Constraint>, root: Node, fresh0: nat,
                  ghost s: LiveStore, ghost components: map<Node, set<Node>>, ghost order: seq<Node>, ghost k: nat)
    returns (ok: bool, fresh1: nat)
    requires g.Valid() && c.Valid() && (g as object) != c
    requires Prepared(s, components, c.Now(), order) && k < |order| && root == order[k]
    requires Evaluated(s, components.Keys, g.Now(), order, k)
    modifies g
    ensures g.Valid() && Evaluating(s, g.Now())
    ensures ok ==> Evaluated(s, components.Keys, g.Now(), order, k + 1)
    ensures !ok && OnlySelfCycles(View(s.adj)) ==> Owned(s) && !Solvable(s)
    ensures !ok ==> Owned(s) && Clash(s, Valued(g.Now()))
  {
    hide Consistent, Owned, Mirrored, HasOut, Evaluating, Justified, Feeds, PropOf, Incoming, Prepared, JustifiedBefore,
      Solvable, SourceOrder, OnlySelfCycles, Valued, Image;
    ghost var t := g.Now();
    PreparedRoot(s, components, c.Now(), order, k);
    IncomingFacts(s, c.Now(), root);
    ValuedSame(s, t, root);
    JustifiedEmpty(s, Valued(t), root);
    ghost var done, u;
    ok, fresh1, done, u := EvaluateRoot(g, c, root, fresh0, s);
    EvaluatingFacts(s, g.Now());
    ValuedFrame(s, t, g.Now(), {root});
    assert AtRoot(s, components, c.Now(), order, k, Valued(t), Valued(g.Now()));
    if ok {
      RootSucceeds(s, components, c.Now(), order, k, Valued(t), Valued(g.Now()));
      OrderDistinct(s, components, c.Now(), order, k);
    } else {
      assert Clashes(s, Valued(g.Now()), u, root);
      if OnlySelfCycles(View(s.adj)) {
        RootFails(s, components, c.Now(), order, k, Valued(t), Valued(g.Now()), done, u);
      }
    }
  }

  lemma OrderDistinct(s: LiveStore, components: map<Node, set<Node>>, c: Store<set<Node>, Constraint>,
                      order: seq<Node>, k: nat)
    requires Prepared(s, components, c, order) && k < |order|
    ensures forall i | k < i < |order| :: order[i] != order[k]
  {
  }

  method SccStep(g: LiveGraph, root: Node, scc: set<Node>, fresh0: nat,
                 ghost s: LiveStore, ghost components: map<Node, set<Node>>, ghost c: Store<set<Node>, Constraint>,
                 ghost order: seq<Node>, ghost k: nat)
    returns (ok: bool, fresh1: nat)
    requires g.Valid() && Prepared(s, components, c, order) && k < |order| && root == order[k]
    requires root in c.adj && scc == c.adj[root].prop
    requires Evaluated(s, components.Keys, g.Now(), order, k + 1)
    modifies g
    ensures g.Valid() && Evaluated(s, components.Keys, g.Now(), order, k + 1)
    ensures OnlySelfCycles(View(s.adj)) ==> ok
    ensures !ok ==> Owned(s) && Clash(s, Valued(g.Now()))
  {
    hide Consistent, Owned, Mirrored, HasOut, Evaluating, Feeds, PropOf, Incoming, Prepared, JustifiedBefore,
      OnlySelfCycles, Valued, Image, TarjanScc.AreTheSccs, Clashes;
    ghost var t := g.Now();
    PreparedRoot(s, components, c, order, k);
    if OnlySelfCycles(View(s.adj)) {
      PreparedFacts(s, components, c, order);
      EveryNodeRoot(View(s.adj), components);
    }
    ok, fresh1 := EvaluateScc(g, root, scc, fresh0, s);
    EvaluatingFacts(s, g.Now());
    ValuedFrame(s, t, g.Now(), scc - {root});
    SccKeeps(s, components, c, order, k, Valued(t), Valued(g.Now()));
  }

  lemma ValuedSame(s: LiveStore, t: LiveStore, v: Node)
    requires v in s.adj && v in t.adj && s.adj[v].prop == t.adj[v].prop
    ensures Valued(s)[v] == Valued(t)[v]
  {
  }

  lemma ValuedFrame(s: LiveStore, t: LiveStore, t': LiveStore, vs: set<Node>)
    requires s.adj.Keys == t.adj.Keys == t'.adj.Keys
    requires forall v | v in s.adj && v !in vs :: t'.adj[v].prop == t.adj[v].prop
    ensures Valued(t).Keys == Valued(t').Keys == s.adj.Keys
    ensures forall v | v in s.adj && v !in vs :: Valued(t')[v] == Valued(t)[v]
  {
  }

  // The ranges of the roots: each is preset or made by the one edge from another root that makes
  // a range, and no constraint between roots is unsupported.
  ghost predicate RootsJustified(s: LiveStore, components: map<Node, set<Node>>, val: Valuation)
    requires Owned(s) && val.Keys == s.adj.Keys
  {
    forall v | v in components :: v in s.adj && JustifiedRoot(s, components.Keys, val, v)
  }

  // Every constraint between two roots is met.
  ghost predicate RootEdgesMet(s: LiveStore, components: map<Node, set<Node>>, val: Valuation)
    requires Owned(s)
  {
    forall u, v | u in components && v in components && u != v && HasOut(s, u, v) :: Met(s, val, u, v)
  }

  lemma RootConstraintsMet(s: LiveStore, components: map<Node, set<Node>>, val: Valuation, u: Node, v: Node)
    requires Mirrored(s) && Owned(s) && val.Keys == s.adj.Keys && RootsJustified(s, components, val)
    requires u in components && v in components && u != v && HasOut(s, u, v)
    ensures Met(s, val, u, v)
  {
    hide Owned, PropOf;
    assert HasIn(s, u, v);
    assert JustifiedRoot(s, components.Keys, val, v) && u in RootSources(s, components.Keys, v);
    assert Feeds(s, val, u, v) || Image(PropOf(s, u, v), val[u]).None?;
  }

  lemma RootsAreMet(s: LiveStore, components: map<Node, set<Node>>, val: Valuation)
    requires Mirrored(s) && Owned(s) && val.Keys == s.adj.Keys && RootsJustified(s, components, val)
    ensures RootEdgesMet(s, components, val)
  {
    hide Mirrored, Owned, RootsJustified, Met;
    forall u, v | u in components && v in components && u != v && HasOut(s, u, v) ensures Met(s, val, u, v) {
      RootConstraintsMet(s, components, val, u, v);
    }
  }

  // evaluate. Whatever the graph, a range found is preset or made by an edge from its source's
  // range, success leaves the roots of the components with justified ranges, and a failure is
  // due to an edge that is not supported or makes a second range. Without cycles of two or more
  // nodes, the evaluation succeeds exactly when the constraints have a solution with one source
  // of range per node, and then leaves one.
  method Evaluate(g: LiveGraph) returns (ok: bool, ghost components: map<Node, set<Node>>)
    requires g.Valid()
    modifies g
    ensures g.Valid() && SameEdges(old(g.Now()), g.Now()) && Owned(old(g.Now()))
    ensures Valued(g.Now()).Keys == old(g.adj.Keys) && Supported(old(g.Now()), Valued(old(g.Now())), Valued(g.Now()))
    ensures TarjanScc.AreTheSccs(View(old(g.adj)), components)
    ensures ok ==> RootsJustified(old(g.Now()), components, Valued(g.Now()))
    ensures ok ==> RootEdgesMet(old(g.Now()), components, Valued(g.Now()))
    ensures !ok ==> Clash(old(g.Now()), Valued(g.Now()))
    ensures OnlySelfCycles(View(old(g.adj))) ==> (ok <==> Solvable(old(g.Now())))
    ensures OnlySelfCycles(View(old(g.adj))) && ok ==> Solution(old(g.Now()), Valued(old(g.Now())), Valued(g.Now()))
  {
    hide Consistent, Owned, Mirrored, HasOut, PropOf, Clash, JustifiedBefore, RootsJustified, RootEdgesMet, Evaluated,
      OnlySelfCycles, Solution, Solvable, Supported, Evaluating, Condensation.IsCondensation, TarjanScc.AreTheSccs,
      TopologicalOrder.IsTopological, Valued, SameEdges, Acyclic;
    ghost var s := g.Now();
    var c, sccs := Condensation.Condense(g);
    components := sccs;
    CondensationOrdered(s, components, c.Now());
    var sorted := TopologicalOrder.TopologicalOrder(View(c.adj));
    var order := sorted.value;
    EvaluatedStart(s, components, c.Now(), order);
    var fresh0 := 0;
    for k := 0 to |order|
      invariant g.Valid() && c.Valid() && (g as object) != c && Prepared(s, components, c.Now(), order)
      invariant Evaluated(s, components.Keys, g.Now(), order, k)
      invariant components == sccs
    {
      PreparedRoot(s, components, c.Now(), order, k);
      var stepped;
      stepped, fresh0 := RootStep(g, c, order[k], fresh0, s, components, order, k);
      if !stepped {
        EvaluatingEnd(s, g.Now());
        ok := false;
        return;
      }
      stepped, fresh0 := SccStep(g, order[k], c.adj[order[k]].prop, fresh0, s, components, c.Now(), order, k);
      if !stepped {
        EvaluatedEnd(s, components, c.Now(), g.Now(), order, k + 1);
        ok := false;
        return;
      }
    }
    EvaluatedEnd(s, components, c.Now(), g.Now(), order, |order|);
    ok := true;
  }

  lemma CondensationOrdered(s: LiveStore, components: map<Node, set<Node>>, c: Store<set<Node>, Constraint>)
    requires Consistent(s) && Consistent(c) && Condensation.IsCondensation(s, components, c)
    requires TarjanScc.AreTheSccs(View(s.adj), components)
    ensures View(c.adj).WellFormed() && Acyclic(View(c.adj))
  {
    hide Owned, TarjanScc.AreTheSccs, Condensation.IsCondensation;
    ViewOf(c);
    Condensation.CondensationJoinsRoots(s, components, c);
    Condensation.JoinedRootsAcyclic(View(s.adj), components, View(c.adj));
  }

  lemma EvaluatedStart(s: LiveStore, components: map<Node, set<Node>>, c: Store<set<Node>, Constraint>,
                       order: seq<Node>)
    requires Consistent(s) && Consistent(c) && Condensation.IsCondensation(s, components, c)
    requires TarjanScc.AreTheSccs(View(s.adj), components)
    requires TopologicalOrder.IsTopological(View(c.adj), order)
    ensures Prepared(s, components, c, order) && Evaluated(s, components.Keys, s, order, 0)
  {
    hide Mirrored, Owned, Evaluating, TarjanScc.AreTheSccs, Condensation.IsCondensation, TopologicalOrder.IsTopological;
    EvaluatingStart(s);
    EvaluatingFacts(s, s);
    PreparedFacts(s, components, c, order);
    Condensation.RootsApart(View(s.adj), components);
  }

  lemma EvaluatingEnd(s: LiveStore, t: LiveStore)
    requires Evaluating(s, t)
    ensures SameEdges(s, t) && Owned(s) && Valued(t).Keys == s.adj.Keys == Valued(s).Keys
    ensures Supported(s, Valued(s), Valued(t))
  {
  }

  lemma EvaluatedEnd(s: LiveStore, components: map<Node, set<Node>>, c: Store<set<Node>, Constraint>, t: LiveStore,
                     order: seq<Node>, k: nat)
    requires Prepared(s, components, c, order) && Evaluated(s, components.Keys, t, order, k)
    ensures SameEdges(s, t) && Owned(s) && Valued(t).Keys == s.adj.Keys == Valued(s).Keys
    ensures Supported(s, Valued(s), Valued(t))
    ensures k == |order| ==> RootsJustified(s, components, Valued(t)) && RootEdgesMet(s, components, Valued(t))
    ensures k == |order| && OnlySelfCycles(View(s.adj)) ==> Solution(s, Valued(s), Valued(t)) && Solvable(s)
  {
    hide Owned, Mirrored, Prepared, OnlySelfCycles, JustifiedRoot, RootEdgesMet, RootOrder, RootSources,
      SourceOrder, Solution, Supported, SameEdges;
    PreparedOrder(s, components, c, order);
    PreparedFacts(s, components, c, order);
    if k == |order| {
      RootsAreMet(s, components, Valued(t));
      if OnlySelfCycles(View(s.adj)) {
        SingletonOrder(s, components, c, order);
        JustifiedSolves(s, order, Valued(t));
      }
    }
  }
}
