/** The adjacency-list container under the compiler's graphs (graph_lite.h): directed,
    no parallel edges, self-loops allowed, properties on nodes and edges. */
module GraphLite {
  import opened Digraphs
  import opened Options

  // Both directions of an edge name the same entry of the edge property list.
  type PropId = nat

  datatype Adjacency<P> = Adjacency(prop: P, outs: map<Node, PropId>, ins: map<Node, PropId>)

  // nextProp is the place of the next entry of the property list; owner tells the edge an
  // entry belongs to.
  datatype Store<P, E> = Store(adj: map<Node, Adjacency<P>>, edgeProps: map<PropId, E>, nextProp: PropId,
                               numEdges: int, owner: map<PropId, (Node, Node)>)

  // The edge from v to w as v's out-neighbours record it.
  ghost predicate HasOut<P, E>(s: Store<P, E>, v: Node, w: Node) {
    v in s.adj && w in s.adj[v].outs
  }

  // The edge from v to w as w's in-neighbours record it.
  ghost predicate HasIn<P, E>(s: Store<P, E>, v: Node, w: Node) {
    w in s.adj && v in s.adj[w].ins
  }

  // w is in out(v) with a property exactly when v is in in(w) with it, and both are nodes.
  ghost predicate Mirrored<P, E>(s: Store<P, E>) {
    && (forall v, w {:trigger HasOut(s, v, w)} {:trigger HasIn(s, v, w)} :: HasOut(s, v, w) <==> HasIn(s, v, w))
    && (forall v, w {:trigger HasOut(s, v, w)} | HasOut(s, v, w) && HasIn(s, v, w) ::
          s.adj[w].ins[v] == s.adj[v].outs[w])
  }

  // Every edge owns one entry of the property list, and every entry is owned.
  ghost predicate Owned<P, E>(s: Store<P, E>) {
    && s.owner.Keys == s.edgeProps.Keys
    && (forall i | i in s.edgeProps :: i < s.nextProp)
    && (forall v, w {:trigger HasOut(s, v, w)} | HasOut(s, v, w) ::
          s.adj[v].outs[w] in s.owner && s.owner[s.adj[v].outs[w]] == (v, w))
    && (forall i | i in s.owner ::
          HasOut(s, s.owner[i].0, s.owner[i].1) && s.adj[s.owner[i].0].outs[s.owner[i].1] == i)
  }

  ghost predicate Consistent<P, E>(s: Store<P, E>) {
    Mirrored(s) && Owned(s) && s.numEdges == |s.edgeProps|
  }

  // The graph without its properties.
  function View<P>(adj: map<Node, Adjacency<P>>): Digraph {
    Digraph(map v | v in adj :: adj[v].outs.Keys)
  }

  lemma ViewOf<P, E>(s: Store<P, E>)
    requires Mirrored(s)
    ensures View(s.adj).WellFormed() && View(s.adj).succ.Keys == s.adj.Keys
    ensures forall v: Node, w: Node {:trigger View(s.adj).Edge(v, w)} {:trigger HasOut(s, v, w)} ::
              View(s.adj).Edge(v, w) <==> HasOut(s, v, w)
    ensures forall v: Node | v in s.adj :: s.adj[v].ins.Keys == View(s.adj).Incoming(v)
  {
    forall v: Node, w: Node | v in s.adj && w in s.adj[v].outs ensures w in s.adj {
      assert HasOut(s, v, w);
    }
    forall v: Node, w: Node | v in s.adj ensures w in s.adj[v].ins <==> w in View(s.adj).Incoming(v) {
      assert HasOut(s, w, v) == HasIn(s, w, v);
    }
  }

  ghost function PropOf<P, E>(s: Store<P, E>, v: Node, w: Node): E
    requires Owned(s) && HasOut(s, v, w)
  {
    s.edgeProps[s.adj[v].outs[w]]
  }

  ghost function NodeAdded<P, E>(s: Store<P, E>, v: Node, prop: P): Store<P, E> {
    s.(adj := s.adj[v := Adjacency(prop, map[], map[])])
  }

  lemma NodeAddedEdges<P, E>(s: Store<P, E>, v: Node, prop: P, x: Node, y: Node)
    requires Mirrored(s) && v !in s.adj
    ensures var t := NodeAdded(s, v, prop);
            && HasOut(t, x, y) == HasOut(s, x, y) == HasIn(s, x, y) == HasIn(t, x, y)
            && (HasOut(s, x, y) ==> t.adj[x] == s.adj[x] && t.adj[y] == s.adj[y])
  {
    assert HasOut(s, x, y) == HasIn(s, x, y);
  }

  lemma NodeAddedKeeps<P, E>(s: Store<P, E>, v: Node, prop: P)
    requires Mirrored(s) && Owned(s) && v !in s.adj
    ensures Mirrored(NodeAdded(s, v, prop)) && Owned(NodeAdded(s, v, prop))
  {
    var t := NodeAdded(s, v, prop);
    forall x: Node, y: Node
      ensures HasOut(t, x, y) == HasOut(s, x, y) == HasIn(s, x, y) == HasIn(t, x, y)
      ensures HasOut(s, x, y) ==> t.adj[x] == s.adj[x] && t.adj[y] == s.adj[y]
    {
      NodeAddedEdges(s, v, prop, x, y);
    }
    assert t.owner == s.owner;
    forall i | i in t.owner
      ensures HasOut(t, t.owner[i].0, t.owner[i].1) && t.adj[t.owner[i].0].outs[t.owner[i].1] == i
    {
      assert HasOut(s, s.owner[i].0, s.owner[i].1);
    }
  }

  lemma NodeAddedConsistent<P, E>(s: Store<P, E>, v: Node, prop: P)
    requires Consistent(s) && Owned(s) && v !in s.adj
    ensures var t := NodeAdded(s, v, prop);
            && Consistent(t) && Owned(t)
            && (forall x: Node, y: Node {:trigger HasOut(t, x, y)} :: HasOut(t, x, y) <==> HasOut(s, x, y))
            && (forall x: Node, y: Node {:trigger PropOf(t, x, y)} | HasOut(t, x, y) ::
                PropOf(t, x, y) == PropOf(s, x, y))
  {
    hide Mirrored, Owned;
    NodeAddedKeeps(s, v, prop);
    forall x: Node, y: Node ensures HasOut(NodeAdded(s, v, prop), x, y) == HasOut(s, x, y) {
    }
  }

  ghost function EdgeAdded<P, E>(s: Store<P, E>, v: Node, w: Node, e: E): Store<P, E>
    requires v in s.adj && w in s.adj
  {
    var a := s.adj[v := s.adj[v].(outs := s.adj[v].outs[w := s.nextProp])];
    Store(a[w := a[w].(ins := a[w].ins[v := s.nextProp])], s.edgeProps[s.nextProp := e], s.nextProp + 1,
          s.numEdges + 1, s.owner[s.nextProp := (v, w)])
  }

  lemma EdgeAddedMirrored<P, E>(s: Store<P, E>, v: Node, w: Node, e: E)
    requires Mirrored(s) && v in s.adj && w in s.adj
    ensures Mirrored(EdgeAdded(s, v, w, e))
  {
    var t := EdgeAdded(s, v, w, e);
    forall x: Node, y: Node ensures HasOut(t, x, y) <==> HasIn(t, x, y) {
      assert HasOut(s, x, y) <==> HasIn(s, x, y);
    }
    forall x, y | HasOut(t, x, y) && HasIn(t, x, y) ensures t.adj[y].ins[x] == t.adj[x].outs[y] {
      assert (x, y) != (v, w) ==> HasOut(s, x, y) && HasIn(s, x, y);
    }
  }

  lemma EdgeAddedOuts<P, E>(s: Store<P, E>, v: Node, w: Node, e: E)
    requires v in s.adj && w in s.adj && !HasOut(s, v, w)
    ensures var t := EdgeAdded(s, v, w, e);
            forall x: Node, y: Node {:trigger HasOut(t, x, y)} ::
              && (HasOut(t, x, y) <==> HasOut(s, x, y) || (x == v && y == w))
              && (HasOut(t, x, y) ==> t.adj[x].outs[y] == if x == v && y == w then s.nextProp else s.adj[x].outs[y])
  {
  }

  lemma EdgeAddedOwned<P, E>(s: Store<P, E>, v: Node, w: Node, e: E)
    requires Owned(s) && v in s.adj && w in s.adj && !HasOut(s, v, w)
    ensures var t := EdgeAdded(s, v, w, e);
            && Owned(t)
            && (forall x: Node, y: Node {:trigger HasOut(t, x, y)} ::
                  HasOut(t, x, y) <==> HasOut(s, x, y) || (x == v && y == w))
            && (forall x: Node, y: Node {:trigger PropOf(t, x, y)} | HasOut(t, x, y) ::
                  PropOf(t, x, y) == if x == v && y == w then e else PropOf(s, x, y))
  {
    hide HasOut, Owned, PropOf;
    EdgeAddedOuts(s, v, w, e);
    EdgeAddedOwners(s, v, w, e);
    var t := EdgeAdded(s, v, w, e);
    forall x: Node, y: Node {:trigger PropOf(t, x, y)} | HasOut(t, x, y)
      ensures PropOf(t, x, y) == if x == v && y == w then e else PropOf(s, x, y)
    {
      PropIn(t, x, y);
      if HasOut(s, x, y) {
        PropIn(s, x, y);
      }
    }
  }

  lemma PropIn<P, E>(s: Store<P, E>, v: Node, w: Node)
    requires Owned(s) && HasOut(s, v, w)
    ensures v in s.adj && w in s.adj[v].outs && s.adj[v].outs[w] in s.edgeProps && s.adj[v].outs[w] < s.nextProp
    ensures PropOf(s, v, w) == s.edgeProps[s.adj[v].outs[w]]
  {
  }

  lemma EdgeAddedParts<P, E>(s: Store<P, E>, v: Node, w: Node, e: E)
    requires v in s.adj && w in s.adj
    ensures var t := EdgeAdded(s, v, w, e);
            t.owner == s.owner[s.nextProp := (v, w)] && t.edgeProps == s.edgeProps[s.nextProp := e]
            && t.nextProp == s.nextProp + 1
  {
  }

  lemma EdgeAddedOwners<P, E>(s: Store<P, E>, v: Node, w: Node, e: E)
    requires Owned(s) && v in s.adj && w in s.adj && !HasOut(s, v, w)
    ensures Owned(EdgeAdded(s, v, w, e))
  {
    hide HasOut, EdgeAdded;
    EdgeAddedParts(s, v, w, e);
    var t := EdgeAdded(s, v, w, e);
    EdgeAddedOuts(s, v, w, e);
    forall x: Node, y: Node | HasOut(t, x, y)
      ensures x in t.adj && y in t.adj[x].outs
      ensures t.adj[x].outs[y] in t.owner && t.owner[t.adj[x].outs[y]] == (x, y)
    {
      OutIn(t, x, y);
      if HasOut(s, x, y) {
        OutIn(s, x, y);
      }
    }
    forall j | j in t.owner
      ensures HasOut(t, t.owner[j].0, t.owner[j].1)
      ensures t.owner[j].0 in t.adj && t.owner[j].1 in t.adj[t.owner[j].0].outs
      ensures t.adj[t.owner[j].0].outs[t.owner[j].1] == j
    {
      if j != s.nextProp {
        OutIn(s, s.owner[j].0, s.owner[j].1);
      }
      OutIn(t, t.owner[j].0, t.owner[j].1);
    }
  }

  lemma OutIn<P, E>(s: Store<P, E>, v: Node, w: Node)
    ensures HasOut(s, v, w) <==> v in s.adj && w in s.adj[v].outs
  {
  }

  lemma EdgeAddedConsistent<P, E>(s: Store<P, E>, v: Node, w: Node, e: E)
    requires Consistent(s) && Owned(s) && v in s.adj && w in s.adj && !HasOut(s, v, w)
    ensures var t := EdgeAdded(s, v, w, e);
            && Consistent(t) && Owned(t)
            && (forall x: Node, y: Node {:trigger HasOut(t, x, y)} ::
                  HasOut(t, x, y) <==> HasOut(s, x, y) || (x == v && y == w))
            && (forall x: Node, y: Node {:trigger PropOf(t, x, y)} | HasOut(t, x, y) ::
                  PropOf(t, x, y) == if x == v && y == w then e else PropOf(s, x, y))
  {
    hide Mirrored, Owned, HasOut;
    EdgeAddedMirrored(s, v, w, e);
    EdgeAddedOwned(s, v, w, e);
    FreshProp(s);
  }

  ghost function EdgeRemoved<P, E>(s: Store<P, E>, v: Node, w: Node): Store<P, E>
    requires v in s.adj && w in s.adj && w in s.adj[v].outs
  {
    var i := s.adj[v].outs[w];
    var a := s.adj[v := s.adj[v].(outs := s.adj[v].outs - {w})];
    Store(a[w := a[w].(ins := a[w].ins - {v})], s.edgeProps - {i}, s.nextProp, s.numEdges - 1, s.owner - {i})
  }

  // The entries of the property list of the edges that touch v.
  ghost function Incident<P, E>(s: Store<P, E>, v: Node): set<PropId>
    requires v in s.adj
  {
    s.adj[v].outs.Values + s.adj[v].ins.Values
  }

  lemma IncidentByOwner<P, E>(s: Store<P, E>, v: Node, i: PropId)
    requires Mirrored(s) && Owned(s) && v in s.adj && i in s.owner
    ensures i in s.adj[v].outs.Values <==> s.owner[i].0 == v
    ensures i in s.adj[v].ins.Values <==> s.owner[i].1 == v
    ensures i in Incident(s, v) <==> s.owner[i].0 == v || s.owner[i].1 == v
  {
    var (x, y) := s.owner[i];
    assert HasOut(s, x, y) && HasIn(s, x, y);
    if i in s.adj[v].outs.Values {
      var w :| w in s.adj[v].outs && s.adj[v].outs[w] == i;
      assert HasOut(s, v, w);
    }
    if i in s.adj[v].ins.Values {
      var w :| w in s.adj[v].ins && s.adj[v].ins[w] == i;
      assert HasIn(s, w, v) && HasOut(s, w, v);
    }
  }

  lemma {:induction false} InjectiveValues(m: map<Node, PropId>)
    requires forall a, b | a in m && b in m && m[a] == m[b] :: a == b
    ensures |m.Values| == |m|
    decreases |m|
  {
    if m.Keys == {} {
      assert m.Values == {};
    } else {
      var a :| a in m.Keys;
      var rest := m - {a};
      assert m.Keys == rest.Keys + {a};
      InjectiveValues(rest);
      ValuesWithout(m, a);
    }
  }

  lemma ValuesWithout(m: map<Node, PropId>, a: Node)
    requires a in m && forall b | b in m && m[a] == m[b] :: a == b
    ensures m.Values == (m - {a}).Values + {m[a]} && m[a] !in (m - {a}).Values
  {
    var rest := m - {a};
    forall i | i in m.Values ensures i in rest.Values + {m[a]} {
      var b :| b in m && m[b] == i;
      assert b != a ==> rest[b] == i;
    }
  }

  // Every edge that touches v is counted once when v has no self-loop.
  lemma IncidentCount<P, E>(s: Store<P, E>, v: Node)
    requires Mirrored(s) && Owned(s) && v in s.adj && !HasOut(s, v, v)
    ensures Incident(s, v) <= s.edgeProps.Keys
    ensures |Incident(s, v)| == |s.adj[v].outs| + |s.adj[v].ins|
  {
    var outs, ins := s.adj[v].outs, s.adj[v].ins;
    forall w | w in outs ensures outs[w] in s.owner && s.owner[outs[w]] == (v, w) {
      assert HasOut(s, v, w);
    }
    forall w | w in ins ensures ins[w] in s.owner && s.owner[ins[w]] == (w, v) {
      assert HasIn(s, w, v) && HasOut(s, w, v);
    }
    InjectiveValues(outs);
    InjectiveValues(ins);
    forall i | i in outs.Values ensures i !in ins.Values {
      IncidentByOwner(s, v, i);
      assert s.owner[i].1 != v by { assert HasOut(s, v, s.owner[i].1); }
    }
  }

  // The graph without node v and the edges that touch it.
  ghost function NodeRemoved<P, E>(s: Store<P, E>, v: Node): Store<P, E>
    requires v in s.adj
  {
    var gone := Incident(s, v);
    Store(map x | x in s.adj && x != v :: Adjacency(s.adj[x].prop, s.adj[x].outs - {v}, s.adj[x].ins - {v}),
          s.edgeProps - gone, s.nextProp, s.numEdges - |s.adj[v].outs| - |s.adj[v].ins|, s.owner - gone)
  }

  // t has exactly the edges of s that cut does not hold of, with their properties.
  ghost predicate EdgesCut<P, E>(s: Store<P, E>, t: Store<P, E>, cut: (Node, Node) -> bool)
    requires Owned(s) && Owned(t)
  {
    && (forall x: Node, y: Node {:trigger HasOut(t, x, y)} :: HasOut(t, x, y) <==> HasOut(s, x, y) && !cut(x, y))
    && (forall x: Node, y: Node {:trigger PropOf(t, x, y)} | HasOut(t, x, y) :: PropOf(t, x, y) == PropOf(s, x, y))
  }

  // The edges cut holds of are gone from both directions.
  ghost predicate CutsEdges<P, E>(s: Store<P, E>, t: Store<P, E>, cut: (Node, Node) -> bool) {
    && (forall x: Node, y: Node {:trigger HasOut(t, x, y)} :: HasOut(t, x, y) <==> HasOut(s, x, y) && !cut(x, y))
    && (forall x: Node, y: Node {:trigger HasIn(t, x, y)} :: HasIn(t, x, y) <==> HasIn(s, x, y) && !cut(x, y))
    && (forall x: Node, y: Node {:trigger HasOut(t, x, y)} | HasOut(t, x, y) && HasOut(s, x, y) ::
          t.adj[x].outs[y] == s.adj[x].outs[y])
    && (forall x: Node, y: Node {:trigger HasIn(t, x, y)} | HasIn(t, x, y) && HasIn(s, x, y) ::
          t.adj[y].ins[x] == s.adj[y].ins[x])
  }

  // Their entries are gone from the property list.
  ghost predicate CutsProps<P, E>(s: Store<P, E>, t: Store<P, E>, cut: (Node, Node) -> bool) {
    && (forall i | i in s.owner :: i in t.owner <==> !cut(s.owner[i].0, s.owner[i].1))
    && (forall i | i in t.owner :: i in s.owner && t.owner[i] == s.owner[i])
    && t.edgeProps.Keys == t.owner.Keys && t.nextProp == s.nextProp
    && (forall i | i in t.edgeProps :: i in s.edgeProps && t.edgeProps[i] == s.edgeProps[i])
  }

  lemma CutMirrored<P, E>(s: Store<P, E>, t: Store<P, E>, cut: (Node, Node) -> bool)
    requires Mirrored(s) && CutsEdges(s, t, cut)
    ensures Mirrored(t)
  {
    forall x: Node, y: Node ensures HasOut(t, x, y) <==> HasIn(t, x, y) {
      assert HasOut(s, x, y) <==> HasIn(s, x, y);
    }
    forall x: Node, y: Node | HasOut(t, x, y) && HasIn(t, x, y) ensures t.adj[y].ins[x] == t.adj[x].outs[y] {
      assert HasOut(s, x, y) && HasIn(s, x, y);
    }
  }

  // Dropping edges together with their entries of the property list keeps ownership.
  lemma CutOwned<P, E>(s: Store<P, E>, t: Store<P, E>, cut: (Node, Node) -> bool)
    requires Owned(s) && CutsEdges(s, t, cut) && CutsProps(s, t, cut)
    ensures Owned(t) && EdgesCut(s, t, cut)
  {
    forall x: Node, y: Node | HasOut(t, x, y)
      ensures t.adj[x].outs[y] in t.owner && t.owner[t.adj[x].outs[y]] == (x, y)
    {
      assert HasOut(s, x, y);
    }
    forall i | i in t.owner
      ensures HasOut(t, t.owner[i].0, t.owner[i].1) && t.adj[t.owner[i].0].outs[t.owner[i].1] == i
    {
      assert HasOut(s, s.owner[i].0, s.owner[i].1);
    }
    assert Owned(t);
    forall x: Node, y: Node | HasOut(t, x, y) ensures PropOf(t, x, y) == PropOf(s, x, y) {
      assert HasOut(s, x, y);
    }
  }

  lemma EdgeRemovedCuts<P, E>(s: Store<P, E>, v: Node, w: Node)
    requires HasOut(s, v, w) && HasIn(s, v, w)
    ensures CutsEdges(s, EdgeRemoved(s, v, w), (x, y) => x == v && y == w)
  {
  }

  lemma EdgeRemovedCutsProps<P, E>(s: Store<P, E>, v: Node, w: Node)
    requires Mirrored(s) && Owned(s) && HasOut(s, v, w)
    ensures w in s.adj && CutsProps(s, EdgeRemoved(s, v, w), (x, y) => x == v && y == w)
  {
    OutHasIn(s, v, w);
  }

  lemma EdgeRemovedKeeps<P, E>(s: Store<P, E>, v: Node, w: Node)
    requires Mirrored(s) && Owned(s) && HasOut(s, v, w)
    ensures HasIn(s, v, w)
    ensures var t := EdgeRemoved(s, v, w);
            Mirrored(t) && Owned(t) && EdgesCut(s, t, (x, y) => x == v && y == w)
  {
    hide Mirrored, Owned, CutsEdges, CutsProps, EdgeRemoved;
    var cut := (x: Node, y: Node) => x == v && y == w;
    OutHasIn(s, v, w);
    var t := EdgeRemoved(s, v, w);
    EdgeRemovedCutsProps(s, v, w);
    EdgeRemovedCuts(s, v, w);
    CutMirrored(s, t, cut);
    CutOwned(s, t, cut);
  }

  lemma EdgeRemovedConsistent<P, E>(s: Store<P, E>, v: Node, w: Node)
    requires Consistent(s) && HasOut(s, v, w)
    ensures w in s.adj && Consistent(EdgeRemoved(s, v, w))
  {
    EdgeRemovedKeeps(s, v, w);
    OutHasIn(s, v, w);
    hide Mirrored, Owned;
    var i := s.adj[v].outs[w];
    assert (s.edgeProps - {i}).Keys == s.edgeProps.Keys - {i};
  }

  lemma NodeRemovedCuts<P, E>(s: Store<P, E>, v: Node)
    requires v in s.adj
    ensures CutsEdges(s, NodeRemoved(s, v), (x, y) => x == v || y == v)
  {
    hide Incident;
  }

  lemma NodeRemovedCutsProps<P, E>(s: Store<P, E>, v: Node)
    requires Mirrored(s) && Owned(s) && v in s.adj
    ensures CutsProps(s, NodeRemoved(s, v), (x, y) => x == v || y == v)
  {
    forall i | i in s.owner ensures i in Incident(s, v) <==> s.owner[i].0 == v || s.owner[i].1 == v {
      IncidentByOwner(s, v, i);
    }
    assert s.owner.Keys == s.edgeProps.Keys;
    hide Mirrored, Owned, Incident;
  }

  lemma NodeRemovedKeeps<P, E>(s: Store<P, E>, v: Node)
    requires Mirrored(s) && Owned(s) && v in s.adj && !HasOut(s, v, v)
    ensures var t := NodeRemoved(s, v);
            Mirrored(t) && Owned(t) && EdgesCut(s, t, (x, y) => x == v || y == v)
  {
    var cut := (x: Node, y: Node) => x == v || y == v;
    NodeRemovedCuts(s, v);
    NodeRemovedCutsProps(s, v);
    hide Mirrored, Owned, CutsEdges, CutsProps, NodeRemoved;
    CutMirrored(s, NodeRemoved(s, v), cut);
    CutOwned(s, NodeRemoved(s, v), cut);
  }

  ghost function OutDegrees<P, E>(s: Store<P, E>, vs: set<Node>): nat
    requires vs <= s.adj.Keys
  {
    if vs == {} then 0 else var v :| v in vs; |s.adj[v].outs| + OutDegrees(s, vs - {v})
  }

  ghost function OwnedFrom<P, E>(s: Store<P, E>, vs: set<Node>): set<PropId> {
    set i | i in s.owner && s.owner[i].0 in vs
  }

  lemma OwnedFromOne<P, E>(s: Store<P, E>, v: Node)
    requires Mirrored(s) && Owned(s) && v in s.adj
    ensures |OwnedFrom(s, {v})| == |s.adj[v].outs|
  {
    var outs := s.adj[v].outs;
    forall w | w in outs ensures outs[w] in s.owner && s.owner[outs[w]] == (v, w) {
      assert HasOut(s, v, w);
    }
    InjectiveValues(outs);
    forall i | i in s.owner ensures i in OwnedFrom(s, {v}) <==> i in outs.Values {
      IncidentByOwner(s, v, i);
    }
    assert OwnedFrom(s, {v}) == outs.Values;
  }

  lemma {:induction false} OutDegreesCount<P, E>(s: Store<P, E>, vs: set<Node>)
    requires Mirrored(s) && Owned(s) && vs <= s.adj.Keys
    ensures OutDegrees(s, vs) == |OwnedFrom(s, vs)|
  {
    hide Mirrored, Owned, HasOut;
    if vs == {} {
      assert OwnedFrom(s, vs) == {};
    } else {
      var v :| v in vs && OutDegrees(s, vs) == |s.adj[v].outs| + OutDegrees(s, vs - {v});
      OutDegreesCount(s, vs - {v});
      OwnedFromOne(s, v);
      OwnedFromSplit(s, vs, v);
    }
  }

  lemma OwnedFromSplit<P, E>(s: Store<P, E>, vs: set<Node>, v: Node)
    requires v in vs
    ensures |OwnedFrom(s, vs)| == |OwnedFrom(s, vs - {v})| + |OwnedFrom(s, {v})|
  {
    assert OwnedFrom(s, vs) == OwnedFrom(s, vs - {v}) + OwnedFrom(s, {v});
    assert OwnedFrom(s, vs - {v}) !! OwnedFrom(s, {v});
  }

  // num_of_edges is the sum of the out-degrees.
  lemma EdgeCountIsOutDegreeSum<P, E>(s: Store<P, E>)
    requires Consistent(s)
    ensures s.numEdges == OutDegrees(s, s.adj.Keys)
  {
    OutDegreesCount(s, s.adj.Keys);
    forall i | i in s.owner ensures s.owner[i].0 in s.adj.Keys {
      assert HasOut(s, s.owner[i].0, s.owner[i].1);
    }
    assert OwnedFrom(s, s.adj.Keys) == s.edgeProps.Keys;
  }

  // The property of a self-loop is listed in both directions of its node, so removing the
  // node erases that entry of the property list twice; without one, no entry is.
  lemma ErasedTwiceIffSelfLoop<P, E>(s: Store<P, E>, v: Node)
    requires Mirrored(s) && Owned(s) && v in s.adj
    ensures HasOut(s, v, v) <==> !(s.adj[v].outs.Values !! s.adj[v].ins.Values)
  {
    if HasOut(s, v, v) {
      assert HasIn(s, v, v);
      assert s.adj[v].outs[v] in s.adj[v].outs.Values && s.adj[v].ins[v] in s.adj[v].ins.Values;
    } else if i :| i in s.adj[v].outs.Values && i in s.adj[v].ins.Values {
      var w :| w in s.adj[v].outs && s.adj[v].outs[w] == i;
      assert HasOut(s, v, w);
      IncidentByOwner(s, v, i);
    }
  }

  lemma FreshProp<P, E>(s: Store<P, E>)
    requires Owned(s)
    ensures s.nextProp !in s.edgeProps
  {
  }

  lemma OutHasIn<P, E>(s: Store<P, E>, v: Node, w: Node)
    requires Mirrored(s) && Owned(s) && HasOut(s, v, w)
    ensures v in s.adj && w in s.adj && HasIn(s, v, w) && s.adj[v].outs[w] in s.edgeProps
  {
  }

  lemma PropSetCuts<P, E>(s: Store<P, E>, v: Node, prop: P)
    requires Owned(s) && v in s.adj
    ensures var t := s.(adj := s.adj[v := s.adj[v].(prop := prop)]);
            CutsEdges(s, t, (x, y) => false) && CutsProps(s, t, (x, y) => false)
  {
  }

  lemma PropSetKeeps<P, E>(s: Store<P, E>, v: Node, prop: P)
    requires Mirrored(s) && Owned(s) && v in s.adj
    ensures var t := s.(adj := s.adj[v := s.adj[v].(prop := prop)]); Mirrored(t) && Owned(t)
  {
    hide Mirrored, Owned, CutsEdges, CutsProps;
    var t := s.(adj := s.adj[v := s.adj[v].(prop := prop)]);
    var cut := (x: Node, y: Node) => false;
    PropSetCuts(s, v, prop);
    CutMirrored(s, t, cut);
    CutOwned(s, t, cut);
  }

  // What purging the edges out of v leaves of the adjacency lists, once those to done are gone.
  ghost function OutsPurged<P>(adj: map<Node, Adjacency<P>>, v: Node, done: set<Node>): map<Node, Adjacency<P>> {
    map x | x in adj :: if x in done && x != v then adj[x].(ins := adj[x].ins - {v}) else adj[x]
  }

  ghost function InsPurged<P>(adj: map<Node, Adjacency<P>>, v: Node, done: set<Node>): map<Node, Adjacency<P>> {
    map x | x in adj :: if x in done && x != v then adj[x].(outs := adj[x].outs - {v}) else adj[x]
  }

  ghost function ValuesAt(m: map<Node, PropId>, ks: set<Node>): set<PropId>
    requires ks <= m.Keys
  {
    set k | k in ks :: m[k]
  }

  lemma OutsPurgedStep<P>(adj: map<Node, Adjacency<P>>, v: Node, done: set<Node>, w: Node)
    requires w in adj && w !in done && v in adj
    ensures var a := OutsPurged(adj, v, done);
            && a.Keys == adj.Keys && a[v] == adj[v]
            && (if w == v then a else a[w := a[w].(ins := a[w].ins - {v})]) == OutsPurged(adj, v, done + {w})
  {
  }

  lemma InsPurgedStep<P>(adj: map<Node, Adjacency<P>>, v: Node, done: set<Node>, w: Node)
    requires w in adj && w !in done && v in adj
    ensures var a := InsPurged(adj, v, done);
            && a.Keys == adj.Keys && a[v] == adj[v]
            && (if w == v then a else a[w := a[w].(outs := a[w].outs - {v})]) == InsPurged(adj, v, done + {w})
  {
  }

  lemma ValuesAtStep(m: map<Node, PropId>, ks: set<Node>, w: Node)
    requires ks <= m.Keys && w in m && w !in ks
    requires forall a, b | a in m && b in m && m[a] == m[b] :: a == b
    ensures ValuesAt(m, ks + {w}) == ValuesAt(m, ks) + {m[w]} && m[w] !in ValuesAt(m, ks)
  {
  }

  lemma ValuesAtAll<P, E>(s: Store<P, E>, m: map<Node, PropId>, v: Node)
    ensures ValuesAt(m, m.Keys) == m.Values && ValuesAt(m, {}) == {}
    ensures OutsPurged(s.adj, v, {}) == s.adj && InsPurged(s.adj, v, {}) == s.adj
  {
  }

  lemma PurgedAt<P>(adj: map<Node, Adjacency<P>>, v: Node, x: Node, outs: set<Node>, ins: set<Node>)
    requires x in adj && v in adj && x != v
    ensures InsPurged(OutsPurged(adj, v, outs), v, ins)[x] ==
            Adjacency(adj[x].prop, if x in ins then adj[x].outs - {v} else adj[x].outs,
                      if x in outs then adj[x].ins - {v} else adj[x].ins)
  {
  }

  lemma Neighbours<P, E>(s: Store<P, E>, v: Node, x: Node)
    requires Mirrored(s) && v in s.adj && x in s.adj
    ensures (x in s.adj[v].ins <==> v in s.adj[x].outs) && (x in s.adj[v].outs <==> v in s.adj[x].ins)
  {
    assert HasOut(s, x, v) == HasIn(s, x, v) && HasOut(s, v, x) == HasIn(s, v, x);
  }

  lemma PurgedAdjacency<P, E>(s: Store<P, E>, v: Node)
    requires Mirrored(s) && v in s.adj && !HasOut(s, v, v)
    ensures InsPurged(OutsPurged(s.adj, v, s.adj[v].outs.Keys), v, s.adj[v].ins.Keys) - {v} == NodeRemoved(s, v).adj
  {
    hide Mirrored, HasOut, InsPurged, OutsPurged, NodeRemoved;
    var outs, ins := s.adj[v].outs.Keys, s.adj[v].ins.Keys;
    PurgedOwn(s.adj, v, outs, ins);
    RemovedKeys(s, v);
    forall x | x in s.adj && x != v
      ensures InsPurged(OutsPurged(s.adj, v, outs), v, ins)[x] == NodeRemoved(s, v).adj[x]
    {
      PurgedNode(s, v, x);
    }
  }

  lemma RemovedKeys<P, E>(s: Store<P, E>, v: Node)
    requires v in s.adj
    ensures NodeRemoved(s, v).adj.Keys == s.adj.Keys - {v}
    ensures forall x | x in s.adj && x != v ::
              NodeRemoved(s, v).adj[x] == Adjacency(s.adj[x].prop, s.adj[x].outs - {v}, s.adj[x].ins - {v})
  {
    hide Incident;
  }

  lemma PurgedNode<P, E>(s: Store<P, E>, v: Node, x: Node)
    requires Mirrored(s) && v in s.adj && x in s.adj && x != v
    ensures var a := InsPurged(OutsPurged(s.adj, v, s.adj[v].outs.Keys), v, s.adj[v].ins.Keys);
            x in a && a[x] == Adjacency(s.adj[x].prop, s.adj[x].outs - {v}, s.adj[x].ins - {v})
  {
    hide Mirrored, HasOut, InsPurged, OutsPurged;
    PurgedOwn(s.adj, v, s.adj[v].outs.Keys, s.adj[v].ins.Keys);
    Neighbours(s, v, x);
    PurgedAt(s.adj, v, x, s.adj[v].outs.Keys, s.adj[v].ins.Keys);
    WithoutAbsent(s.adj[x].outs, v);
    WithoutAbsent(s.adj[x].ins, v);
  }

  lemma MinusTwice<E>(m: map<PropId, E>, a: set<PropId>, b: set<PropId>)
    ensures m - a - b == m - (a + b)
  {
  }

  lemma PurgedOwn<P>(adj: map<Node, Adjacency<P>>, v: Node, outs: set<Node>, ins: set<Node>)
    requires v in adj
    ensures var a := OutsPurged(adj, v, outs);
            var b := InsPurged(a, v, ins);
            a.Keys == adj.Keys == b.Keys && a[v] == b[v] == adj[v]
  {
  }

  // Purging both directions and dropping v is the removal of v; v's own lists stay until then.
  lemma PurgedIsRemoved<P, E>(s: Store<P, E>, v: Node)
    requires Consistent(s) && v in s.adj && !HasOut(s, v, v)
    ensures var (outs, ins) := (s.adj[v].outs, s.adj[v].ins);
            var a := OutsPurged(s.adj, v, outs.Keys);
            var b := InsPurged(a, v, ins.Keys);
            && a.Keys == s.adj.Keys == b.Keys && a[v] == b[v] == s.adj[v] && v !in outs
            && Store(b - {v}, s.edgeProps - outs.Values - ins.Values, s.nextProp, s.numEdges - (|outs| + |ins|),
                     s.owner - Incident(s, v)) == NodeRemoved(s, v)
  {
    hide OutsPurged, InsPurged, Mirrored, Owned;
    PurgedAdjacency(s, v);
    PurgedOwn(s.adj, v, s.adj[v].outs.Keys, s.adj[v].ins.Keys);
    MinusTwice(s.edgeProps, s.adj[v].outs.Values, s.adj[v].ins.Values);
  }

  lemma NodeRemovedConsistent<P, E>(s: Store<P, E>, v: Node)
    requires Consistent(s) && v in s.adj && !HasOut(s, v, v)
    ensures Consistent(NodeRemoved(s, v))
  {
    NodeRemovedKeeps(s, v);
    IncidentCount(s, v);
    hide Mirrored, Owned;
    assert (s.edgeProps - Incident(s, v)).Keys == s.edgeProps.Keys - Incident(s, v);
  }

  lemma WithoutAbsent(m: map<Node, PropId>, v: Node)
    ensures v !in m ==> m - {v} == m
  {
  }

  lemma IncidentInProps<P, E>(s: Store<P, E>, v: Node)
    requires Consistent(s) && v in s.adj
    ensures s.adj[v].outs.Keys <= s.adj.Keys && s.adj[v].ins.Keys <= s.adj.Keys
    ensures s.adj[v].outs.Values <= s.edgeProps.Keys && s.adj[v].ins.Values <= s.edgeProps.Keys
    ensures forall a, b | a in s.adj[v].outs && b in s.adj[v].outs && s.adj[v].outs[a] == s.adj[v].outs[b] :: a == b
    ensures forall a, b | a in s.adj[v].ins && b in s.adj[v].ins && s.adj[v].ins[a] == s.adj[v].ins[b] :: a == b
  {
    forall w | w in s.adj[v].outs
      ensures w in s.adj && s.adj[v].outs[w] in s.owner && s.owner[s.adj[v].outs[w]] == (v, w)
    {
      assert HasOut(s, v, w) && HasIn(s, v, w);
    }
    forall w | w in s.adj[v].ins
      ensures w in s.adj && s.adj[v].ins[w] in s.owner && s.owner[s.adj[v].ins[w]] == (w, v)
    {
      assert HasIn(s, w, v) && HasOut(s, w, v);
    }
  }

  class DirectedGraph<P, E> {
    var adj: map<Node, Adjacency<P>>
    var edgeProps: map<PropId, E>
    var nextProp: PropId
    var numEdges: int
    ghost var owner: map<PropId, (Node, Node)>

    ghost function Now(): Store<P, E>
      reads this
    {
      Store(adj, edgeProps, nextProp, numEdges, owner)
    }

    ghost predicate Valid()
      reads this
    {
      Consistent(Now())
    }

    constructor ()
      ensures Valid() && adj == map[]
    {
      adj, edgeProps, nextProp, numEdges, owner := map[], map[], 0, 0, map[];
    }

    // add_node_with_prop: a no-op on a known node.
    method AddNode(v: Node, prop: P) returns (added: nat)
      requires Valid()
      modifies this
      ensures Valid()
      ensures added == if v in old(adj) then 0 else 1
      ensures Now() == if v in old(adj) then old(Now()) else NodeAdded(old(Now()), v, prop)
    {
      hide Mirrored, Owned;
      added := 0;
      if v !in adj {
        NodeAddedKeeps(Now(), v, prop);
        adj := adj[v := Adjacency(prop, map[], map[])];
        added := 1;
      }
    }
  
    // add_edge_with_prop: refused when an end point is unknown or the edge exists.
    method AddEdge(v: Node, w: Node, e: E) returns (added: nat)
      requires Valid()
      modifies this
      ensures Valid()
      ensures added == if v in old(adj) && w in old(adj) && w !in old(adj)[v].outs then 1 else 0
      ensures added == 0 ==> Now() == old(Now())
      ensures added == 1 ==> Now() == EdgeAdded(old(Now()), v, w, e)
    {
      hide Mirrored, Owned;
      if v !in adj || w !in adj {
        return 0;
      }
      if w in adj[v].outs {
        return 0;
      }
      EdgeAddedConsistent(Now(), v, w, e);
      var i := nextProp;
      edgeProps := edgeProps[i := e];
      nextProp := nextProp + 1;
      adj := adj[v := adj[v].(outs := adj[v].outs[w := i])];
      adj := adj[w := adj[w].(ins := adj[w].ins[v := i])];
      owner := owner[i := (v, w)];
      numEdges := numEdges + 1;
      return 1;
    }

    // get_edge: the outgoing edges of v are searched for w; None where the search falls through
    // and ends the program.
    method GetEdge(v: Node, w: Node) returns (e: Option<E>)
      requires Valid() && v in adj
      ensures e.Some? <==> HasOut(Now(), v, w)
      ensures e.Some? ==> e.value == PropOf(Now(), v, w)
    {
      var todo := adj[v].outs.Keys;
      while todo != {}
        invariant todo <= adj[v].outs.Keys && (HasOut(Now(), v, w) ==> w in todo)
        decreases todo
      {
        var n :| n in todo;
        if n == w {
          OutHasIn(Now(), v, w);
          return Some(edgeProps[adj[v].outs[w]]);
        }
        todo := todo - {n};
      }
      return None;
    }

    // The property that w's incoming edge from v carries is the one v's outgoing edge has.
    method IncomingProp(v: Node, w: Node) returns (e: E)
      requires Valid() && HasOut(Now(), v, w)
      ensures e == PropOf(Now(), v, w)
    {
      OutHasIn(Now(), v, w);
      e := edgeProps[adj[w].ins[v]];
    }

    // remove_edge by iterator: the edge is there.
    method RemoveEdge(v: Node, w: Node)
      requires Valid() && HasOut(Now(), v, w)
      modifies this
      ensures Valid()
      ensures w in old(adj) && Now() == EdgeRemoved(old(Now()), v, w)
    {
      hide Mirrored, Owned;
      EdgeRemovedConsistent(Now(), v, w);
      var i := adj[v].outs[w];
      edgeProps := edgeProps - {i};
      adj := adj[v := adj[v].(outs := adj[v].outs - {w})];
      adj := adj[w := adj[w].(ins := adj[w].ins - {v})];
      owner := owner - {i};
      numEdges := numEdges - 1;
    }

    method EraseProp(i: PropId)
      requires i in edgeProps
      modifies this`edgeProps
      ensures edgeProps == old(edgeProps) - {i}
    {
      edgeProps := edgeProps - {i};
    }

    // purge_edge_with<true>.
    method PurgeOuts(v: Node)
      requires v in adj && adj[v].outs.Keys <= adj.Keys && adj[v].outs.Values <= edgeProps.Keys
      requires forall a, b | a in adj[v].outs && b in adj[v].outs && adj[v].outs[a] == adj[v].outs[b] :: a == b
      modifies this`adj, this`edgeProps
      ensures adj == OutsPurged(old(adj), v, old(adj)[v].outs.Keys)
      ensures edgeProps == old(edgeProps) - old(adj)[v].outs.Values
    {
      hide OutsPurged, InsPurged, ValuesAt;
      ghost var m := adj[v].outs;
      var todo := adj[v].outs.Keys;
      ValuesAtAll(Now(), m, v);
      assert m.Keys - todo == {};
      while todo != {}
        invariant todo <= m.Keys && v in adj && adj.Keys == old(adj).Keys && adj[v].outs == m
        invariant adj == OutsPurged(old(adj), v, m.Keys - todo)
        invariant edgeProps == old(edgeProps) - ValuesAt(m, m.Keys - todo)
      {
        var w :| w in todo;
        OutsPurgedStep(old(adj), v, m.Keys - todo, w);
        ValuesAtStep(m, m.Keys - todo, w);
        assert m.Keys - (todo - {w}) == m.Keys - todo + {w};
        if w != v {
          adj := adj[w := adj[w].(ins := adj[w].ins - {v})];
        }
        EraseProp(adj[v].outs[w]);
        todo := todo - {w};
      }
      assert m.Keys - todo == m.Keys;
    }

    // purge_edge_with<false>. Without success an entry of the property list was erased before,
    // and erasing it again is undefined.
    method PurgeIns(v: Node) returns (ok: bool)
      requires v in adj && adj[v].ins.Keys <= adj.Keys
      requires forall a, b | a in adj[v].ins && b in adj[v].ins && adj[v].ins[a] == adj[v].ins[b] :: a == b
      modifies this`adj, this`edgeProps
      ensures ok <==> old(adj)[v].ins.Values <= old(edgeProps).Keys
      ensures ok ==> adj == InsPurged(old(adj), v, old(adj)[v].ins.Keys)
      ensures ok ==> edgeProps == old(edgeProps) - old(adj)[v].ins.Values
    {
      hide OutsPurged, InsPurged, ValuesAt;
      ghost var m := adj[v].ins;
      var todo := adj[v].ins.Keys;
      ValuesAtAll(Now(), m, v);
      assert m.Keys - todo == {};
      while todo != {}
        invariant todo <= m.Keys && v in adj && adj.Keys == old(adj).Keys && adj[v].ins == m
        invariant adj == InsPurged(old(adj), v, m.Keys - todo)
        invariant ValuesAt(m, m.Keys - todo) <= old(edgeProps).Keys
        invariant edgeProps == old(edgeProps) - ValuesAt(m, m.Keys - todo)
      {
        var w :| w in todo;
        InsPurgedStep(old(adj), v, m.Keys - todo, w);
        ValuesAtStep(m, m.Keys - todo, w);
        assert m.Keys - (todo - {w}) == m.Keys - todo + {w};
        if w != v {
          adj := adj[w := adj[w].(outs := adj[w].outs - {v})];
        }
        if adj[v].ins[w] !in edgeProps {
          assert m[w] in m.Values;
          return false;
        }
        EraseProp(adj[v].ins[w]);
        todo := todo - {w};
      }
      assert m.Keys - todo == m.Keys;
      return true;
    }

    // remove_nodes. None where the removal is undefined, which is for a node with a self-loop.
    method RemoveNode(v: Node) returns (removed: Option<nat>)
      requires Valid()
      modifies this
      ensures removed.None? <==> HasOut(old(Now()), v, v)
      ensures removed.Some? ==> Valid() && removed.value == if v in old(adj) then 1 else 0
      ensures removed.Some? && v !in old(adj) ==> Now() == old(Now())
      ensures removed.Some? && v in old(adj) ==> Now() == NodeRemoved(old(Now()), v)
    {
      hide Consistent, OutsPurged, InsPurged, NodeRemoved, Incident, PropOf;
      if v !in adj {
        return Some(0);
      }
      ghost var s := Now();
      var ok := PurgeBoth(v);
      if !ok {
        return None;
      }
      NodeRemovedConsistent(s, v);
      PurgedIsRemoved(s, v);
      var purged := |adj[v].outs| + |adj[v].ins| - (if v in adj[v].outs then 1 else 0);
      numEdges := numEdges - purged;
      adj := adj - {v};
      owner := owner - Incident(s, v);
      assert Now() == NodeRemoved(s, v);
      return Some(1);
    }

    // Both directions of v's edges.
    method PurgeBoth(v: Node) returns (ok: bool)
      requires Valid() && v in adj
      modifies this`adj, this`edgeProps
      ensures ok <==> !HasOut(old(Now()), v, v)
      ensures ok ==> adj == InsPurged(OutsPurged(old(adj), v, old(adj)[v].outs.Keys), v, old(adj)[v].ins.Keys)
      ensures ok ==> edgeProps == old(edgeProps) - old(adj)[v].outs.Values - old(adj)[v].ins.Values
      ensures ok ==> v in adj && adj[v] == old(adj)[v]
    {
      hide Mirrored, Owned, OutsPurged, InsPurged, NodeRemoved, Incident, HasOut, PropOf;
      ghost var m := edgeProps;
      IncidentInProps(Now(), v);
      ErasedTwiceIffSelfLoop(Now(), v);
      PurgedOwn(adj, v, adj[v].outs.Keys, adj[v].ins.Keys);
      PurgeOuts(v);
      assert adj[v].ins.Values <= m.Keys;
      ok := PurgeIns(v);
    }

    method SetNodeProp(v: Node, prop: P)
      requires Valid() && v in adj
      modifies this`adj
      ensures Valid() && adj == old(adj)[v := old(adj)[v].(prop := prop)]
    {
      hide Mirrored, Owned;
      PropSetKeeps(Now(), v, prop);
      adj := adj[v := adj[v].(prop := prop)];
    }
  }
}
