/** Strongly connected components (Graph.hpp, tarjan_scc and its helper). */
module TarjanScc {
  import opened Digraphs
  import opened Arithmetic

  // The variables the recursive helper shares by reference, but for the low links.
  // done is the set of all nodes already put in a component.
  datatype State = State(index: nat, indices: map<Node, nat>, stack: seq<Node>,
                         components: map<Node, set<Node>>, done: set<Node>)

  // c holds, with each of its nodes, exactly the nodes mutually reachable with it.
  ghost predicate IsScc(g: Digraph, c: set<Node>) {
    forall x, y | x in c :: y in c <==> Mutual(g, x, y)
  }

  ghost predicate InSome(components: map<Node, set<Node>>, v: Node) {
    exists r :: r in components && v in components[r]
  }

  ghost predicate Shape(g: Digraph, s: State, active: set<Node>) {
    && (forall v | v in s.indices :: v in g.succ && s.indices[v] < s.index)
    && (forall v | v in s.stack :: v in s.indices && v !in s.done)
    && (forall v | v in s.done :: v in s.indices)
    && (forall v | v in s.indices :: v in s.stack || v in s.done)
    && (forall i, j | 0 <= i < j < |s.stack| :: s.indices[s.stack[i]] < s.indices[s.stack[j]])
    && (forall v | v in active :: v in s.stack)
  }

  // v reaches a call in progress that was entered no later than v.
  ghost predicate ReachesActive(g: Digraph, s: State, active: set<Node>, v: Node)
    requires Shape(g, s, active) && v in s.indices
  {
    exists a :: a in active && s.indices[a] <= s.indices[v] && Reaches(g, v, a)
  }

  // Calls in progress reach everything stacked since; everything stacked reaches back to one.
  ghost predicate Linked(g: Digraph, s: State, active: set<Node>)
    requires Shape(g, s, active)
  {
    && (forall a, v | a in active && v in s.stack && s.indices[a] <= s.indices[v] :: Reaches(g, a, v))
    && (forall v {:trigger ReachesActive(g, s, active, v)} | v in s.stack :: ReachesActive(g, s, active, v))
  }

  ghost predicate Explored(g: Digraph, s: State, active: set<Node>) {
    && (forall v, w | v in s.indices && v !in active && g.Edge(v, w) :: w in s.indices)
    && Closed(g, s.done)
    && (forall r | r in s.components :: r in s.components[r] && s.components[r] <= s.done)
    && (forall r, q | r in s.components && q in s.components && r != q :: s.components[r] !! s.components[q])
    && (forall r {:trigger IsScc(g, s.components[r])} | r in s.components :: IsScc(g, s.components[r]))
    && (forall v {:trigger InSome(s.components, v)} | v in s.done :: InSome(s.components, v))
  }

  ghost predicate Inv(g: Digraph, s: State, active: set<Node>) {
    g.WellFormed() && Shape(g, s, active) && Linked(g, s, active) && Explored(g, s, active)
  }

  // t continues s: nothing recorded in s is lost.
  ghost predicate Extends(s: State, t: State) {
    && s.stack <= t.stack && s.index <= t.index && s.done <= t.done
    && (forall v | v in s.indices :: v in t.indices && t.indices[v] == s.indices[v])
    && (forall v | v in t.indices && v !in s.indices :: s.index <= t.indices[v])
    && (forall r | r in s.components :: r in t.components && t.components[r] == s.components[r])
  }

  // The low links of the nodes known in s are as they were.
  ghost predicate LowKept(s: State, low: map<Node, nat>, low': map<Node, nat>) {
    forall v | v in s.indices && v in low :: v in low' && low'[v] == low[v]
  }

  // low bounds the index of every stacked node below n that an edge from n or above enters,
  // except for the edges of n that are still pending.
  ghost predicate LowBounds(g: Digraph, s: State, n: Node, low: nat, pending: set<Node>)
    requires n in s.indices
    requires forall v | v in s.stack :: v in s.indices
  {
    forall x, y | x in s.stack && y in s.stack && s.indices[y] < s.indices[n] <= s.indices[x]
                  && g.Edge(x, y) && !(x == n && y in pending) ::
      low <= s.indices[y]
  }

  ghost predicate LowReached(g: Digraph, s: State, n: Node, low: nat)
    requires forall v | v in s.stack :: v in s.indices
  {
    exists y :: y in s.stack && s.indices[y] == low && Reaches(g, n, y)
  }

  // What the helper has established for n while the edges to pending are still to be followed.
  ghost predicate Running(g: Digraph, s0: State, s: State, low: nat, active: set<Node>, n: Node, pending: set<Node>) {
    && Inv(g, s, active + {n})
    && Extends(s0, s)
    && |s0.stack| < |s.stack| && s.stack[|s0.stack|] == n && s.indices[n] == s0.index
    && low <= s.indices[n]
    && LowReached(g, s, n, low)
    && LowBounds(g, s, n, low, pending)
    && pending <= g.succ[n]
    && (forall w | w in g.succ[n] && w !in pending :: w in s.indices)
  }

  // What the helper leaves behind for n.
  ghost predicate Visited(g: Digraph, s0: State, s: State, low: nat, active: set<Node>, n: Node) {
    && Inv(g, s, active)
    && Extends(s0, s)
    && n in s.indices && s.indices[n] == s0.index
    && LowBounds(g, s, n, low, {})
    && (if n in s.stack then low < s.indices[n] && LowReached(g, s, n, low) else low == s.indices[n])
  }

  // The helper's entry condition.
  ghost predicate Fresh(g: Digraph, s: State, active: set<Node>, n: Node) {
    && Inv(g, s, active)
    && n in g.succ && n !in s.indices
    && n !in active
    && (forall a | a in active :: Reaches(g, a, n))
  }

  ghost function Enter(s: State, n: Node): State {
    s.(index := s.index + 1, indices := s.indices[n := s.index], stack := s.stack + [n])
  }

  lemma EnterLinks(g: Digraph, s: State, active: set<Node>, n: Node)
    requires Fresh(g, s, active, n)
    requires Shape(g, Enter(s, n), active + {n})
    ensures Linked(g, Enter(s, n), active + {n})
  {
    ReachesSelf(g, n);
    var t := Enter(s, n);
    forall a, v | a in active + {n} && v in t.stack && t.indices[a] <= t.indices[v]
      ensures Reaches(g, a, v)
    {
      if v != n {
        assert v in s.stack && a in active && s.indices[a] <= s.indices[v];
      }
    }
    forall v | v in t.stack ensures ReachesActive(g, t, active + {n}, v) {
      if v != n {
        assert ReachesActive(g, s, active, v);
        var a :| a in active && s.indices[a] <= s.indices[v] && Reaches(g, v, a);
        assert a in active + {n} && t.indices[a] <= t.indices[v];
      } else {
        assert n in active + {n} && t.indices[n] <= t.indices[v];
      }
    }
  }

  lemma EnterExplores(g: Digraph, s: State, active: set<Node>, n: Node)
    requires Fresh(g, s, active, n)
    ensures Shape(g, Enter(s, n), active + {n}) && Explored(g, Enter(s, n), active + {n})
  {
    var t := Enter(s, n);
    assert t.components == s.components && t.done == s.done;
  }

  lemma EnterRuns(g: Digraph, s: State, active: set<Node>, n: Node)
    requires Fresh(g, s, active, n)
    ensures Running(g, s, Enter(s, n), s.index, active, n, g.succ[n])
  {
    EnterExplores(g, s, active, n);
    EnterLinks(g, s, active, n);
    ReachesSelf(g, n);
    assert Enter(s, n).stack[|s.stack|] == n;
  }

  // One edge from n or above to a stacked node below n, after the recursive call on w.
  lemma TreeEdgeBound(g: Digraph, s0: State, s: State, low: nat, t: State, lowW: nat,
                      active: set<Node>, n: Node, pending: set<Node>, w: Node, x: Node, y: Node)
    requires Running(g, s0, s, low, active, n, pending)
    requires w in pending && Visited(g, s, t, lowW, active + {n}, w)
    requires x in t.stack && y in t.stack && t.indices[y] < t.indices[n] <= t.indices[x] && g.Edge(x, y)
    requires !(x == n && y in pending - {w})
    ensures Min(low, lowW) <= t.indices[y]
  {
    hide Linked, Explored, Reaches;
    assert y in s.indices && y !in s.done;
    assert y in s.stack;
    if x in s.indices {
      assert x !in s.done;
      assert x in s.stack;
      assert y != w;
    }
  }

  // Bounds on the edges of n and above survive the recursive call on w.
  lemma TreeEdgeLow(g: Digraph, s0: State, s: State, low: nat, t: State, lowW: nat,
                    active: set<Node>, n: Node, pending: set<Node>, w: Node)
    requires Running(g, s0, s, low, active, n, pending)
    requires w in pending && Visited(g, s, t, lowW, active + {n}, w)
    ensures LowBounds(g, t, n, Min(low, lowW), pending - {w})
  {
    hide Running, Visited, Linked, Explored, Reaches;
    TreeEdgeKnown(g, s0, s, low, t, lowW, active, n, pending, w);
    forall x, y | x in t.stack && y in t.stack && t.indices[y] < t.indices[n] <= t.indices[x]
                  && g.Edge(x, y) && !(x == n && y in pending - {w})
      ensures Min(low, lowW) <= t.indices[y]
    {
      TreeEdgeBound(g, s0, s, low, t, lowW, active, n, pending, w, x, y);
    }
  }

  lemma TreeEdgeKnown(g: Digraph, s0: State, s: State, low: nat, t: State, lowW: nat,
                      active: set<Node>, n: Node, pending: set<Node>, w: Node)
    requires Running(g, s0, s, low, active, n, pending)
    requires w in pending && Visited(g, s, t, lowW, active + {n}, w)
    ensures n in t.indices && forall v | v in t.stack :: v in t.indices
  {
  }

  lemma TreeEdgeReached(g: Digraph, s0: State, s: State, low: nat, t: State, lowW: nat,
                        active: set<Node>, n: Node, pending: set<Node>, w: Node)
    requires Running(g, s0, s, low, active, n, pending)
    requires w in pending && Visited(g, s, t, lowW, active + {n}, w)
    ensures LowReached(g, t, n, Min(low, lowW))
  {
    hide Linked, Explored, LowBounds, Reaches;
    if lowW < low {
      var y :| y in t.stack && t.indices[y] == lowW && Reaches(g, w, y);
      ReachesEdge(g, n, w);
      ReachesTrans(g, n, w, y);
    } else {
      var y :| y in s.stack && s.indices[y] == low && Reaches(g, n, y);
      assert y in t.stack;
    }
  }

  lemma ExtendsTrans(s: State, t: State, u: State)
    requires Extends(s, t) && Extends(t, u)
    ensures Extends(s, u)
  {
  }

  lemma RunningFacts(g: Digraph, s0: State, s: State, low: nat, active: set<Node>, n: Node, pending: set<Node>)
    requires Fresh(g, s0, active, n) && Running(g, s0, s, low, active, n, pending)
    ensures n in g.succ && n !in s0.indices && n in s.indices && low <= s.indices[n]
    ensures Extends(s0, s)
    ensures |s0.stack| < |s.stack| && s.stack[|s0.stack|] == n && n !in s.stack[|s0.stack| + 1..]
  {
  }

  lemma LowKeptTrans(s0: State, s: State, low0: map<Node, nat>, low: map<Node, nat>, low': map<Node, nat>)
    requires Extends(s0, s) && LowKept(s0, low0, low) && LowKept(s, low, low')
    ensures LowKept(s0, low0, low')
  {
  }

  // After the recursive call on w.
  lemma TreeEdge(g: Digraph, s0: State, s: State, low: nat, t: State, lowW: nat,
                 active: set<Node>, n: Node, pending: set<Node>, w: Node)
    requires Running(g, s0, s, low, active, n, pending)
    requires w in pending && Visited(g, s, t, lowW, active + {n}, w)
    ensures Running(g, s0, t, Min(low, lowW), active, n, pending - {w})
  {
    TreeEdgeLow(g, s0, s, low, t, lowW, active, n, pending, w);
    TreeEdgeReached(g, s0, s, low, t, lowW, active, n, pending, w);
    ExtendsTrans(s0, s, t);
  }

  // An edge to an indexed node w; only a stacked w touches the low link.
  lemma OtherEdge(g: Digraph, s0: State, s: State, low: nat, active: set<Node>, n: Node, pending: set<Node>, w: Node)
    requires Running(g, s0, s, low, active, n, pending)
    requires w in pending && w in s.indices
    ensures Running(g, s0, s, if w in s.stack then Min(low, s.indices[w]) else low, active, n, pending - {w})
  {
    ReachesEdge(g, n, w);
  }

  // Every call in progress reaches the node the next call is for.
  lemma ReachAllActive(g: Digraph, s0: State, s: State, low: nat, active: set<Node>, n: Node, w: Node,
                       pending: set<Node>)
    requires Fresh(g, s0, active, n) && Running(g, s0, s, low, active, n, pending)
    requires w in pending && w !in s.indices
    ensures Fresh(g, s, active + {n}, w)
  {
    ReachesSelf(g, n);
    ReachesEdge(g, n, w);
    forall a | a in active + {n} ensures Reaches(g, a, w) {
      if a != n {
        ReachesTrans(g, a, n, w);
      }
    }
  }

  // The nodes stacked since n was entered, once the low link of n is its own index.
  ghost function Popped(s: State, k: nat): set<Node>
    requires k <= |s.stack|
  {
    set v | v in s.stack[k..]
  }

  lemma PoppedByIndex(g: Digraph, s: State, active: set<Node>, k: nat, v: Node)
    requires Shape(g, s, active) && k < |s.stack| && v in s.stack
    ensures v in Popped(s, k) <==> s.indices[s.stack[k]] <= s.indices[v]
  {
    var i :| 0 <= i < |s.stack| && s.stack[i] == v;
    if k <= i {
      assert s.stack[k..][i - k] == v;
    }
  }

  // Nothing is reachable from the popped nodes but them and finished ones.
  lemma PoppedClosed(g: Digraph, s0: State, s: State, active: set<Node>, n: Node)
    requires Fresh(g, s0, active, n) && n in s.indices
    requires Running(g, s0, s, s.indices[n], active, n, {})
    ensures Closed(g, s.done + Popped(s, |s0.stack|))
  {
    var p := Popped(s, |s0.stack|);
    forall x, y | x in s.done + p && g.Edge(x, y) ensures y in s.done + p {
      if x !in s.done {
        PoppedByIndex(g, s, active + {n}, |s0.stack|, x);
        if y !in s.done {
          assert x !in active;
          assert y in s.indices;
          assert y in s.stack;
          PoppedByIndex(g, s, active + {n}, |s0.stack|, y);
        }
      }
    }
  }

  lemma PoppedIsFresh(g: Digraph, s: State, active: set<Node>, k: nat)
    requires Shape(g, s, active) && k <= |s.stack|
    ensures Popped(s, k) !! s.done
  {
    forall v | v in Popped(s, k) ensures v !in s.done {
      var i :| k <= i < |s.stack| && s.stack[i] == v;
      assert v in s.stack;
    }
  }

  lemma PoppedIsMutual(g: Digraph, s: State, active: set<Node>, k: nat, n: Node, x: Node)
    requires Shape(g, s, active + {n}) && Linked(g, s, active + {n})
    requires k < |s.stack| && s.stack[k] == n && x in Popped(s, k)
    requires Closed(g, s.done + Popped(s, k))
    requires forall a | a in active :: s.indices[a] < s.indices[n]
    ensures Mutual(g, n, x)
  {
    hide Reaches, Closed;
    var p := Popped(s, k);
    assert x in s.stack;
    PoppedByIndex(g, s, active + {n}, k, x);
    assert ReachesActive(g, s, active + {n}, x);
    var a :| a in active + {n} && s.indices[a] <= s.indices[x] && Reaches(g, x, a);
    ClosedKeepsPaths(g, s.done + p, x, a);
    assert a in s.stack;
    PoppedByIndex(g, s, active + {n}, k, a);
  }

  // A set of nodes mutual with n, closed but for edges into a closed set, is n's component.
  lemma ClosedMutualIsScc(g: Digraph, done: set<Node>, p: set<Node>, n: Node)
    requires Closed(g, done) && Closed(g, done + p) && p !! done
    requires forall x | x in p :: Mutual(g, n, x)
    ensures IsScc(g, p)
  {
    forall x, y | x in p ensures y in p <==> Mutual(g, x, y) {
      if y in p {
        ReachesTrans(g, x, n, y);
        ReachesTrans(g, y, n, x);
      }
      if Mutual(g, x, y) {
        ClosedKeepsPaths(g, done + p, x, y);
        if y in done {
          ClosedKeepsPaths(g, done, y, x);
        }
      }
    }
  }

  lemma PoppedIsScc(g: Digraph, s0: State, s: State, active: set<Node>, n: Node)
    requires Fresh(g, s0, active, n) && n in s.indices
    requires Running(g, s0, s, s.indices[n], active, n, {})
    ensures n in Popped(s, |s0.stack|) && IsScc(g, Popped(s, |s0.stack|))
  {
    hide Linked, IsScc, Closed, Mutual, LowBounds, LowReached;
    var p := Popped(s, |s0.stack|);
    PoppedByIndex(g, s, active + {n}, |s0.stack|, n);
    PoppedClosed(g, s0, s, active, n);
    PoppedIsFresh(g, s, active + {n}, |s0.stack|);
    forall x | x in p ensures Mutual(g, n, x) {
      PoppedIsMutual(g, s, active, |s0.stack|, n, x);
    }
    ClosedMutualIsScc(g, s.done, p, n);
  }

  ghost function Leave(s: State, k: nat, n: Node): State
    requires k <= |s.stack|
  {
    s.(stack := s.stack[..k], components := s.components[n := Popped(s, k)], done := s.done + Popped(s, k))
  }

  // The stack falls apart into what lies below position k and what is popped.
  lemma StackSplits(g: Digraph, s: State, active: set<Node>, k: nat, v: Node)
    requires Shape(g, s, active) && k < |s.stack|
    ensures v in s.stack <==> v in s.stack[..k] || v in Popped(s, k)
    ensures v in s.stack[..k] ==> v !in Popped(s, k) && s.indices[v] < s.indices[s.stack[k]]
  {
    assert s.stack == s.stack[..k] + s.stack[k..];
    if v in s.stack[..k] {
      var i :| 0 <= i < k && s.stack[i] == v;
      PoppedByIndex(g, s, active, k, v);
    }
  }

  lemma LeaveShape(g: Digraph, s0: State, s: State, active: set<Node>, n: Node)
    requires Fresh(g, s0, active, n)
    requires Shape(g, s, active + {n}) && Extends(s0, s) && |s0.stack| < |s.stack| && s.stack[|s0.stack|] == n
    ensures Shape(g, Leave(s, |s0.stack|, n), active)
    ensures forall v | v in s0.stack :: v in s.indices && s.indices[v] < s.indices[n]
  {
    hide Popped;
    var k := |s0.stack|;
    var t := Leave(s, k, n);
    assert t.stack == s0.stack == s.stack[..k];
    forall v | v in s.stack ensures v in t.stack || v in t.done {
      StackSplits(g, s, active + {n}, k, v);
    }
    forall v | v in t.stack ensures v in s.stack && v !in t.done && s.indices[v] < s.indices[n] {
      StackSplits(g, s, active + {n}, k, v);
    }
    forall v | v in t.done ensures v in t.indices {
      StackSplits(g, s, active + {n}, k, v);
    }
  }

  lemma LeaveLinks(g: Digraph, s0: State, s: State, active: set<Node>, n: Node)
    requires Fresh(g, s0, active, n) && n in s.indices
    requires Running(g, s0, s, s.indices[n], active, n, {})
    requires Shape(g, Leave(s, |s0.stack|, n), active)
    requires forall v | v in s0.stack :: s.indices[v] < s.indices[n]
    ensures Linked(g, Leave(s, |s0.stack|, n), active)
  {
    hide Explored, LowBounds, LowReached, Reaches;
    var t := Leave(s, |s0.stack|, n);
    assert t.stack == s0.stack;
    forall a, v | a in active && v in t.stack && t.indices[a] <= t.indices[v] ensures Reaches(g, a, v) {
      assert a in active + {n} && v in s.stack && s.indices[a] <= s.indices[v];
    }
    forall v | v in t.stack ensures ReachesActive(g, t, active, v) {
      assert v in s.stack;
      assert ReachesActive(g, s, active + {n}, v);
      var a :| a in active + {n} && s.indices[a] <= s.indices[v] && Reaches(g, v, a);
      assert a in active && t.indices[a] <= t.indices[v];
    }
  }

  // Adding a closed component that is disjoint from the finished ones.
  lemma AddComponent(g: Digraph, components: map<Node, set<Node>>, done: set<Node>, n: Node, p: set<Node>)
    requires forall r | r in components :: r in components[r] && components[r] <= done
    requires forall r, q | r in components && q in components && r != q :: components[r] !! components[q]
    requires forall r {:trigger IsScc(g, components[r])} | r in components :: IsScc(g, components[r])
    requires forall v {:trigger InSome(components, v)} | v in done :: InSome(components, v)
    requires n in p && p !! done && IsScc(g, p) && n !in components
    ensures var cs := components[n := p];
            && (forall r | r in cs :: r in cs[r] && cs[r] <= done + p)
            && (forall r, q | r in cs && q in cs && r != q :: cs[r] !! cs[q])
            && (forall r {:trigger IsScc(g, cs[r])} | r in cs :: IsScc(g, cs[r]))
            && (forall v {:trigger InSome(cs, v)} | v in done + p :: InSome(cs, v))
  {
    var cs := components[n := p];
    forall r | r in cs ensures IsScc(g, cs[r]) {
      assert r != n ==> IsScc(g, components[r]);
    }
    forall v | v in done + p ensures InSome(cs, v) {
      if v in p {
        assert n in cs && v in cs[n];
      } else {
        assert InSome(components, v);
        var r :| r in components && v in components[r];
        assert r in cs && v in cs[r];
      }
    }
  }

  lemma LeaveExplores(g: Digraph, s0: State, s: State, active: set<Node>, n: Node)
    requires Fresh(g, s0, active, n) && n in s.indices
    requires Running(g, s0, s, s.indices[n], active, n, {})
    ensures Explored(g, Leave(s, |s0.stack|, n), active) && n !in s.components
  {
    hide Linked, LowBounds, LowReached, Reaches, IsScc;
    PoppedIsScc(g, s0, s, active, n);
    PoppedClosed(g, s0, s, active, n);
    PoppedIsFresh(g, s, active + {n}, |s0.stack|);
    assert n in s.stack;
    AddComponent(g, s.components, s.done, n, Popped(s, |s0.stack|));
  }

  // n is the root of a component: everything down to n is popped into it.
  lemma RootLeaves(g: Digraph, s0: State, s: State, active: set<Node>, n: Node)
    requires Fresh(g, s0, active, n) && n in s.indices
    requires Running(g, s0, s, s.indices[n], active, n, {})
    ensures Visited(g, s0, Leave(s, |s0.stack|, n), s.indices[n], active, n)
  {
    hide Linked, Explored, LowReached, Reaches;
    LeaveShape(g, s0, s, active, n);
    LeaveLinks(g, s0, s, active, n);
    LeaveExplores(g, s0, s, active, n);
    assert Leave(s, |s0.stack|, n).stack == s0.stack;
  }

  lemma NonRootReaches(g: Digraph, s0: State, s: State, low: nat, active: set<Node>, n: Node) returns (b: Node)
    requires n in s.indices && low < s.indices[n]
    requires Running(g, s0, s, low, active, n, {})
    ensures b in active && b in s.indices && s.indices[b] <= low && Reaches(g, n, b)
  {
    var y :| y in s.stack && s.indices[y] == low && Reaches(g, n, y);
    assert ReachesActive(g, s, active + {n}, y);
    b :| b in active + {n} && s.indices[b] <= s.indices[y] && Reaches(g, y, b);
    ReachesTrans(g, n, y, b);
  }

  lemma StayLink(g: Digraph, s: State, active: set<Node>, n: Node, b: Node, v: Node)
    requires Shape(g, s, active + {n}) && Shape(g, s, active) && v in s.indices
    requires n in s.indices && b in active && s.indices[b] <= s.indices[n] && Reaches(g, n, b)
    requires ReachesActive(g, s, active + {n}, v)
    ensures ReachesActive(g, s, active, v)
  {
    var a :| a in active + {n} && s.indices[a] <= s.indices[v] && Reaches(g, v, a);
    if a == n {
      ReachesTrans(g, v, n, b);
      assert b in active && s.indices[b] <= s.indices[v];
    }
  }

  lemma StayLinks(g: Digraph, s: State, active: set<Node>, n: Node, b: Node)
    requires Shape(g, s, active + {n}) && Linked(g, s, active + {n})
    requires n in s.indices && b in active && s.indices[b] <= s.indices[n] && Reaches(g, n, b)
    ensures Shape(g, s, active) && Linked(g, s, active)
  {
    hide Reaches, ReachesActive;
    forall a, v | a in active && v in s.stack && s.indices[a] <= s.indices[v] ensures Reaches(g, a, v) {
      assert a in active + {n};
    }
    forall v | v in s.stack ensures ReachesActive(g, s, active, v) {
      assert ReachesActive(g, s, active + {n}, v);
      StayLink(g, s, active, n, b, v);
    }
  }

  // n is not a root: it stays stacked, with a path to a call entered before it.
  lemma NonRootStays(g: Digraph, s0: State, s: State, low: nat, active: set<Node>, n: Node)
    requires Fresh(g, s0, active, n) && n in s.indices && low < s.indices[n]
    requires Running(g, s0, s, low, active, n, {})
    ensures Visited(g, s0, s, low, active, n)
  {
    var b := NonRootReaches(g, s0, s, low, active, n);
    StayLinks(g, s, active, n, b);
    assert Explored(g, s, active);
  }

  // components partitions the nodes of g into its strongly connected components,
  // each keyed by one of its own members.
  ghost predicate AreTheSccs(g: Digraph, components: map<Node, set<Node>>) {
    && (forall r | r in components :: r in components[r] && components[r] <= g.succ.Keys)
    && (forall r {:trigger IsScc(g, components[r])} | r in components :: IsScc(g, components[r]))
    && (forall r, q | r in components && q in components && r != q :: components[r] !! components[q])
    && (forall v {:trigger InSome(components, v)} | v in g.succ :: InSome(components, v))
  }

  lemma StackedHasActive(g: Digraph, s: State, active: set<Node>)
    requires Inv(g, s, active) && s.stack != []
    ensures active != {}
  {
    assert ReachesActive(g, s, active, s.stack[0]);
  }

  // With no call in progress the stack is empty, so every indexed node is in a component.
  lemma NothingStacked(g: Digraph, s: State)
    requires Inv(g, s, {})
    ensures s.stack == []
    ensures s.indices.Keys == g.succ.Keys ==> AreTheSccs(g, s.components)
  {
    if s.stack != [] {
      StackedHasActive(g, s, {});
    }
  }

  // Two nodes are put together exactly when each reaches the other.
  lemma TogetherIffMutual(g: Digraph, components: map<Node, set<Node>>, r: Node, q: Node, x: Node, y: Node)
    requires AreTheSccs(g, components)
    requires r in components && q in components && x in components[r] && y in components[q]
    ensures r == q <==> Mutual(g, x, y)
  {
    assert IsScc(g, components[r]);
    if r != q {
      assert components[r] !! components[q];
    }
  }

  class Tarjan {
    const g: Digraph
    var index: nat
    var indices: map<Node, nat>
    var lowlink: map<Node, nat>
    var stack: seq<Node>
    var components: map<Node, set<Node>>
    ghost var done: set<Node>

    ghost function Now(): State
      reads this
    {
      State(index, indices, stack, components, done)
    }

    constructor (g: Digraph)
      ensures this.g == g && Now() == State(0, map[], [], map[], {}) && lowlink == map[]
    {
      this.g := g;
      index, indices, lowlink, stack, components, done := 0, map[], map[], [], map[], {};
    }

    // Pops the stack down to n, which sits at position k.
    method PopComponent(n: Node, ghost k: nat) returns (scc: set<Node>)
      requires k < |stack| && stack[k] == n && n !in stack[k + 1..]
      modifies this`stack
      ensures stack == old(stack[..k])
      ensures scc == set v | v in old(stack[k..])
    {
      var popped := stack[|stack| - 1];
      stack := stack[..|stack| - 1];
      scc := {popped};
      while popped != n
        invariant k <= |stack| < |old(stack)| && stack == old(stack)[..|stack|]
        invariant popped == old(stack)[|stack|]
        invariant scc == set v | v in old(stack)[|stack|..]
        decreases |stack|
      {
        popped := stack[|stack| - 1];
        stack := stack[..|stack| - 1];
        scc := scc + {popped};
      }
    }

    // One turn of the helper's loop over the edges of n.
    method Follow(n: Node, w: Node, ghost s0: State, ghost low0: map<Node, nat>,
                  ghost active: set<Node>, ghost pending: set<Node>)
      requires Fresh(g, s0, active, n) && n in lowlink && w in pending
      requires Running(g, s0, Now(), lowlink[n], active, n, pending) && LowKept(s0, low0, lowlink)
      modifies this
      ensures n in lowlink && Running(g, s0, Now(), lowlink[n], active, n, pending - {w})
      ensures LowKept(s0, low0, lowlink)
      decreases g.succ.Keys - indices.Keys, 1
    {
      hide Running, Visited, Fresh, Extends;
      ghost var s, low := Now(), lowlink[n];
      RunningFacts(g, s0, s, low, active, n, pending);
      if w !in indices {
        ReachAllActive(g, s0, s, low, active, n, w, pending);
        ghost var lows := lowlink;
        Visit(w, active + {n});
        LowKeptTrans(s0, s, low0, lows, lowlink);
        TreeEdge(g, s0, s, low, Now(), lowlink[w], active, n, pending, w);
        lowlink := lowlink[n := Min(lowlink[n], lowlink[w])];
      } else {
        OtherEdge(g, s0, s, low, active, n, pending, w);
        if w in stack {
          lowlink := lowlink[n := Min(lowlink[n], indices[w])];
        }
      }
    }

    // tarjan_scc_helper.
    method Visit(n: Node, ghost active: set<Node>)
      requires Fresh(g, Now(), active, n)
      modifies this
      ensures n in lowlink && Visited(g, old(Now()), Now(), lowlink[n], active, n)
      ensures LowKept(old(Now()), old(lowlink), lowlink)
      decreases g.succ.Keys - indices.Keys, 0
    {
      hide Running, Visited, LowBounds, LowReached, Linked, Explored, Reaches;
      ghost var s0 := Now();
      EnterRuns(g, s0, active, n);
      RunningFacts(g, s0, Enter(s0, n), s0.index, active, n, g.succ[n]);
      indices := indices[n := index];
      lowlink := lowlink[n := index];
      index := index + 1;
      stack := stack + [n];

      var pending := g.succ[n];
      while pending != {}
        invariant n in lowlink && Running(g, s0, Now(), lowlink[n], active, n, pending)
        invariant LowKept(s0, old(lowlink), lowlink)
        decreases pending
      {
        var w :| w in pending;
        RunningFacts(g, s0, Now(), lowlink[n], active, n, pending);
        Follow(n, w, s0, old(lowlink), active, pending);
        pending := pending - {w};
      }

      RunningFacts(g, s0, Now(), lowlink[n], active, n, {});
      if lowlink[n] == indices[n] {
        ghost var s := Now();
        RootLeaves(g, s0, s, active, n);
        var scc := PopComponent(n, |s0.stack|);
        assert stack == s.stack[..|s0.stack|];
        assert scc == Popped(s, |s0.stack|);
        components := components[n := scc];
        done := done + scc;
        assert Now() == Leave(s, |s0.stack|, n);
      } else {
        NonRootStays(g, s0, Now(), lowlink[n], active, n);
      }
    }

    // tarjan_scc: every node without an index starts a traversal of its own.
    method Run()
      requires g.WellFormed() && Now() == State(0, map[], [], map[], {})
      modifies this
      ensures AreTheSccs(g, components)
    {
      var nodes := g.succ.Keys;
      while nodes != {}
        invariant Inv(g, Now(), {}) && nodes <= g.succ.Keys
        invariant forall v | v in g.succ && v !in nodes :: v in indices
        decreases nodes
      {
        var node :| node in nodes;
        if node !in indices {
          Visit(node, {});
        }
        nodes := nodes - {node};
      }
      NothingStacked(g, Now());
    }
  }
}
