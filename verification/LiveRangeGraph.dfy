/** The constraint graph of the uses in a program (LiveRangeConstraintGraph.cpp). */
module LiveRangeGraph {
  import opened Digraphs
  import opened Options
  import opened Lists
  import opened GraphLite
  import opened ValueRanges
  import opened LiveRanges
  import opened DeadElementElimination
  import opened UseChains

  // The graph nodes of sequence versions and of index values.
  function VersionNode(k: nat): Node { 2 * k }

  function IndexNode(ix: nat): Node { 2 * ix + 1 }

  // The versions an instruction defines its own version from.
  function Operands(inst: Inst): seq<nat> {
    match inst
    case IndexWrite(src, _, _) => [src]
    case SeqInsert(src, _, _) => [src]
    case Phi(incoming) => incoming
    case UsePhi(src) => [src]
    case _ => []
  }

  function UseConstraint(inst: Inst): Constraint {
    if inst.SeqInsert? then Unimplemented else Propagate
  }

  lemma OperandsAreUses(inst: Inst, j: nat)
    ensures j in Operands(inst) <==> Uses(inst, j)
  {
  }

  // What an instruction uses is defined before it.
  lemma OperandsBefore(p: seq<Inst>, k: nat)
    requires InOrder(p) && k < |p|
    ensures !p[k].GuardedWrite? && !p[k].GuardedInsert? && (p[k].IndexRead? ==> p[k].src < k)
    ensures forall j | j in Operands(p[k]) :: j < k
  {
    forall j | j in Operands(p[k]) ensures j < k {
      OperandsAreUses(p[k], j);
    }
  }

  // Edges go from users to what they use, and from index values, which carry their range, to
  // what they index.
  ghost predicate Sound(s: LiveStore, indexRange: map<nat, Bounds>) {
    && Owned(s)
    && (forall u: Node, v: Node {:trigger HasOut(s, u, v)} | HasOut(s, u, v) ::
          v % 2 == 0 && (u % 2 == 1 || v < u) && (u % 2 == 1 ==> PropOf(s, u, v) == Propagate))
    && (forall ix: nat {:trigger IndexNode(ix)} | IndexNode(ix) in s.adj ::
          ix in indexRange && s.adj[IndexNode(ix)].prop == Some(Range(ix, indexRange[ix])))
  }

  // The uses of version k among its first n operands are edges.
  ghost predicate UsesAdded(s: LiveStore, p: seq<Inst>, k: nat, n: nat)
    requires Owned(s) && k < |p| && n <= |Operands(p[k])|
  {
    && (p[k].IndexRead? || VersionNode(k) in s.adj)
    && forall i | 0 <= i < n ::
         && HasOut(s, VersionNode(k), VersionNode(Operands(p[k])[i]))
         && PropOf(s, VersionNode(k), VersionNode(Operands(p[k])[i])) == UseConstraint(p[k])
  }

  ghost predicate ReadAdded(s: LiveStore, p: seq<Inst>, k: nat)
    requires k < |p|
  {
    p[k].IndexRead? ==>
      HasOut(s, IndexNode(p[k].index), VersionNode(p[k].src)) && IndexNode(p[k].index) in s.adj
  }

  // What adding nodes and edges keeps: edges, their constraints, and node properties.
  ghost predicate Grown(s: LiveStore, t: LiveStore) {
    && Owned(s) && Owned(t)
    && (forall u: Node, v: Node {:trigger HasOut(s, u, v)} | HasOut(s, u, v) ::
          HasOut(t, u, v) && PropOf(t, u, v) == PropOf(s, u, v))
    && (forall v | v in s.adj :: v in t.adj && t.adj[v].prop == s.adj[v].prop)
  }

  lemma GrownTrans(s: LiveStore, t: LiveStore, u: LiveStore)
    requires Grown(s, t) && Grown(t, u)
    ensures Grown(s, u)
  {
    hide Owned, HasOut, PropOf;
  }

  lemma NodeGrows(s: LiveStore, v: Node, prop: Option<Range>, indexRange: map<nat, Bounds>)
    requires Consistent(s) && Sound(s, indexRange)
    requires v % 2 == 0 || (v / 2 in indexRange && prop == Some(Range(v / 2, indexRange[v / 2])))
    ensures var t := if v in s.adj then s else NodeAdded(s, v, prop);
            Sound(t, indexRange) && Grown(s, t)
  {
    hide Mirrored, Owned, Consistent, HasOut, PropOf;
    if v !in s.adj {
      NodeAddedConsistent(s, v, prop);
    }
  }

  lemma EdgeGrows(s: LiveStore, v: Node, w: Node, e: Constraint, indexRange: map<nat, Bounds>)
    requires Consistent(s) && Sound(s, indexRange) && v in s.adj && w in s.adj && !HasOut(s, v, w)
    requires w % 2 == 0 && (v % 2 == 1 || w < v) && (v % 2 == 1 ==> e == Propagate)
    ensures var t := EdgeAdded(s, v, w, e);
            Sound(t, indexRange) && Grown(s, t) && HasOut(t, v, w) && PropOf(t, v, w) == e
  {
    hide Mirrored, Owned, Consistent, HasOut, PropOf;
    EdgeAddedConsistent(s, v, w, e);
  }

  // t has besides what s has the given nodes, versions among them without a range, and the
  // edge from u to v if there is one.
  ghost predicate Added(s: LiveStore, t: LiveStore, nodes: set<Node>, edge: bool, u: Node, v: Node) {
    && t.adj.Keys == s.adj.Keys + nodes
    && (forall x | x in nodes && x !in s.adj && x % 2 == 0 :: t.adj[x].prop.None?)
    && (forall x: Node, y: Node {:trigger HasOut(t, x, y)} ::
          HasOut(t, x, y) <==> HasOut(s, x, y) || (edge && x == u && y == v))
  }

  // j has a node once the first n instructions' uses and the first m ones' reads are added.
  ghost predicate VersionUsed(p: seq<Inst>, n: nat, m: nat, j: nat)
    requires n <= |p| && m <= |p|
  {
    || (j < n && !p[j].IndexRead?)
    || (exists k :: 0 <= k < n && j in Operands(p[k]))
    || (exists k :: 0 <= k < m && p[k].IndexRead? && p[k].src == j)
  }

  ghost predicate ReadsAt(p: seq<Inst>, m: nat, ix: nat, j: nat)
    requires m <= |p|
  {
    exists k :: 0 <= k < m && p[k].IndexRead? && p[k].index == ix && p[k].src == j
  }

  // The graph has no other nodes and edges.
  ghost predicate Only(s: LiveStore, p: seq<Inst>, n: nat, m: nat)
    requires n <= |p| && m <= |p|
  {
    && (forall v | v in s.adj && v % 2 == 0 :: VersionUsed(p, n, m, v / 2) && s.adj[v].prop.None?)
    && (forall u: Node, v: Node {:trigger HasOut(s, u, v)} | HasOut(s, u, v) ::
          if u % 2 == 0 then u / 2 < n && v / 2 in Operands(p[u / 2]) else ReadsAt(p, m, u / 2, v / 2))
  }

  lemma OnlyAdded(s: LiveStore, t: LiveStore, p: seq<Inst>, n: nat, m: nat, nodes: set<Node>, edge: bool, u: Node,
                  v: Node)
    requires n <= |p| && m <= |p| && Only(s, p, n, m) && Grown(s, t) && Added(s, t, nodes, edge, u, v)
    requires forall x | x in nodes && x % 2 == 0 :: VersionUsed(p, n, m, x / 2)
    requires edge ==> if u % 2 == 0 then u / 2 < n && v / 2 in Operands(p[u / 2]) else ReadsAt(p, m, u / 2, v / 2)
    ensures Only(t, p, n, m)
  {
    hide Owned, HasOut, PropOf, VersionUsed, ReadsAt, Operands;
  }

  lemma OnlyMore(s: LiveStore, p: seq<Inst>, n: nat, m: nat, n': nat, m': nat)
    requires n <= n' <= |p| && m <= m' <= |p| && Only(s, p, n, m)
    ensures Only(s, p, n', m')
  {
    hide HasOut, Operands;
    forall v | v in s.adj && v % 2 == 0 ensures VersionUsed(p, n', m', v / 2) {
      assert VersionUsed(p, n, m, v / 2);
    }
    forall ix, j | ReadsAt(p, m, ix, j) ensures ReadsAt(p, m', ix, j) {
    }
  }

  lemma AddedTwice(s: LiveStore, t: LiveStore, r: LiveStore, x: Node, y: Node, edge: bool, u: Node, v: Node)
    requires Added(s, t, {x}, false, u, v) && Grown(t, r) && Added(t, r, {y}, edge, u, v)
    ensures Added(s, r, {x, y}, edge, u, v)
  {
    hide Owned, HasOut, PropOf;
  }

  method EnsureNode(g: LiveGraph, v: Node, prop: Option<Range>, ghost indexRange: map<nat, Bounds>)
    requires g.Valid() && Sound(g.Now(), indexRange)
    requires if v % 2 == 0 then prop.None? else v / 2 in indexRange && prop == Some(Range(v / 2, indexRange[v / 2]))
    modifies g
    ensures g.Valid() && Sound(g.Now(), indexRange) && Grown(old(g.Now()), g.Now()) && v in g.adj
    ensures forall x, y {:trigger Added(old(g.Now()), g.Now(), {v}, false, x, y)} ::
              Added(old(g.Now()), g.Now(), {v}, false, x, y)
  {
    hide Mirrored, Owned, Consistent, HasOut, Grown, Sound;
    NodeGrows(g.Now(), v, prop, indexRange);
    ghost var s := g.Now();
    var _ := g.AddNode(v, prop);
    if v !in s.adj {
      NodeAddedIs(s, v, prop);
    }
  }

  lemma NodeAddedIs(s: LiveStore, v: Node, prop: Option<Range>)
    requires Consistent(s) && v !in s.adj && (v % 2 == 0 ==> prop.None?)
    ensures forall x, y {:trigger Added(s, NodeAdded(s, v, prop), {v}, false, x, y)} ::
              Added(s, NodeAdded(s, v, prop), {v}, false, x, y)
  {
    hide Mirrored, Owned, Consistent, HasOut;
    NodeAddedConsistentOwned(s);
    NodeAddedConsistent(s, v, prop);
  }

  lemma NodeAddedConsistentOwned(s: LiveStore)
    requires Consistent(s)
    ensures Owned(s)
  {
  }

  lemma GrownKeeps(s: LiveStore, t: LiveStore)
    requires Grown(s, t)
    ensures Owned(s) && Owned(t) && s.adj.Keys <= t.adj.Keys
  {
  }

  // add_use_to_graph: an edge that is there already aborts the construction.
  method AddUse(g: LiveGraph, user: nat, used: nat, c: Constraint, ghost indexRange: map<nat, Bounds>)
    returns (ok: bool)
    requires g.Valid() && Sound(g.Now(), indexRange) && used < user
    modifies g
    ensures g.Valid() && Sound(g.Now(), indexRange) && Grown(old(g.Now()), g.Now()) && Owned(g.Now())
    ensures ok <==> !HasOut(old(g.Now()), VersionNode(user), VersionNode(used))
    ensures HasOut(g.Now(), VersionNode(user), VersionNode(used))
    ensures ok ==> PropOf(g.Now(), VersionNode(user), VersionNode(used)) == c
    ensures Added(old(g.Now()), g.Now(), {VersionNode(used), VersionNode(user)}, true,
                  VersionNode(user), VersionNode(used))
  {
    hide Mirrored, Owned, Consistent, Grown, Sound, PropOf, Added;
    ghost var s0 := g.Now();
    EnsureNode(g, VersionNode(used), None, indexRange);
    ghost var s1 := g.Now();
    EnsureNode(g, VersionNode(user), None, indexRange);
    ghost var s2 := g.Now();
    GrownTrans(s0, s1, s2);
    GrownKeeps(s1, s2);
    AddedTwice(s0, s1, s2, VersionNode(used), VersionNode(user), false, VersionNode(user), VersionNode(used));
    AddedEdges(s0, s2, {VersionNode(used), VersionNode(user)}, VersionNode(user), VersionNode(used));
    var added := g.AddEdge(VersionNode(user), VersionNode(used), c);
    if added == 0 {
      EdgeThere(s0, s2, {VersionNode(used), VersionNode(user)}, VersionNode(user), VersionNode(used));
      GrownKeeps(s0, s2);
      return false;
    }
    EdgeGrows(s2, VersionNode(user), VersionNode(used), c, indexRange);
    EdgeIsNew(s0, s2, {VersionNode(used), VersionNode(user)}, VersionNode(user), VersionNode(used), c);
    GrownTrans(s0, s2, g.Now());
    GrownKeeps(s0, g.Now());
    return true;
  }

  lemma AddedEdges(s: LiveStore, t: LiveStore, nodes: set<Node>, u: Node, v: Node)
    requires Added(s, t, nodes, false, u, v)
    ensures HasOut(t, u, v) <==> HasOut(s, u, v)
    ensures t.adj.Keys == s.adj.Keys + nodes
  {
    hide HasOut;
  }

  lemma EdgeThere(s: LiveStore, t: LiveStore, nodes: set<Node>, u: Node, v: Node)
    requires Added(s, t, nodes, false, u, v) && HasOut(t, u, v)
    ensures Added(s, t, nodes, true, u, v)
  {
    hide HasOut;
  }

  lemma EdgeIsNew(s: LiveStore, t: LiveStore, nodes: set<Node>, u: Node, v: Node, c: Constraint)
    requires Consistent(t) && u in t.adj && v in t.adj && !HasOut(t, u, v) && Added(s, t, nodes, false, u, v)
    ensures Added(s, EdgeAdded(t, u, v, c), nodes, true, u, v)
  {
    hide Mirrored, Owned, Consistent, HasOut, PropOf;
    NodeAddedConsistentOwned(t);
    EdgeAddedConsistent(t, u, v, c);
    EdgeAddedNodes(t, u, v, c);
  }

  lemma EdgeAddedNodes(t: LiveStore, u: Node, v: Node, c: Constraint)
    requires u in t.adj && v in t.adj
    ensures EdgeAdded(t, u, v, c).adj.Keys == t.adj.Keys
    ensures forall x | x in t.adj :: EdgeAdded(t, u, v, c).adj[x].prop == t.adj[x].prop
  {
  }

  // add_index_to_graph and add_index_use_to_graph: an index may be used more than once.
  method AddIndexUse(g: LiveGraph, ix: nat, used: nat, indexRange: map<nat, Bounds>)
    requires g.Valid() && Sound(g.Now(), indexRange) && ix in indexRange
    modifies g
    ensures g.Valid() && Sound(g.Now(), indexRange) && Grown(old(g.Now()), g.Now())
    ensures HasOut(g.Now(), IndexNode(ix), VersionNode(used)) && IndexNode(ix) in g.adj
    ensures Added(old(g.Now()), g.Now(), {IndexNode(ix), VersionNode(used)}, true, IndexNode(ix), VersionNode(used))
  {
    hide Mirrored, Owned, Consistent, Grown, Sound, PropOf, Added;
    ghost var s0 := g.Now();
    EnsureNode(g, IndexNode(ix), Some(Range(ix, indexRange[ix])), indexRange);
    ghost var s1 := g.Now();
    EnsureNode(g, VersionNode(used), None, indexRange);
    ghost var s2 := g.Now();
    GrownTrans(s0, s1, s2);
    GrownKeeps(s1, s2);
    AddedTwice(s0, s1, s2, IndexNode(ix), VersionNode(used), false, IndexNode(ix), VersionNode(used));
    var added := g.AddEdge(IndexNode(ix), VersionNode(used), Propagate);
    if added != 0 {
      EdgeGrows(s2, IndexNode(ix), VersionNode(used), Propagate, indexRange);
      EdgeIsNew(s0, s2, {IndexNode(ix), VersionNode(used)}, IndexNode(ix), VersionNode(used), Propagate);
      GrownTrans(s0, s2, g.Now());
      GrownKeeps(s2, g.Now());
    } else {
      EdgeThere(s0, s2, {IndexNode(ix), VersionNode(used)}, IndexNode(ix), VersionNode(used));
    }
  }

  // The edges out of version k so far go to its first n operands.
  ghost predicate OutsAre(s: LiveStore, p: seq<Inst>, k: nat, n: nat)
    requires k < |p| && n <= |Operands(p[k])|
  {
    forall v: Node {:trigger HasOut(s, VersionNode(k), v)} | HasOut(s, VersionNode(k), v) ::
      v % 2 == 0 && v / 2 in Operands(p[k])[..n]
  }

  // The uses of one instruction that defines a version: an operand used twice aborts.
  method AddUses(g: LiveGraph, p: seq<Inst>, k: nat, ghost indexRange: map<nat, Bounds>) returns (ok: bool)
    requires g.Valid() && Sound(g.Now(), indexRange) && k < |p| && InOrder(p)
    requires Only(g.Now(), p, k, 0) && !p[k].IndexRead?
    modifies g
    ensures g.Valid() && Sound(g.Now(), indexRange) && Grown(old(g.Now()), g.Now()) && Owned(g.Now())
    ensures ok <==> NoDuplicates(Operands(p[k]))
    ensures ok ==> UsesAdded(g.Now(), p, k, |Operands(p[k])|)
    ensures ok ==> Only(g.Now(), p, k + 1, 0)
  {
    hide Mirrored, Owned, Consistent, HasOut, Sound, PropOf, Only, Added, OutsAre, InOrder;
    NoOutsYet(g.Now(), p, k, indexRange);
    OnlyMore(g.Now(), p, k, 0, k + 1, 0);
    ghost var s0 := g.Now();
    EnsureNode(g, VersionNode(k), None, indexRange);
    OwnNode(s0, g.Now(), p, k);
    for i := 0 to |Operands(p[k])|
      invariant g.Valid() && Sound(g.Now(), indexRange) && Grown(old(g.Now()), g.Now()) && Owned(g.Now())
      invariant UsesAdded(g.Now(), p, k, i) && OutsAre(g.Now(), p, k, i) && Only(g.Now(), p, k + 1, 0)
      invariant NoDuplicates(Operands(p[k])[..i])
    {
      ghost var s := g.Now();
      var j := Operands(p[k])[i];
      OperandsBefore(p, k);
      assert j in Operands(p[k]);
      ok := AddUse(g, k, j, UseConstraint(p[k]), indexRange);
      GrownTrans(old(g.Now()), s, g.Now());
      UsedBefore(s, p, k, i);
      if !ok {
        return;
      }
      UsesGrown(s, g.Now(), p, k, i);
      NextUse(s, g.Now(), p, k, i);
    }
    assert Operands(p[k])[..|Operands(p[k])|] == Operands(p[k]);
    ok := true;
  }

  lemma NoOutsYet(s: LiveStore, p: seq<Inst>, k: nat, indexRange: map<nat, Bounds>)
    requires k < |p| && Only(s, p, k, 0) && Sound(s, indexRange)
    ensures OutsAre(s, p, k, 0)
  {
    hide HasOut, Owned, VersionUsed, ReadsAt;
    assert VersionNode(k) / 2 == k && VersionNode(k) % 2 == 0;
  }

  lemma OwnNode(s: LiveStore, t: LiveStore, p: seq<Inst>, k: nat)
    requires k < |p| && !p[k].IndexRead? && Only(s, p, k + 1, 0) && OutsAre(s, p, k, 0) && Grown(s, t)
    requires Added(s, t, {VersionNode(k)}, false, 0, 0)
    ensures Only(t, p, k + 1, 0) && OutsAre(t, p, k, 0)
  {
    hide HasOut, Owned, PropOf, Only;
    assert VersionNode(k) / 2 == k;
    OnlyAdded(s, t, p, k + 1, 0, {VersionNode(k)}, false, 0, 0);
  }

  // The edge to the i-th operand is there exactly when the operand was seen before.
  lemma UsedBefore(s: LiveStore, p: seq<Inst>, k: nat, i: nat)
    requires k < |p| && i < |Operands(p[k])| && Owned(s) && UsesAdded(s, p, k, i) && OutsAre(s, p, k, i)
    requires NoDuplicates(Operands(p[k])[..i])
    ensures HasOut(s, VersionNode(k), VersionNode(Operands(p[k])[i])) <==> Operands(p[k])[i] in Operands(p[k])[..i]
    ensures Operands(p[k])[i] in Operands(p[k])[..i] ==> !NoDuplicates(Operands(p[k]))
    ensures Operands(p[k])[i] !in Operands(p[k])[..i] ==> NoDuplicates(Operands(p[k])[..i + 1])
  {
    hide HasOut, Owned, PropOf;
    var ops := Operands(p[k]);
    assert VersionNode(ops[i]) / 2 == ops[i];
    if ops[i] in ops[..i] {
      var j :| 0 <= j < i && ops[..i][j] == ops[i];
      assert HasOut(s, VersionNode(k), VersionNode(ops[j]));
    }
  }

  lemma NextUse(s: LiveStore, t: LiveStore, p: seq<Inst>, k: nat, i: nat)
    requires k < |p| && i < |Operands(p[k])| && !p[k].IndexRead? && Grown(s, t)
    requires Only(s, p, k + 1, 0) && OutsAre(s, p, k, i)
    requires var u, v := VersionNode(k), VersionNode(Operands(p[k])[i]); Added(s, t, {v, u}, true, u, v)
    ensures Only(t, p, k + 1, 0) && OutsAre(t, p, k, i + 1)
  {
    hide HasOut, Owned, PropOf, Only;
    var ops, u, v := Operands(p[k]), VersionNode(k), VersionNode(Operands(p[k])[i]);
    assert u / 2 == k && v / 2 == ops[i] && ops[i] in ops;
    assert ops[..i + 1] == ops[..i] + [ops[i]];
    OnlyAdded(s, t, p, k + 1, 0, {v, u}, true, u, v);
  }

  lemma UsesGrown(s: LiveStore, t: LiveStore, p: seq<Inst>, k: nat, n: nat)
    requires Grown(s, t) && k < |p| && n <= |Operands(p[k])| && UsesAdded(s, p, k, n)
    ensures Owned(t) && UsesAdded(t, p, k, n)
  {
    hide Owned, HasOut, PropOf;
  }

  // Every use of the program is an edge, and there is nothing else.
  ghost predicate Built(s: LiveStore, p: seq<Inst>, indexRange: map<nat, Bounds>) {
    && Sound(s, indexRange) && Only(s, p, |p|, |p|)
    && (forall k | 0 <= k < |p| :: UsesAdded(s, p, k, |Operands(p[k])|))
    && (forall k | 0 <= k < |p| :: ReadAdded(s, p, k))
  }

  lemma AddedGrown(s: LiveStore, t: LiveStore, p: seq<Inst>, n: nat, m: nat)
    requires Grown(s, t) && n <= |p| && m <= |p|
    requires Owned(s) && forall k | 0 <= k < n :: UsesAdded(s, p, k, |Operands(p[k])|)
    requires forall k | 0 <= k < m :: ReadAdded(s, p, k)
    ensures Owned(t) && forall k | 0 <= k < n :: UsesAdded(t, p, k, |Operands(p[k])|)
    ensures forall k | 0 <= k < m :: ReadAdded(t, p, k)
  {
    hide Owned, HasOut, UsesAdded, PropOf;
    GrownKeeps(s, t);
    forall k | 0 <= k < n ensures UsesAdded(t, p, k, |Operands(p[k])|) {
      UsesGrown(s, t, p, k, |Operands(p[k])|);
    }
    forall k | 0 <= k < m ensures ReadAdded(t, p, k) {
      assert ReadAdded(s, p, k);
      assert p[k].IndexRead? ==> HasOut(s, IndexNode(p[k].index), VersionNode(p[k].src));
    }
  }

  // Only a PHI can have an operand twice.
  lemma ConstructibleIff(p: seq<Inst>, indexRange: map<nat, Bounds>)
    ensures Constructible(p, indexRange) <==>
            forall k | 0 <= k < |p| :: NoDuplicates(Operands(p[k])) && (p[k].IndexRead? ==> p[k].index in indexRange)
  {
  }

  // construct: first the versions and their uses, then the reads.
  method Construct(p: seq<Inst>, indexRange: map<nat, Bounds>) returns (g: LiveGraph, ok: bool)
    requires InOrder(p)
    ensures fresh(g) && g.Valid()
    ensures ok <==> Constructible(p, indexRange)
    ensures ok ==> Built(g.Now(), p, indexRange)
  {
    hide Mirrored, Owned, Consistent, HasOut, Sound, PropOf, InOrder, UsesAdded, ReadAdded, Grown, Only, Added,
      NoDuplicates, Constructible, Operands;
    ConstructibleIff(p, indexRange);
    g := new DirectedGraph<Option<Range>, Constraint>();
    StartSound(g.Now(), p, indexRange);
    for k := 0 to |p|
      invariant fresh(g) && g.Valid() && Sound(g.Now(), indexRange) && Owned(g.Now()) && Only(g.Now(), p, k, 0)
      invariant forall j | 0 <= j < k :: UsesAdded(g.Now(), p, j, |Operands(p[j])|) && NoDuplicates(Operands(p[j]))
    {
      ghost var s := g.Now();
      if p[k].IndexRead? {
        NoUses(s, p, k);
      } else {
        ok := AddUses(g, p, k, indexRange);
        if !ok {
          return;
        }
        AddedGrown(s, g.Now(), p, k, 0);
      }
    }
    OnlyMore(g.Now(), p, |p|, 0, |p|, 0);
    for k := 0 to |p|
      invariant fresh(g) && g.Valid() && Sound(g.Now(), indexRange) && Owned(g.Now()) && Only(g.Now(), p, |p|, k)
      invariant forall j | 0 <= j < |p| :: UsesAdded(g.Now(), p, j, |Operands(p[j])|) && NoDuplicates(Operands(p[j]))
      invariant forall j | 0 <= j < k :: ReadAdded(g.Now(), p, j) && (p[j].IndexRead? ==> p[j].index in indexRange)
    {
      ghost var s := g.Now();
      OnlyMore(s, p, |p|, k, |p|, k + 1);
      if p[k].IndexRead? {
        if p[k].index !in indexRange {
          return g, false;
        }
        AddIndexUse(g, p[k].index, p[k].src, indexRange);
        AddedGrown(s, g.Now(), p, |p|, k);
        NextRead(s, g.Now(), p, k);
      }
      ReadIsAdded(g.Now(), p, k);
    }
    ok := true;
  }

  lemma NextRead(s: LiveStore, t: LiveStore, p: seq<Inst>, k: nat)
    requires k < |p| && p[k].IndexRead? && Grown(s, t) && Only(s, p, |p|, k + 1)
    requires var u, v := IndexNode(p[k].index), VersionNode(p[k].src); Added(s, t, {u, v}, true, u, v)
    ensures Only(t, p, |p|, k + 1)
  {
    hide HasOut, Owned, PropOf, Only;
    var u, v := IndexNode(p[k].index), VersionNode(p[k].src);
    assert u / 2 == p[k].index && u % 2 == 1 && v / 2 == p[k].src;
    assert ReadsAt(p, k + 1, u / 2, v / 2) && VersionUsed(p, |p|, k + 1, v / 2);
    OnlyAdded(s, t, p, |p|, k + 1, {u, v}, true, u, v);
  }

  lemma StartSound(s: LiveStore, p: seq<Inst>, indexRange: map<nat, Bounds>)
    requires Consistent(s) && s.adj == map[]
    ensures Sound(s, indexRange) && Owned(s) && Only(s, p, 0, 0)
  {
  }

  lemma NoUses(s: LiveStore, p: seq<Inst>, k: nat)
    requires Owned(s) && k < |p| && p[k].IndexRead? && Only(s, p, k, 0)
    ensures UsesAdded(s, p, k, |Operands(p[k])|) && NoDuplicates(Operands(p[k]))
    ensures Only(s, p, k + 1, 0)
  {
    OnlyMore(s, p, k, 0, k + 1, 0);
  }

  lemma ReadIsAdded(s: LiveStore, p: seq<Inst>, k: nat)
    requires k < |p|
    requires p[k].IndexRead? ==>
               HasOut(s, IndexNode(p[k].index), VersionNode(p[k].src)) && IndexNode(p[k].index) in s.adj
    ensures ReadAdded(s, p, k)
  {
  }

  // Walks from a version go to versions that are not later.
  lemma {:induction false} WalksGoDown(g: Digraph, a: Node, b: Node, n: nat)
    requires forall u: Node, v: Node | g.Edge(u, v) :: v % 2 == 0 && (u % 2 == 1 || v < u)
    requires Walk(g, a, b, n)
    ensures n > 0 ==> b % 2 == 0 && (a % 2 == 0 ==> b < a)
    decreases n
  {
    if n > 0 {
      var c :| g.Edge(a, c) && Walk(g, c, b, n - 1);
      WalksGoDown(g, c, b, n - 1);
    }
  }

  // The constraint graph of a program whose uses follow their definitions has no cycle.
  lemma SoundIsSingletons(s: LiveStore, indexRange: map<nat, Bounds>)
    requires Mirrored(s) && Sound(s, indexRange)
    ensures OnlySelfCycles(View(s.adj))
  {
    ViewOf(s);
    var g := View(s.adj);
    forall u: Node, v: Node | g.Edge(u, v) ensures v % 2 == 0 && (u % 2 == 1 || v < u) {
      assert HasOut(s, u, v);
    }
    hide Sound, Mirrored, HasOut;
    forall a, b | Mutual(g, a, b) ensures a == b {
      var m: nat :| Walk(g, a, b, m);
      var n: nat :| Walk(g, b, a, n);
      WalksGoDown(g, a, b, m);
      WalksGoDown(g, b, a, n);
    }
  }
}
