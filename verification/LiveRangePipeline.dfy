/** From a program to its live ranges and back: the evaluation of the constraint graph, and dead
    element elimination with it. */
module LiveRangePipeline {
  import opened Digraphs
  import opened Options
  import opened GraphLite
  import opened ValueRanges
  import opened LiveRanges
  import opened DeadElementElimination
  import opened UseChains
  import opened LiveRangeGraph

  // The range of each version; reads define none.
  ghost function RangesOf(val: Valuation, p: seq<Inst>): seq<Bounds> {
    seq(|p|, k requires 0 <= k < |p| =>
      if VersionNode(k) in val && val[VersionNode(k)].Some? then val[VersionNode(k)].value
      else Bounds(Constant(0), End))
  }

  // In a solution, a use makes the range of what it uses that of its user.
  lemma SolutionUse(s: LiveStore, val: Valuation, u: Node, v: Node)
    requires Mirrored(s) && Owned(s) && Solution(s, Valued(s), val) && HasOut(s, u, v) && u != v
    ensures u in val && v in val && !PropOf(s, u, v).Unimplemented?
    ensures PropOf(s, u, v) == Propagate && val[u].Some? ==> val[v] == val[u]
  {
    hide Mirrored, Owned, HasOut, PropOf, Justified;
    SolutionMeetsConstraints(s, Valued(s), val, u, v);
  }

  lemma PresetKept(s: LiveStore, val: Valuation, v: Node)
    requires Owned(s) && Solution(s, Valued(s), val) && v in s.adj && s.adj[v].prop.Some?
    ensures v in val && val[v] == BoundsOf(s.adj[v].prop)
  {
    hide Mirrored, Owned, HasOut, PropOf, Feeds;
    assert Justified(s, Valued(s), val, v, Sources(s, v));
  }

  lemma SolutionCovers(s: LiveStore, p: seq<Inst>, indexRange: map<nat, Bounds>, val: Valuation, env: nat -> nat)
    requires Mirrored(s) && Built(s, p, indexRange) && InOrder(p) && Owned(s) && Solution(s, Valued(s), val)
    requires forall k | 0 <= k < |p| && !p[k].IndexRead? :: VersionNode(k) in val && val[VersionNode(k)].Some?
    requires forall ix | ix in indexRange :: Contains(indexRange[ix], env, env(ix))
    ensures Covered(p, RangesOf(val, p), env)
    ensures forall k | 0 <= k < |p| :: !p[k].SeqInsert?
  {
    hide Mirrored, Built, InOrder, InstCovered, Contains, Solution, Owned;
    RangesLength(val, p);
    forall k | 0 <= k < |p| ensures InstCovered(p[k], k, RangesOf(val, p), env) && !p[k].SeqInsert? {
      InstSolved(s, p, indexRange, val, env, k);
    }
  }

  lemma InstSolved(s: LiveStore, p: seq<Inst>, indexRange: map<nat, Bounds>, val: Valuation, env: nat -> nat, k: nat)
    requires Mirrored(s) && Built(s, p, indexRange) && InOrder(p) && Owned(s) && Solution(s, Valued(s), val)
    requires k < |p| && (!p[k].IndexRead? ==> VersionNode(k) in val && val[VersionNode(k)].Some?)
    requires forall ix | ix in indexRange :: Contains(indexRange[ix], env, env(ix))
    ensures InstCovered(p[k], k, RangesOf(val, p), env) && !p[k].SeqInsert?
  {
    hide Mirrored, HasOut, PropOf, Contains, Solution, Owned, InOrder, InstCovered, Only, Sound;
    OperandsBefore(p, k);
    forall i | 0 <= i < |Operands(p[k])|
      ensures Operands(p[k])[i] < k && RangesOf(val, p)[Operands(p[k])[i]] == RangesOf(val, p)[k] && !p[k].SeqInsert?
    {
      var j := Operands(p[k])[i];
      assert j in Operands(p[k]);
      assert UsesAdded(s, p, k, |Operands(p[k])|);
      SolutionUse(s, val, VersionNode(k), VersionNode(j));
    }
    if |Operands(p[k])| > 0 {
      assert Operands(p[k])[0] < k;
    }
    if p[k].IndexRead? {
      ReadRange(s, p, indexRange, val, k);
    }
    CoveredByEqual(p[k], k, RangesOf(val, p), env);
  }

  lemma ReadRange(s: LiveStore, p: seq<Inst>, indexRange: map<nat, Bounds>, val: Valuation, k: nat)
    requires Mirrored(s) && Built(s, p, indexRange) && InOrder(p) && Owned(s) && Solution(s, Valued(s), val)
    requires k < |p| && p[k].IndexRead?
    ensures p[k].src < k && p[k].index in indexRange && RangesOf(val, p)[p[k].src] == indexRange[p[k].index]
  {
    hide Mirrored, Solution, Owned, HasOut, PropOf, UsesAdded;
    assert ReadAdded(s, p, k);
    var u, v := IndexNode(p[k].index), VersionNode(p[k].src);
    PresetKept(s, val, u);
    SolutionUse(s, val, u, v);
  }

  lemma CoveredByEqual(inst: Inst, k: nat, ranges: seq<Bounds>, env: nat -> nat)
    requires k < |ranges| && !inst.SeqInsert? && !inst.GuardedWrite? && !inst.GuardedInsert?
    requires forall j | j in Operands(inst) :: j < k && ranges[j] == ranges[k]
    requires inst.IndexRead? ==> inst.src < k && Contains(ranges[inst.src], env, env(inst.index))
    ensures InstCovered(inst, k, ranges, env)
  {
    hide Contains, Within, Operands;
    WithinItself(ranges[k], env);
    forall j: nat | Uses(inst, j) ensures j < k && ranges[j] == ranges[k] {
      OperandsAreUses(inst, j);
    }
    match inst
    case IndexWrite(src, _, _) => assert Uses(inst, src);
    case UsePhi(src) => assert Uses(inst, src);
    case Phi(incoming) =>
      forall j | j in incoming ensures j < k && Within(ranges[k], ranges[j], env) {
        assert Uses(inst, j);
      }
    case _ =>
  }

  lemma WithinItself(b: Bounds, env: nat -> nat)
    ensures Within(b, b, env)
  {
  }

  // The index values lie in the ranges found for them.
  ghost predicate InRange(indexRange: map<nat, Bounds>, env: nat -> nat) {
    forall ix | ix in indexRange :: Contains(indexRange[ix], env, env(ix))
  }

  // q runs whenever p does, and every read finds the same value.
  ghost predicate SameReads(p: seq<Inst>, q: seq<Inst>, t: Trace) {
    Exec(p, t).Some? ==>
      && Exec(q, t).Some? && |Exec(p, t).value| == |Exec(q, t).value| == |p|
      && forall k | 0 <= k < |p| && p[k].IndexRead? :: Exec(q, t).value[k] == Exec(p, t).value[k]
  }

  lemma SolutionPreservesReads(s: LiveStore, p: seq<Inst>, q: seq<Inst>, indexRange: map<nat, Bounds>,
                               val: Valuation, t: Trace)
    requires Mirrored(s) && Built(s, p, indexRange) && InOrder(p) && Owned(s) && Solution(s, Valued(s), val)
    requires forall k | 0 <= k < |p| && !p[k].IndexRead? :: VersionNode(k) in val && val[VersionNode(k)].Some?
    requires Rewritten(p, q, RangesOf(val, p)) && InRange(indexRange, t.env)
    ensures SameReads(p, q, t)
  {
    hide Mirrored, Built, Owned, Solution, Covered, Exec, Contains;
    SolutionCovers(s, p, indexRange, val, t.env);
    RewrittenInserts(p, q, RangesOf(val, p));
    if Exec(p, t).Some? {
      NoGuardedInsertRuns(p, q, RangesOf(val, p), t);
      RewrittenRunsIff(p, q, RangesOf(val, p), t);
      forall k | 0 <= k < |p| && p[k].IndexRead? ensures Exec(q, t).value[k] == Exec(p, t).value[k] {
        ReadsUnchanged(p, q, RangesOf(val, p), t, k);
      }
    }
  }

  lemma RewrittenInserts(p: seq<Inst>, q: seq<Inst>, ranges: seq<Bounds>)
    requires |ranges| == |p| && Rewritten(p, q, ranges)
    requires forall k | 0 <= k < |p| :: !p[k].SeqInsert? && !p[k].GuardedInsert?
    ensures NoGuardedInsert(q)
  {
  }

  // The live range of each version with a node.
  function LiveOf(adj: map<Node, Adjacency<Option<Range>>>, n: nat): map<nat, Option<Bounds>> {
    map k: nat | k in set v | v in adj && v % 2 == 0 && v / 2 < n :: v / 2 :: BoundsOf(adj[VersionNode(k)].prop)
  }

  // Available writes are confined to their live ranges; nothing else changes.
  ghost predicate Trimmed(p: seq<Inst>, q: seq<Inst>, indexRange: map<nat, Bounds>, available: set<nat>) {
    && |q| == |p|
    && forall k: nat | k < |p| ::
         if k in available && p[k].IndexWrite?
         then LiveRange(p, indexRange, k).Some? && IsConfined(p[k], q[k], LiveRange(p, indexRange, k).value)
         else q[k] == p[k]
  }

  // A write outside its live range leaves its version equal to the one it is made from.
  ghost predicate DeadWritesGone(p: seq<Inst>, q: seq<Inst>, indexRange: map<nat, Bounds>, available: set<nat>,
                                 t: Trace)
  {
    Exec(q, t).Some? ==>
      && |Exec(q, t).value| == |p|
      && forall k: nat | k < |p| && k in available && p[k].IndexWrite? ::
           && p[k].src < k && LiveRange(p, indexRange, k).Some?
           && (!Contains(LiveRange(p, indexRange, k).value, t.env, t.env(p[k].index)) ==>
                 Exec(q, t).value[k] == Exec(q, t).value[p[k].src])
  }

  lemma TrimmedWrites(p: seq<Inst>, q: seq<Inst>, indexRange: map<nat, Bounds>, available: set<nat>, t: Trace)
    requires Trimmed(p, q, indexRange, available)
    ensures DeadWritesGone(p, q, indexRange, available, t)
  {
    hide Exec, Contains, IsConfined, LiveRange;
    if Exec(q, t).Some? {
      if p == [] {
        ExecNothing(t);
      } else {
        ExecAt(q, t, 0);
      }
      forall k: nat | k < |p| && k in available && p[k].IndexWrite?
        ensures p[k].src < k && LiveRange(p, indexRange, k).Some?
        ensures !Contains(LiveRange(p, indexRange, k).value, t.env, t.env(p[k].index)) ==>
                  Exec(q, t).value[k] == Exec(q, t).value[p[k].src]
      {
        ConfinedWrite(p, q, LiveRange(p, indexRange, k).value, k, t);
      }
    }
  }

  // The pass with its analysis. It completes exactly when no PHI repeats a version, every index
  // read has a range, nothing is inserted and every version has exactly one user. Then every
  // available write is confined to the range of the index that reads the end of its chain, and
  // the program reads what it read before.
  method EliminateDeadElements(program: Program, indexRange: map<nat, Bounds>, available: set<nat>) returns (ok: bool)
    requires InOrder(program.code)
    modifies program
    ensures ok <==> Constructible(old(program.code), indexRange) && NoInserts(old(program.code))
                    && UsedOnce(old(program.code))
    ensures ok ==> Trimmed(old(program.code), program.code, indexRange, available)
    ensures ok ==> forall t: Trace | InRange(indexRange, t.env) :: SameReads(old(program.code), program.code, t)
    ensures ok ==> forall t: Trace :: DeadWritesGone(old(program.code), program.code, indexRange, available, t)
  {
    hide Mirrored, Owned, Consistent, HasOut, Built, InOrder, OnlySelfCycles, Solution, Solvable, Supported, Rewrite,
      InRange, SameReads, LiveOf, Constructible, NoInserts, UsedOnce, Trimmed, DeadWritesGone, SameEdges, Valued,
      IsConfined;
    ghost var p := program.code;
    var g;
    g, ok := Construct(program.code, indexRange);
    ghost var s := g.Now();
    if !ok {
      return;
    }
    BuiltIsSingletons(s, p, indexRange);
    ghost var components;
    ok, components := Evaluate(g);
    if !ok {
      NotSolved(s, p, indexRange);
      return;
    }
    SolutionsAreRanges(s, p, indexRange, Valued(g.Now()));
    var live := LiveOf(g.adj, |program.code|);
    LiveKeys(s, g.Now(), p);
    LiveRanged(s, p, indexRange, Valued(g.Now()), live);
    ok := program.Run(live, available);
    NothingToRefuse(p, live, available);
    if ok {
      RunIsRight(s, p, program.code, indexRange, Valued(g.Now()), g.adj, live, available);
      RunTrims(p, program.code, indexRange, live, available);
      forall t: Trace ensures DeadWritesGone(p, program.code, indexRange, available, t) {
        TrimmedWrites(p, program.code, indexRange, available, t);
      }
    }
  }

  lemma NotSolved(s: LiveStore, p: seq<Inst>, indexRange: map<nat, Bounds>)
    requires Mirrored(s) && Owned(s) && Built(s, p, indexRange) && InOrder(p) && Constructible(p, indexRange)
    requires !Solvable(s)
    ensures !(NoInserts(p) && UsedOnce(p))
  {
    hide Mirrored, Owned, Built, InOrder, Constructible, Solvable, UsedOnce, NoInserts, AreRanges;
    SolvableIff(s, p, indexRange);
    if NoInserts(p) && UsedOnce(p) {
      ChainsAreRanges(p, indexRange);
    }
  }

  // The live ranges found are those of the chains, if every version has one user.
  lemma LiveRanged(s: LiveStore, p: seq<Inst>, indexRange: map<nat, Bounds>, val: Valuation,
                   live: map<nat, Option<Bounds>>)
    requires Mirrored(s) && Owned(s) && Built(s, p, indexRange) && InOrder(p) && Constructible(p, indexRange)
    requires Solution(s, Valued(s), val)
    requires forall k: nat :: k in live <==> k < |p| && VersionNode(k) in s.adj
    requires forall k: nat | k in live :: VersionNode(k) in val && live[k] == val[VersionNode(k)]
    ensures (forall k | k in live :: live[k].Some?) <==> UsedOnce(p)
    ensures UsedOnce(p) ==> forall k | k in live :: live[k] == LiveRange(p, indexRange, k)
    ensures forall k: nat | k < |p| && !p[k].IndexRead? :: k in live
  {
    hide Mirrored, Owned, Built, InOrder, Constructible, Solution, UsedOnce, LiveRange;
    SolutionRanges(s, p, indexRange, val);
    ValKeys(s, val);
    forall k: nat | k < |p| && !p[k].IndexRead? ensures k in live {
      assert IsVersion(p, k) && VersionNode(k) % 2 == 0 && VersionNode(k) / 2 == k;
      NodesAreVersions(s, p, indexRange, VersionNode(k));
    }
  }

  lemma NothingToRefuse(p: seq<Inst>, live: map<nat, Option<Bounds>>, available: set<nat>)
    requires NoInserts(p) && forall k | k in live :: k < |p|
    ensures (forall k | k in live :: live[k].Some? && (k in available ==> CanConfine(p[k], live[k].value)))
            <==> forall k | k in live :: live[k].Some?
  {
  }

  lemma RunTrims(p: seq<Inst>, q: seq<Inst>, indexRange: map<nat, Bounds>, live: map<nat, Option<Bounds>>,
                 available: set<nat>)
    requires |q| == |p| && NoInserts(p) && forall k | k in live :: k < |p| && live[k].Some?
    requires forall k | k in live :: live[k] == LiveRange(p, indexRange, k)
    requires forall k: nat | k < |p| && !p[k].IndexRead? :: k in live
    requires forall k | 0 <= k < |p| && !(k in live && k in available) :: q[k] == p[k]
    requires forall k | k in live && k in available :: IsConfined(p[k], q[k], live[k].value)
    ensures Trimmed(p, q, indexRange, available)
  {
    hide LiveRange, Confined;
  }

  lemma LiveKeys(s: LiveStore, t: LiveStore, p: seq<Inst>)
    requires SameEdges(s, t)
    ensures t.adj.Keys == s.adj.Keys && Valued(t) == map v | v in t.adj :: BoundsOf(t.adj[v].prop)
    ensures forall k: nat :: k in LiveOf(t.adj, |p|) <==> k < |p| && VersionNode(k) in s.adj
    ensures forall k: nat | k in LiveOf(t.adj, |p|) ::
                VersionNode(k) in Valued(t) && LiveOf(t.adj, |p|)[k] == Valued(t)[VersionNode(k)]
  {
    forall k: nat
      ensures k in LiveOf(t.adj, |p|) <==> k < |p| && VersionNode(k) in t.adj
      ensures k in LiveOf(t.adj, |p|) ==>
                VersionNode(k) in Valued(t) && LiveOf(t.adj, |p|)[k] == Valued(t)[VersionNode(k)]
    {
      LiveAt(t.adj, Valued(t), p, k);
    }
  }

  // The constraint graph of a program has at most one solution.
  lemma SolutionUnique(s: LiveStore, p: seq<Inst>, indexRange: map<nat, Bounds>, val: Valuation, sol: Valuation)
    requires Mirrored(s) && Owned(s) && Built(s, p, indexRange)
    requires Solution(s, Valued(s), val) && Solution(s, Valued(s), sol)
    ensures val == sol
  {
    hide Mirrored, Owned, HasOut, PropOf, Justified, UsesAdded, ReadAdded, Only;
    forall v | v in s.adj ensures val[v] == sol[v] {
      UniqueAt(s, indexRange, val, sol, v);
    }
  }

  // By induction over the versions that come after v.
  lemma {:induction false} UniqueAt(s: LiveStore, indexRange: map<nat, Bounds>, val: Valuation, sol: Valuation, v: Node)
    requires Mirrored(s) && Owned(s) && Sound(s, indexRange) && v in s.adj
    requires Solution(s, Valued(s), val) && Solution(s, Valued(s), sol)
    ensures val[v] == sol[v]
    decreases set w | w in s.adj && w > v && w % 2 == 0, if v % 2 == 1 then 0 else 1
  {
    hide Mirrored, Owned, HasOut, PropOf, Justified;
    forall u | u in Sources(s, v) ensures u in s.adj && val[u] == sol[u] {
      InEdge(s, u, v);
      if u % 2 == 1 {
        IndexKept(s, indexRange, val, u);
        IndexKept(s, indexRange, sol, u);
      } else {
        LaterVersions(s, u, v);
        UniqueAt(s, indexRange, val, sol, u);
      }
    }
    assert Sources(s, v) == s.adj[v].ins.Keys - {v};
    JustifiedUnique(s, Valued(s), val, sol, v);
  }

  lemma LaterVersions(s: LiveStore, u: Node, v: Node)
    requires u in s.adj && v < u && u % 2 == 0
    ensures (set w | w in s.adj && w > u && w % 2 == 0) < (set w | w in s.adj && w > v && w % 2 == 0)
  {
    var after, more := (set w | w in s.adj && w > u && w % 2 == 0), (set w | w in s.adj && w > v && w % 2 == 0);
    assert u in more && u !in after;
    assert forall w | w in after :: w in more;
  }

  lemma InEdge(s: LiveStore, u: Node, v: Node)
    requires Mirrored(s) && v in s.adj && u in Sources(s, v)
    ensures HasOut(s, u, v) && u in s.adj
  {
    assert HasIn(s, u, v);
  }

  lemma IndexKept(s: LiveStore, indexRange: map<nat, Bounds>, val: Valuation, u: Node)
    requires Owned(s) && Sound(s, indexRange) && Solution(s, Valued(s), val) && u in s.adj && u % 2 == 1
    ensures u / 2 in indexRange && val[u] == Some(indexRange[u / 2])
  {
    hide Owned, HasOut, PropOf, Justified;
    assert IndexNode(u / 2) == u;
    PresetKept(s, val, u);
  }

  // What the rewriting loop did with a solution of the constraints.
  lemma RunIsRight(s: LiveStore, p: seq<Inst>, q: seq<Inst>, indexRange: map<nat, Bounds>, val: Valuation,
                   adj: map<Node, Adjacency<Option<Range>>>, live: map<nat, Option<Bounds>>, available: set<nat>)
    requires Mirrored(s) && Owned(s) && Built(s, p, indexRange) && InOrder(p) && Solution(s, Valued(s), val)
    requires adj.Keys == s.adj.Keys && live == LiveOf(adj, |p|) && val == map v | v in adj :: BoundsOf(adj[v].prop)
    requires |q| == |p| && forall k | k in live :: k < |p| && live[k].Some?
    requires forall k | 0 <= k < |p| ::
               Some(q[k]) == if k in live && k in available then Rewrite(p[k], live[k].value) else Some(p[k])
    ensures forall t: Trace | InRange(indexRange, t.env) :: SameReads(p, q, t)
  {
    hide Mirrored, Owned, Built, InOrder, Solution, Rewrite, InRange, SameReads, RangesOf, LiveOf;
    LiveIsRanges(s, p, indexRange, val, adj, live);
    RangesLength(val, p);
    RunRewrites(p, q, live, available, RangesOf(val, p));
    forall t: Trace | InRange(indexRange, t.env) ensures SameReads(p, q, t) {
      SolutionPreservesReads(s, p, q, indexRange, val, t);
    }
  }

  lemma RangesLength(val: Valuation, p: seq<Inst>)
    ensures |RangesOf(val, p)| == |p|
  {
  }

  lemma BuiltIsSingletons(s: LiveStore, p: seq<Inst>, indexRange: map<nat, Bounds>)
    requires Consistent(s) && Built(s, p, indexRange)
    ensures OnlySelfCycles(View(s.adj)) && Mirrored(s) && Owned(s)
  {
    SoundIsSingletons(s, indexRange);
  }

  lemma LiveIsRanges(s: LiveStore, p: seq<Inst>, indexRange: map<nat, Bounds>, val: Valuation,
                     adj: map<Node, Adjacency<Option<Range>>>, live: map<nat, Option<Bounds>>)
    requires Built(s, p, indexRange) && Owned(s) && adj.Keys == s.adj.Keys && live == LiveOf(adj, |p|)
    requires val == map v | v in adj :: BoundsOf(adj[v].prop)
    ensures forall k | 0 <= k < |p| && !p[k].IndexRead? :: k in live && VersionNode(k) in val
    ensures |RangesOf(val, p)| == |p|
    ensures forall k | k in live && live[k].Some? ::
              && k < |p| && VersionNode(k) in val
              && val[VersionNode(k)] == live[k] && RangesOf(val, p)[k] == live[k].value
  {
    hide Sound, Owned, HasOut, PropOf, ReadAdded, Only, RangesOf, LiveOf, UsesAdded;
    RangesLength(val, p);
    forall k | 0 <= k < |p| && !p[k].IndexRead? ensures k in live && VersionNode(k) in val {
      assert UsesAdded(s, p, k, |Operands(p[k])|);
      VersionHasNode(s, p, k);
      LiveAt(adj, val, p, k);
    }
    forall k | k in live && live[k].Some?
      ensures k < |p| && VersionNode(k) in val && val[VersionNode(k)] == live[k] && RangesOf(val, p)[k] == live[k].value
    {
      LiveAt(adj, val, p, k);
    }
  }

  lemma VersionHasNode(s: LiveStore, p: seq<Inst>, k: nat)
    requires Owned(s) && k < |p| && UsesAdded(s, p, k, |Operands(p[k])|) && !p[k].IndexRead?
    ensures VersionNode(k) in s.adj
  {
  }

  lemma LiveAt(adj: map<Node, Adjacency<Option<Range>>>, val: Valuation, p: seq<Inst>, k: nat)
    requires val == map v | v in adj :: BoundsOf(adj[v].prop)
    ensures k in LiveOf(adj, |p|) <==> k < |p| && VersionNode(k) in adj
    ensures k in LiveOf(adj, |p|) ==> VersionNode(k) in val && val[VersionNode(k)] == LiveOf(adj, |p|)[k]
    ensures k in LiveOf(adj, |p|) && LiveOf(adj, |p|)[k].Some? ==> RangesOf(val, p)[k] == LiveOf(adj, |p|)[k].value
  {
    assert VersionNode(k) / 2 == k && VersionNode(k) % 2 == 0;
  }

  lemma RunRewrites(p: seq<Inst>, q: seq<Inst>, live: map<nat, Option<Bounds>>, available: set<nat>,
                    ranges: seq<Bounds>)
    requires |ranges| == |p| == |q|
    requires forall k | k in live :: k < |p| && live[k].Some? && ranges[k] == live[k].value
    requires forall k | 0 <= k < |p| ::
               Some(q[k]) == if k in live && k in available then Rewrite(p[k], live[k].value) else Some(p[k])
    ensures Rewritten(p, q, ranges)
  {
  }

  // ---- What the constraints come to, on the instructions alone

  function UserOf(u: Node): User {
    if u % 2 == 0 then ByInst(u / 2) else ByIndex(u / 2)
  }

  // The edges are the uses.
  lemma EdgesAreUses(s: LiveStore, p: seq<Inst>, indexRange: map<nat, Bounds>, u: Node, v: Node)
    requires Owned(s) && Built(s, p, indexRange)
    ensures HasOut(s, u, v) <==> v % 2 == 0 && IsUser(p, v / 2, UserOf(u))
  {
    hide Owned, PropOf, Operands, Uses, VersionUsed;
    if HasOut(s, u, v) && u % 2 == 0 {
      OperandsAreUses(p[u / 2], v / 2);
    }
    if v % 2 == 0 && IsUser(p, v / 2, UserOf(u)) {
      if u % 2 == 0 {
        OperandsAreUses(p[u / 2], v / 2);
        assert UsesAdded(s, p, u / 2, |Operands(p[u / 2])|);
        assert VersionNode(u / 2) == u && VersionNode(v / 2) == v;
      } else {
        var k :| 0 <= k < |p| && p[k].IndexRead? && p[k].index == u / 2 && p[k].src == v / 2;
        assert ReadAdded(s, p, k) && IndexNode(u / 2) == u && VersionNode(v / 2) == v;
      }
    }
  }

  // What an edge makes of a range is that range, but for an insert.
  lemma UseConstraints(s: LiveStore, p: seq<Inst>, indexRange: map<nat, Bounds>, u: Node, v: Node)
    requires Owned(s) && Built(s, p, indexRange) && HasOut(s, u, v)
    ensures PropOf(s, u, v) == if u % 2 == 0 && u / 2 < |p| && p[u / 2].SeqInsert? then Unimplemented else Propagate
  {
    hide Owned, PropOf, VersionUsed;
    if u % 2 == 0 {
      assert UsesAdded(s, p, u / 2, |Operands(p[u / 2])|);
      assert VersionNode(u / 2) == u && VersionNode(v / 2) == v;
    }
  }

  // The nodes are the versions and the index values, which have their ranges.
  lemma NodesAreVersions(s: LiveStore, p: seq<Inst>, indexRange: map<nat, Bounds>, v: Node)
    requires Mirrored(s) && Owned(s) && Built(s, p, indexRange)
    ensures v % 2 == 0 ==> (v in s.adj <==> IsVersion(p, v / 2)) && (v in s.adj ==> s.adj[v].prop.None?)
    ensures v % 2 == 1 && v in s.adj ==>
              v / 2 in indexRange && s.adj[v].prop == Some(Range(v / 2, indexRange[v / 2]))
  {
    hide Mirrored, Owned, PropOf, Operands, Uses, UsesAdded, ReadAdded;
    if v % 2 == 1 {
      assert IndexNode(v / 2) == v;
    } else {
      if v in s.adj {
        VersionUsedIsVersion(p, v / 2);
      }
      if IsVersion(p, v / 2) {
        VersionIsNode(s, p, indexRange, v);
      }
    }
  }

  lemma VersionUsedIsVersion(p: seq<Inst>, j: nat)
    requires VersionUsed(p, |p|, |p|, j)
    ensures IsVersion(p, j)
  {
    if k :| 0 <= k < |p| && j in Operands(p[k]) {
      OperandsAreUses(p[k], j);
      assert IsUser(p, j, ByInst(k));
    } else if k :| 0 <= k < |p| && p[k].IndexRead? && p[k].src == j {
      assert IsUser(p, j, ByIndex(p[k].index));
    }
  }

  lemma VersionIsNode(s: LiveStore, p: seq<Inst>, indexRange: map<nat, Bounds>, v: Node)
    requires Mirrored(s) && Owned(s) && Built(s, p, indexRange) && v % 2 == 0 && IsVersion(p, v / 2)
    ensures v in s.adj
  {
    hide Mirrored, Owned, PropOf, IsUser, Only, Sound;
    if u :| IsUser(p, v / 2, u) {
      var n := match u case ByInst(k) => VersionNode(k) case ByIndex(ix) => IndexNode(ix);
      assert UserOf(n) == u;
      EdgesAreUses(s, p, indexRange, n, v);
      OutIsNode(s, n, v);
    } else {
      assert UsesAdded(s, p, v / 2, |Operands(p[v / 2])|) && VersionNode(v / 2) == v;
    }
  }

  lemma OutIsNode(s: LiveStore, u: Node, v: Node)
    requires Mirrored(s) && HasOut(s, u, v)
    ensures u in s.adj && v in s.adj && u in s.adj[v].ins
  {
    assert HasIn(s, u, v);
  }

  // The ranges as a valuation of the nodes.
  ghost function Valuate(s: LiveStore, indexRange: map<nat, Bounds>, rs: seq<Option<Bounds>>): Valuation {
    map v | v in s.adj :: UserRange(indexRange, rs, UserOf(v))
  }

  ghost function RangesIn(val: Valuation, p: seq<Inst>): seq<Option<Bounds>> {
    seq(|p|, k requires 0 <= k < |p| => if VersionNode(k) in val then val[VersionNode(k)] else None)
  }

  // Ranges that the uses give solve the constraints.
  lemma RangesSolve(s: LiveStore, p: seq<Inst>, indexRange: map<nat, Bounds>, rs: seq<Option<Bounds>>)
    requires Mirrored(s) && Owned(s) && Built(s, p, indexRange) && InOrder(p) && NoInserts(p)
    requires AreRanges(p, indexRange, rs)
    ensures Solution(s, Valued(s), Valuate(s, indexRange, rs))
  {
    hide Mirrored, Owned, Built, InOrder, AreRanges, Justified, PropOf, HasOut, UserRange;
    var val := Valuate(s, indexRange, rs);
    forall v | v in s.adj ensures Justified(s, Valued(s), val, v, s.adj[v].ins.Keys - {v}) {
      RangesJustify(s, p, indexRange, rs, v);
    }
    forall u, v | HasOut(s, u, v) && u != v ensures !PropOf(s, u, v).Unimplemented? {
      UseConstraints(s, p, indexRange, u, v);
    }
  }

  lemma RangesJustify(s: LiveStore, p: seq<Inst>, indexRange: map<nat, Bounds>, rs: seq<Option<Bounds>>, v: Node)
    requires Mirrored(s) && Owned(s) && Built(s, p, indexRange) && InOrder(p) && NoInserts(p)
    requires AreRanges(p, indexRange, rs) && v in s.adj
    ensures Justified(s, Valued(s), Valuate(s, indexRange, rs), v, s.adj[v].ins.Keys - {v})
  {
    hide Mirrored, Owned, Built, InOrder, HasOut, PropOf, IsUser, UserRange;
    var val, sources := Valuate(s, indexRange, rs), s.adj[v].ins.Keys - {v};
    NodesAreVersions(s, p, indexRange, v);
    forall u | u in sources
      ensures HasOut(s, u, v) && PropOf(s, u, v) == Propagate && u in val && IsUser(p, v / 2, UserOf(u)) && v % 2 == 0
    {
      InEdge(s, u, v);
      EdgesAreUses(s, p, indexRange, u, v);
      UseConstraints(s, p, indexRange, u, v);
    }
    if v % 2 == 0 && val[v].Some? {
      RangeFeeds(s, p, indexRange, rs, v);
    }
    IndexRanged(indexRange, rs, v);
  }

  lemma IndexRanged(indexRange: map<nat, Bounds>, rs: seq<Option<Bounds>>, v: Node)
    ensures v % 2 == 1 && v / 2 in indexRange ==> UserRange(indexRange, rs, UserOf(v)) == Some(indexRange[v / 2])
    ensures v % 2 == 0 ==> UserRange(indexRange, rs, UserOf(v)) == if v / 2 < |rs| then rs[v / 2] else None
  {
  }

  // A version with a range has a user that feeds it.
  lemma RangeFeeds(s: LiveStore, p: seq<Inst>, indexRange: map<nat, Bounds>, rs: seq<Option<Bounds>>, v: Node)
    requires Mirrored(s) && Owned(s) && Built(s, p, indexRange) && InOrder(p) && NoInserts(p)
    requires AreRanges(p, indexRange, rs) && v in s.adj && v % 2 == 0
    requires Valuate(s, indexRange, rs)[v].Some?
    ensures exists u :: u in s.adj[v].ins.Keys - {v} && Feeds(s, Valuate(s, indexRange, rs), u, v)
  {
    hide Mirrored, Owned, Built, InOrder, HasOut, PropOf, IsUser;
    var val := Valuate(s, indexRange, rs);
    var w :| IsUser(p, v / 2, w) && UserRange(indexRange, rs, w).Some?;
    var u := match w case ByInst(k) => VersionNode(k) case ByIndex(ix) => IndexNode(ix);
    assert UserOf(u) == w;
    EdgesAreUses(s, p, indexRange, u, v);
    OutIsNode(s, u, v);
    UseConstraints(s, p, indexRange, u, v);
    if w.ByInst? {
      UserIsLater(p, v / 2, w.k);
    }
    assert u != v && Feeds(s, val, u, v);
  }

  // And the ranges in a solution are what the uses give.
  lemma SolutionsAreRanges(s: LiveStore, p: seq<Inst>, indexRange: map<nat, Bounds>, val: Valuation)
    requires Mirrored(s) && Owned(s) && Built(s, p, indexRange) && InOrder(p) && Solution(s, Valued(s), val)
    ensures NoInserts(p) && AreRanges(p, indexRange, RangesIn(val, p))
  {
    hide Mirrored, Owned, Built, InOrder, HasOut, PropOf, IsUser, UserRange, Solution;
    var rs := RangesIn(val, p);
    forall k | 0 <= k < |p| ensures !p[k].SeqInsert? {
      NoInsertSolved(s, p, indexRange, val, k);
    }
    forall j: nat, u {:trigger IsUser(p, j, u)} | IsUser(p, j, u)
      ensures j < |p| && (UserRange(indexRange, rs, u).Some? ==> rs[j] == UserRange(indexRange, rs, u))
    {
      UserSolved(s, p, indexRange, val, j, u);
    }
    forall j: nat, u, w {:trigger IsUser(p, j, u), IsUser(p, j, w)} | IsUser(p, j, u) && IsUser(p, j, w)
        && UserRange(indexRange, rs, u).Some? && UserRange(indexRange, rs, w).Some? ensures u == w {
      UsersSolved(s, p, indexRange, val, j, u, w);
    }
    forall j: nat | j < |p| && rs[j].Some? ensures exists u :: IsUser(p, j, u) && UserRange(indexRange, rs, u).Some? {
      RangeSolved(s, p, indexRange, val, j);
    }
  }

  function NodeOf(u: User): (n: Node)
    ensures UserOf(n) == u
  {
    match u
    case ByInst(k) => VersionNode(k)
    case ByIndex(ix) => IndexNode(ix)
  }

  lemma NoInsertSolved(s: LiveStore, p: seq<Inst>, indexRange: map<nat, Bounds>, val: Valuation, k: nat)
    requires Mirrored(s) && Owned(s) && Built(s, p, indexRange) && InOrder(p) && Solution(s, Valued(s), val) && k < |p|
    ensures !p[k].SeqInsert?
  {
    hide Mirrored, Owned, Built, InOrder, HasOut, PropOf, Solution;
    if p[k].SeqInsert? {
      var u, v := VersionNode(k), VersionNode(p[k].src);
      assert IsUser(p, p[k].src, ByInst(k)) && UserOf(u) == ByInst(k);
      UserIsLater(p, p[k].src, k);
      EdgesAreUses(s, p, indexRange, u, v);
      UseConstraints(s, p, indexRange, u, v);
      SolutionUse(s, val, u, v);
    }
  }

  // A user's node, its edge and its range.
  lemma UserEdge(s: LiveStore, p: seq<Inst>, indexRange: map<nat, Bounds>, val: Valuation, j: nat, u: User)
    requires Mirrored(s) && Owned(s) && Built(s, p, indexRange) && InOrder(p) && Solution(s, Valued(s), val)
    requires IsUser(p, j, u)
    ensures j < |p| && HasOut(s, NodeOf(u), VersionNode(j)) && NodeOf(u) != VersionNode(j)
    ensures NodeOf(u) in Sources(s, VersionNode(j)) && VersionNode(j) in s.adj
    ensures NodeOf(u) in val && VersionNode(j) in val && PropOf(s, NodeOf(u), VersionNode(j)) == Propagate
    ensures val[NodeOf(u)] == UserRange(indexRange, RangesIn(val, p), u)
  {
    hide Mirrored, Owned, Built, InOrder, HasOut, PropOf, Solution, IsUser;
    var n, v := NodeOf(u), VersionNode(j);
    assert v % 2 == 0 && v / 2 == j;
    EdgesAreUses(s, p, indexRange, n, v);
    UseConstraints(s, p, indexRange, n, v);
    OutIsNode(s, n, v);
    if u.ByInst? {
      UserIsLater(p, j, u.k);
    } else {
      assert IsVersion(p, j);
      VersionsAreDefined(p, j);
      BuiltSound(s, p, indexRange);
      IndexKept(s, indexRange, val, n);
    }
    SolutionUse(s, val, n, v);
  }

  lemma BuiltSound(s: LiveStore, p: seq<Inst>, indexRange: map<nat, Bounds>)
    requires Built(s, p, indexRange)
    ensures Sound(s, indexRange)
  {
  }

  lemma UserSolved(s: LiveStore, p: seq<Inst>, indexRange: map<nat, Bounds>, val: Valuation, j: nat, u: User)
    requires Mirrored(s) && Owned(s) && Built(s, p, indexRange) && InOrder(p) && Solution(s, Valued(s), val)
    requires IsUser(p, j, u)
    ensures j < |p|
    ensures var r := UserRange(indexRange, RangesIn(val, p), u); r.Some? ==> RangesIn(val, p)[j] == r
  {
    hide Mirrored, Owned, Built, InOrder, HasOut, PropOf, Solution, IsUser, UserRange;
    UserEdge(s, p, indexRange, val, j, u);
    SolutionUse(s, val, NodeOf(u), VersionNode(j));
  }

  lemma UsersSolved(s: LiveStore, p: seq<Inst>, indexRange: map<nat, Bounds>, val: Valuation, j: nat, u: User, w: User)
    requires Mirrored(s) && Owned(s) && Built(s, p, indexRange) && InOrder(p) && Solution(s, Valued(s), val)
    requires IsUser(p, j, u) && IsUser(p, j, w)
    requires UserRange(indexRange, RangesIn(val, p), u).Some? && UserRange(indexRange, RangesIn(val, p), w).Some?
    ensures u == w
  {
    hide Mirrored, Owned, Built, InOrder, HasOut, PropOf, IsUser, UserRange;
    UserEdge(s, p, indexRange, val, j, u);
    UserEdge(s, p, indexRange, val, j, w);
    var v := VersionNode(j);
    assert Justified(s, Valued(s), val, v, s.adj[v].ins.Keys - {v});
    assert Feeds(s, val, NodeOf(u), v) && Feeds(s, val, NodeOf(w), v);
    assert UserOf(NodeOf(u)) == UserOf(NodeOf(w));
  }

  lemma RangeSolved(s: LiveStore, p: seq<Inst>, indexRange: map<nat, Bounds>, val: Valuation, j: nat)
    requires Mirrored(s) && Owned(s) && Built(s, p, indexRange) && InOrder(p) && Solution(s, Valued(s), val)
    requires j < |p| && RangesIn(val, p)[j].Some?
    ensures exists u :: IsUser(p, j, u) && UserRange(indexRange, RangesIn(val, p), u).Some?
  {
    hide Mirrored, Owned, Built, InOrder, PropOf, HasOut, IsUser, UserRange;
    var v := VersionNode(j);
    assert v % 2 == 0 && v / 2 == j && v in val;
    NodesAreVersions(s, p, indexRange, v);
    assert Justified(s, Valued(s), val, v, s.adj[v].ins.Keys - {v});
    var n :| n in s.adj[v].ins.Keys - {v} && Feeds(s, val, n, v);
    EdgesAreUses(s, p, indexRange, n, v);
    UseConstraints(s, p, indexRange, n, v);
    var u := UserOf(n);
    assert NodeOf(u) == n;
    UserEdge(s, p, indexRange, val, j, u);
  }

  // The constraints have a solution exactly when nothing is inserted and the uses give ranges.
  lemma SolvableIff(s: LiveStore, p: seq<Inst>, indexRange: map<nat, Bounds>)
    requires Mirrored(s) && Owned(s) && Built(s, p, indexRange) && InOrder(p)
    ensures Solvable(s) <==> NoInserts(p) && exists rs :: AreRanges(p, indexRange, rs)
  {
    hide Mirrored, Owned, Built, InOrder, Solution, AreRanges, NoInserts;
    if Solvable(s) {
      var val :| Solution(s, Valued(s), val);
      SolutionsAreRanges(s, p, indexRange, val);
    }
    if NoInserts(p) && exists rs :: AreRanges(p, indexRange, rs) {
      var rs :| AreRanges(p, indexRange, rs);
      RangesSolve(s, p, indexRange, rs);
    }
  }

  // A solution has ranges for all versions exactly when every version has one user, and then
  // they are the live ranges.
  lemma SolutionRanges(s: LiveStore, p: seq<Inst>, indexRange: map<nat, Bounds>, val: Valuation)
    requires Mirrored(s) && Owned(s) && Built(s, p, indexRange) && InOrder(p) && Constructible(p, indexRange)
    requires Solution(s, Valued(s), val)
    ensures (forall j | 0 <= j < |p| && VersionNode(j) in val :: val[VersionNode(j)].Some?) <==> UsedOnce(p)
    ensures UsedOnce(p) ==>
              forall j: nat | j < |p| && VersionNode(j) in val :: val[VersionNode(j)] == LiveRange(p, indexRange, j)
  {
    hide Mirrored, Owned, Built, InOrder, Constructible, Solution, AreRanges, NoInserts, UsedOnce, LiveRange, IsVersion;
    SolutionsAreRanges(s, p, indexRange, val);
    RangesIffUsedOnce(p, indexRange);
    forall j: nat | j < |p| ensures VersionNode(j) in val <==> IsVersion(p, j) {
      assert VersionNode(j) % 2 == 0 && VersionNode(j) / 2 == j;
      NodesAreVersions(s, p, indexRange, VersionNode(j));
      ValKeys(s, val);
    }
    if forall j | 0 <= j < |p| && VersionNode(j) in val :: val[VersionNode(j)].Some? {
      assert AllRanged(p, RangesIn(val, p));
    }
    if UsedOnce(p) {
      ChainsAreRanges(p, indexRange);
      RangesSolve(s, p, indexRange, UseChains.LiveRanges(p, indexRange));
      SolutionUnique(s, p, indexRange, val, Valuate(s, indexRange, UseChains.LiveRanges(p, indexRange)));
      forall j: nat | j < |p| && VersionNode(j) in val
        ensures val[VersionNode(j)] == LiveRange(p, indexRange, j) && val[VersionNode(j)].Some?
      {
        assert UserOf(VersionNode(j)) == ByInst(j);
        ValKeys(s, val);
        ChainEnds(p, indexRange, j);
      }
    }
  }

  lemma ValKeys(s: LiveStore, val: Valuation)
    requires Owned(s) && Solution(s, Valued(s), val)
    ensures val.Keys == s.adj.Keys
  {
  }
}
