/** PHI placement of the SSA construction (ssa_construction/src/Pass.cpp). */
module PhiPlacement {
  import opened Options

  type Block = nat

  type Value = nat

  // A PHI node, by its incoming values in the order of the predecessors.
  type Phi = seq<Value>

  // The analyses of one function: predecessors, dominance, and the dominance frontiers of the
  // blocks that can be reached.
  datatype Cfg = Cfg(entry: Block, preds: map<Block, seq<Block>>, dominates: set<(Block, Block)>,
                     frontier: map<Block, set<Block>>) {
    // The blocks of w lead from the entry to b.
    ghost predicate Path(w: seq<Block>, b: Block) {
      && w != [] && w[0] == entry && w[|w| - 1] == b
      && forall i | 0 < i < |w| :: w[i] in preds && w[i - 1] in preds[w[i]]
    }

    ghost predicate Reachable(b: Block) {
      exists w :: Path(w, b)
    }

    ghost predicate OnEveryPath(d: Block, b: Block) {
      forall w | Path(w, b) :: d in w
    }

    ghost predicate WellFormed() {
      && entry in preds && (forall b, p | b in preds && p in preds[b] :: p in preds)
      && (forall d, b {:trigger (d, b) in dominates} {:trigger OnEveryPath(d, b)}
            | d in preds && b in preds :: (d, b) in dominates <==> OnEveryPath(d, b))
      && frontier.Keys <= preds.Keys && forall b | b in frontier :: frontier[b] <= frontier.Keys
    }

    // b is on every path to some predecessor of y that can be reached, but not on every path
    // that leads to y from elsewhere.
    ghost predicate AtFrontier(b: Block, y: Block) {
      && y in preds && (b == y || !OnEveryPath(b, y))
      && exists p :: p in preds[y] && Reachable(p) && OnEveryPath(b, p)
    }

    ghost predicate FrontiersRight() {
      && (forall b | b in preds && Reachable(b) :: b in frontier)
      && forall b, y {:trigger AtFrontier(b, y)} | b in frontier :: y in frontier[b] <==> AtFrontier(b, y)
    }
  }

  // The block that defines a name; an argument has none.
  datatype Home = Argument | In(block: Block)

  // A collection name with the blocks of its definitions, perhaps repeated.
  datatype Variable = Variable(name: Value, home: Home, defs: seq<Block>)

  ghost predicate Distinct(vs: seq<Variable>) {
    forall i, j | 0 <= i < j < |vs| :: vs[i].name != vs[j].name
  }

  ghost function Elements(blocks: seq<Block>): set<Block> {
    set b | b in blocks
  }

  predicate DominatesPreds(cfg: Cfg, home: Home, b: Block)
    requires b in cfg.preds
  {
    home.In? ==> forall p | p in cfg.preds[b] :: (home.block, p) in cfg.dominates
  }

  predicate InPhi(phis: seq<Phi>, name: Value) {
    exists i :: 0 <= i < |phis| && name in phis[i]
  }

  // The blocks where a PHI for the name may be put.
  ghost function Eligible(cfg: Cfg, home: Home, phis: map<Block, seq<Phi>>, name: Value): set<Block>
    requires phis.Keys == cfg.preds.Keys
  {
    set b | b in cfg.preds && DominatesPreds(cfg, home, b) && !InPhi(phis[b], name)
  }

  // Along every path from the entry to p the name has been defined.
  ghost predicate DefinedAt(cfg: Cfg, home: Home, p: Block) {
    home.In? ==> cfg.OnEveryPath(home.block, p)
  }

  // A PHI for the name can be put at b: it has a value along every predecessor, and no PHI of b
  // has it yet.
  ghost predicate MayHavePhi(cfg: Cfg, home: Home, phis: map<Block, seq<Phi>>, name: Value, b: Block) {
    && b in cfg.preds && b in phis
    && (forall p | p in cfg.preds[b] :: DefinedAt(cfg, home, p))
    && forall i | 0 <= i < |phis[b]| :: name !in phis[b][i]
  }

  lemma EligibleIff(cfg: Cfg, home: Home, phis: map<Block, seq<Phi>>, name: Value, b: Block)
    requires cfg.WellFormed() && phis.Keys == cfg.preds.Keys && (home.In? ==> home.block in cfg.preds)
    ensures b in Eligible(cfg, home, phis, name) <==> MayHavePhi(cfg, home, phis, name, b)
  {
  }

  // Every eligible block of b's frontier is in s.
  ghost predicate Crossed(cfg: Cfg, eligible: set<Block>, b: Block, s: set<Block>) {
    b in cfg.frontier ==> cfg.frontier[b] * eligible <= s
  }

  // s holds the eligible part of the frontiers of all definitions and of its own blocks.
  ghost predicate ClosedUnder(cfg: Cfg, eligible: set<Block>, defs: set<Block>, s: set<Block>) {
    forall b {:trigger Crossed(cfg, eligible, b, s)} | b in defs + s :: Crossed(cfg, eligible, b, s)
  }

  // s lies in every closed set.
  ghost predicate Needed(cfg: Cfg, eligible: set<Block>, defs: set<Block>, s: set<Block>) {
    forall t {:trigger ClosedUnder(cfg, eligible, defs, t)} | ClosedUnder(cfg, eligible, defs, t) :: s <= t
  }

  // The iterated dominance frontier of the definitions under the filter: the least closed set.
  ghost predicate IsPlacement(cfg: Cfg, eligible: set<Block>, defs: set<Block>, s: set<Block>) {
    s <= eligible && ClosedUnder(cfg, eligible, defs, s) && Needed(cfg, eligible, defs, s)
  }

  lemma CrossingIsNeeded(cfg: Cfg, eligible: set<Block>, defs: set<Block>, s: set<Block>, b: Block)
    requires Needed(cfg, eligible, defs, s) && b in defs + s && b in cfg.frontier
    ensures Needed(cfg, eligible, defs, s + cfg.frontier[b] * eligible)
  {
    forall t {:trigger ClosedUnder(cfg, eligible, defs, t)} | ClosedUnder(cfg, eligible, defs, t)
      ensures s + cfg.frontier[b] * eligible <= t
    {
      assert Crossed(cfg, eligible, b, t);
    }
  }

  // What a placement means: a block has a PHI only if it may have one, and the frontier blocks of
  // definitions and PHIs have one whenever they may.
  ghost predicate PhisRight(cfg: Cfg, v: Variable, phis: map<Block, seq<Phi>>, placed: set<Block>) {
    && (forall y | y in placed :: MayHavePhi(cfg, v.home, phis, v.name, y))
    && forall b, y | (b in v.defs || b in placed) && b in cfg.frontier && y in cfg.frontier[b]
                     && MayHavePhi(cfg, v.home, phis, v.name, y) :: y in placed
  }

  lemma PlacementIsRight(cfg: Cfg, v: Variable, phis: map<Block, seq<Phi>>, placed: set<Block>)
    requires cfg.WellFormed() && phis.Keys == cfg.preds.Keys && (v.home.In? ==> v.home.block in cfg.preds)
    requires IsPlacement(cfg, Eligible(cfg, v.home, phis, v.name), Elements(v.defs), placed)
    ensures PhisRight(cfg, v, phis, placed)
  {
    hide Eligible, MayHavePhi, Needed;
    var eligible := Eligible(cfg, v.home, phis, v.name);
    forall y ensures y in eligible <==> MayHavePhi(cfg, v.home, phis, v.name, y) {
      EligibleIff(cfg, v.home, phis, v.name, y);
    }
    forall b | b in v.defs || b in placed ensures Crossed(cfg, eligible, b, placed) {
      assert b in Elements(v.defs) + placed;
    }
  }

  lemma PathGoesOn(cfg: Cfg, w: seq<Block>, p: Block, y: Block)
    requires cfg.Path(w, p) && y in cfg.preds && p in cfg.preds[y]
    ensures cfg.Path(w + [y], y)
  {
  }

  // What is on a path can be reached.
  lemma OnPathReachable(cfg: Cfg, w: seq<Block>, y: Block, b: Block)
    requires cfg.WellFormed() && cfg.Path(w, y) && b in w
    ensures b in cfg.preds && cfg.Reachable(b)
  {
    var i :| 0 <= i < |w| && w[i] == b;
    assert cfg.Path(w[..i + 1], b);
  }

  // Where a PHI may be put and is not, none is needed: the definitions and PHIs on every path to
  // such a block are those on every path to any one of its predecessors.
  lemma SameDefinitions(cfg: Cfg, v: Variable, phis: map<Block, seq<Phi>>, placed: set<Block>, y: Block, p: Block,
                        b: Block)
    requires cfg.WellFormed() && cfg.FrontiersRight() && PhisRight(cfg, v, phis, placed)
    requires y !in v.defs && y !in placed && MayHavePhi(cfg, v.home, phis, v.name, y)
    requires p in cfg.preds[y] && cfg.Reachable(p)
    requires b in v.defs || b in placed
    ensures cfg.OnEveryPath(b, p) <==> cfg.OnEveryPath(b, y)
  {
    if cfg.OnEveryPath(b, p) && !cfg.OnEveryPath(b, y) {
      var w :| cfg.Path(w, p);
      OnPathReachable(cfg, w, p, b);
      assert cfg.AtFrontier(b, y);
    }
    if cfg.OnEveryPath(b, y) {
      BackOnEveryPath(cfg, b, p, y);
    }
  }

  lemma BackOnEveryPath(cfg: Cfg, b: Block, p: Block, y: Block)
    requires y in cfg.preds && p in cfg.preds[y] && b != y && cfg.OnEveryPath(b, y)
    ensures cfg.OnEveryPath(b, p)
  {
    forall w | cfg.Path(w, p) ensures b in w {
      PathGoesOn(cfg, w, p, y);
      assert b in w + [y];
    }
  }

  // ---- One definition reaches each block

  // The last block of w that is in s.
  function LastIn(s: set<Block>, w: seq<Block>): Option<Block> {
    if w == [] then None else if w[|w| - 1] in s then Some(w[|w| - 1]) else LastIn(s, w[..|w| - 1])
  }

  lemma {:induction false} LastInIs(s: set<Block>, w: seq<Block>) returns (i: nat)
    ensures LastIn(s, w).Some? ==> i < |w| && w[i] == LastIn(s, w).value && w[i] in s && forall j | i < j < |w| ::
                w[j] !in s
    ensures LastIn(s, w).None? ==> forall j | 0 <= j < |w| :: w[j] !in s
    decreases |w|
  {
    i := 0;
    if w != [] {
      if w[|w| - 1] in s {
        i := |w| - 1;
      } else {
        i := LastInIs(s, w[..|w| - 1]);
        assert forall j | 0 <= j < |w| - 1 :: w[..|w| - 1][j] == w[j];
      }
    }
  }

  ghost function Defs(v: Variable, placed: set<Block>): set<Block> {
    Elements(v.defs) + placed
  }

  // The name is defined in a block on every path to y, or an argument, and no PHI had it.
  ghost predicate InScope(cfg: Cfg, v: Variable, phis: map<Block, seq<Phi>>, y: Block) {
    && phis.Keys == cfg.preds.Keys
    && (v.home.In? ==> v.home.block in v.defs && cfg.OnEveryPath(v.home.block, y))
    && forall b, i | b in phis && 0 <= i < |phis[b]| :: v.name !in phis[b][i]
  }

  lemma ScopeGoesBack(cfg: Cfg, v: Variable, phis: map<Block, seq<Phi>>, y: Block)
    requires InScope(cfg, v, phis, y) && y in cfg.preds && y !in v.defs
    ensures MayHavePhi(cfg, v.home, phis, v.name, y)
    ensures forall p | p in cfg.preds[y] :: InScope(cfg, v, phis, p)
  {
    if v.home.In? {
      forall p | p in cfg.preds[y] ensures cfg.OnEveryPath(v.home.block, p) {
        BackOnEveryPath(cfg, v.home.block, p, y);
      }
    }
  }

  // The last definition or PHI on a path to y is on every path to y.
  lemma {:induction false} LastOnEveryPath(cfg: Cfg, v: Variable, phis: map<Block, seq<Phi>>, placed: set<Block>,
                                           w: seq<Block>, y: Block)
    requires cfg.WellFormed() && cfg.FrontiersRight() && PhisRight(cfg, v, phis, placed)
    requires cfg.Path(w, y) && InScope(cfg, v, phis, y) && LastIn(Defs(v, placed), w).Some?
    ensures cfg.OnEveryPath(LastIn(Defs(v, placed), w).value, y)
    decreases |w|
  {
    hide PhisRight, MayHavePhi, Cfg.WellFormed, Cfg.FrontiersRight, InScope, Cfg.OnEveryPath, Cfg.Reachable;
    var n := |w| - 1;
    if y in Defs(v, placed) {
      OnOwnPaths(cfg, y);
    } else {
      assert n > 0;
      var p := w[n - 1];
      assert cfg.Path(w[..n], p);
      InPreds(cfg, w, y);
      ScopeGoesBack(cfg, v, phis, y);
      LastOnEveryPath(cfg, v, phis, placed, w[..n], p);
      var b := LastIn(Defs(v, placed), w[..n]).value;
      var i := LastInIs(Defs(v, placed), w[..n]);
      PathReaches(cfg, w[..n], p);
      SameDefinitions(cfg, v, phis, placed, y, p, b);
    }
  }

  lemma OnOwnPaths(cfg: Cfg, y: Block)
    ensures cfg.OnEveryPath(y, y)
  {
  }

  lemma PathReaches(cfg: Cfg, w: seq<Block>, y: Block)
    requires cfg.Path(w, y)
    ensures cfg.Reachable(y)
  {
  }

  lemma InPreds(cfg: Cfg, w: seq<Block>, y: Block)
    requires cfg.WellFormed() && cfg.Path(w, y)
    ensures y in cfg.preds
  {
  }

  // Two paths to y cross over where both go through b.
  lemma CrossOver(cfg: Cfg, w: seq<Block>, x: seq<Block>, y: Block, i: nat, j: nat)
    requires cfg.Path(w, y) && cfg.Path(x, y) && i < |w| && j < |x| && w[i] == x[j]
    ensures cfg.Path(w[..i + 1] + x[j + 1..], y)
  {
    var u := w[..i + 1] + x[j + 1..];
    assert u[i] == w[i];
    forall k | 0 < k < |u| ensures u[k] in cfg.preds && u[k - 1] in cfg.preds[u[k]] {
      if k > i {
        assert u[k] == x[k - i + j] && u[k - 1] == x[k - 1 - i + j];
      }
    }
    if j + 1 == |x| {
      assert u == w[..i + 1];
    } else {
      assert u[|u| - 1] == x[|x| - 1];
    }
  }

  lemma CrossAvoids(cfg: Cfg, w: seq<Block>, x: seq<Block>, y: Block, i: nat, j: nat, b: Block)
    requires cfg.Path(w, y) && cfg.Path(x, y) && i < |w| && j < |x| && w[i] == x[j]
    requires b !in w[..i + 1] && b !in x[j + 1..]
    ensures !cfg.OnEveryPath(b, y)
  {
    hide Cfg.Path;
    CrossOver(cfg, w, x, y, i, j);
    assert b !in w[..i + 1] + x[j + 1..];
  }

  // The first block of w that is a or b.
  lemma {:induction false} FirstOf(w: seq<Block>, a: Block, b: Block) returns (i: nat)
    requires a in w || b in w
    ensures i < |w| && w[i] in {a, b} && forall j | 0 <= j < i :: w[j] !in {a, b}
    decreases |w|
  {
    if w[0] in {a, b} {
      i := 0;
    } else {
      i := FirstOf(w[1..], a, b);
      i := i + 1;
    }
  }

  // What the placement is for: with its PHIs one and the same definition or PHI comes last on
  // every path to a block.
  lemma OneDefinition(cfg: Cfg, v: Variable, phis: map<Block, seq<Phi>>, placed: set<Block>, y: Block, w: seq<Block>,
                      x: seq<Block>)
    requires cfg.WellFormed() && cfg.FrontiersRight() && PhisRight(cfg, v, phis, placed) && InScope(cfg, v, phis, y)
    requires cfg.Path(w, y) && cfg.Path(x, y)
    ensures LastIn(Defs(v, placed), w) == LastIn(Defs(v, placed), x)
  {
    hide PhisRight, Cfg.WellFormed, Cfg.FrontiersRight, InScope, LastIn, Defs, Cfg.Path;
    var s := Defs(v, placed);
    var i := LastInIs(s, w);
    var j := LastInIs(s, x);
    if LastIn(s, w).Some? {
      LastOnEveryPath(cfg, v, phis, placed, w, y);
    }
    if LastIn(s, x).Some? {
      LastOnEveryPath(cfg, v, phis, placed, x, y);
    }
    if LastIn(s, w).Some? && LastIn(s, x).Some? && w[i] != x[j] {
      var k := FirstOf(x, w[i], x[j]);
      if x[k] == w[i] {
        CrossAvoids(cfg, x, w, y, k, i, x[j]);
      } else {
        CrossAvoids(cfg, x, x, y, k, j, w[i]);
      }
    }
  }

  lemma PlacementUnique(cfg: Cfg, eligible: set<Block>, defs: set<Block>, s: set<Block>, t: set<Block>)
    requires IsPlacement(cfg, eligible, defs, s) && IsPlacement(cfg, eligible, defs, t)
    ensures s == t
  {
  }

  // The PHI put at b before renaming: the name itself along every predecessor.
  function Dummy(cfg: Cfg, b: Block, name: Value): Phi
    requires b in cfg.preds
  {
    seq(|cfg.preds[b]|, _ => name)
  }

  // One PHI for the name at the end of the PHIs of each block of s.
  ghost function WithPhis(cfg: Cfg, phis: map<Block, seq<Phi>>, name: Value, s: set<Block>): map<Block, seq<Phi>>
    requires phis.Keys == cfg.preds.Keys
  {
    map b | b in phis :: if b in s then phis[b] + [Dummy(cfg, b, name)] else phis[b]
  }

  ghost predicate IsPhiFor(cfg: Cfg, b: Block, name: Value, phi: Phi) {
    b in cfg.preds && |phi| == |cfg.preds[b]| && forall j | 0 <= j < |phi| :: phi[j] == name
  }

  // now has one PHI more than was, for the name.
  ghost predicate OnePhiMore(cfg: Cfg, b: Block, name: Value, was: seq<Phi>, now: seq<Phi>) {
    |now| == |was| + 1 && now[..|was|] == was && IsPhiFor(cfg, b, name, now[|was|])
  }

  lemma PhisAt(cfg: Cfg, phis: map<Block, seq<Phi>>, name: Value, s: set<Block>)
    requires phis.Keys == cfg.preds.Keys
    ensures var now := WithPhis(cfg, phis, name, s);
            && now.Keys == phis.Keys
            && (forall b | b in phis && b !in s :: now[b] == phis[b])
            && (forall b | b in phis && b in s :: OnePhiMore(cfg, b, name, phis[b], now[b]))
  {
  }

  // The names whose placement has the block.
  ghost function PlacedAt(placed: seq<set<Block>>, b: Block): set<nat> {
    set i: nat | i < |placed| && b in placed[i]
  }

  // now has the PHIs of was and, after them, one for each name placed at b.
  ghost predicate PhisMore(cfg: Cfg, b: Block, vs: seq<Variable>, placed: seq<set<Block>>, was: seq<Phi>, now: seq<Phi>)
    requires |vs| == |placed|
  {
    && |now| == |was| + |PlacedAt(placed, b)| && now[..|was|] == was
    && forall i: nat | i < |vs| && b in placed[i] ::
         exists j :: |was| <= j < |now| && IsPhiFor(cfg, b, vs[i].name, now[j])
  }

  lemma OneNameMore(cfg: Cfg, b: Block, vs: seq<Variable>, placed: seq<set<Block>>, first: seq<Phi>, was: seq<Phi>,
                    now: seq<Phi>)
    requires vs != [] && |vs| == |placed|
    requires PhisMore(cfg, b, vs[..|vs| - 1], placed[..|vs| - 1], first, was)
    requires if b in placed[|vs| - 1] then OnePhiMore(cfg, b, vs[|vs| - 1].name, was, now) else now == was
    ensures PhisMore(cfg, b, vs, placed, first, now)
  {
    hide IsPhiFor;
    var n := |vs| - 1;
    assert PlacedAt(placed, b) == PlacedAt(placed[..n], b) + if b in placed[n] then {n} else {};
    assert now[..|first|] == was[..|first|];
    forall i: nat | i < |vs| && b in placed[i]
      ensures exists j :: |first| <= j < |now| && IsPhiFor(cfg, b, vs[i].name, now[j])
    {
      if i < n {
        assert b in placed[..n][i];
        var j :| |first| <= j < |was| && IsPhiFor(cfg, b, vs[..n][i].name, was[j]);
        assert now[j] == was[j];
      } else {
        assert IsPhiFor(cfg, b, vs[n].name, now[|was|]);
      }
    }
  }

  lemma {:induction false} AllPhisAt(cfg: Cfg, phis: map<Block, seq<Phi>>, vs: seq<Variable>, placed: seq<set<Block>>,
                                     b: Block)
    requires phis.Keys == cfg.preds.Keys && |vs| == |placed| && b in phis
    ensures PhisMore(cfg, b, vs, placed, phis[b], WithAllPhis(cfg, phis, vs, placed)[b])
    decreases |vs|
  {
    hide IsPhiFor, WithPhis, OnePhiMore;
    if vs == [] {
      assert PlacedAt(placed, b) == {};
    } else {
      hide PhisMore;
      var n := |vs| - 1;
      AllPhisAt(cfg, phis, vs[..n], placed[..n], b);
      var mid := WithAllPhis(cfg, phis, vs[..n], placed[..n]);
      PhisAt(cfg, mid, vs[n].name, placed[n]);
      OneNameMore(cfg, b, vs, placed, phis[b], mid[b], WithAllPhis(cfg, phis, vs, placed)[b]);
    }
  }

  // The PHIs after all names, each name's after those of the names before it.
  ghost function WithAllPhis(cfg: Cfg, phis: map<Block, seq<Phi>>, vs: seq<Variable>, placed: seq<set<Block>>)
    : (r: map<Block, seq<Phi>>)
    requires phis.Keys == cfg.preds.Keys && |vs| == |placed|
    ensures r.Keys == cfg.preds.Keys
    decreases |vs|
  {
    if vs == [] then phis
    else
      var n := |vs| - 1;
      WithPhis(cfg, WithAllPhis(cfg, phis, vs[..n], placed[..n]), vs[n].name, placed[n])
  }

  class Function {
    const cfg: Cfg
    var phis: map<Block, seq<Phi>>

    ghost predicate Valid()
      reads this
    {
      cfg.WellFormed() && phis.Keys == cfg.preds.Keys
    }

    constructor (cfg: Cfg, phis: map<Block, seq<Phi>>)
      requires cfg.WellFormed() && phis.Keys == cfg.preds.Keys
      ensures Valid() && this.cfg == cfg && this.phis == phis
    {
      this.cfg, this.phis := cfg, phis;
    }

    // The test made at each frontier block, then the insertion.
    method TryInsert(y: Block, name: Value, home: Home, ghost before: map<Block, seq<Phi>>, ghost s: set<Block>)
      returns (inserted: bool)
      requires Valid() && y in phis && y !in s && s <= phis.Keys
      requires before.Keys == cfg.preds.Keys && phis == WithPhis(cfg, before, name, s)
      modifies this`phis
      ensures Valid()
      ensures inserted <==> y in Eligible(cfg, home, before, name)
      ensures phis == WithPhis(cfg, before, name, if inserted then s + {y} else s)
    {
      inserted := DominatesPreds(cfg, home, y) && !InPhi(phis[y], name);
      if inserted {
        phis := phis[y := phis[y] + [Dummy(cfg, y, name)]];
      }
    }

    // One round: the frontier of the popped block.
    method Cross(bb: Block, v: Variable, rest: seq<Block>, s: set<Block>, ghost before: map<Block, seq<Phi>>)
      returns (grown: set<Block>, queue: seq<Block>)
      requires Valid() && bb in cfg.frontier && before.Keys == cfg.preds.Keys
      requires s <= Eligible(cfg, v.home, before, v.name) && phis == WithPhis(cfg, before, v.name, s)
      modifies this`phis
      ensures Valid() && phis == WithPhis(cfg, before, v.name, grown)
      ensures grown == s + cfg.frontier[bb] * Eligible(cfg, v.home, before, v.name)
      ensures forall b :: b in queue <==> b in rest || (b in grown && b !in s)
      ensures grown == s ==> queue == rest
    {
      hide WithPhis, Eligible;
      EligibleBlocks(cfg, v.home, before, v.name);
      ghost var eligible, done := Eligible(cfg, v.home, before, v.name), {};
      grown, queue := s, rest;
      var todo := cfg.frontier[bb];
      while todo != {}
        invariant todo !! done && todo + done == cfg.frontier[bb]
        invariant Valid() && phis == WithPhis(cfg, before, v.name, grown)
        invariant grown == s + done * eligible
        invariant forall b :: b in queue <==> b in rest || (b in grown && b !in s)
        invariant grown == s ==> queue == rest
        decreases todo
      {
        var y :| y in todo;
        if y !in grown {
          var inserted := TryInsert(y, v.name, v.home, before, grown);
          if inserted {
            grown := grown + {y};
            queue := queue + [y];
          }
        }
        todo, done := todo - {y}, done + {y};
      }
    }

    // The worklist for one name.
    method Place(v: Variable) returns (placed: set<Block>)
      requires Valid() && forall b | b in v.defs :: b in cfg.frontier
      requires v.home.In? ==> v.home.block in cfg.preds
      modifies this`phis
      ensures Valid()
      ensures IsPlacement(cfg, Eligible(cfg, v.home, old(phis), v.name), Elements(v.defs), placed)
      ensures PhisRight(cfg, v, old(phis), placed)
      ensures phis == WithPhis(cfg, old(phis), v.name, placed)
      ensures forall b | b in phis && b !in placed :: phis[b] == old(phis[b])
      ensures forall b | b in phis && b in placed :: OnePhiMore(cfg, b, v.name, old(phis[b]), phis[b])
    {
      hide WithPhis, Eligible, ClosedUnder, Crossed, Needed;
      ghost var before, eligible, ds := phis, Eligible(cfg, v.home, phis, v.name), Elements(v.defs);
      EligibleBlocks(cfg, v.home, before, v.name);
      NoPhis(cfg, before, v.name);
      NothingNeeded(cfg, eligible, ds);
      var worklist := v.defs;
      placed := {};
      while worklist != []
        invariant Valid() && placed <= eligible && phis == WithPhis(cfg, before, v.name, placed)
        invariant forall b | b in worklist :: b in ds + placed && b in cfg.frontier
        invariant forall b {:trigger Crossed(cfg, eligible, b, placed)} | b in ds + placed && b !in worklist ::
                    Crossed(cfg, eligible, b, placed)
        invariant Needed(cfg, eligible, ds, placed)
        decreases eligible - placed, |worklist|
      {
        var bb := worklist[0];
        ghost var was, queue := placed, worklist;
        CrossingIsNeeded(cfg, eligible, ds, placed, bb);
        placed, worklist := Cross(bb, v, worklist[1..], placed, before);
        assert forall b :: b in queue <==> b == bb || b in queue[1..];
        CrossedGrows(cfg, eligible, was, placed);
        NowCrossed(cfg, eligible, bb, placed);
      }
      AllCrossed(cfg, eligible, ds, placed);
      PlacementIsRight(cfg, v, before, placed);
      PhisAt(cfg, before, v.name, placed);
    }

    // Every name in turn; a PHI put in for one name never blocks another.
    method PlaceAll(vs: seq<Variable>) returns (placed: seq<set<Block>>)
      requires Valid() && Distinct(vs)
      requires forall v, b | v in vs && b in v.defs :: b in cfg.frontier
      requires forall v | v in vs && v.home.In? :: v.home.block in cfg.preds
      modifies this`phis
      ensures Valid() && |placed| == |vs|
      ensures forall i | 0 <= i < |vs| ::
                IsPlacement(cfg, Eligible(cfg, vs[i].home, old(phis), vs[i].name), Elements(vs[i].defs), placed[i])
      ensures phis == WithAllPhis(cfg, old(phis), vs, placed)
      ensures forall i | 0 <= i < |vs| :: PhisRight(cfg, vs[i], old(phis), placed[i])
      ensures forall b | b in phis :: PhisMore(cfg, b, vs, placed, old(phis[b]), phis[b])
    {
      hide WithPhis, Eligible, IsPlacement, PhisRight, PhisMore, Cfg.WellFormed;
      placed := [];
      ghost var before := phis;
      for k := 0 to |vs|
        invariant Valid() && |placed| == k && before.Keys == cfg.preds.Keys
        invariant phis == WithAllPhis(cfg, before, vs[..k], placed)
        invariant forall i | 0 <= i < k ::
                    IsPlacement(cfg, Eligible(cfg, vs[i].home, before, vs[i].name), Elements(vs[i].defs), placed[i])
      {
        OthersKeepEligible(cfg, before, vs[..k], placed, vs[k]);
        var s := Place(vs[k]);
        placed := placed + [s];
        assert vs[..k + 1][..k] == vs[..k] && placed[..k] + [s] == placed;
      }
      assert vs[..|vs|] == vs;
      forall i | 0 <= i < |vs| ensures PhisRight(cfg, vs[i], before, placed[i]) {
        PlacementIsRight(cfg, vs[i], before, placed[i]);
      }
      forall b | b in phis ensures PhisMore(cfg, b, vs, placed, before[b], phis[b]) {
        AllPhisAt(cfg, before, vs, placed, b);
      }
    }
  }

  lemma EligibleBlocks(cfg: Cfg, home: Home, phis: map<Block, seq<Phi>>, name: Value)
    requires phis.Keys == cfg.preds.Keys
    ensures Eligible(cfg, home, phis, name) <= phis.Keys
  {
  }

  lemma NoPhis(cfg: Cfg, phis: map<Block, seq<Phi>>, name: Value)
    requires phis.Keys == cfg.preds.Keys
    ensures WithPhis(cfg, phis, name, {}) == phis
  {
  }

  lemma NothingNeeded(cfg: Cfg, eligible: set<Block>, defs: set<Block>)
    ensures Needed(cfg, eligible, defs, {})
  {
  }

  lemma CrossedGrows(cfg: Cfg, eligible: set<Block>, s: set<Block>, t: set<Block>)
    requires s <= t
    ensures forall b {:trigger Crossed(cfg, eligible, b, t)} | Crossed(cfg, eligible, b, s) ::
              Crossed(cfg, eligible, b, t)
  {
  }

  lemma NowCrossed(cfg: Cfg, eligible: set<Block>, b: Block, s: set<Block>)
    requires b in cfg.frontier ==> cfg.frontier[b] * eligible <= s
    ensures Crossed(cfg, eligible, b, s)
  {
  }

  lemma AllCrossed(cfg: Cfg, eligible: set<Block>, defs: set<Block>, s: set<Block>)
    requires forall b {:trigger Crossed(cfg, eligible, b, s)} | b in defs + s :: Crossed(cfg, eligible, b, s)
    ensures ClosedUnder(cfg, eligible, defs, s)
  {
  }

  // The names already treated leave the eligible blocks of a new name as they were.
  lemma {:induction false} OthersKeepEligible(cfg: Cfg, phis: map<Block, seq<Phi>>, vs: seq<Variable>,
                                             placed: seq<set<Block>>, v: Variable)
    requires phis.Keys == cfg.preds.Keys && |vs| == |placed|
    requires forall w | w in vs :: w.name != v.name
    ensures Eligible(cfg, v.home, WithAllPhis(cfg, phis, vs, placed), v.name) == Eligible(cfg, v.home, phis, v.name)
    decreases |vs|
  {
    if vs != [] {
      var n := |vs| - 1;
      OthersKeepEligible(cfg, phis, vs[..n], placed[..n], v);
      var mid := WithAllPhis(cfg, phis, vs[..n], placed[..n]);
      var end := WithPhis(cfg, mid, vs[n].name, placed[n]);
      forall b | b in mid ensures InPhi(end[b], v.name) <==> InPhi(mid[b], v.name) {
        OtherPhi(mid[b], Dummy(cfg, b, vs[n].name), v.name);
      }
    }
  }

  lemma OtherPhi(phis: seq<Phi>, phi: Phi, name: Value)
    requires name !in phi
    ensures InPhi(phis + [phi], name) <==> InPhi(phis, name)
  {
    if i :| 0 <= i < |phis| && name in phis[i] {
      assert (phis + [phi])[i] == phis[i];
    }
  }

  // Whatever order the frontiers are walked in, every run over the names puts the same PHIs in
  // the same blocks.
  lemma PlacementsDetermined(cfg: Cfg, phis: map<Block, seq<Phi>>, vs: seq<Variable>, placed: seq<set<Block>>,
                             other: seq<set<Block>>)
    requires phis.Keys == cfg.preds.Keys && |placed| == |vs| == |other|
    requires forall i | 0 <= i < |vs| ::
               IsPlacement(cfg, Eligible(cfg, vs[i].home, phis, vs[i].name), Elements(vs[i].defs), placed[i])
    requires forall i | 0 <= i < |vs| ::
               IsPlacement(cfg, Eligible(cfg, vs[i].home, phis, vs[i].name), Elements(vs[i].defs), other[i])
    ensures placed == other && WithAllPhis(cfg, phis, vs, placed) == WithAllPhis(cfg, phis, vs, other)
  {
    hide IsPlacement, Eligible;
    forall i | 0 <= i < |vs| ensures placed[i] == other[i] {
      PlacementUnique(cfg, Eligible(cfg, vs[i].home, phis, vs[i].name), Elements(vs[i].defs), placed[i], other[i]);
    }
  }
}
