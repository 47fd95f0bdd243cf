/** Which ranges the uses in a program give its versions, from the instructions alone. */
module UseChains {
  import opened Options
  import opened Lists
  import opened ValueRanges
  import opened DeadElementElimination

  // The instruction defines its version from version j.
  predicate Uses(inst: Inst, j: nat) {
    match inst
    case IndexWrite(src, _, _) => j == src
    case SeqInsert(src, _, _) => j == src
    case Phi(incoming) => j in incoming
    case UsePhi(src) => j == src
    case _ => false
  }

  // What uses a version: an instruction, or the reads by one index value.
  datatype User = ByInst(k: nat) | ByIndex(ix: nat)

  ghost predicate IsUser(p: seq<Inst>, j: nat, u: User) {
    match u
    case ByInst(k) => k < |p| && Uses(p[k], j)
    case ByIndex(ix) => exists k :: 0 <= k < |p| && p[k].IndexRead? && p[k].index == ix && p[k].src == j
  }

  // j is defined by an instruction other than a read, or used.
  ghost predicate IsVersion(p: seq<Inst>, j: nat) {
    (j < |p| && !p[j].IndexRead?) || exists u :: IsUser(p, j, u)
  }

  // Programs as they come in: nothing guarded yet, and every use after its definition.
  ghost predicate InOrder(p: seq<Inst>) {
    && (forall k | 0 <= k < |p| :: !p[k].GuardedWrite? && !p[k].GuardedInsert?)
    && (forall j: nat, k {:trigger Uses(p[k], j)} | 0 <= k < |p| && Uses(p[k], j) :: j < k)
    && forall k | 0 <= k < |p| && p[k].IndexRead? :: p[k].src < k
  }

  // No PHI has an incoming version twice, and every index read has a range.
  ghost predicate Constructible(p: seq<Inst>, indexRange: map<nat, Bounds>) {
    forall k | 0 <= k < |p| ::
      && (p[k].Phi? ==> NoDuplicates(p[k].incoming))
      && (p[k].IndexRead? ==> p[k].index in indexRange)
  }

  ghost predicate NoInserts(p: seq<Inst>) {
    forall k | 0 <= k < |p| :: !p[k].SeqInsert?
  }

  function UserRange(indexRange: map<nat, Bounds>, rs: seq<Option<Bounds>>, u: User): Option<Bounds> {
    match u
    case ByInst(k) => if k < |rs| then rs[k] else None
    case ByIndex(ix) => if ix in indexRange then Some(indexRange[ix]) else None
  }

  // A version has the range of its user; at most one user has one, and without one the version
  // has none.
  ghost predicate AreRanges(p: seq<Inst>, indexRange: map<nat, Bounds>, rs: seq<Option<Bounds>>) {
    && |rs| == |p|
    && (forall j: nat, u {:trigger IsUser(p, j, u)} | IsUser(p, j, u) && UserRange(indexRange, rs, u).Some? ::
          j < |p| && rs[j] == UserRange(indexRange, rs, u))
    && (forall j: nat, u, w {:trigger IsUser(p, j, u), IsUser(p, j, w)} | IsUser(p, j, u) && IsUser(p, j, w)
          && UserRange(indexRange, rs, u).Some? && UserRange(indexRange, rs, w).Some? :: u == w)
    && (forall j: nat | j < |p| && rs[j].Some? :: exists u :: IsUser(p, j, u) && UserRange(indexRange, rs, u).Some?)
  }

  ghost predicate AllRanged(p: seq<Inst>, rs: seq<Option<Bounds>>) {
    forall j: nat | j < |p| && j < |rs| && IsVersion(p, j) :: rs[j].Some?
  }

  // Every version has exactly one user.
  ghost predicate UsedOnce(p: seq<Inst>) {
    forall j: nat {:trigger IsVersion(p, j)} | IsVersion(p, j) ::
      exists u :: IsUser(p, j, u) && forall w {:trigger IsUser(p, j, w)} | IsUser(p, j, w) :: w == u
  }

  // The index value that reads the last version of the chain of users of j.
  ghost function LastRead(p: seq<Inst>, j: nat): Option<nat>
    decreases |p| - j
  {
    if u :| IsUser(p, j, u) then
      match u
      case ByIndex(ix) => Some(ix)
      case ByInst(k) => if k > j then LastRead(p, k) else None
    else None
  }

  // The range that chain hands back to j.
  ghost function LiveRange(p: seq<Inst>, indexRange: map<nat, Bounds>, j: nat): Option<Bounds> {
    match LastRead(p, j)
    case Some(ix) => if ix in indexRange then Some(indexRange[ix]) else None
    case None => None
  }

  lemma UserIsLater(p: seq<Inst>, j: nat, k: nat)
    requires InOrder(p) && IsUser(p, j, ByInst(k))
    ensures j < k < |p| && IsVersion(p, k)
  {
    assert Uses(p[k], j);
  }

  // With one user each, the chain goes through every user there is.
  lemma LastReadOf(p: seq<Inst>, j: nat, u: User)
    requires InOrder(p) && UsedOnce(p) && IsUser(p, j, u)
    ensures u.ByIndex? ==> LastRead(p, j) == Some(u.ix)
    ensures u.ByInst? ==> u.k > j && LastRead(p, j) == LastRead(p, u.k)
  {
    assert IsVersion(p, j);
    if u.ByInst? {
      UserIsLater(p, j, u.k);
    }
  }

  lemma ReadHasRange(p: seq<Inst>, indexRange: map<nat, Bounds>, j: nat, ix: nat)
    requires Constructible(p, indexRange) && IsUser(p, j, ByIndex(ix))
    ensures ix in indexRange
  {
  }

  // So every version has a range.
  lemma {:induction false} ChainEnds(p: seq<Inst>, indexRange: map<nat, Bounds>, j: nat)
    requires InOrder(p) && UsedOnce(p) && Constructible(p, indexRange) && IsVersion(p, j)
    ensures LiveRange(p, indexRange, j).Some?
    decreases |p| - j
  {
    hide Constructible, LastRead;
    var u :| IsUser(p, j, u);
    LastReadOf(p, j, u);
    match u
    case ByIndex(ix) => ReadHasRange(p, indexRange, j, ix);
    case ByInst(k) =>
      UserIsLater(p, j, k);
      ChainEnds(p, indexRange, k);
  }

  ghost function LiveRanges(p: seq<Inst>, indexRange: map<nat, Bounds>): seq<Option<Bounds>> {
    seq(|p|, j requires 0 <= j < |p| => LiveRange(p, indexRange, j))
  }

  lemma VersionsAreDefined(p: seq<Inst>, j: nat)
    requires InOrder(p) && IsVersion(p, j)
    ensures j < |p|
  {
    if u :| IsUser(p, j, u) {
      if u.ByInst? {
        UserIsLater(p, j, u.k);
      }
    }
  }

  lemma {:induction false} LiveRangeOf(p: seq<Inst>, indexRange: map<nat, Bounds>, j: nat, u: User)
    requires InOrder(p) && UsedOnce(p) && Constructible(p, indexRange) && IsUser(p, j, u)
    ensures j < |p| && LiveRange(p, indexRange, j) == UserRange(indexRange, LiveRanges(p, indexRange), u)
  {
    hide Constructible, LastRead;
    assert IsVersion(p, j);
    VersionsAreDefined(p, j);
    LastReadOf(p, j, u);
    if u.ByInst? {
      UserIsLater(p, j, u.k);
    }
  }

  lemma ChainsAreRanges(p: seq<Inst>, indexRange: map<nat, Bounds>)
    requires InOrder(p) && UsedOnce(p) && Constructible(p, indexRange)
    ensures AreRanges(p, indexRange, LiveRanges(p, indexRange))
  {
    hide InOrder, Constructible, LiveRange, UserRange;
    var rs := LiveRanges(p, indexRange);
    forall j: nat, u {:trigger IsUser(p, j, u)} | IsUser(p, j, u)
      ensures j < |p| && rs[j] == UserRange(indexRange, rs, u)
    {
      LiveRangeOf(p, indexRange, j, u);
    }
    forall j: nat, u, w {:trigger IsUser(p, j, u), IsUser(p, j, w)} | IsUser(p, j, u) && IsUser(p, j, w)
      ensures u == w
    {
      assert IsVersion(p, j);
    }
    forall j: nat | j < |p| && rs[j].Some? ensures exists u :: IsUser(p, j, u) {
      HasUser(p, indexRange, j);
    }
  }

  lemma HasUser(p: seq<Inst>, indexRange: map<nat, Bounds>, j: nat)
    requires LiveRange(p, indexRange, j).Some?
    ensures exists u :: IsUser(p, j, u)
  {
  }

  // Ranges for all versions exist exactly where every version has one user.
  lemma RangesIffUsedOnce(p: seq<Inst>, indexRange: map<nat, Bounds>)
    requires InOrder(p) && Constructible(p, indexRange)
    ensures (exists rs :: AreRanges(p, indexRange, rs) && AllRanged(p, rs)) <==> UsedOnce(p)
  {
    hide InOrder, Constructible, IsUser, LiveRange;
    if rs :| AreRanges(p, indexRange, rs) && AllRanged(p, rs) {
      forall j: nat {:trigger IsVersion(p, j)} | IsVersion(p, j)
        ensures exists u :: IsUser(p, j, u) && forall w {:trigger IsUser(p, j, w)} | IsUser(p, j, w) :: w == u
      {
        OneUser(p, indexRange, rs, j);
      }
    }
    if UsedOnce(p) {
      ChainsAreRanges(p, indexRange);
      forall j: nat | j < |p| && IsVersion(p, j) ensures LiveRange(p, indexRange, j).Some? {
        ChainEnds(p, indexRange, j);
      }
      assert AllRanged(p, LiveRanges(p, indexRange));
    }
  }

  lemma UserHasRange(p: seq<Inst>, indexRange: map<nat, Bounds>, rs: seq<Option<Bounds>>, j: nat, u: User)
    requires InOrder(p) && Constructible(p, indexRange) && |rs| == |p| && IsUser(p, j, u)
    requires AllRanged(p, rs)
    ensures UserRange(indexRange, rs, u).Some?
  {
    match u
    case ByIndex(ix) => ReadHasRange(p, indexRange, j, ix);
    case ByInst(k) => UserIsLater(p, j, k);
  }

  lemma OneUser(p: seq<Inst>, indexRange: map<nat, Bounds>, rs: seq<Option<Bounds>>, j: nat)
    requires InOrder(p) && Constructible(p, indexRange) && AreRanges(p, indexRange, rs) && IsVersion(p, j)
    requires AllRanged(p, rs)
    ensures exists u :: IsUser(p, j, u) && forall w {:trigger IsUser(p, j, w)} | IsUser(p, j, w) :: w == u
  {
    hide InOrder, Constructible, IsUser, UserRange;
    VersionsAreDefined(p, j);
    var u :| IsUser(p, j, u) && UserRange(indexRange, rs, u).Some?;
    forall w {:trigger IsUser(p, j, w)} | IsUser(p, j, w) ensures w == u {
      UserHasRange(p, indexRange, rs, j, w);
    }
  }
}
