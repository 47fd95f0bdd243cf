/** Dead element elimination (DeadElementElimination.hpp): writes and inserts are guarded by
    the live range of the version they define. */
module DeadElementElimination {
  import opened Options
  import opened Arithmetic
  import opened ValueRanges

  datatype Operand = Literal(n: int) | Result(k: nat)

  // The instruction at position k defines version k. Indices are program values, by id.
  datatype Inst =
    | Alloc(contents: seq<int>)
    | IndexWrite(src: nat, index: nat, value: Operand)
    | SeqInsert(src: nat, point: nat, value: Operand)
    | Phi(incoming: seq<nat>)
    | UsePhi(src: nat)
    | IndexRead(src: nat, index: nat)
    // A write or insert in the then-branch of a hammock, and the PHI after it.
    | GuardedWrite(src: nat, index: nat, value: Operand, lower: Option<Expr>, upper: Option<Expr>)
    | GuardedInsert(src: nat, point: nat, value: Operand, limit: Expr)

  datatype Cell = Coll(contents: seq<int>) | Word(n: int)

  // What one run sees: the values of the program's index variables, and for each PHI the
  // incoming value it takes.
  datatype Trace = Trace(env: nat -> nat, choice: nat -> nat)

  function OperandValue(o: Operand, r: seq<Cell>): Option<int> {
    match o
    case Literal(n) => Some(n)
    case Result(k) => if k < |r| && r[k].Word? then Some(r[k].n) else None
  }

  function CollAt(k: nat, r: seq<Cell>): Option<seq<int>> {
    if k < |r| && r[k].Coll? then Some(r[k].contents) else None
  }

  function Inserted(s: seq<int>, i: nat, n: int): seq<int>
    requires i <= |s|
  {
    s[..i] + [n] + s[i..]
  }

  // Out-of-range accesses fail.
  function Write(src: Option<seq<int>>, i: nat, n: Option<int>): Option<Cell> {
    if src.None? || n.None? || i >= |src.value| then None else Some(Coll(src.value[i := n.value]))
  }

  function Insert(src: Option<seq<int>>, i: nat, n: Option<int>): Option<Cell> {
    if src.None? || n.None? || i > |src.value| then None else Some(Coll(Inserted(src.value, i, n.value)))
  }

  function Same(src: Option<seq<int>>): Option<Cell> {
    if src.None? then None else Some(Coll(src.value))
  }

  // The condition of a hammock.
  predicate Guard(i: nat, lower: Option<Expr>, upper: Option<Expr>, env: nat -> nat) {
    (lower.None? || Eval(lower.value, env) <= i) && (upper.None? || i < Eval(upper.value, env))
  }

  // The k-th instruction, after the results r.
  function Step(inst: Inst, k: nat, r: seq<Cell>, t: Trace): Option<Cell> {
    match inst
    case Alloc(contents) => Some(Coll(contents))
    case IndexWrite(src, index, value) => Write(CollAt(src, r), t.env(index), OperandValue(value, r))
    case SeqInsert(src, point, value) => Insert(CollAt(src, r), t.env(point), OperandValue(value, r))
    case Phi(incoming) => if t.choice(k) < |incoming| then Same(CollAt(incoming[t.choice(k)], r)) else None
    case UsePhi(src) => Same(CollAt(src, r))
    case IndexRead(src, index) =>
      var s := CollAt(src, r);
      if s.None? || t.env(index) >= |s.value| then None else Some(Word(s.value[t.env(index)]))
    case GuardedWrite(src, index, value, lower, upper) =>
      if Guard(t.env(index), lower, upper, t.env) then Write(CollAt(src, r), t.env(index), OperandValue(value, r))
      else Same(CollAt(src, r))
    case GuardedInsert(src, point, value, upper) =>
      if Guard(t.env(point), None, Some(upper), t.env) then Insert(CollAt(src, r), t.env(point), OperandValue(value, r))
      else Same(CollAt(src, r))
  }

  // The results of a run of the whole program, unless an access fails.
  function Exec(p: seq<Inst>, t: Trace): Option<seq<Cell>> {
    if p == [] then Some([])
    else
      var r := Exec(p[..|p| - 1], t);
      if r.None? then None
      else
        var c := Step(p[|p| - 1], |p| - 1, r.value, t);
        if c.None? then None else Some(r.value + [c.value])
  }

  // Whether the guards of a range are left out.
  predicate IgnoreUpper(b: Bounds) {
    b.upper.End?
  }

  predicate IgnoreLower(b: Bounds) {
    b.lower == Constant(0)
  }

  // The rewrite of one instruction whose bounds are available; None is an aborted compilation.
  function Rewrite(inst: Inst, b: Bounds): Option<Inst> {
    if IgnoreUpper(b) && IgnoreLower(b) then Some(inst)
    else
      var lower := if IgnoreLower(b) then None else Some(b.lower);
      var upper := if IgnoreUpper(b) then None else Some(b.upper);
      match inst
      case IndexWrite(src, index, value) => Some(GuardedWrite(src, index, value, lower, upper))
      case SeqInsert(src, point, value) =>
        if upper.None? then None else Some(GuardedInsert(src, point, value, upper.value))
      case _ => Some(inst)
  }

  // i is below the upper bound.
  predicate Below(b: Bounds, i: nat, env: nat -> nat) {
    b.upper.End? || i < Eval(b.upper, env)
  }

  // What an instruction does when it is confined to b: a write outside the range, or an insert at
  // or above its upper bound, leaves the sequence as it was.
  function Confined(inst: Inst, b: Bounds, k: nat, r: seq<Cell>, t: Trace): Option<Cell> {
    match inst
    case IndexWrite(src, index, value) =>
      if Contains(b, t.env, t.env(index)) then Write(CollAt(src, r), t.env(index), OperandValue(value, r))
      else Same(CollAt(src, r))
    case SeqInsert(src, point, value) =>
      if Below(b, t.env(point), t.env) then Insert(CollAt(src, r), t.env(point), OperandValue(value, r))
      else Same(CollAt(src, r))
    case _ => Step(inst, k, r, t)
  }

  // In every state of every run inst' does what inst does confined to b.
  ghost predicate IsConfined(inst: Inst, inst': Inst, b: Bounds) {
    && (!inst.IndexWrite? && !inst.SeqInsert? ==> inst' == inst)
    && forall k: nat, r: seq<Cell>, t: Trace :: Step(inst', k, r, t) == Confined(inst, b, k, r, t)
  }

  // An insert bounded from below only cannot be confined.
  predicate CanConfine(inst: Inst, b: Bounds) {
    inst.SeqInsert? && b.upper.End? ==> b.lower == Constant(0)
  }

  // The guards confine the instruction to its range.
  lemma RewriteConfines(inst: Inst, b: Bounds)
    ensures Rewrite(inst, b).Some? <==> CanConfine(inst, b)
    ensures Rewrite(inst, b).Some? ==> IsConfined(inst, Rewrite(inst, b).value, b)
  {
    hide Write, Insert, CollAt, OperandValue;
  }

  // The bound r puts above is not above the one q puts.
  predicate UpperWithin(r: Bounds, q: Bounds, slack: nat, env: nat -> nat) {
    q.upper.End? || (!r.upper.End? && Eval(r.upper, env) <= Eval(q.upper, env) + slack)
  }

  ghost predicate Within(r: Bounds, q: Bounds, env: nat -> nat) {
    UpperWithin(r, q, 0, env) && forall i: nat | Contains(r, env, i) :: Contains(q, env, i)
  }

  // The range of a used sequence contains what its user needs of it: for an insert, elements
  // from the insertion point on come from one position before.
  ghost predicate InsertWithin(r: Bounds, q: Bounds, point: nat, env: nat -> nat) {
    && UpperWithin(r, q, if r.upper.End? || point < Eval(r.upper, env) then 1 else 0, env)
    && (forall i: nat | Contains(r, env, i) && i < point :: Contains(q, env, i))
    && (forall i: nat | Contains(r, env, i + 1) && i >= point :: Contains(q, env, i))
  }

  // The k-th instruction needs nothing outside the ranges of what it uses.
  ghost predicate InstCovered(inst: Inst, k: nat, ranges: seq<Bounds>, env: nat -> nat)
    requires k < |ranges|
  {
    match inst
    case IndexWrite(src, _, _) => src < k && Within(ranges[k], ranges[src], env)
    case SeqInsert(src, point, _) => src < k && InsertWithin(ranges[k], ranges[src], env(point), env)
    case Phi(incoming) => forall j | j in incoming :: j < k && Within(ranges[k], ranges[j], env)
    case UsePhi(src) => src < k && Within(ranges[k], ranges[src], env)
    case IndexRead(src, index) => src < k && Contains(ranges[src], env, env(index))
    case Alloc(_) => true
    case _ => false
  }

  // ranges[k] is sound for every use of version k, and every index read lies in its range.
  ghost predicate Covered(p: seq<Inst>, ranges: seq<Bounds>, env: nat -> nat)
    requires |ranges| == |p|
  {
    forall k | 0 <= k < |p| :: InstCovered(p[k], k, ranges, env)
  }

  // b stands for a wherever the range lets it be read; left-out inserts make it shorter, but
  // not below the bound.
  ghost predicate Agree(a: seq<int>, b: seq<int>, r: Bounds, env: nat -> nat) {
    && (|b| == |a| || (!r.upper.End? && Eval(r.upper, env) <= |b| <= |a|))
    && forall i: nat | i < |a| && i < |b| && Contains(r, env, i) :: a[i] == b[i]
  }

  ghost predicate AgreeAll(r: seq<Cell>, q: seq<Cell>, ranges: seq<Bounds>, env: nat -> nat)
    requires |r| <= |ranges|
  {
    && |q| == |r|
    && forall k | 0 <= k < |r| ::
         match r[k]
         case Word(n) => q[k] == r[k]
         case Coll(a) => q[k].Coll? && Agree(a, q[k].contents, ranges[k], env)
  }

  lemma SameAgrees(src: nat, r: seq<Cell>, q: seq<Cell>, ranges: seq<Bounds>, b: Bounds, env: nat -> nat)
    requires |r| <= |ranges| && AgreeAll(r, q, ranges, env) && src < |r| && Within(b, ranges[src], env)
    requires r[src].Coll?
    ensures q[src].Coll? && Agree(r[src].contents, q[src].contents, b, env)
  {
  }

  // A write whose index is outside the range may be left out; below the bound it can be carried out.
  lemma WriteAgrees(a: seq<int>, c: seq<int>, q: Bounds, b: Bounds, i: nat, n: int, env: nat -> nat)
    requires Agree(a, c, q, env) && Within(b, q, env) && i < |a|
    ensures Below(b, i, env) ==> i < |c|
    ensures i < |c| ==> Agree(a[i := n], c[i := n], b, env)
    ensures !Contains(b, env, i) ==> Agree(a[i := n], c, b, env)
  {
  }

  // An insert at or above the upper bound may be left out: the sequence without it agrees with
  // the one with it at all indices below the bound. Below the bound it can be carried out.
  lemma InsertAgrees(a: seq<int>, c: seq<int>, q: Bounds, b: Bounds, i: nat, n: int, env: nat -> nat)
    requires Agree(a, c, q, env) && InsertWithin(b, q, i, env) && i <= |a|
    ensures Below(b, i, env) ==> i <= |c|
    ensures i <= |c| ==> Agree(Inserted(a, i, n), Inserted(c, i, n), b, env)
    ensures !Below(b, i, env) ==> Agree(Inserted(a, i, n), c, b, env)
  {
    if i <= |c| {
      var x, y := Inserted(a, i, n), Inserted(c, i, n);
      forall j: nat | j < |x| && j < |y| && Contains(b, env, j) ensures x[j] == y[j] {
        if j > i {
          assert Contains(b, env, (j - 1) + 1);
          assert x[j] == a[j - 1] && y[j] == c[j - 1];
        }
      }
    }
    if !Below(b, i, env) {
      forall j: nat | j < |a| + 1 && j < |c| && Contains(b, env, j) ensures Inserted(a, i, n)[j] == c[j] {
      }
    }
  }

  // p' is p with some instructions rewritten by their ranges.
  ghost predicate Rewritten(p: seq<Inst>, p': seq<Inst>, ranges: seq<Bounds>)
    requires |ranges| == |p|
  {
    |p'| == |p| && forall k | 0 <= k < |p| :: RewrittenInst(p[k], p'[k], ranges[k])
  }

  predicate RewrittenInst(inst: Inst, inst': Inst, b: Bounds) {
    inst' == inst || Rewrite(inst, b) == Some(inst')
  }

  // ---- Lengths

  // The length of version k in a run of p, from the guards alone.
  function NewLen(p: seq<Inst>, k: nat, t: Trace): nat
    requires k < |p|
    decreases k
  {
    match p[k]
    case Alloc(contents) => |contents|
    case IndexWrite(src, _, _) => LenBefore(p, src, k, t)
    case SeqInsert(src, _, _) => LenBefore(p, src, k, t) + 1
    case Phi(incoming) => if t.choice(k) < |incoming| then LenBefore(p, incoming[t.choice(k)], k, t) else 0
    case UsePhi(src) => LenBefore(p, src, k, t)
    case IndexRead(_, _) => 0
    case GuardedWrite(src, _, _, _, _) => LenBefore(p, src, k, t)
    case GuardedInsert(src, point, _, upper) =>
      LenBefore(p, src, k, t) + if Guard(t.env(point), None, Some(upper), t.env) then 1 else 0
  }

  function LenBefore(p: seq<Inst>, src: nat, k: nat, t: Trace): nat
    requires k < |p|
    decreases k, 0
  {
    if src < k then NewLen(p, src, t) else 0
  }

  // The k-th instruction, if it is an unguarded write or insert, has room for it.
  predicate HasRoom(p: seq<Inst>, k: nat, t: Trace)
    requires k < |p|
  {
    && (p[k].IndexWrite? ==> t.env(p[k].index) < LenBefore(p, p[k].src, k, t))
    && (p[k].SeqInsert? ==> t.env(p[k].point) <= LenBefore(p, p[k].src, k, t))
  }

  ghost predicate AllHaveRoom(p: seq<Inst>, t: Trace) {
    forall k {:trigger HasRoom(p, k, t)} | 0 <= k < |p| :: HasRoom(p, k, t)
  }

  lemma {:induction false} LenOfPrefix(p: seq<Inst>, n: nat, k: nat, t: Trace)
    requires k < n <= |p|
    ensures NewLen(p[..n], k, t) == NewLen(p, k, t)
    decreases k
  {
    var inst := p[k];
    if (inst.IndexWrite? || inst.SeqInsert? || inst.UsePhi? || inst.GuardedWrite? || inst.GuardedInsert?)
       && inst.src < k {
      LenOfPrefix(p, n, inst.src, t);
    }
    if inst.Phi? && t.choice(k) < |inst.incoming| && inst.incoming[t.choice(k)] < k {
      LenOfPrefix(p, n, inst.incoming[t.choice(k)], t);
    }
  }

  lemma RoomOfPrefix(p: seq<Inst>, n: nat, k: nat, t: Trace)
    requires k < n <= |p|
    ensures HasRoom(p[..n], k, t) == HasRoom(p, k, t)
  {
    hide NewLen;
    if (p[k].IndexWrite? || p[k].SeqInsert?) && p[k].src < k {
      LenOfPrefix(p, n, p[k].src, t);
    }
  }

  // Every sequence of the run has its length.
  ghost predicate Lengths(p: seq<Inst>, q: seq<Cell>, t: Trace) {
    |q| <= |p| && forall k | 0 <= k < |q| && q[k].Coll? :: |q[k].contents| == NewLen(p, k, t)
  }

  lemma StepLength(p: seq<Inst>, k: nat, q: seq<Cell>, t: Trace)
    requires k == |q| < |p| && Lengths(p, q, t) && Step(p[k], k, q, t).Some?
    ensures Lengths(p, q + [Step(p[k], k, q, t).value], t)
    ensures HasRoom(p, k, t)
  {
    var c := Step(p[k], k, q, t).value;
    assert c.Coll? ==> |c.contents| == NewLen(p, k, t);
  }

  // In a run that does not fail every sequence has its length, and every access its room.
  lemma {:induction false} RunLengths(p: seq<Inst>, t: Trace)
    requires Exec(p, t).Some?
    ensures |Exec(p, t).value| == |p| && Lengths(p, Exec(p, t).value, t) && AllHaveRoom(p, t)
    decreases |p|
  {
    hide NewLen, HasRoom, Step;
    if p != [] {
      var n := |p| - 1;
      RunLengths(p[..n], t);
      PrefixLengths(p, n, Exec(p[..n], t).value, t);
      StepLength(p, n, Exec(p[..n], t).value, t);
      forall k | 0 <= k < |p| ensures HasRoom(p, k, t) {
        if k < n {
          RoomOfPrefix(p, n, k, t);
        }
      }
    }
  }

  lemma PrefixLengths(p: seq<Inst>, n: nat, q: seq<Cell>, t: Trace)
    requires n <= |p| && |q| <= n && Lengths(p[..n], q, t)
    ensures Lengths(p, q, t)
  {
    hide NewLen;
    forall k | 0 <= k < |q| ensures NewLen(p[..n], k, t) == NewLen(p, k, t) {
      LenOfPrefix(p, n, k, t);
    }
  }

  // ---- One rewritten instruction

  ghost predicate StepAgrees(c: Cell, d: Option<Cell>, b: Bounds, env: nat -> nat) {
    d.Some? && match c
               case Word(n) => d.value == c
               case Coll(a) => d.value.Coll? && Agree(a, d.value.contents, b, env)
  }

  lemma CellAgrees(k: nat, r: seq<Cell>, q: seq<Cell>, ranges: seq<Bounds>, env: nat -> nat)
    requires |r| <= |ranges| && AgreeAll(r, q, ranges, env) && k < |r|
    ensures |q| == |r| && q[k].Coll? == r[k].Coll? && (r[k].Word? ==> q[k] == r[k])
    ensures r[k].Coll? ==> Agree(r[k].contents, q[k].contents, ranges[k], env)
  {
    hide Agree;
  }

  lemma OperandAgrees(o: Operand, r: seq<Cell>, q: seq<Cell>, ranges: seq<Bounds>, env: nat -> nat)
    requires |r| <= |ranges| && AgreeAll(r, q, ranges, env)
    ensures OperandValue(o, r).Some? ==> OperandValue(o, q) == OperandValue(o, r)
  {
    hide Agree;
  }

  // Instructions that stay: allocations, PHIs and reads.
  lemma UnchangedStep(inst: Inst, k: nat, r: seq<Cell>, q: seq<Cell>, ranges: seq<Bounds>, t: Trace)
    requires |r| == k < |ranges| && AgreeAll(r, q, ranges, t.env)
    requires InstCovered(inst, k, ranges, t.env) && Step(inst, k, r, t).Some?
    requires !inst.IndexWrite? && !inst.SeqInsert?
    ensures StepAgrees(Step(inst, k, r, t).value, Step(inst, k, q, t), ranges[k], t.env)
  {
    hide AgreeAll, Within, InsertWithin, Inserted;
    match inst
    case Phi(incoming) =>
      var src := incoming[t.choice(k)];
      CellAgrees(src, r, q, ranges, t.env);
      SameAgrees(src, r, q, ranges, ranges[k], t.env);
    case UsePhi(src) =>
      CellAgrees(src, r, q, ranges, t.env);
      SameAgrees(src, r, q, ranges, ranges[k], t.env);
    case IndexRead(src, index) =>
      CellAgrees(src, r, q, ranges, t.env);
    case Alloc(_) =>
  }

  // An unguarded write is carried out exactly when it has room, and always below the bound; a
  // guarded one never fails.
  lemma WriteStep(inst: Inst, inst': Inst, k: nat, r: seq<Cell>, q: seq<Cell>, ranges: seq<Bounds>,
                                     t: Trace)
    requires |r| == k < |ranges| && AgreeAll(r, q, ranges, t.env) && inst.IndexWrite?
    requires InstCovered(inst, k, ranges, t.env) && Step(inst, k, r, t).Some?
    requires RewrittenInst(inst, inst', ranges[k])
    ensures inst' != inst ==> inst'.GuardedWrite? && Step(inst', k, q, t).Some?
    ensures inst' == inst ==> (Step(inst', k, q, t).Some? <==>
              inst.src < |q| && q[inst.src].Coll? && t.env(inst.index) < |q[inst.src].contents|)
    ensures inst' == inst && Below(ranges[k], t.env(inst.index), t.env) ==> Step(inst', k, q, t).Some?
    ensures Step(inst', k, q, t).Some? ==>
              StepAgrees(Step(inst, k, r, t).value, Step(inst', k, q, t), ranges[k], t.env)
  {
    hide AgreeAll, Agree, Within, InsertWithin, Inserted;
    var b, env, src := ranges[k], t.env, inst.src;
    CellAgrees(src, r, q, ranges, env);
    OperandAgrees(inst.value, r, q, ranges, env);
    var a, c := r[src].contents, q[src].contents;
    WriteAgrees(a, c, ranges[src], b, env(inst.index), OperandValue(inst.value, r).value, env);
  }

  lemma InsertStep(inst: Inst, inst': Inst, k: nat, r: seq<Cell>, q: seq<Cell>, ranges: seq<Bounds>,
                                      t: Trace)
    requires |r| == k < |ranges| && AgreeAll(r, q, ranges, t.env) && inst.SeqInsert?
    requires InstCovered(inst, k, ranges, t.env) && Step(inst, k, r, t).Some?
    requires RewrittenInst(inst, inst', ranges[k])
    ensures inst' != inst ==> inst'.GuardedInsert? && Step(inst', k, q, t).Some?
    ensures inst' == inst ==> (Step(inst', k, q, t).Some? <==>
              inst.src < |q| && q[inst.src].Coll? && t.env(inst.point) <= |q[inst.src].contents|)
    ensures inst' == inst && Below(ranges[k], t.env(inst.point), t.env) ==> Step(inst', k, q, t).Some?
    ensures Step(inst', k, q, t).Some? ==>
              StepAgrees(Step(inst, k, r, t).value, Step(inst', k, q, t), ranges[k], t.env)
  {
    hide AgreeAll, Agree, Within, InsertWithin, Inserted;
    var b, env, src := ranges[k], t.env, inst.src;
    CellAgrees(src, r, q, ranges, env);
    OperandAgrees(inst.value, r, q, ranges, env);
    var a, c := r[src].contents, q[src].contents;
    InsertAgrees(a, c, ranges[src], b, env(inst.point), OperandValue(inst.value, r).value, env);
  }

  // A rewritten instruction is carried out exactly when it has room, and agrees if it is.
  lemma RewrittenStep(p: seq<Inst>, p': seq<Inst>, k: nat, r: seq<Cell>, q: seq<Cell>,
                                         ranges: seq<Bounds>, t: Trace)
    requires |ranges| == |p| == |p'| && k < |p| && Covered(p, ranges, t.env) && RewrittenInst(p[k], p'[k], ranges[k])
    requires |r| == k && AgreeAll(r, q, ranges, t.env) && |q| == k && Lengths(p', q, t)
    requires Step(p[k], k, r, t).Some?
    ensures Step(p'[k], k, q, t).Some? <==> HasRoom(p', k, t)
    ensures UnguardedBelow(p[k], p'[k], ranges[k], t.env) ==> HasRoom(p', k, t)
    ensures Step(p'[k], k, q, t).Some? ==>
              StepAgrees(Step(p[k], k, r, t).value, Step(p'[k], k, q, t), ranges[k], t.env)
  {
    hide AgreeAll, StepAgrees, Step, InstCovered, Below, NewLen;
    assert InstCovered(p[k], k, ranges, t.env);
    if p[k].IndexWrite? {
      SourceLength(p, p', k, p[k].src, r, q, ranges, t);
      WriteStep(p[k], p'[k], k, r, q, ranges, t);
    } else if p[k].SeqInsert? {
      SourceLength(p, p', k, p[k].src, r, q, ranges, t);
      InsertStep(p[k], p'[k], k, r, q, ranges, t);
    } else {
      UnchangedStep(p[k], k, r, q, ranges, t);
      assert StepAgrees(Step(p[k], k, r, t).value, Step(p[k], k, q, t), ranges[k], t.env);
      AgreesIsSome(Step(p[k], k, r, t).value, Step(p[k], k, q, t), ranges[k], t.env);
    }
  }

  lemma AgreesIsSome(c: Cell, d: Option<Cell>, b: Bounds, env: nat -> nat)
    requires StepAgrees(c, d, b, env)
    ensures d.Some?
  {
  }

  lemma SourceLength(p: seq<Inst>, p': seq<Inst>, k: nat, src: nat, r: seq<Cell>, q: seq<Cell>, ranges: seq<Bounds>,
                     t: Trace)
    requires k < |p| == |p'| && k <= |ranges| && |r| == k && AgreeAll(r, q, ranges, t.env) && Lengths(p', q, t)
    requires (p[k].IndexWrite? || p[k].SeqInsert?) && src == p[k].src && Step(p[k], k, r, t).Some?
    ensures src < |q| && q[src].Coll? && |q[src].contents| == LenBefore(p', src, k, t)
  {
    hide Agree, NewLen;
  }

  // An instruction that stays unguarded is below the bound of its range.
  predicate UnguardedBelow(inst: Inst, inst': Inst, b: Bounds, env: nat -> nat) {
    inst' == inst ==>
      && (inst.IndexWrite? ==> Below(b, env(inst.index), env))
      && (inst.SeqInsert? ==> Below(b, env(inst.point), env))
  }

  // ---- Whole runs

  lemma Prefixes(p: seq<Inst>, p': seq<Inst>, ranges: seq<Bounds>, env: nat -> nat, n: nat)
    requires |ranges| == |p| && Rewritten(p, p', ranges) && Covered(p, ranges, env) && n <= |p|
    ensures Rewritten(p[..n], p'[..n], ranges[..n]) && Covered(p[..n], ranges[..n], env)
  {
    hide Within, InsertWithin, Contains, RewrittenInst;
  }

  lemma AgreePrefix(r: seq<Cell>, q: seq<Cell>, ranges: seq<Bounds>, env: nat -> nat)
    requires |r| <= |ranges| && AgreeAll(r, q, ranges[..|r|], env)
    ensures AgreeAll(r, q, ranges, env) && |q| == |r|
  {
  }

  lemma AgreeMore(r: seq<Cell>, q: seq<Cell>, c: Cell, d: Cell, ranges: seq<Bounds>, env: nat -> nat)
    requires |r| < |ranges| && AgreeAll(r, q, ranges, env) && StepAgrees(c, Some(d), ranges[|r|], env)
    ensures AgreeAll(r + [c], q + [d], ranges, env)
  {
    hide Agree;
  }

  lemma NothingAgrees(ranges: seq<Bounds>, env: nat -> nat)
    ensures AgreeAll([], [], ranges, env)
  {
  }

  // The rewritten program runs exactly when its unguarded writes and inserts have room, and
  // then agrees with the original on all ranges.
  lemma {:induction false} RewrittenRunsIff(p: seq<Inst>, p': seq<Inst>, ranges: seq<Bounds>, t: Trace)
    requires |ranges| == |p| && Rewritten(p, p', ranges) && Covered(p, ranges, t.env)
    requires Exec(p, t).Some?
    ensures Exec(p', t).Some? <==> AllHaveRoom(p', t)
    ensures |Exec(p, t).value| == |p|
    ensures Exec(p', t).Some? ==> AgreeAll(Exec(p, t).value, Exec(p', t).value, ranges, t.env)
    decreases |p|
  {
    hide Covered, AgreeAll, StepAgrees, Step, RewrittenInst, HasRoom, NewLen;
    if p == [] {
      NothingAgrees(ranges, t.env);
    } else {
      var n := |p| - 1;
      Prefixes(p, p', ranges, t.env, n);
      RewrittenRunsIff(p[..n], p'[..n], ranges[..n], t);
      forall k | 0 <= k < n ensures HasRoom(p'[..n], k, t) == HasRoom(p', k, t) {
        RoomOfPrefix(p', n, k, t);
      }
      if Exec(p'[..n], t).Some? {
        LastStep(p, p', ranges, t);
        assert forall k | 0 <= k < n :: HasRoom(p'[..n], k, t);
      } else if AllHaveRoom(p', t) {
        forall k | 0 <= k < n ensures HasRoom(p'[..n], k, t) {
          assert HasRoom(p', k, t);
        }
      }
    }
  }

  lemma LastStep(p: seq<Inst>, p': seq<Inst>, ranges: seq<Bounds>, t: Trace)
    requires p != [] && |ranges| == |p| && Rewritten(p, p', ranges) && Covered(p, ranges, t.env) && Exec(p, t).Some?
    requires Exec(p[..|p| - 1], t).Some? && Exec(p'[..|p| - 1], t).Some? && |Exec(p[..|p| - 1], t).value| == |p| - 1
    requires AgreeAll(Exec(p[..|p| - 1], t).value, Exec(p'[..|p| - 1], t).value, ranges[..|p| - 1], t.env)
    ensures Exec(p', t).Some? <==> HasRoom(p', |p| - 1, t)
    ensures UnguardedBelow(p[|p| - 1], p'[|p| - 1], ranges[|p| - 1], t.env) ==> HasRoom(p', |p| - 1, t)
    ensures Exec(p', t).Some? ==> AgreeAll(Exec(p, t).value, Exec(p', t).value, ranges, t.env)
  {
    hide Covered, AgreeAll, StepAgrees, Step, RewrittenInst, HasRoom, NewLen, Lengths, UnguardedBelow;
    var n := |p| - 1;
    var r, q := Exec(p[..n], t).value, Exec(p'[..n], t).value;
    AgreePrefix(r, q, ranges, t.env);
    RunLengths(p'[..n], t);
    PrefixLengths(p', n, q, t);
    RewrittenStep(p, p', n, r, q, ranges, t);
    if Step(p'[n], n, q, t).Some? {
      AgreeMore(r, q, Step(p[n], n, r, t).value, Step(p'[n], n, q, t).value, ranges, t.env);
    }
  }

  // Each result of a run is what its instruction makes of the results before it.
  lemma {:induction false} ExecAt(p: seq<Inst>, t: Trace, k: nat)
    requires Exec(p, t).Some? && k < |p|
    ensures |Exec(p, t).value| == |p|
    ensures Step(p[k], k, Exec(p, t).value[..k], t) == Some(Exec(p, t).value[k])
    decreases |p|
  {
    hide Step;
    var n := |p| - 1;
    var r := Exec(p[..n], t).value;
    if n > 0 {
      ExecAt(p[..n], t, if k < n then k else 0);
    }
    assert Exec(p, t).value == r + [Step(p[n], n, r, t).value];
    if k < n {
      assert p[..n][k] == p[k];
      assert (r + [Step(p[n], n, r, t).value])[..k] == r[..k];
    } else {
      assert (r + [Step(p[n], n, r, t).value])[..n] == r;
    }
  }

  // In a run of the rewritten program a write of a confined definition is carried out exactly
  // inside its range; outside, its version equals the one it is made from.
  lemma ConfinedWrite(p: seq<Inst>, q: seq<Inst>, b: Bounds, k: nat, t: Trace)
    requires |q| == |p| && k < |p| && p[k].IndexWrite? && IsConfined(p[k], q[k], b) && Exec(q, t).Some?
    ensures |Exec(q, t).value| == |p| && p[k].src < k
    ensures var r := Exec(q, t).value;
            && r[p[k].src].Coll?
            && (Contains(b, t.env, t.env(p[k].index)) ==>
                  Some(r[k]) == Write(Some(r[p[k].src].contents), t.env(p[k].index), OperandValue(p[k].value, r[..k])))
            && (!Contains(b, t.env, t.env(p[k].index)) ==> r[k] == r[p[k].src])
  {
    hide Exec, Contains, OperandValue;
    ExecAt(q, t, k);
    var r := Exec(q, t).value;
    assert Confined(p[k], b, k, r[..k], t) == Some(r[k]);
  }

  lemma ConfinedInsert(p: seq<Inst>, q: seq<Inst>, b: Bounds, k: nat, t: Trace)
    requires |q| == |p| && k < |p| && p[k].SeqInsert? && IsConfined(p[k], q[k], b) && Exec(q, t).Some?
    ensures |Exec(q, t).value| == |p| && p[k].src < k
    ensures var r := Exec(q, t).value;
            && r[p[k].src].Coll?
            && (Below(b, t.env(p[k].point), t.env) ==>
                  Some(r[k]) == Insert(Some(r[p[k].src].contents), t.env(p[k].point), OperandValue(p[k].value, r[..k])))
            && (!Below(b, t.env(p[k].point), t.env) ==> r[k] == r[p[k].src])
  {
    hide Exec, Below, OperandValue;
    ExecAt(q, t, k);
    var r := Exec(q, t).value;
    assert Confined(p[k], b, k, r[..k], t) == Some(r[k]);
  }

  lemma {:induction false} ResultKinds(p: seq<Inst>, t: Trace, k: nat)
    requires Exec(p, t).Some? && k < |p|
    ensures |Exec(p, t).value| == |p|
    ensures p[k].IndexRead? ==> Exec(p, t).value[k].Word?
    decreases |p|
  {
    var n := |p| - 1;
    if n > 0 {
      ResultKinds(p[..n], t, if k < n then k else 0);
    }
  }

  // The pass can make a run fail, but never changes a value read: in two runs that do not fail
  // every read finds the same value.
  lemma {:induction false} ReadsUnchanged(p: seq<Inst>, p': seq<Inst>, ranges: seq<Bounds>, t: Trace, k: nat)
    requires |ranges| == |p| && Rewritten(p, p', ranges) && Covered(p, ranges, t.env)
    requires Exec(p, t).Some? && Exec(p', t).Some? && k < |p| && p[k].IndexRead?
    ensures |Exec(p, t).value| == |Exec(p', t).value| == |p|
    ensures Exec(p', t).value[k] == Exec(p, t).value[k]
  {
    RewrittenRunsIff(p, p', ranges, t);
    ResultKinds(p, t, k);
  }

  ghost predicate NoGuardedInsert(p: seq<Inst>) {
    forall k | 0 <= k < |p| :: !p[k].GuardedInsert?
  }

  // Without a guarded insert no sequence gets shorter, so the program still runs.
  lemma {:induction false} NoGuardedInsertRuns(p: seq<Inst>, p': seq<Inst>, ranges: seq<Bounds>, t: Trace)
    requires |ranges| == |p| && Rewritten(p, p', ranges) && Covered(p, ranges, t.env)
    requires Exec(p, t).Some? && NoGuardedInsert(p')
    ensures Exec(p', t).Some?
  {
    hide NewLen, Covered, Exec;
    RewrittenRunsIff(p, p', ranges, t);
    RunLengths(p, t);
    forall k | 0 <= k < |p| ensures HasRoom(p', k, t) {
      assert RewrittenInst(p[k], p'[k], ranges[k]) && HasRoom(p, k, t);
      if (p'[k].IndexWrite? || p'[k].SeqInsert?) && p'[k].src < k {
        SameLength(p, p', ranges, p'[k].src, t);
      }
    }
  }

  lemma {:induction false} SameLength(p: seq<Inst>, p': seq<Inst>, ranges: seq<Bounds>, k: nat, t: Trace)
    requires |ranges| == |p| && Rewritten(p, p', ranges) && NoGuardedInsert(p') && k < |p|
    ensures NewLen(p', k, t) == NewLen(p, k, t)
    decreases k
  {
    var inst := p[k];
    assert RewrittenInst(inst, p'[k], ranges[k]);
    if (inst.IndexWrite? || inst.SeqInsert? || inst.UsePhi? || inst.GuardedWrite?) && inst.src < k {
      SameLength(p, p', ranges, inst.src, t);
    }
    if inst.Phi? && t.choice(k) < |inst.incoming| && inst.incoming[t.choice(k)] < k {
      SameLength(p, p', ranges, inst.incoming[t.choice(k)], t);
    }
  }

  // Nor does it fail where what stays unguarded is below the bound of its range.
  lemma {:induction false} BelowBoundsRuns(p: seq<Inst>, p': seq<Inst>, ranges: seq<Bounds>, t: Trace)
    requires |ranges| == |p| && Rewritten(p, p', ranges) && Covered(p, ranges, t.env) && Exec(p, t).Some?
    requires forall k | 0 <= k < |p| :: UnguardedBelow(p[k], p'[k], ranges[k], t.env)
    ensures Exec(p', t).Some?
    decreases |p|
  {
    hide Covered, AgreeAll, RewrittenInst, UnguardedBelow, HasRoom, Step;
    if p != [] {
      var n := |p| - 1;
      Prefixes(p, p', ranges, t.env, n);
      BelowBoundsRuns(p[..n], p'[..n], ranges[..n], t);
      RewrittenRunsIff(p[..n], p'[..n], ranges[..n], t);
      LastStep(p, p', ranges, t);
    }
  }

  // A sequence of one element with an insert and a write at position 1, of which a reader
  // needs position 0 only. The insert is guarded; the bounds of the write are not available.
  const NEEDED: Bounds := Bounds(Constant(0), Constant(1))
  const BEFORE: seq<Inst> := [Alloc([7]), SeqInsert(0, 1, Literal(8)), IndexWrite(1, 1, Literal(9)), IndexRead(2, 0)]
  const AFTER: seq<Inst> :=
    [Alloc([7]), GuardedInsert(0, 1, Literal(8), Constant(1)), IndexWrite(1, 1, Literal(9)), IndexRead(2, 0)]
  const RUN: Trace := Trace(i => i, k => 0)

  lemma BeforeRuns()
    ensures Exec(BEFORE, RUN).Some?
  {
    hide Exec;
    var none: seq<Inst> := [];
    var (i0, i1, i2, i3) := (BEFORE[0], BEFORE[1], BEFORE[2], BEFORE[3]);
    assert BEFORE == none + [i0] + [i1] + [i2] + [i3];
    var r1 := [Coll([7])];
    assert Inserted([7], 1, 8) == [7, 8] && [] + [Coll([7])] == r1;
    ExecNothing(RUN);
    ExecSnoc(none, i0, RUN);
    ExecSnoc(none + [i0], i1, RUN);
    ExecSnoc(none + [i0] + [i1], i2, RUN);
    ExecSnoc(none + [i0] + [i1] + [i2], i3, RUN);
  }

  lemma AfterFails()
    ensures Exec(AFTER, RUN).None?
  {
    hide Exec, Eval;
    var none: seq<Inst> := [];
    var (i0, j1, i2, i3) := (AFTER[0], AFTER[1], AFTER[2], AFTER[3]);
    assert AFTER == none + [i0] + [j1] + [i2] + [i3];
    assert [] + [Coll([7])] == [Coll([7])];
    NeededIsZero(1);
    ExecNothing(RUN);
    ExecSnoc(none, i0, RUN);
    ExecSnoc(none + [i0], j1, RUN);
    ExecSnoc(none + [i0] + [j1], i2, RUN);
    ExecSnoc(none + [i0] + [j1] + [i2], i3, RUN);
  }

  // Otherwise a run may be broken: the write was in bounds before and is out of bounds now.
  lemma UnguardedWriteBreaks()
    ensures Rewritten(BEFORE, AFTER, [NEEDED, NEEDED, NEEDED, NEEDED])
    ensures Covered(BEFORE, [NEEDED, NEEDED, NEEDED, NEEDED], RUN.env)
    ensures Exec(BEFORE, RUN).Some? && Exec(AFTER, RUN).None?
  {
    hide Exec, Contains, Eval, Rewrite;
    BeforeRuns();
    AfterFails();
    RewriteInsert();
    forall i: nat ensures Contains(NEEDED, RUN.env, i) <==> i == 0 {
      NeededIsZero(i);
    }
    NeededIsZero(1);
    assert Within(NEEDED, NEEDED, RUN.env) && InsertWithin(NEEDED, NEEDED, 1, RUN.env);
  }

  lemma NeededIsZero(i: nat)
    ensures RUN.env(i) == i && RUN.choice(i) == 0
    ensures Contains(NEEDED, RUN.env, i) <==> i == 0
    ensures Eval(NEEDED.upper, RUN.env) == 1
  {
    hide Eval;
    EvalConstant(0, RUN.env);
    EvalConstant(1, RUN.env);
  }

  lemma EvalConstant(n: nat, env: nat -> nat)
    requires n < WORD
    ensures Eval(Constant(n), env) == n
  {
  }

  lemma RewriteInsert()
    ensures Rewrite(BEFORE[1], NEEDED) == Some(AFTER[1])
  {
  }

  lemma ExecNothing(t: Trace)
    ensures Exec([], t) == Some([])
  {
  }

  lemma ExecSnoc(p: seq<Inst>, inst: Inst, t: Trace)
    ensures Exec(p + [inst], t) ==
            if Exec(p, t).None? then None
            else var c := Step(inst, |p|, Exec(p, t).value, t);
                 if c.None? then None else Some(Exec(p, t).value + [c.value])
  {
    assert (p + [inst])[..|p|] == p;
  }

  // The program being rewritten.
  class Program {
    var code: seq<Inst>

    constructor (code: seq<Inst>)
      ensures this.code == code
    {
      this.code := code;
    }

    // run: rewrites the definition of every version with a live range whose bounds are
    // available. A version without a range, or an insert bounded from below only, aborts.
    method Run(live: map<nat, Option<Bounds>>, available: set<nat>) returns (ok: bool)
      requires forall k | k in live :: k < |code|
      modifies this
      ensures |code| == |old(code)|
      ensures ok <==> forall k | k in live ::
                        live[k].Some? && (k in available ==> CanConfine(old(code)[k], live[k].value))
      ensures ok ==> forall k | 0 <= k < |code| && !(k in live && k in available) :: code[k] == old(code)[k]
      ensures ok ==> forall k | k in live && k in available ::
                       && IsConfined(old(code)[k], code[k], live[k].value)
                       && Rewrite(old(code)[k], live[k].value) == Some(code[k])
    {
      hide Rewrite, CanConfine, IsConfined;
      var todo := live.Keys;
      while todo != {}
        invariant todo <= live.Keys && |code| == |old(code)|
        invariant forall k | k in live && k !in todo ::
                    live[k].Some? && (k in available ==> CanConfine(old(code)[k], live[k].value))
        invariant forall k | 0 <= k < |code| && !(k in live && k !in todo && k in available) :: code[k] == old(code)[k]
        invariant forall k | k in live && k !in todo && k in available ::
                    && IsConfined(old(code)[k], code[k], live[k].value)
                    && Rewrite(old(code)[k], live[k].value) == Some(code[k])
        decreases todo
      {
        var k :| k in todo;
        if live[k].None? {
          return false;
        }
        if k in available {
          var inst := Rewrite(code[k], live[k].value);
          RewriteConfines(code[k], live[k].value);
          if inst.None? {
            return false;
          }
          code := code[k := inst.value];
        }
        todo := todo - {k};
      }
      return true;
    }
  }
}
