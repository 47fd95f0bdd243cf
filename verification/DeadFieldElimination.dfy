/** Dead field elimination (dead_field_elimination/src/DeadFieldElimination.hpp): fields no
    instruction accesses leave the struct definition, and the others move down. */
module DeadFieldElimination {
  import opened Options
  import opened Arithmetic
  import opened Digraphs
  import opened FieldUses
  import opened Programs

  // An access instruction, by its identity.
  type Access = nat

  // The accesses of each live field of one struct type.
  type LiveFields = map<nat, set<Access>>

  // ---- Counting

  // How many of the indices from lo to hi - 1 are live.
  function LiveIn(live: set<nat>, lo: nat, hi: nat): (n: nat)
    requires lo <= hi
    ensures n <= hi - lo
    decreases hi - lo
  {
    if lo == hi then 0 else (if lo in live then 1 else 0) + LiveIn(live, lo + 1, hi)
  }

  function DeadIn(live: set<nat>, lo: nat, hi: nat): (n: nat)
    requires lo <= hi
    ensures n <= hi - lo
  {
    hi - lo - LiveIn(live, lo, hi)
  }

  lemma {:induction false} LiveSplit(live: set<nat>, lo: nat, mid: nat, hi: nat)
    requires lo <= mid <= hi
    ensures LiveIn(live, lo, hi) == LiveIn(live, lo, mid) + LiveIn(live, mid, hi)
    decreases mid - lo
  {
    if lo < mid {
      LiveSplit(live, lo + 1, mid, hi);
    }
  }

  // The place of field i once the dead fields below it are gone.
  function NewIndex(live: set<nat>, i: nat): nat {
    i - DeadIn(live, 0, i)
  }

  // The live fields from lo on, in their order.
  function Kept<T>(live: set<nat>, fields: seq<T>, lo: nat): (r: seq<T>)
    requires lo <= |fields|
    ensures |r| == LiveIn(live, lo, |fields|)
    decreases |fields| - lo
  {
    if lo == |fields| then [] else (if lo in live then [fields[lo]] else []) + Kept(live, fields, lo + 1)
  }

  lemma {:induction false} KeptFrom<T>(live: set<nat>, fields: seq<T>, lo: nat, i: nat)
    requires lo <= i < |fields| && i in live
    ensures LiveIn(live, lo, i) < |Kept(live, fields, lo)| && Kept(live, fields, lo)[LiveIn(live, lo, i)] == fields[i]
    decreases i - lo
  {
    var rest := Kept(live, fields, lo + 1);
    if lo < i {
      KeptFrom(live, fields, lo + 1, i);
      var k := LiveIn(live, lo + 1, i);
      if lo in live {
        assert ([fields[lo]] + rest)[1 + k] == rest[k];
      } else {
        assert Kept(live, fields, lo) == rest;
      }
    } else {
      assert ([fields[lo]] + rest)[0] == fields[lo];
    }
  }

  // A live field is found at its new index.
  lemma KeptAt<T>(live: set<nat>, fields: seq<T>, i: nat)
    requires i < |fields| && i in live
    ensures NewIndex(live, i) < |Kept(live, fields, 0)| && Kept(live, fields, 0)[NewIndex(live, i)] == fields[i]
  {
    KeptFrom(live, fields, 0, i);
  }

  // Live fields keep their order, and none share a place.
  lemma NewIndexMonotone(live: set<nat>, i: nat, j: nat)
    requires i < j && i in live
    ensures NewIndex(live, i) < NewIndex(live, j)
  {
    LiveSplit(live, 0, i, j);
  }

  // Writing a live field and dropping the dead ones commute.
  lemma {:induction false} KeptUpdate<T>(live: set<nat>, fields: seq<T>, lo: nat, i: nat, v: T)
    requires lo <= i < |fields| && i in live
    ensures LiveIn(live, lo, i) < |Kept(live, fields, lo)|
    ensures Kept(live, fields[i := v], lo) == Kept(live, fields, lo)[LiveIn(live, lo, i) := v]
    decreases i - lo
  {
    if lo < i {
      KeptUpdate(live, fields, lo + 1, i, v);
    } else {
      KeptPast(live, fields, i + 1, i, v);
    }
  }

  lemma {:induction false} KeptPast<T>(live: set<nat>, fields: seq<T>, lo: nat, i: nat, v: T)
    requires i < lo <= |fields|
    ensures Kept(live, fields[i := v], lo) == Kept(live, fields, lo)
    decreases |fields| - lo
  {
    if lo < |fields| {
      KeptPast(live, fields, lo + 1, i, v);
    }
  }

  // ---- The loop over one struct definition

  // A 16-bit signed integer holding n.
  function Int16(n: int): int {
    (n + 0x8000) % 0x1_0000 - 0x8000
  }

  // The loop starts at the last field, if 16 bits can hold its index.
  function Inspected(n: nat): (m: nat)
    ensures m <= n && (n <= 0x8000 ==> m == n) && (0x8000 < n <= 0x1_0000 ==> m == 0)
  {
    if Int16(n - 1) < 0 then 0 else Int16(n - 1) + 1
  }

  ghost predicate Indexed(live: LiveFields, index: map<Access, nat>) {
    forall i, a | i in live && a in live[i] :: a in index && index[a] == i
  }

  // The index of an access of field i when the dead fields from lo to m - 1 have been removed.
  ghost function ShiftedIndex(live: set<nat>, n: nat, m: nat, lo: nat, i: nat): nat {
    if lo <= Min(i, m) && i < n then i - DeadIn(live, lo, Min(i, m)) else i
  }

  ghost predicate Shifted(live: LiveFields, n: nat, m: nat, lo: nat, before: map<Access, nat>,
                          index: map<Access, nat>) {
    && index.Keys == before.Keys
    && forall a | a in before :: index[a] == (if before[a] in live && a in live[before[a]]
                                              then ShiftedIndex(live.Keys, n, m, lo, before[a]) else before[a])
  }

  class Definition<T> {
    var fields: seq<T>
    var index: map<Access, nat>

    constructor (fields: seq<T>, index: map<Access, nat>)
      ensures this.fields == fields && this.index == index
    {
      this.fields, this.index := fields, index;
    }

    // The accesses of one field above the removed one each move down by one. None of them
    // is below it by now, so the test never holds one back.
    method MoveDown(accesses: set<Access>, field: nat)
      requires forall a | a in accesses :: a in index && field < index[a]
      modifies this`index
      ensures index.Keys == old(index.Keys)
      ensures forall a | a in index :: index[a] == if a in accesses then old(index)[a] - 1 else old(index)[a]
    {
      var todo := accesses;
      ghost var done := {};
      while todo != {}
        invariant todo !! done && todo + done == accesses && index.Keys == old(index.Keys)
        invariant forall a | a in index :: index[a] == if a in done then old(index)[a] - 1 else old(index)[a]
        decreases todo
      {
        var a :| a in todo;
        var at := index[a];
        if !(at < field) {
          index := index[a := at - 1];
        }
        todo, done := todo - {a}, done + {a};
      }
    }

    // One dead field: every access of a field above it moves down.
    method Remove(live: LiveFields, n: nat, ghost m: nat, field: nat, ghost before: map<Access, nat>)
      requires field < m <= n && field !in live && Indexed(live, before)
      requires Shifted(live, n, m, field + 1, before, index)
      modifies this`index
      ensures Shifted(live, n, m, field, before, index)
    {
      ghost var was := index;
      for k := field + 1 to n
        invariant index.Keys == before.Keys
        invariant forall a | a in before ::
                    index[a] == (if before[a] in live && a in live[before[a]] && before[a] < k
                                 then ShiftedIndex(live.Keys, n, m, field, before[a]) else was[a])
      {
        if k in live {
          MoveDown(live[k], field);
        }
      }
    }

    // Live fields are collected from the last to the first; the definition is rebuilt only
    // when a field has been removed.
    method Transform(live: LiveFields)
      requires Indexed(live, index)
      modifies this
      ensures var n := |old(fields)|; var m := Inspected(n);
              && Shifted(live, n, m, 0, old(index), index)
              && fields == Left(live.Keys, old(fields))
    {
      hide Shifted, Kept, Inspected, Int16, LiveIn, DeadIn;
      var n := |fields|;
      var kept: seq<T> := [];
      var removed: set<nat> := {};
      var field := Int16(n - 1);
      ghost var m := Inspected(n);
      ghost var lo := m;
      Unshifted(live, n, m, index);
      NothingYet(live.Keys, n, fields[..m]);
      while field >= 0
        invariant lo <= m <= n && fields == old(fields)
        invariant if field < 0 then lo == 0 else lo == field + 1
        invariant Shifted(live, n, m, lo, old(index), index)
        invariant Reversed(kept) == Kept(live.Keys, fields[..m], lo)
        invariant |removed| == DeadIn(live.Keys, lo, m) && forall i | i in removed :: lo <= i
        decreases field
      {
        OneMore(live.Keys, fields[..m], field);
        if field in live {
          Same(live, n, m, field, old(index), index);
          kept := kept + [fields[field]];
          assert kept[..|kept| - 1] + [fields[field]] == kept;
        } else {
          removed := removed + {field};
          Remove(live, n, m, field, old(index));
        }
        field := field - 1;
        lo := lo - 1;
      }
      if |removed| > 0 {
        fields := Reversed(kept);
      }
    }
  }

  lemma Unshifted(live: LiveFields, n: nat, m: nat, index: map<Access, nat>)
    requires m <= n
    ensures Shifted(live, n, m, m, index, index)
  {
  }

  // A live field moves nothing.
  lemma Same(live: LiveFields, n: nat, m: nat, field: nat, before: map<Access, nat>, index: map<Access, nat>)
    requires field < m <= n && field in live && Shifted(live, n, m, field + 1, before, index)
    ensures Shifted(live, n, m, field, before, index)
  {
  }

  lemma NothingYet<T>(live: set<nat>, n: nat, inspected: seq<T>)
    requires |inspected| == Inspected(n)
    ensures Kept(live, inspected, |inspected|) == [] && DeadIn(live, |inspected|, |inspected|) == 0
    ensures if Int16(n - 1) < 0 then |inspected| == 0 else |inspected| == Int16(n - 1) + 1
  {
  }

  lemma OneMore<T>(live: set<nat>, inspected: seq<T>, lo: nat)
    requires lo < |inspected|
    ensures Kept(live, inspected, lo) == (if lo in live then [inspected[lo]] else []) + Kept(live, inspected, lo + 1)
    ensures DeadIn(live, lo, |inspected|) == (if lo in live then 0 else 1) + DeadIn(live, lo + 1, |inspected|)
  {
  }

  function Reversed<T>(s: seq<T>): (r: seq<T>)
    ensures |r| == |s|
  {
    if s == [] then [] else [s[|s| - 1]] + Reversed(s[..|s| - 1])
  }

  // ---- The analysis of a program

  function FieldsIn(s: Stmt): set<Field> {
    match s
    case Read(_, _, f) => {f}
    case Write(_, f, _) => {f}
    case Then(a, b) => FieldsIn(a) + FieldsIn(b)
    case If(_, a, b) => FieldsIn(a) + FieldsIn(b)
    case While(_, b) => FieldsIn(b)
    case _ => {}
  }

  function TypesIn(s: Stmt): set<StructType> {
    match s
    case New(_, of) => {of}
    case Read(_, _, f) => {f.of}
    case Write(_, f, _) => {f.of}
    case Then(a, b) => TypesIn(a) + TypesIn(b)
    case If(_, a, b) => TypesIn(a) + TypesIn(b)
    case While(_, b) => TypesIn(b)
    case _ => {}
  }

  lemma {:induction false} FieldsInAre(s: Stmt, f: Field)
    ensures f in FieldsIn(s) <==> exists a :: PartOf(a, s) && Accesses(a, f)
    decreases s
  {
    match s
    case Then(x, y) =>
      FieldsInAre(x, f);
      FieldsInAre(y, f);
    case If(_, x, y) =>
      FieldsInAre(x, f);
      FieldsInAre(y, f);
    case While(_, x) => FieldsInAre(x, f);
    case _ =>
      assert PartOf(s, s);
      assert Accesses(s, f) <==> f in FieldsIn(s);
  }

  // A statement about structs of a type: one is made, read or written.
  predicate Mentions(a: Stmt, of: StructType) {
    (a.New? && a.of == of) || ((a.Read? || a.Write?) && a.f.of == of)
  }

  lemma {:induction false} TypesInAre(s: Stmt, of: StructType)
    ensures of in TypesIn(s) <==> exists a :: PartOf(a, s) && Mentions(a, of)
    decreases s
  {
    match s
    case Then(x, y) =>
      TypesInAre(x, of);
      TypesInAre(y, of);
    case If(_, x, y) =>
      TypesInAre(x, of);
      TypesInAre(y, of);
    case While(_, x) => TypesInAre(x, of);
    case _ =>
      assert PartOf(s, s);
      assert Mentions(s, of) <==> of in TypesIn(s);
  }

  // A field some instruction accesses.
  function Accessed(p: Program): set<Field> {
    set c, f | c in p.functions && f in FieldsIn(p.functions[c].body) :: f
  }

  // A struct type some value has.
  function Seen(p: Program): set<StructType> {
    set c, of | c in p.functions && of in TypesIn(p.functions[c].body) :: of
  }

  function LiveIndices(p: Program, of: StructType): set<nat> {
    set f | f in Accessed(p) && f.of == of :: f.index
  }

  // Live is what some statement of the program reads or writes, and seen are the types of the
  // structs some statement is about.
  lemma LiveIsAccessed(p: Program, f: Field)
    ensures f.index in LiveIndices(p, f.of) <==>
            exists c, a ::
              c in p.functions && PartOf(a, p.functions[c].body) && Accesses(a, f)
    ensures f.of in Seen(p) <==>
            exists c, a ::
              c in p.functions && PartOf(a, p.functions[c].body) && Mentions(a, f.of)
  {
    hide PartOf, FieldsIn, TypesIn;
    forall c | c in p.functions
      ensures f in FieldsIn(p.functions[c].body) <==>
              exists a ::
                PartOf(a, p.functions[c].body) && Accesses(a, f)
      ensures f.of in TypesIn(p.functions[c].body) <==>
              exists a ::
                PartOf(a, p.functions[c].body) && Mentions(a, f.of)
    {
      FieldsInAre(p.functions[c].body, f);
      TypesInAre(p.functions[c].body, f.of);
    }
    assert f in Accessed(p) <==> exists c :: c in p.functions && f in FieldsIn(p.functions[c].body);
    assert f.of in Seen(p) <==> exists c :: c in p.functions && f.of in TypesIn(p.functions[c].body);
    assert f.index in LiveIndices(p, f.of) <==> f in Accessed(p) by {
      if f.index in LiveIndices(p, f.of) {
        var x :| x in Accessed(p) && x.of == f.of && x.index == f.index;
        assert x == f;
      }
    }
  }

  // The live fields of a struct type the pass changes: one with a value and a dead field that
  // the loop reaches.
  function LiveOf(p: Program, of: StructType): Option<set<nat>> {
    if of in Seen(p) && of in p.types && DeadIn(LiveIndices(p, of), 0, Inspected(|p.types[of]|)) != 0 then
      Some(LiveIndices(p, of))
    else None
  }

  function NewFields<T>(p: Program, of: StructType, fields: seq<T>): seq<T> {
    match LiveOf(p, of)
    case Some(live) => Kept(live, fields, 0)
    case None => fields
  }

  function Renumbered(p: Program, f: Field): Field {
    match LiveOf(p, f.of)
    case Some(live) => Field(f.of, NewIndex(live, f.index))
    case None => f
  }

  function RenumberStmt(p: Program, s: Stmt): Stmt {
    match s
    case Read(x, q, f) => Read(x, q, Renumbered(p, f))
    case Write(q, f, e) => Write(q, Renumbered(p, f), e)
    case Then(a, b) => Then(RenumberStmt(p, a), RenumberStmt(p, b))
    case If(e, a, b) => If(e, RenumberStmt(p, a), RenumberStmt(p, b))
    case While(e, b) => While(e, RenumberStmt(p, b))
    case _ => s
  }

  function Result(p: Program): Program {
    Program(map of | of in p.types :: NewFields(p, of, p.types[of]),
            map c | c in p.functions :: p.functions[c].(body := RenumberStmt(p, p.functions[c].body)))
  }

  // ---- The two runs side by side

  function NewObject(p: Program, o: Object): Object {
    Object(o.of, NewFields(p, o.of, o.fields))
  }

  function NewHeap(p: Program, heap: seq<Object>): (r: seq<Object>)
    ensures |r| == |heap|
  {
    seq(|heap|, i requires 0 <= i < |heap| => NewObject(p, heap[i]))
  }

  // The same state with every struct in the new layout.
  function NewState(p: Program, s: State): State {
    s.(heap := NewHeap(p, s.heap))
  }

  function NewOutcome(p: Program, o: Outcome): Outcome {
    if o.Done? then Done(NewState(p, o.s)) else o
  }

  // What the statement accesses is live.
  predicate Live(p: Program, s: Stmt) {
    FieldsIn(s) <= Accessed(p)
  }

  lemma ReadAtNewIndex(p: Program, o: Object, f: Field)
    requires f in Accessed(p) && o.of == f.of && f.index < |o.fields|
    ensures Renumbered(p, f).index < |NewObject(p, o).fields|
    ensures NewObject(p, o).fields[Renumbered(p, f).index] == o.fields[f.index]
  {
    match LiveOf(p, f.of)
    case Some(live) => KeptAt(live, o.fields, f.index);
    case None =>
  }

  lemma WriteAtNewIndex(p: Program, o: Object, f: Field, v: Value)
    requires f in Accessed(p) && o.of == f.of && f.index < |o.fields|
    ensures Renumbered(p, f).index < |NewObject(p, o).fields|
    ensures NewObject(p, WithField(o, f.index, v)) == WithField(NewObject(p, o), Renumbered(p, f).index, v)
  {
    match LiveOf(p, f.of)
    case Some(live) => KeptUpdate(live, o.fields, 0, f.index, v);
    case None =>
  }

  lemma SameType(p: Program, f: Field)
    ensures Renumbered(p, f).of == f.of
  {
  }

  lemma StepInNewLayout(p: Program, stmt: Stmt, s: State)
    requires Live(p, stmt) && IsStep(stmt) && Step(p, stmt, s) != Wrong
    ensures IsStep(RenumberStmt(p, stmt))
    ensures Step(Result(p), RenumberStmt(p, stmt), NewState(p, s)) == NewOutcome(p, Step(p, stmt, s))
  {
    hide NewFields, Renumbered, Accessed;
    match stmt
    case Read(x, q, f) =>
      var r := Target(q, s).value;
      ReadAtNewIndex(p, s.heap[r], f);
      assert NewHeap(p, s.heap)[r] == NewObject(p, s.heap[r]);
      assert Target(q, NewState(p, s)) == Some(r) && HasField(NewState(p, s), r, Renumbered(p, f)) by {
        SameType(p, f);
      }
    case Write(q, f, e) =>
      var r := Target(q, s).value;
      var v := Eval(e, s.locals).value;
      SameType(p, f);
      WriteAtNewIndex(p, s.heap[r], f, v);
      assert NewHeap(p, s.heap[r := WithField(s.heap[r], f.index, v)])
          == NewHeap(p, s.heap)[r := WithField(NewObject(p, s.heap[r]), Renumbered(p, f).index, v)];
    case New(x, of) =>
      var o := Object(of, p.types[of]);
      assert NewHeap(p, s.heap + [o]) == NewHeap(p, s.heap) + [NewObject(p, o)];
    case _ =>
  }

  lemma EnterInNewLayout(p: Program, c: Node, args: seq<Value>, passed: seq<Option<nat>>, s: State)
    requires Enter(p, c, args, passed, s).Some?
    ensures Enter(Result(p), c, args, passed, NewState(p, s)) == Some(NewState(p, Enter(p, c, args, passed, s).value))
    ensures c in p.functions && c in Result(p).functions
    ensures Result(p).functions[c] == p.functions[c].(body := RenumberStmt(p, p.functions[c].body))
    ensures Live(p, p.functions[c].body)
  {
    hide RenumberStmt, NewFields, BindLocals, BindColls, AllocColls;
  }

  ghost predicate SameInNewLayout(p: Program, stmt: Stmt, s: State, fuel: nat) {
    Exec(Result(p), RenumberStmt(p, stmt), NewState(p, s), fuel) == NewOutcome(p, Exec(p, stmt, s, fuel))
  }

  lemma {:induction false} CallInNewLayout(p: Program, stmt: Stmt, s: State, fuel: nat)
    requires stmt.Call? && Exec(p, stmt, s, fuel) != Wrong
    ensures SameInNewLayout(p, stmt, s, fuel)
    decreases fuel, stmt, 0
  {
    hide Step, Accessed, NewFields, Renumbered, Enter, Passed, Result, NewHeap, Live;
    var c := stmt.callee;
    var vs, passed := EvalAll(stmt.args, s.locals).value, Passed(stmt.extras, s.colls);
    var inner := Enter(p, c, vs, passed, s).value;
    EnterInNewLayout(p, c, vs, passed, s);
    if fuel > 0 {
      ExecInNewLayout(p, p.functions[c].body, inner, fuel - 1);
    }
  }

  // Every statement does in the new layout what it did in the old one.
  lemma {:induction false} ExecInNewLayout(p: Program, stmt: Stmt, s: State, fuel: nat)
    requires Live(p, stmt) && Exec(p, stmt, s, fuel) != Wrong
    ensures SameInNewLayout(p, stmt, s, fuel)
    decreases fuel, stmt, 1
  {
    hide Step, Accessed, NewFields, Renumbered, Enter, Passed, Result, NewHeap;
    match stmt
    case Then(first, second) =>
      ExecInNewLayout(p, first, s, fuel);
      var a := Exec(p, first, s, fuel);
      if a.Done? {
        ExecInNewLayout(p, second, a.s, fuel);
      }
    case If(e, yes, no) =>
      ExecInNewLayout(p, if Eval(e, s.locals).value == Num(0) then no else yes, s, fuel);
    case While(e, body) =>
      if Eval(e, s.locals).value != Num(0) && fuel > 0 {
        ExecInNewLayout(p, body, s, fuel);
        var a := Exec(p, body, s, fuel);
        if a.Done? {
          ExecInNewLayout(p, stmt, a.s, fuel - 1);
        }
      }
    case Call(_, _, _, _) => CallInNewLayout(p, stmt, s, fuel);
    case _ => StepInNewLayout(p, stmt, s);
  }

  // Every run that is defined shows the same without the dead fields, whether it ends or not.
  lemma SameBehaviour(p: Program, main: Node, args: seq<Value>, fuel: nat)
    requires !Run(p, main, args, fuel).Undefined?
    ensures Run(Result(p), main, args, fuel) == Run(p, main, args, fuel)
  {
    var start := State(map[], map[], [], [], []);
    assert NewState(p, start) == start;
    var s := Enter(p, main, args, [], start).value;
    EnterInNewLayout(p, main, args, [], start);
    ExecInNewLayout(p, p.functions[main].body, s, fuel);
  }

  // ---- The pass

  // The access instructions of a program with the fields they name.
  type Sites = map<Access, Field>

  ghost predicate AreSites(p: Program, sites: Sites) {
    && (forall a | a in sites :: sites[a] in Accessed(p))
    && forall f | f in Accessed(p) :: exists a :: a in sites && sites[a] == f
  }

  // For every struct type of a value, the accesses of each of its live fields.
  ghost predicate AreLive(p: Program, sites: Sites, live: map<StructType, LiveFields>) {
    && live.Keys == Seen(p)
    && forall of | of in live :: LiveOfType(sites, of, live[of])
  }

  ghost predicate LiveOfType(sites: Sites, of: StructType, live: LiveFields) {
    && (forall i, a | i in live && a in live[i] :: a in sites && sites[a] == Field(of, i))
    && (forall a | a in sites && sites[a].of == of :: sites[a].index in live && a in live[sites[a].index])
    && forall i | i in live :: live[i] != {}
  }

  // One struct type: every use of its values that is an access is entered under its field.
  method AnalyzeType(sites: Sites, of: StructType) returns (live: LiveFields)
    ensures LiveOfType(sites, of, live)
  {
    live := map[];
    var todo := sites.Keys;
    ghost var done := {};
    while todo != {}
      invariant todo !! done && todo + done == sites.Keys
      invariant forall i, a | i in live && a in live[i] :: a in sites && sites[a] == Field(of, i)
      invariant forall a | a in done && sites[a].of == of :: sites[a].index in live && a in live[sites[a].index]
      invariant forall i | i in live :: live[i] != {}
      decreases todo
    {
      var a :| a in todo;
      if sites[a].of == of {
        var i := sites[a].index;
        live := live[i := (if i in live then live[i] else {}) + {a}];
      }
      todo, done := todo - {a}, done + {a};
    }
  }

  method Analyze(p: Program, sites: Sites) returns (live: map<StructType, LiveFields>)
    ensures AreLive(p, sites, live)
  {
    hide LiveOfType;
    live := map[];
    var todo := Seen(p);
    ghost var done := {};
    while todo != {}
      invariant todo !! done && todo + done == Seen(p) && live.Keys == done
      invariant forall of | of in live :: LiveOfType(sites, of, live[of])
      decreases todo
    {
      var of :| of in todo;
      var l := AnalyzeType(sites, of);
      live := live[of := l];
      todo, done := todo - {of}, done + {of};
    }
  }

  // The analysis finds the live fields of the specification.
  lemma LiveKeys(p: Program, sites: Sites, of: StructType, live: LiveFields)
    requires AreSites(p, sites) && LiveOfType(sites, of, live)
    ensures live.Keys == LiveIndices(p, of)
  {
    forall i | i in live ensures exists f :: f in Accessed(p) && f.of == of && f.index == i {
      var a :| a in live[i];
      assert sites[a] in Accessed(p);
    }
  }

  // What the loop leaves of a definition.
  function Left<T>(live: set<nat>, fields: seq<T>): seq<T> {
    var m := Inspected(|fields|);
    if DeadIn(live, 0, m) == 0 then fields else Kept(live, fields[..m], 0)
  }

  // 16 bits do: the loop finds nothing dead, or leaves nothing live above where it starts.
  predicate Countable(live: set<nat>, n: nat) {
    DeadIn(live, 0, Inspected(n)) == 0 || LiveIn(live, Inspected(n), n) == 0
  }

  predicate AllCountable(p: Program) {
    forall of | of in Seen(p) && of in p.types :: Countable(LiveIndices(p, of), |p.types[of]|)
  }

  // With more fields than 16 bits can count, live ones can be lost: the loop rebuilds the
  // definition from the live fields exactly when 16 bits do.
  lemma LeftIsRightIff<T>(live: set<nat>, fields: seq<T>)
    ensures (Left(live, fields) == fields || Left(live, fields) == Kept(live, fields, 0))
            <==> Countable(live, |fields|)
  {
    var n := |fields|;
    var m := Inspected(n);
    LiveSplit(live, 0, m, n);
    if DeadIn(live, 0, m) != 0 && LiveIn(live, m, n) == 0 {
      KeptPrefix(live, fields, 0, m);
      NoneKept(live, fields, m);
    }
  }

  lemma NoneKept<T>(live: set<nat>, fields: seq<T>, lo: nat)
    requires lo <= |fields| && LiveIn(live, lo, |fields|) == 0
    ensures Kept(live, fields, lo) == []
  {
  }

  lemma {:induction false} KeptPrefix<T>(live: set<nat>, fields: seq<T>, lo: nat, m: nat)
    requires lo <= m <= |fields|
    ensures Kept(live, fields, lo) == Kept(live, fields[..m], lo) + Kept(live, fields, m)
    decreases m - lo
  {
    if lo < m {
      KeptPrefix(live, fields, lo + 1, m);
    }
  }

  // What the loops leave of the definitions and the accesses.
  function LeftFields(p: Program, of: StructType): seq<Value>
    requires of in p.types
  {
    if of in Seen(p) then Left(LiveIndices(p, of), p.types[of]) else p.types[of]
  }

  ghost function LeftField(p: Program, f: Field): Field
    requires f.of in p.types
  {
    var n := |p.types[f.of]|;
    Field(f.of, ShiftedIndex(LiveIndices(p, f.of), n, Inspected(n), 0, f.index))
  }

  lemma LeftFieldsRightIff(p: Program, of: StructType)
    requires of in p.types
    ensures of !in Seen(p) ==> LeftFields(p, of) == NewFields(p, of, p.types[of])
    ensures of in Seen(p) ==>
              (LeftFields(p, of) == NewFields(p, of, p.types[of]) <==> Countable(LiveIndices(p, of), |p.types[of]|))
  {
    hide Seen, LiveIndices, Inspected, Kept;
    LeftIsRightIff(LiveIndices(p, of), p.types[of]);
    if DeadIn(LiveIndices(p, of), 0, Inspected(|p.types[of]|)) != 0 {
      DeadMakesShorter(LiveIndices(p, of), p.types[of]);
    }
  }

  lemma DeadMakesShorter<T>(live: set<nat>, fields: seq<T>)
    requires DeadIn(live, 0, Inspected(|fields|)) != 0
    ensures Left(live, fields) != fields
  {
    hide Inspected;
  }

  // Of a definition that 16 bits do for, the loop leaves every access at its new index.
  lemma LeftFieldRight(p: Program, f: Field)
    requires f in Accessed(p) && f.of in Seen(p) && f.of in p.types && f.index < |p.types[f.of]|
    requires Countable(LiveIndices(p, f.of), |p.types[f.of]|)
    ensures LeftField(p, f) == Renumbered(p, f)
  {
    hide Seen, Accessed, Inspected, LiveIn;
    var live, n := LiveIndices(p, f.of), |p.types[f.of]|;
    var m := Inspected(n);
    LiveSplit(live, 0, Min(f.index, m), m);
    if LiveIn(live, m, n) == 0 && m <= f.index {
      LiveSplit(live, m, f.index, n);
      LiveAt(live, f.index, n);
    }
  }

  lemma LiveAt(live: set<nat>, i: nat, n: nat)
    requires i < n && i in live
    ensures LiveIn(live, i, n) > 0
  {
  }

  // transform, with every struct type's loop run in place.
  method Transform(p: Program, sites: Sites, live: map<StructType, LiveFields>)
    returns (types: map<StructType, seq<Value>>, now: Sites)
    requires AreSites(p, sites) && Seen(p) <= p.types.Keys && AreLive(p, sites, live)
    requires forall a | a in sites :: sites[a].of in p.types
    ensures types == map of | of in p.types :: LeftFields(p, of)
    ensures now == map a | a in sites :: LeftField(p, sites[a])
  {
    hide Seen, Accessed, LiveOfType, LeftFields, LeftField;
    forall a | a in sites ensures sites[a].of in Seen(p) {
      AccessedSeen(p, sites[a]);
    }
    UnseenLeft(p);
    types, now := p.types, sites;
    var todo := live.Keys;
    ghost var done := {};
    while todo != {}
      invariant todo !! done && todo + done == live.Keys
      invariant types.Keys == p.types.Keys && now.Keys == sites.Keys
      invariant forall of | of in types :: types[of] == if of in done then LeftFields(p, of) else p.types[of]
      invariant forall a | a in sites :: now[a] == if sites[a].of in done then LeftField(p, sites[a]) else sites[a]
      decreases todo
    {
      var of :| of in todo;
      types, now := TransformType(p, sites, of, live[of], types, now);
      todo, done := todo - {of}, done + {of};
    }
  }

  // The whole pass. Definitions and accesses end as the rewritten program has them exactly when
  // 16 bits do for every definition.
  method Eliminate(p: Program, sites: Sites) returns (types: map<StructType, seq<Value>>, now: Sites)
    requires AreSites(p, sites) && Seen(p) <= p.types.Keys
    requires forall a | a in sites :: sites[a].of in p.types && sites[a].index < |p.types[sites[a].of]|
    ensures types == map of | of in p.types :: LeftFields(p, of)
    ensures now == map a | a in sites :: LeftField(p, sites[a])
    ensures types == Result(p).types <==> AllCountable(p)
    ensures AllCountable(p) ==> now == map a | a in sites :: Renumbered(p, sites[a])
  {
    hide Seen, AreSites, AreLive, LeftFields, LeftField, AllCountable, Result, Renumbered;
    var live := Analyze(p, sites);
    types, now := Transform(p, sites, live);
    AllRightIff(p, sites);
  }

  lemma UnseenLeft(p: Program)
    ensures forall of | of in p.types && of !in Seen(p) :: LeftFields(p, of) == p.types[of]
  {
  }

  lemma AllRightIff(p: Program, sites: Sites)
    requires AreSites(p, sites)
    requires forall a | a in sites :: sites[a].of in p.types && sites[a].index < |p.types[sites[a].of]|
    ensures (map of | of in p.types :: LeftFields(p, of)) == Result(p).types <==> AllCountable(p)
    ensures AllCountable(p) ==>
              (map a | a in sites :: LeftField(p, sites[a])) == map a | a in sites :: Renumbered(p, sites[a])
  {
    hide Seen, Accessed, NewFields, Renumbered, RenumberStmt, LeftFields, LeftField, Countable, LiveIndices;
    var left := map of | of in p.types :: LeftFields(p, of);
    forall of | of in p.types
      ensures of !in Seen(p) ==> left[of] == Result(p).types[of]
      ensures of in Seen(p) ==> (left[of] == Result(p).types[of] <==> Countable(LiveIndices(p, of), |p.types[of]|))
    {
      LeftFieldsRightIff(p, of);
    }
    if AllCountable(p) {
      assert left == Result(p).types;
      forall a | a in sites ensures LeftField(p, sites[a]) == Renumbered(p, sites[a]) {
        AccessedSeen(p, sites[a]);
        LeftFieldRight(p, sites[a]);
      }
    }
  }

  method TransformType(p: Program, sites: Sites, of: StructType, live: LiveFields,
                       types: map<StructType, seq<Value>>, now: Sites)
    returns (types': map<StructType, seq<Value>>, now': Sites)
    requires AreSites(p, sites) && LiveOfType(sites, of, live) && of in Seen(p) && of in p.types
    requires of in types && types[of] == p.types[of]
    requires now.Keys == sites.Keys
    requires forall a | a in sites && sites[a].of == of :: now[a] == sites[a]
    ensures types' == types[of := LeftFields(p, of)]
    ensures now'.Keys == sites.Keys
    ensures forall a | a in sites :: now'[a] == if sites[a].of == of then LeftField(p, sites[a]) else now[a]
  {
    hide Seen, Accessed, ShiftedIndex, Inspected, Kept, DeadIn, LiveOfType, AreSites, LeftFields, LeftField;
    var index := map a | a in sites && sites[a].of == of :: now[a].index;
    IndexedByField(sites, of, live);
    assert index == map a | a in sites && sites[a].of == of :: sites[a].index;
    var d := new Definition(types[of], index);
    d.Transform(live);
    types' := types[of := d.fields];
    now' := map a | a in sites :: if sites[a].of == of then Field(of, d.index[a]) else now[a];
    LoopLeaves(p, sites, of, live, index, d.index, d.fields);
  }

  lemma IndexedByField(sites: Sites, of: StructType, live: LiveFields)
    requires LiveOfType(sites, of, live)
    ensures Indexed(live, map a | a in sites && sites[a].of == of :: sites[a].index)
  {
  }

  lemma {:induction false} FieldsOfTypes(s: Stmt, f: Field)
    requires f in FieldsIn(s)
    ensures f.of in TypesIn(s)
    decreases s
  {
    match s
    case Then(a, b) => if f in FieldsIn(a) { FieldsOfTypes(a, f); } else { FieldsOfTypes(b, f); }
    case If(_, a, b) => if f in FieldsIn(a) { FieldsOfTypes(a, f); } else { FieldsOfTypes(b, f); }
    case While(_, b) => FieldsOfTypes(b, f);
    case _ =>
  }

  lemma AccessedSeen(p: Program, f: Field)
    requires f in Accessed(p)
    ensures f.of in Seen(p)
  {
    var c :| c in p.functions && f in FieldsIn(p.functions[c].body);
    FieldsOfTypes(p.functions[c].body, f);
  }

  // What the loop leaves is what the specification says.
  lemma LoopLeaves(p: Program, sites: Sites, of: StructType, live: LiveFields, before: map<Access, nat>,
                   index: map<Access, nat>, fields: seq<Value>)
    requires AreSites(p, sites) && LiveOfType(sites, of, live) && of in Seen(p) && of in p.types
    requires before == map a | a in sites && sites[a].of == of :: sites[a].index
    requires var n := |p.types[of]|; var m := Inspected(n);
             && Shifted(live, n, m, 0, before, index)
             && fields == Left(live.Keys, p.types[of])
    ensures fields == LeftFields(p, of)
    ensures forall a | a in sites && sites[a].of == of :: Field(of, index[a]) == LeftField(p, sites[a])
  {
    hide Seen, Accessed, Inspected, ShiftedIndex, Left;
    LiveKeys(p, sites, of, live);
  }
}
