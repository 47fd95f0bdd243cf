/** Field elision (field_elision/src/FieldElision.hpp): a field of a struct type moves to an
    associative array keyed by the struct, passed along the call graph from main. */
module FieldElision {
  import opened Options
  import opened Digraphs
  import opened FieldUses
  import opened Lists
  import opened Programs

  // The groups of fields to elide, by struct type.
  type Candidates = map<StructType, seq<set<nat>>>

  predicate IsGroup(cs: Candidates, k: Group) {
    k.of in cs && k.at < |cs[k.of]|
  }

  predicate Holds(cs: Candidates, k: Group, f: Field) {
    IsGroup(cs, k) && k.of == f.of && f.index in cs[k.of][k.at]
  }

  function FirstHolding(groups: seq<set<nat>>, index: nat, from: nat): (r: Option<nat>)
    requires from <= |groups|
    ensures r.Some? ==> from <= r.value < |groups| && index in groups[r.value]
    ensures r.None? ==> forall i | from <= i < |groups| :: index !in groups[i]
    decreases |groups| - from
  {
    if from == |groups| then None
    else if index in groups[from] then Some(from)
    else FirstHolding(groups, index, from + 1)
  }

  // The group an access to the field is redirected to: the first that holds it.
  function GroupOf(cs: Candidates, f: Field): (r: Option<Group>)
    ensures r.Some? ==> Holds(cs, r.value, f)
    ensures r.None? ==> forall k {:trigger Holds(cs, k, f)} :: !Holds(cs, k, f)
  {
    if f.of !in cs then None
    else
      match FirstHolding(cs[f.of], f.index, 0)
      case Some(i) => Some(Group(f.of, i))
      case None => None
  }

  // ---- The call graph of a program

  function CalleesOf(s: Stmt): seq<Node> {
    match s
    case Call(_, callee, _, _) => [callee]
    case Then(a, b) => CalleesOf(a) + CalleesOf(b)
    case If(_, a, b) => CalleesOf(a) + CalleesOf(b)
    case While(_, b) => CalleesOf(b)
    case _ => []
  }

  // The accesses to struct types with candidates.
  function AccessesOf(cs: Candidates, s: Stmt): set<Field> {
    match s
    case Read(_, _, f) => if f.of in cs then {f} else {}
    case Write(_, f, _) => if f.of in cs then {f} else {}
    case Then(a, b) => AccessesOf(cs, a) + AccessesOf(cs, b)
    case If(_, a, b) => AccessesOf(cs, a) + AccessesOf(cs, b)
    case While(_, b) => AccessesOf(cs, b)
    case _ => {}
  }

  predicate CallsTo(a: Stmt, c: Node) {
    a.Call? && a.callee == c
  }

  lemma {:induction false} CalleesAre(s: Stmt, c: Node)
    ensures c in CalleesOf(s) <==> exists a :: PartOf(a, s) && CallsTo(a, c)
    decreases s
  {
    match s
    case Then(x, y) =>
      CalleesAre(x, c);
      CalleesAre(y, c);
    case If(_, x, y) =>
      CalleesAre(x, c);
      CalleesAre(y, c);
    case While(_, x) => CalleesAre(x, c);
    case _ =>
      assert PartOf(s, s);
      assert CallsTo(s, c) <==> c in CalleesOf(s);
  }

  lemma {:induction false} AccessesAre(cs: Candidates, s: Stmt, f: Field)
    ensures f in AccessesOf(cs, s) <==> f.of in cs && exists a :: PartOf(a, s) && Accesses(a, f)
    decreases s
  {
    match s
    case Then(x, y) =>
      AccessesAre(cs, x, f);
      AccessesAre(cs, y, f);
    case If(_, x, y) =>
      AccessesAre(cs, x, f);
      AccessesAre(cs, y, f);
    case While(_, x) => AccessesAre(cs, x, f);
    case _ =>
      assert PartOf(s, s);
      assert Accesses(s, f) && f.of in cs <==> f in AccessesOf(cs, s);
  }

  function GraphOf(cs: Candidates, p: Program): CallGraph {
    map f | f in p.functions :: Defined(CalleesOf(p.functions[f].body), AccessesOf(cs, p.functions[f].body))
  }

  // The call graph has the calls and the accesses of the program.
  lemma GraphIsProgram(cs: Candidates, p: Program, v: Node, c: Node, f: Field)
    requires v in p.functions
    ensures c in Callees(GraphOf(cs, p), v) <==>
            c in p.functions && exists a :: PartOf(a, p.functions[v].body) && CallsTo(a, c)
    ensures f in Own(GraphOf(cs, p), v) <==>
            f.of in cs && exists a :: PartOf(a, p.functions[v].body) && Accesses(a, f)
  {
    hide PartOf, CalleesOf, AccessesOf;
    CalleesAre(p.functions[v].body, c);
    AccessesAre(cs, p.functions[v].body, f);
  }

  // A program as it comes: no collections anywhere.
  predicate Plain(s: Stmt) {
    match s
    case ReadAssoc(_, _, _) => false
    case WriteAssoc(_, _, _) => false
    case Call(_, _, _, extras) => extras == []
    case Then(a, b) => Plain(a) && Plain(b)
    case If(_, a, b) => Plain(a) && Plain(b)
    case While(_, b) => Plain(b)
    case _ => true
  }

  // Every called function is defined, and the candidates are fields.
  ghost predicate Accepted(cs: Candidates, p: Program, main: Node) {
    && main in p.functions
    && (forall f | f in p.functions ::
          && Plain(p.functions[f].body) && p.functions[f].extras == [] && p.functions[f].allocs == []
          && forall c | c in CalleesOf(p.functions[f].body) :: c in p.functions)
    && (forall k: Group, i: nat {:trigger Holds(cs, k, Field(k.of, i))} | Holds(cs, k, Field(k.of, i)) ::
          k.of in p.types && i < |p.types[k.of]|)
  }

  // No function that main reaches calls main.
  ghost predicate EnteredOnce(g: CallGraph, main: Node) {
    forall f {:trigger Reaches(Calls(g), main, f)} | Reaches(Calls(g), main, f) :: main !in Callees(g, f)
  }

  // ---- The order of the extra arguments

  ghost predicate SortedByType(order: seq<Group>) {
    forall i, j | 0 <= i < j < |order| :: order[i].of <= order[j].of
  }

  // A list sorted by struct type, equal types in the order of their insertion.
  method InsertOrdered(order: seq<Group>, k: Group) returns (r: seq<Group>)
    requires SortedByType(order) && NoDuplicates(order)
    ensures SortedByType(r) && NoDuplicates(r)
    ensures forall x :: x in r <==> x in order || x == k
  {
    var i := 0;
    while i < |order| && order[i].of <= k.of
      invariant i <= |order| && forall j | 0 <= j < i :: order[j].of <= k.of && order[j] != k
    {
      if order[i] == k {
        return order;
      }
      i := i + 1;
    }
    SortedInsertion(order, i, k);
    return order[..i] + [k] + order[i..];
  }

  lemma InsertedAt(order: seq<Group>, i: nat, k: Group, j: nat)
    requires i <= |order| && j <= |order|
    ensures (order[..i] + [k] + order[i..])[j] == if j < i then order[j] else if j == i then k else order[j - 1]
  {
  }

  lemma SortedInsertion(order: seq<Group>, i: nat, k: Group)
    requires SortedByType(order) && NoDuplicates(order) && i <= |order|
    requires (forall j | 0 <= j < i :: order[j].of <= k.of && order[j] != k) && (i < |order| ==> k.of < order[i].of)
    ensures var r := order[..i] + [k] + order[i..];
            SortedByType(r) && NoDuplicates(r) && forall x :: x in r <==> x in order || x == k
  {
    var r := order[..i] + [k] + order[i..];
    forall j | 0 <= j < |r| ensures r[j] == if j < i then order[j] else if j == i then k else order[j - 1] {
      InsertedAt(order, i, k, j);
    }
    forall j | i <= j < |order| ensures k.of < order[j].of {
      assert order[i].of <= order[j].of;
    }
    forall x | x in order ensures x in r {
      var j :| 0 <= j < |order| && order[j] == x;
      assert r[if j < i then j else j + 1] == x;
    }
    assert r[i] == k;
  }

  // The group holds a used field.
  ghost predicate Needs(cs: Candidates, used: seq<Field>, k: Group) {
    exists f {:trigger Holds(cs, k, f)} | f in used :: Holds(cs, k, f)
  }

  // The groups of one used field join the order.
  method AddGroups(cs: Candidates, f: Field, order: seq<Group>) returns (r: seq<Group>)
    requires f.of in cs && SortedByType(order) && NoDuplicates(order)
    ensures SortedByType(r) && NoDuplicates(r)
    ensures forall k {:trigger Holds(cs, k, f)} {:trigger k in r} :: k in r <==> k in order || Holds(cs, k, f)
  {
    r := order;
    for i := 0 to |cs[f.of]|
      invariant SortedByType(r) && NoDuplicates(r)
      invariant forall k {:trigger Holds(cs, k, f)} {:trigger k in r} ::
                  k in r <==> k in order || (Holds(cs, k, f) && k.at < i)
    {
      if f.index in cs[f.of][i] {
        r := InsertOrdered(r, Group(f.of, i));
      }
    }
  }

  // The used fields of one struct type.
  method AddType(cs: Candidates, of: StructType, used: seq<Field>, order: seq<Group>) returns (r: seq<Group>)
    requires of in cs && SortedByType(order) && NoDuplicates(order)
    ensures SortedByType(r) && NoDuplicates(r)
    ensures forall k :: k in r <==> k in order || (k.of == of && Needs(cs, used, k))
  {
    r := order;
    for i := 0 to |used|
      invariant SortedByType(r) && NoDuplicates(r)
      invariant forall k :: k in r <==> k in order || (k.of == of && Needs(cs, used[..i], k))
    {
      ghost var was := r;
      if used[i].of == of {
        r := AddGroups(cs, used[i], r);
      }
      forall k ensures Needs(cs, used[..i + 1], k) <==> Needs(cs, used[..i], k) || Holds(cs, k, used[i]) {
        NeedsOneMore(cs, used, i, k);
      }
    }
    assert used[..|used|] == used;
  }

  lemma NeedsOneMore(cs: Candidates, used: seq<Field>, i: nat, k: Group)
    requires i < |used|
    ensures Needs(cs, used[..i + 1], k) <==> Needs(cs, used[..i], k) || Holds(cs, k, used[i])
  {
    assert used[..i + 1] == used[..i] + [used[i]];
  }

  // Exactly the groups with a used field, each once.
  ghost predicate IsOrder(cs: Candidates, used: seq<Field>, order: seq<Group>) {
    && SortedByType(order) && NoDuplicates(order)
    && forall k :: k in order <==> Needs(cs, used, k)
  }

  method ArgumentOrder(cs: Candidates, used: seq<Field>) returns (order: seq<Group>)
    ensures IsOrder(cs, used, order)
  {
    order := [];
    var todo := cs.Keys;
    ghost var done := {};
    while todo != {}
      invariant todo !! done && todo + done == cs.Keys
      invariant SortedByType(order) && NoDuplicates(order)
      invariant forall k :: k in order <==> k.of in done && Needs(cs, used, k)
      decreases todo
    {
      var of :| of in todo;
      order := AddType(cs, of, used, order);
      todo, done := todo - {of}, done + {of};
    }
  }

  // ---- The rewritten program

  type Orders = map<Node, seq<Group>>

  // Accesses to elided fields go to the collections, calls to cloned functions pass them on.
  function Rewrite(cs: Candidates, orders: Orders, main: Node, s: Stmt): Stmt {
    match s
    case Read(x, q, f) =>
      (match GroupOf(cs, f)
       case Some(k) => ReadAssoc(x, k, q)
       case None => s)
    case Write(q, f, e) =>
      (match GroupOf(cs, f)
       case Some(k) => WriteAssoc(k, q, e)
       case None => s)
    case Call(x, c, args, _) => if c in orders && c != main then Call(x, c, args, orders[c]) else s
    case Then(a, b) => Then(Rewrite(cs, orders, main, a), Rewrite(cs, orders, main, b))
    case If(e, a, b) => If(e, Rewrite(cs, orders, main, a), Rewrite(cs, orders, main, b))
    case While(e, b) => While(e, Rewrite(cs, orders, main, b))
    case _ => s
  }

  function RewriteFunction(cs: Candidates, orders: Orders, main: Node, allocs: seq<Alloc>, f: Node, fn: Function)
    : Function
  {
    fn.(extras := if f in orders && f != main then orders[f] else [],
        allocs := if f == main then allocs else [],
        body := Rewrite(cs, orders, main, fn.body))
  }

  function RewriteProgram(cs: Candidates, orders: Orders, main: Node, allocs: seq<Alloc>, p: Program): Program {
    p.(functions := map f | f in p.functions :: RewriteFunction(cs, orders, main, allocs, f, p.functions[f]))
  }

  // The choices of one elision: the candidates, the program, the argument order of each
  // function with used fields, main's collections and the functions main reaches.
  datatype Plan = Plan(cs: Candidates, p: Program, main: Node, orders: Orders, allocs: seq<Alloc>, live: set<Node>) {
    function Result(): Program {
      RewriteProgram(cs, orders, main, allocs, p)
    }

    function Rewritten(s: Stmt): Stmt {
      Rewrite(cs, orders, main, s)
    }

    // Main's collections come first.
    function Places(): map<Group, nat> {
      AllocColls(allocs, 0)
    }
  }

  // Groups of more than one field are not supported.
  ghost predicate Singletons(cs: Candidates) {
    forall k: Group, i: nat, j: nat {:trigger Holds(cs, k, Field(k.of, i)), Holds(cs, k, Field(k.of, j))}
      | Holds(cs, k, Field(k.of, i)) && Holds(cs, k, Field(k.of, j)) :: i == j
  }

  ghost predicate DefaultOf(cs: Candidates, p: Program, k: Group, default: Value) {
    forall i: nat {:trigger Holds(cs, k, Field(k.of, i))} | Holds(cs, k, Field(k.of, i)) ::
      k.of in p.types && i < |p.types[k.of]| && p.types[k.of][i] == default
  }

  ghost predicate Defaults(cs: Candidates, p: Program, allocs: seq<Alloc>) {
    forall i | 0 <= i < |allocs| :: DefaultOf(cs, p, allocs[i].group, allocs[i].default)
  }

  // One collection for each group, whose missing keys read as the field's initial value.
  ghost predicate AllocsRight(cs: Candidates, p: Program, allocs: seq<Alloc>) {
    Defaults(cs, p, allocs) && forall k {:trigger IsGroup(cs, k)} | IsGroup(cs, k) :: k in AllocColls(allocs, 0)
  }

  // f has a collection for the group: main allocates all, a clone has its parameters.
  ghost predicate Known(e: Plan, f: Node, k: Group) {
    IsGroup(e.cs, k) && (f == e.main || (f in e.orders && k in e.orders[f]))
  }

  // Every access and every call in s finds its collections in f.
  ghost predicate Fits(e: Plan, f: Node, s: Stmt) {
    && (forall a | a in AccessesOf(e.cs, s) && GroupOf(e.cs, a).Some? :: Known(e, f, GroupOf(e.cs, a).value))
    && (forall c | c in CalleesOf(s) :: c in e.live && c != e.main && FitsCall(e, f, c))
  }

  ghost predicate FitsCall(e: Plan, f: Node, c: Node) {
    c in e.orders ==> forall k | k in e.orders[c] :: Known(e, f, k)
  }

  ghost predicate Aligned(e: Plan) {
    && e.main in e.live && e.live <= e.p.functions.Keys
    && forall f | f in e.live :: Fits(e, f, e.p.functions[f].body)
  }

  // ---- The two runs side by side

  // Each group has a place of its own.
  ghost predicate Placed(e: Plan) {
    && (forall k {:trigger IsGroup(e.cs, k)} | IsGroup(e.cs, k) :: k in e.Places())
    && (forall k, l | k in e.Places() && l in e.Places() && e.Places()[k] == e.Places()[l] :: k == l)
  }

  // The field's value is where an access finds it: in the struct or in its collection.
  ghost predicate FieldAgrees(e: Plan, r: nat, o: Object, now: Object, assocs: seq<Assoc>, i: nat)
    requires i < |o.fields| && i < |now.fields|
  {
    match GroupOf(e.cs, Field(o.of, i))
    case None => now.fields[i] == o.fields[i]
    case Some(k) => k in e.Places() && e.Places()[k] < |assocs| && AssocValue(assocs[e.Places()[k]], r) == o.fields[i]
  }

  ghost predicate ObjectAgrees(e: Plan, r: nat, o: Object, now: Object, assocs: seq<Assoc>) {
    && now.of == o.of && |now.fields| == |o.fields|
    && forall i {:trigger FieldAgrees(e, r, o, now, assocs, i)} | 0 <= i < |o.fields| ::
         FieldAgrees(e, r, o, now, assocs, i)
  }

  // The collection of a group: its keys are structs, its missing keys read as the initial value.
  ghost predicate AssocAgrees(e: Plan, k: Group, heap: seq<Object>, assocs: seq<Assoc>) {
    && k in e.Places() && e.Places()[k] < |assocs|
    && DefaultOf(e.cs, e.p, k, assocs[e.Places()[k]].default)
    && forall r | r in assocs[e.Places()[k]].entries :: r < |heap|
  }

  ghost predicate StoresAgree(e: Plan, heap: seq<Object>, now: seq<Object>, assocs: seq<Assoc>) {
    && |now| == |heap|
    && (forall r {:trigger heap[r]} {:trigger now[r]} | 0 <= r < |heap| :: ObjectAgrees(e, r, heap[r], now[r], assocs))
    && (forall k {:trigger IsGroup(e.cs, k)} | IsGroup(e.cs, k) :: AssocAgrees(e, k, heap, assocs))
  }

  ghost predicate Agree(e: Plan, s: State, t: State) {
    t.locals == s.locals && t.out == s.out && StoresAgree(e, s.heap, t.heap, t.assocs)
  }

  // The collections f was given are the right ones.
  ghost predicate Scoped(e: Plan, f: Node, colls: map<Group, nat>) {
    forall k {:trigger Known(e, f, k)} | Known(e, f, k) :: k in e.Places() && k in colls && colls[k] == e.Places()[k]
  }

  ghost predicate SameOutcome(e: Plan, colls: map<Group, nat>, a: Outcome, b: Outcome) {
    match a
    case Wrong => true
    case Running(out) => b == Running(out)
    case Done(s) => b.Done? && Agree(e, s, b.s) && b.s.colls == colls
  }

  lemma AllocAgrees(e: Plan, of: StructType, heap: seq<Object>, now: seq<Object>, assocs: seq<Assoc>)
    requires StoresAgree(e, heap, now, assocs) && of in e.p.types
    ensures var o := Object(of, e.p.types[of]); StoresAgree(e, heap + [o], now + [o], assocs)
  {
    var o, r := Object(of, e.p.types[of]), |heap|;
    forall i {:trigger FieldAgrees(e, r, o, o, assocs, i)} | 0 <= i < |o.fields|
      ensures FieldAgrees(e, r, o, o, assocs, i)
    {
      var k := GroupOf(e.cs, Field(of, i));
      if k.Some? {
        assert AssocAgrees(e, k.value, heap, assocs);
        assert Holds(e.cs, k.value, Field(k.value.of, i));
      }
    }
  }

  lemma WriteAgrees(e: Plan, heap: seq<Object>, now: seq<Object>, assocs: seq<Assoc>, r: nat, i: nat, v: Value)
    requires StoresAgree(e, heap, now, assocs) && r < |heap| && i < |heap[r].fields|
    requires GroupOf(e.cs, Field(heap[r].of, i)).None?
    ensures i < |now[r].fields|
    ensures StoresAgree(e, heap[r := WithField(heap[r], i, v)], now[r := WithField(now[r], i, v)], assocs)
  {
    assert ObjectAgrees(e, r, heap[r], now[r], assocs);
    var o, o' := WithField(heap[r], i, v), WithField(now[r], i, v);
    forall j {:trigger FieldAgrees(e, r, o, o', assocs, j)} | 0 <= j < |o.fields|
      ensures FieldAgrees(e, r, o, o', assocs, j)
    {
      assert FieldAgrees(e, r, heap[r], now[r], assocs, j);
    }
  }

  // An elided write reaches exactly one field of one struct.
  lemma AssocWriteAgrees(e: Plan, heap: seq<Object>, now: seq<Object>, assocs: seq<Assoc>, r: nat, i: nat, k: Group,
                         v: Value)
    requires StoresAgree(e, heap, now, assocs) && r < |heap| && i < |heap[r].fields| && Placed(e) && Singletons(e.cs)
    requires GroupOf(e.cs, Field(heap[r].of, i)) == Some(k) && k in e.Places() && e.Places()[k] < |assocs|
    ensures var a := e.Places()[k];
            StoresAgree(e, heap[r := WithField(heap[r], i, v)], now,
                        assocs[a := assocs[a].(entries := assocs[a].entries[r := v])])
  {
    var a := e.Places()[k];
    var assocs' := assocs[a := assocs[a].(entries := assocs[a].entries[r := v])];
    var heap' := heap[r := WithField(heap[r], i, v)];
    forall q | 0 <= q < |heap'| ensures ObjectAgrees(e, q, heap'[q], now[q], assocs') {
      assert ObjectAgrees(e, q, heap[q], now[q], assocs);
      forall j {:trigger FieldAgrees(e, q, heap'[q], now[q], assocs', j)} | 0 <= j < |heap'[q].fields|
        ensures FieldAgrees(e, q, heap'[q], now[q], assocs', j)
      {
        assert FieldAgrees(e, q, heap[q], now[q], assocs, j);
        SameGroupSameField(e, Field(heap[r].of, i), Field(heap[q].of, j));
      }
    }
    forall l {:trigger IsGroup(e.cs, l)} | IsGroup(e.cs, l) ensures AssocAgrees(e, l, heap', assocs') {
      assert AssocAgrees(e, l, heap, assocs);
    }
  }

  lemma SameGroupSameField(e: Plan, f: Field, h: Field)
    requires Singletons(e.cs)
    ensures GroupOf(e.cs, f).Some? && GroupOf(e.cs, f) == GroupOf(e.cs, h) ==> f == h
  {
    if GroupOf(e.cs, f).Some? && GroupOf(e.cs, f) == GroupOf(e.cs, h) {
      var k := GroupOf(e.cs, f).value;
      assert Holds(e.cs, k, Field(k.of, f.index)) && Holds(e.cs, k, Field(k.of, h.index));
    }
  }

  // An elided read finds the field's value and changes no value.
  lemma AssocReadAgrees(e: Plan, heap: seq<Object>, now: seq<Object>, assocs: seq<Assoc>, r: nat, i: nat, k: Group)
    requires StoresAgree(e, heap, now, assocs) && r < |heap| && i < |heap[r].fields|
    requires GroupOf(e.cs, Field(heap[r].of, i)) == Some(k)
    ensures k in e.Places() && e.Places()[k] < |assocs|
    ensures var a := e.Places()[k];
            && AssocValue(assocs[a], r) == heap[r].fields[i]
            && StoresAgree(e, heap, now, assocs[a := AssocTouch(assocs[a], r)])
  {
    assert ObjectAgrees(e, r, heap[r], now[r], assocs);
    assert FieldAgrees(e, r, heap[r], now[r], assocs, i);
    var a := e.Places()[k];
    var assocs' := assocs[a := AssocTouch(assocs[a], r)];
    forall q | 0 <= q < |heap| ensures ObjectAgrees(e, q, heap[q], now[q], assocs') {
      assert ObjectAgrees(e, q, heap[q], now[q], assocs);
      forall j {:trigger FieldAgrees(e, q, heap[q], now[q], assocs', j)} | 0 <= j < |heap[q].fields|
        ensures FieldAgrees(e, q, heap[q], now[q], assocs', j)
      {
        assert FieldAgrees(e, q, heap[q], now[q], assocs, j);
      }
    }
    forall l {:trigger IsGroup(e.cs, l)} | IsGroup(e.cs, l) ensures AssocAgrees(e, l, heap, assocs') {
      assert AssocAgrees(e, l, heap, assocs);
    }
  }

  // The plan is for an accepted program and treats its groups rightly.
  ghost predicate PlanOk(e: Plan) {
    Accepted(e.cs, e.p, e.main) && Singletons(e.cs) && Aligned(e) && Placed(e)
  }

  lemma AccessStep(e: Plan, f: Node, stmt: Stmt, s: State, t: State)
    requires PlanOk(e) && Fits(e, f, stmt) && Agree(e, s, t) && Scoped(e, f, t.colls)
    requires stmt.Read? || stmt.Write?
    ensures SameOutcome(e, t.colls, Step(e.p, stmt, s), Step(e.Result(), e.Rewritten(stmt), t))
  {
    hide StoresAgree, Accepted, Aligned, Placed, Singletons;
    var q := if stmt.Read? then stmt.p else stmt.p;
    if Target(q, s).Some? && HasField(s, Target(q, s).value, stmt.f) {
      var r, i := Target(q, s).value, stmt.f.index;
      SameShape(e, s.heap, t.heap, t.assocs, r);
      assert stmt.f == Field(s.heap[r].of, i);
      match GroupOf(e.cs, stmt.f)
      case Some(k) =>
        assert stmt.f in AccessesOf(e.cs, stmt);
        assert Known(e, f, k);
        AssocReadAgrees(e, s.heap, t.heap, t.assocs, r, i, k);
        if stmt.Write? && Eval(stmt.e, s.locals).Some? {
          AssocWriteAgrees(e, s.heap, t.heap, t.assocs, r, i, k, Eval(stmt.e, s.locals).value);
        }
      case None =>
        if stmt.Write? && Eval(stmt.e, s.locals).Some? {
          WriteAgrees(e, s.heap, t.heap, t.assocs, r, i, Eval(stmt.e, s.locals).value);
        }
    }
  }

  lemma SameShape(e: Plan, heap: seq<Object>, now: seq<Object>, assocs: seq<Assoc>, r: nat)
    requires StoresAgree(e, heap, now, assocs) && r < |heap|
    ensures |now| == |heap| && now[r].of == heap[r].of && |now[r].fields| == |heap[r].fields|
    ensures forall i: nat | i < |heap[r].fields| && GroupOf(e.cs, Field(heap[r].of, i)).None? ::
              now[r].fields[i] == heap[r].fields[i]
  {
    assert ObjectAgrees(e, r, heap[r], now[r], assocs);
    forall i: nat | i < |heap[r].fields| && GroupOf(e.cs, Field(heap[r].of, i)).None?
      ensures now[r].fields[i] == heap[r].fields[i]
    {
      assert FieldAgrees(e, r, heap[r], now[r], assocs, i);
    }
  }

  lemma OneStep(e: Plan, f: Node, stmt: Stmt, s: State, t: State)
    requires PlanOk(e) && Fits(e, f, stmt) && Agree(e, s, t) && Scoped(e, f, t.colls) && IsStep(stmt) && Plain(stmt)
    ensures IsStep(e.Rewritten(stmt))
    ensures SameOutcome(e, t.colls, Step(e.p, stmt, s), Step(e.Result(), e.Rewritten(stmt), t))
  {
    hide StoresAgree, Aligned, Placed, Singletons;
    if stmt.Read? || stmt.Write? {
      AccessStep(e, f, stmt, s, t);
    } else if stmt.New? && stmt.of in e.p.types {
      AllocAgrees(e, stmt.of, s.heap, t.heap, t.assocs);
      assert |t.heap| == |s.heap| by { SizeAgrees(e, s.heap, t.heap, t.assocs); }
    }
  }

  lemma SizeAgrees(e: Plan, heap: seq<Object>, now: seq<Object>, assocs: seq<Assoc>)
    requires StoresAgree(e, heap, now, assocs)
    ensures |now| == |heap|
  {
  }

  // A callee's parameters get the collections they stand for.
  lemma {:induction false} BoundRightly(e: Plan, f: Node, colls: map<Group, nat>, extras: seq<Group>)
    requires Scoped(e, f, colls) && forall k | k in extras :: Known(e, f, k)
    ensures forall k | k in extras ::
              k in e.Places() && k in BindColls(extras, Passed(extras, colls)) &&
              BindColls(extras, Passed(extras, colls))[k] == e.Places()[k]
    decreases |extras|
  {
    if extras != [] {
      var n := |extras| - 1;
      BoundRightly(e, f, colls, extras[..n]);
      assert Passed(extras, colls)[..n] == Passed(extras[..n], colls);
      assert extras == extras[..n] + [extras[n]];
      assert Known(e, f, extras[n]);
    }
  }

  // Entering a function from f: both sides, with the right collections on the new one.
  lemma EnterAgrees(e: Plan, f: Node, c: Node, args: seq<Value>, s: State, t: State)
    requires PlanOk(e) && Agree(e, s, t) && Scoped(e, f, t.colls) && c in e.live && c != e.main && FitsCall(e, f, c)
    ensures var extras := if c in e.orders then e.orders[c] else [];
            var a := Enter(e.p, c, args, [], s);
            var b := Enter(e.Result(), c, args, Passed(extras, t.colls), t);
            a.Some? ==> b.Some? && Agree(e, a.value, b.value) && Scoped(e, c, b.value.colls)
  {
    hide StoresAgree, Placed, Singletons, DefaultOf, Fits;
    var extras := if c in e.orders then e.orders[c] else [];
    assert c in e.p.functions;
    assert e.Result().functions[c].extras == extras && e.Result().functions[c].allocs == [];
    var a := Enter(e.p, c, args, [], s);
    if a.Some? {
      var b := Enter(e.Result(), c, args, Passed(extras, t.colls), t);
      BoundRightly(e, f, t.colls, extras);
      assert NewAssocs([]) == [];
      assert t.assocs + [] == t.assocs;
      assert b.value.colls == BindColls(extras, Passed(extras, t.colls)) + map[];
    }
  }

  ghost predicate Simulated(e: Plan, stmt: Stmt, s: State, t: State, fuel: nat) {
    SameOutcome(e, t.colls, Exec(e.p, stmt, s, fuel), Exec(e.Result(), e.Rewritten(stmt), t, fuel))
  }

  lemma CallFits(e: Plan, f: Node, stmt: Stmt)
    requires PlanOk(e) && Fits(e, f, stmt) && stmt.Call? && Plain(stmt)
    ensures var c := stmt.callee;
            && c in e.live && c != e.main && FitsCall(e, f, c) && c in e.p.functions
            && Plain(e.p.functions[c].body) && Fits(e, c, e.p.functions[c].body)
            && e.Rewritten(stmt) == stmt.(extras := if c in e.orders then e.orders[c] else [])
  {
    hide GroupOf, FitsCall, Known;
    assert stmt.callee in CalleesOf(stmt);
  }

  lemma PartFits(e: Plan, f: Node, stmt: Stmt, part: Stmt)
    requires Fits(e, f, stmt)
    requires AccessesOf(e.cs, part) <= AccessesOf(e.cs, stmt) && forall c | c in CalleesOf(part) :: c in CalleesOf(stmt)
    ensures Fits(e, f, part)
  {
    hide GroupOf, FitsCall, Known, AccessesOf, CalleesOf;
  }

  lemma PartsFit(e: Plan, f: Node, stmt: Stmt)
    requires Fits(e, f, stmt)
    ensures stmt.Then? ==> Fits(e, f, stmt.first) && Fits(e, f, stmt.second)
    ensures stmt.If? ==> Fits(e, f, stmt.yes) && Fits(e, f, stmt.no)
    ensures stmt.While? ==> Fits(e, f, stmt.body)
  {
    hide Fits;
    match stmt
    case Then(first, second) =>
      PartFits(e, f, stmt, first);
      PartFits(e, f, stmt, second);
    case If(_, yes, no) =>
      PartFits(e, f, stmt, yes);
      PartFits(e, f, stmt, no);
    case While(_, body) => PartFits(e, f, stmt, body);
    case _ =>
  }

  lemma {:induction false} CallSimulates(e: Plan, f: Node, stmt: Stmt, s: State, t: State, fuel: nat)
    requires PlanOk(e) && Fits(e, f, stmt) && Plain(stmt) && Agree(e, s, t) && Scoped(e, f, t.colls) && stmt.Call?
    ensures Simulated(e, stmt, s, t, fuel)
    decreases fuel, stmt, 0
  {
    hide StoresAgree, PlanOk, Fits, Scoped, FitsCall, GroupOf, Enter, Rewrite, Passed, Step, EvalAll;
    CallFits(e, f, stmt);
    var c := stmt.callee;
    var vs := EvalAll(stmt.args, s.locals);
    if vs.Some? {
      NothingPassed(s.colls);
      EnterAgrees(e, f, c, vs.value, s, t);
      var a := Enter(e.p, c, vs.value, [], s);
      if a.Some? && fuel > 0 {
        var extras := if c in e.orders then e.orders[c] else [];
        var b := Enter(e.Result(), c, vs.value, Passed(extras, t.colls), t);
        BodyRewritten(e, c);
        Simulates(e, c, e.p.functions[c].body, a.value, b.value, fuel - 1);
      }
    }
  }

  lemma NothingPassed(colls: map<Group, nat>)
    ensures Passed([], colls) == []
  {
  }

  lemma BodyRewritten(e: Plan, c: Node)
    requires c in e.p.functions
    ensures c in e.Result().functions
    ensures e.Result().functions[c].body == e.Rewritten(e.p.functions[c].body)
    ensures e.Result().functions[c].result == e.p.functions[c].result
  {
    hide Rewrite;
  }

  // The rewritten statement does what the original does, step for step.
  lemma {:induction false} Simulates(e: Plan, f: Node, stmt: Stmt, s: State, t: State, fuel: nat)
    requires PlanOk(e) && Fits(e, f, stmt) && Plain(stmt) && Agree(e, s, t) && Scoped(e, f, t.colls)
    ensures Simulated(e, stmt, s, t, fuel)
    decreases fuel, stmt, 1
  {
    hide StoresAgree, PlanOk, Scoped, Fits, GroupOf, Step, Enter, Passed, EvalAll;
    PartsFit(e, f, stmt);
    match stmt
    case Then(first, second) =>
      Simulates(e, f, first, s, t, fuel);
      var a, b := Exec(e.p, first, s, fuel), Exec(e.Result(), e.Rewritten(first), t, fuel);
      if a.Done? {
        Simulates(e, f, second, a.s, b.s, fuel);
      }
    case If(_, yes, no) =>
      Simulates(e, f, yes, s, t, fuel);
      Simulates(e, f, no, s, t, fuel);
    case While(_, body) =>
      if fuel > 0 {
        Simulates(e, f, body, s, t, fuel);
        var a, b := Exec(e.p, body, s, fuel), Exec(e.Result(), e.Rewritten(body), t, fuel);
        if a.Done? {
          Simulates(e, f, stmt, a.s, b.s, fuel - 1);
        }
      }
    case Call(_, _, _, _) => CallSimulates(e, f, stmt, s, t, fuel);
    case _ => OneStep(e, f, stmt, s, t);
  }

  // ---- Whole runs

  lemma {:induction false} AllocatedAt(allocs: seq<Alloc>, base: nat, k: Group)
    requires k in AllocColls(allocs, base)
    ensures base <= AllocColls(allocs, base)[k] < base + |allocs|
    ensures allocs[AllocColls(allocs, base)[k] - base].group == k
    decreases |allocs|
  {
    var n := |allocs| - 1;
    if k != allocs[n].group {
      AllocatedAt(allocs[..n], base, k);
    }
  }

  lemma AllocsArePlaced(e: Plan)
    requires AllocsRight(e.cs, e.p, e.allocs)
    ensures Placed(e)
  {
    forall k | k in e.Places() ensures e.Places()[k] < |e.allocs| && e.allocs[e.Places()[k]].group == k {
      AllocatedAt(e.allocs, 0, k);
    }
  }

  // Both runs enter main; on the new side it allocates the collections, all empty.
  lemma MainAgrees(e: Plan, args: seq<Value>)
    requires PlanOk(e) && AllocsRight(e.cs, e.p, e.allocs)
    ensures var start := State(map[], map[], [], [], []);
            var a, b := Enter(e.p, e.main, args, [], start), Enter(e.Result(), e.main, args, [], start);
            a.Some? ==> b.Some? && Agree(e, a.value, b.value) && Scoped(e, e.main, b.value.colls)
  {
    hide Aligned, Singletons, Rewrite, Placed, AllocsRight, StoresAgree, Scoped, AllocColls, BindLocals;
    var start := State(map[], map[], [], [], []);
    var fn := e.Result().functions[e.main];
    assert fn.extras == [] && fn.allocs == e.allocs;
    assert BindColls([], []) + e.Places() == e.Places();
    var b := Enter(e.Result(), e.main, args, [], start);
    if b.Some? {
      assert [] + NewAssocs(e.allocs) == NewAssocs(e.allocs);
      FreshAgree(e);
      ScopedMain(e);
    }
  }

  lemma FreshAgree(e: Plan)
    requires AllocsRight(e.cs, e.p, e.allocs)
    ensures StoresAgree(e, [], [], NewAssocs(e.allocs))
  {
    forall k {:trigger IsGroup(e.cs, k)} | IsGroup(e.cs, k) ensures AssocAgrees(e, k, [], NewAssocs(e.allocs)) {
      AllocatedAt(e.allocs, 0, k);
    }
  }

  lemma ScopedMain(e: Plan)
    requires AllocsRight(e.cs, e.p, e.allocs)
    ensures Scoped(e, e.main, e.Places())
  {
  }

  ghost predicate SameRun(p: Program, q: Program, main: Node, args: seq<Value>, fuel: nat) {
    Run(p, main, args, fuel).Undefined? || Run(q, main, args, fuel) == Run(p, main, args, fuel)
  }

  // Every run of the original that is defined shows the same with the field elided, whether
  // it ends or not.
  lemma SameBehaviour(e: Plan, args: seq<Value>, fuel: nat)
    requires Accepted(e.cs, e.p, e.main) && Singletons(e.cs) && Aligned(e) && AllocsRight(e.cs, e.p, e.allocs)
    ensures SameRun(e.p, e.Result(), e.main, args, fuel)
  {
    hide Fits, Rewrite, DefaultOf, Scoped, StoresAgree, Enter, AllocsRight, Placed;
    AllocsArePlaced(e);
    MainAgrees(e, args);
    var start := State(map[], map[], [], [], []);
    var a := Enter(e.p, e.main, args, [], start);
    if a.Some? {
      var b := Enter(e.Result(), e.main, args, [], start);
      BodyRewritten(e, e.main);
      Simulates(e, e.main, e.p.functions[e.main].body, a.value, b.value, fuel);
    }
  }

  // ---- The pass

  predicate AllSingle(cs: Candidates) {
    forall of, i | of in cs && 0 <= i < |cs[of]| :: |cs[of][i]| == 1
  }

  lemma SingleMember(s: set<nat>, a: nat, b: nat)
    requires |s| == 1 && a in s && b in s
    ensures a == b
  {
    assert |s - {a}| == 0;
  }

  lemma SingleGroups(cs: Candidates)
    requires AllSingle(cs)
    ensures Singletons(cs)
  {
    forall k: Group, i: nat, j: nat {:trigger Holds(cs, k, Field(k.of, i)), Holds(cs, k, Field(k.of, j))}
      | Holds(cs, k, Field(k.of, i)) && Holds(cs, k, Field(k.of, j)) ensures i == j
    {
      SingleMember(cs[k.of][k.at], i, j);
    }
  }

  // The collections of one struct type; a group of several fields ends the pass.
  method AllocateType(cs: Candidates, p: Program, main: Node, of: StructType, was: seq<Alloc>)
    returns (r: Option<seq<Alloc>>)
    requires Accepted(cs, p, main) && of in cs && Defaults(cs, p, was)
    ensures r.Some? <==> forall i | 0 <= i < |cs[of]| :: |cs[of][i]| == 1
    ensures r.Some? ==> Defaults(cs, p, r.value)
    ensures r.Some? ==>
              forall k :: k in AllocColls(r.value, 0) <==> k in AllocColls(was, 0) || (k.of == of && IsGroup(cs, k))
  {
    hide Accepted, DefaultOf;
    var allocs := was;
    for i := 0 to |cs[of]|
      invariant Defaults(cs, p, allocs) && forall j | 0 <= j < i :: |cs[of][j]| == 1
      invariant forall k :: k in AllocColls(allocs, 0) <==> k in AllocColls(was, 0) || (k.of == of && k.at < i)
    {
      if |cs[of][i]| != 1 {
        return None;
      }
      var f :| f in cs[of][i];
      DefaultOfSingle(cs, p, main, Group(of, i), f);
      var more := allocs + [Alloc(Group(of, i), p.types[of][f])];
      assert more[..|allocs|] == allocs;
      allocs := more;
    }
    return Some(allocs);
  }

  // Main's collections.
  method Allocate(cs: Candidates, p: Program, main: Node) returns (r: Option<seq<Alloc>>)
    requires Accepted(cs, p, main)
    ensures r.None? <==> !AllSingle(cs)
    ensures r.Some? ==> AllocsRight(cs, p, r.value)
  {
    hide Accepted, DefaultOf;
    r := Some([]);
    var todo := cs.Keys;
    ghost var done := {};
    while todo != {}
      invariant todo !! done && todo + done == cs.Keys
      invariant r.Some? && Defaults(cs, p, r.value)
      invariant forall of, i | of in done && 0 <= i < |cs[of]| :: |cs[of][i]| == 1
      invariant forall k :: k in AllocColls(r.value, 0) <==> k.of in done && IsGroup(cs, k)
      decreases todo
    {
      var of :| of in todo;
      r := AllocateType(cs, p, main, of, r.value);
      if r.None? {
        return;
      }
      todo, done := todo - {of}, done + {of};
    }
  }

  lemma DefaultOfSingle(cs: Candidates, p: Program, main: Node, k: Group, f: nat)
    requires Accepted(cs, p, main) && IsGroup(cs, k) && f in cs[k.of][k.at] && |cs[k.of][k.at]| == 1
    ensures k.of in p.types && f < |p.types[k.of]| && DefaultOf(cs, p, k, p.types[k.of][f])
  {
    assert Holds(cs, k, Field(k.of, f));
    forall i: nat {:trigger Holds(cs, k, Field(k.of, i))} | Holds(cs, k, Field(k.of, i)) ensures i == f {
      SingleMember(cs[k.of][k.at], i, f);
    }
  }

  // Functions with used fields have an order, the others none.
  ghost predicate AreOrders(cs: Candidates, used: map<Node, seq<Field>>, orders: Orders) {
    && (forall f :: f in orders <==> f in used && used[f] != [])
    && forall f | f in orders && f in used :: IsOrder(cs, used[f], orders[f])
  }

  method ArgumentOrders(cs: Candidates, used: map<Node, seq<Field>>) returns (orders: Orders)
    ensures AreOrders(cs, used, orders)
  {
    hide IsOrder;
    orders := map[];
    var todo := used.Keys;
    ghost var done := {};
    while todo != {}
      invariant todo !! done && todo + done == used.Keys
      invariant forall f :: f in orders <==> f in done && used[f] != []
      invariant forall f | f in orders && f in used :: IsOrder(cs, used[f], orders[f])
      decreases todo
    {
      var f :| f in todo;
      if used[f] != [] {
        var order := ArgumentOrder(cs, used[f]);
        orders := orders[f := order];
      }
      todo, done := todo - {f}, done + {f};
    }
  }

  // When main is entered once and no callee uses a field its caller lacks, every access and call finds its collections.
  lemma ListsAlign(e: Plan, used: map<Node, seq<Field>>)
    requires Accepted(e.cs, e.p, e.main) && AreOrders(e.cs, used, e.orders) && e.live == used.Keys && e.main in used
    requires used.Keys <= e.p.functions.Keys
    requires Settled(GraphOf(e.cs, e.p), used, {}) && ClosedUnderCalls(GraphOf(e.cs, e.p), used)
    requires forall f | f in used :: e.main !in Callees(GraphOf(e.cs, e.p), f)
    ensures Aligned(e)
  {
    forall f | f in e.live ensures Fits(e, f, e.p.functions[f].body) {
      FunctionFits(e, used, f);
    }
  }

  lemma FunctionFits(e: Plan, used: map<Node, seq<Field>>, f: Node)
    requires Accepted(e.cs, e.p, e.main) && AreOrders(e.cs, used, e.orders) && e.live == used.Keys && f in used
    requires used.Keys <= e.p.functions.Keys
    requires Settled(GraphOf(e.cs, e.p), used, {}) && ClosedUnderCalls(GraphOf(e.cs, e.p), used)
    requires e.main !in Callees(GraphOf(e.cs, e.p), f)
    ensures Fits(e, f, e.p.functions[f].body)
  {
    hide AccessesOf, CalleesOf, GroupOf, Known, FitsCall, Accepted;
    var g, body := GraphOf(e.cs, e.p), e.p.functions[f].body;
    forall a | a in AccessesOf(e.cs, body) && GroupOf(e.cs, a).Some? ensures Known(e, f, GroupOf(e.cs, a).value) {
      AccessKnown(e, used, f, a);
    }
    forall c | c in CalleesOf(body) ensures c in e.live && c != e.main && FitsCall(e, f, c) {
      CallKnown(e, used, f, c);
    }
  }

  lemma AccessKnown(e: Plan, used: map<Node, seq<Field>>, f: Node, a: Field)
    requires AreOrders(e.cs, used, e.orders) && f in used && f in e.p.functions && GroupOf(e.cs, a).Some?
    requires Settled(GraphOf(e.cs, e.p), used, {}) && a in AccessesOf(e.cs, e.p.functions[f].body)
    ensures Known(e, f, GroupOf(e.cs, a).value)
  {
    hide AccessesOf, CalleesOf;
    assert a in Own(GraphOf(e.cs, e.p), f);
    assert Needs(e.cs, used[f], GroupOf(e.cs, a).value);
  }

  lemma CallKnown(e: Plan, used: map<Node, seq<Field>>, f: Node, c: Node)
    requires Accepted(e.cs, e.p, e.main) && AreOrders(e.cs, used, e.orders) && e.live == used.Keys && f in used
    requires used.Keys <= e.p.functions.Keys && c in CalleesOf(e.p.functions[f].body)
    requires Settled(GraphOf(e.cs, e.p), used, {}) && ClosedUnderCalls(GraphOf(e.cs, e.p), used)
    requires e.main !in Callees(GraphOf(e.cs, e.p), f)
    ensures c in e.live && c != e.main && FitsCall(e, f, c)
  {
    hide AccessesOf, CalleesOf;
    assert c in Callees(GraphOf(e.cs, e.p), f);
    assert Included(used[c], used[f]);
    if c in e.orders {
      forall k | k in e.orders[c] ensures Known(e, f, k) {
        var a :| a in used[c] && Holds(e.cs, k, a);
        assert a in used[f];
        assert Needs(e.cs, used[f], k);
      }
    }
  }

  ghost predicate SameRuns(p: Program, q: Program, main: Node) {
    forall args, fuel {:trigger SameRun(p, q, main, args, fuel)} :: SameRun(p, q, main, args, fuel)
  }

  // The traversal's lists of used fields make the plan.
  ghost predicate IsPlan(e: Plan, used: map<Node, seq<Field>>) {
    AreOrders(e.cs, used, e.orders) && AllocsRight(e.cs, e.p, e.allocs) && e.live == used.Keys
  }

  // The pass rewrites by the lists of the traversal from main. Every run shows the same if main
  // is entered once and the lists are closed under calls, which they are when the recursions of
  // several functions are foreseen, in particular when functions call themselves at most directly.
  method Elide(cs: Candidates, p: Program, main: Node)
    returns (r: Option<Program>, ghost e: Plan, ghost used: map<Node, seq<Field>>)
    requires Accepted(cs, p, main)
    ensures r.None? <==> !AllSingle(cs)
    ensures r.Some? && cs == map[] ==> r.value == p
    ensures r.Some? ==> AllElided(cs, r.value)
    ensures r.Some? && cs != map[] ==>
                e.cs == cs && e.p == p && e.main == main && r.value == e.Result() && IsPlan(e, used)
    ensures r.Some? && cs != map[] ==> Sets(used) == Traversed(GraphOf(cs, p), map[], {}, main)
    ensures r.Some? && EnteredOnce(GraphOf(cs, p), main) ==>
              && (ClosedSets(GraphOf(cs, p), Traversed(GraphOf(cs, p), map[], {}, main)) ==> SameRuns(p, r.value, main))
              && (Foreseen(GraphOf(cs, p)) ==> SameRuns(p, r.value, main))
              && (OnlySelfCycles(Calls(GraphOf(cs, p))) ==> SameRuns(p, r.value, main))
  {
    hide GraphOf, Accepted, ClosedSets, ClosedUnderCalls, Exact, OnlySelfCycles, Foreseen, SameRuns, AllElided,
      AllSingle, RewriteProgram, AllocsRight, AreOrders, Settled, Sound;
    used := map[];
    e := Plan(cs, p, main, map[], [], {});
    if cs == map[] {
      NothingToElide(cs, p, main);
      return Some(p), e, used;
    }
    var g := GraphOf(cs, p);
    GraphOk(cs, p, main);
    var t := new Traversal(g);
    t.TraverseFrom(main);
    used := t.used;
    var orders := ArgumentOrders(cs, t.used);
    var allocs := Allocate(cs, p, main);
    if allocs.None? {
      return None, e, used;
    }
    r := Some(RewriteProgram(cs, orders, main, allocs.value, p));
    e := Plan(cs, p, main, orders, allocs.value, t.used.Keys);
    ElidedEverywhere(e);
    if EnteredOnce(g, main) {
      PassIsRight(e, used);
    }
  }

  // No access to an elided field is left in a statement.
  lemma {:induction false} NoneLeft(cs: Candidates, orders: Orders, main: Node, s: Stmt, a: Stmt)
    requires PartOf(a, Rewrite(cs, orders, main, s)) && (a.Read? || a.Write?)
    ensures GroupOf(cs, a.f).None?
    decreases s
  {
    match s
    case Then(x, y) =>
      if PartOf(a, Rewrite(cs, orders, main, x)) {
        NoneLeft(cs, orders, main, x, a);
      } else {
        NoneLeft(cs, orders, main, y, a);
      }
    case If(_, x, y) =>
      if PartOf(a, Rewrite(cs, orders, main, x)) {
        NoneLeft(cs, orders, main, x, a);
      } else {
        NoneLeft(cs, orders, main, y, a);
      }
    case While(_, x) => NoneLeft(cs, orders, main, x, a);
    case _ =>
  }

  // No function accesses an elided field.
  ghost predicate AllElided(cs: Candidates, q: Program) {
    forall c, a {:trigger PartOf(a, q.functions[c].body)}
      | c in q.functions && PartOf(a, q.functions[c].body) && (a.Read? || a.Write?) :: GroupOf(cs, a.f).None?
  }

  lemma ElidedEverywhere(e: Plan)
    ensures AllElided(e.cs, e.Result())
  {
    hide PartOf, Rewrite, GroupOf;
    forall c, a {:trigger PartOf(a, e.Result().functions[c].body)}
      | c in e.Result().functions && PartOf(a, e.Result().functions[c].body) && (a.Read? || a.Write?)
      ensures GroupOf(e.cs, a.f).None?
    {
      NoneLeft(e.cs, e.orders, e.main, e.p.functions[c].body, a);
    }
  }

  lemma NothingToElide(cs: Candidates, p: Program, main: Node)
    requires cs == map[]
    ensures AllSingle(cs) && SameRuns(p, p, main) && AllElided(cs, p)
  {
  }

  lemma GraphOk(cs: Candidates, p: Program, main: Node)
    requires Accepted(cs, p, main)
    ensures WellFormed(GraphOf(cs, p)) && main in GraphOf(cs, p) && GraphOf(cs, p)[main].Defined?
    ensures GraphOf(cs, p).Keys == p.functions.Keys
  {
  }

  // What makes the rewritten program show the same, in terms of the lists of used fields.
  lemma PassIsRight(e: Plan, used: map<Node, seq<Field>>)
    requires Accepted(e.cs, e.p, e.main) && AllSingle(e.cs) && AllocsRight(e.cs, e.p, e.allocs)
    requires AreOrders(e.cs, used, e.orders) && e.live == used.Keys && e.main in used && used.Keys <= e.p.functions.Keys
    requires Sound(GraphOf(e.cs, e.p), used) && Settled(GraphOf(e.cs, e.p), used, {})
    requires forall f | f in used :: e.main !in Callees(GraphOf(e.cs, e.p), f)
    ensures ClosedSets(GraphOf(e.cs, e.p), Sets(used)) ==> SameRuns(e.p, e.Result(), e.main)
    ensures (forall v | v in used :: Exact(GraphOf(e.cs, e.p), v, used[v])) ==> SameRuns(e.p, e.Result(), e.main)
  {
    hide AllocsRight, AreOrders, Sound, Settled, Exact, Run, ClosedUnderCalls, AllSingle, Accepted, Singletons,
      RewriteProgram, Aligned, ClosedSets;
    var g := GraphOf(e.cs, e.p);
    ExactIffClosed(g, used);
    ClosedAsSets(g, used);
    SingleGroups(e.cs);
    if ClosedUnderCalls(g, used) {
      ListsAlign(e, used);
      forall args, fuel {:trigger SameRun(e.p, e.Result(), e.main, args, fuel)}
        ensures SameRun(e.p, e.Result(), e.main, args, fuel)
      {
        SameBehaviour(e, args, fuel);
      }
    }
  }

  // ---- A main that calls itself

  const F0: Field := Field(0, 0)

  const G0: Group := Group(0, 0)

  // Given a number, main makes a struct, writes 7 to its field and calls itself with the
  // struct; given the struct, it shows the field.
  function Inner(): Stmt {
    Then(Read(1, 0, F0), Observe(Local(1)))
  }

  function Outer(): Stmt {
    Then(New(2, 0), Then(Write(2, F0, Lit(7)), Call(3, 0, [Local(2)], [])))
  }

  function Reentrant(): Program {
    Program(map[0 := [Num(0)]], map[0 := Function([0], [], [], If(Local(0), Inner(), Outer()), Lit(0))])
  }

  lemma ReentrantPlain()
    ensures Plain(If(Local(0), Inner(), Outer())) && CalleesOf(If(Local(0), Inner(), Outer())) == [0]
  {
    assert CalleesOf(Outer()) == [0] && CalleesOf(Inner()) == [];
  }

  lemma ReentrantAccepted()
    ensures Accepted(map[0 := [{0}]], Reentrant(), 0)
  {
    hide Plain, CalleesOf, Inner, Outer;
    ReentrantPlain();
  }

  // What the pass makes of it: the inner main allocates a collection of its own.
  function ReentrantElided(): Program {
    var inner := Then(ReadAssoc(1, G0, 0), Observe(Local(1)));
    var outer := Then(New(2, 0), Then(WriteAssoc(G0, 2, Lit(7)), Call(3, 0, [Local(2)], [])));
    Program(map[0 := [Num(0)]], map[0 := Function([0], [], [Alloc(G0, Num(0))], If(Local(0), inner, outer), Lit(0))])
  }

  lemma ReentrantAllocs()
    ensures var cs: Candidates := map[0 := [{0}]];
            AllSingle(cs) && AllocsRight(cs, Reentrant(), [Alloc(G0, Num(0))])
  {
    var allocs := [Alloc(G0, Num(0))];
    assert allocs[..0] == [];
    assert AllocColls(allocs, 0) == map[G0 := 0];
  }

  lemma ReentrantRewritten()
    ensures var cs: Candidates := map[0 := [{0}]];
            && AllSingle(cs) && AllocsRight(cs, Reentrant(), [Alloc(G0, Num(0))])
            && RewriteProgram(cs, map[0 := [G0]], 0, [Alloc(G0, Num(0))], Reentrant()) == ReentrantElided()
  {
    hide AllSingle, AllocsRight;
    ReentrantAllocs();
    var cs: Candidates := map[0 := [{0}]];
    var allocs := [Alloc(G0, Num(0))];
    assert FirstHolding(cs[0], 0, 0) == Some(0);
    assert GroupOf(cs, F0) == Some(G0);
    assert Rewrite(cs, map[0 := [G0]], 0, Inner()) == ReentrantElided().functions[0].body.yes;
    var call := Call(3, 0, [Local(2)], []);
    assert Rewrite(cs, map[0 := [G0]], 0, call) == call;
    assert Rewrite(cs, map[0 := [G0]], 0, Write(2, F0, Lit(7))) == WriteAssoc(G0, 2, Lit(7));
    assert Rewrite(cs, map[0 := [G0]], 0, Then(Write(2, F0, Lit(7)), call)) == Then(WriteAssoc(G0, 2, Lit(7)), call);
    assert Rewrite(cs, map[0 := [G0]], 0, Outer()) == ReentrantElided().functions[0].body.no;
    assert RewriteProgram(cs, map[0 := [G0]], 0, allocs, Reentrant()).functions == ReentrantElided().functions;
  }

  lemma ReentrantCallsMain()
    ensures var cs: Candidates := map[0 := [{0}]];
            !EnteredOnce(GraphOf(cs, Reentrant()), 0)
  {
    hide Reaches, AccessesOf;
    var cs: Candidates := map[0 := [{0}]];
    var g := GraphOf(cs, Reentrant());
    assert CalleesOf(Outer()) == [0];
    assert g[0].Defined? && g[0].callees == [0];
    assert 0 in Callees(g, 0);
    ReachesSelf(Calls(g), 0);
  }

  // Entering a function of one parameter and no extra ones.
  lemma EnterOne(p: Program, v: Value, s: State, colls: map<Group, nat>, assocs: seq<Assoc>)
    requires 0 in p.functions && p.functions[0].params == [0] && p.functions[0].extras == []
    requires colls == AllocColls(p.functions[0].allocs, |s.assocs|)
    requires assocs == s.assocs + NewAssocs(p.functions[0].allocs)
    ensures Enter(p, 0, [v], [], s) == Some(State(map[0 := v], colls, s.heap, assocs, s.out))
  {
    assert BindLocals([], []) == map[];
    assert BindLocals([0], [v]) == map[0 := v];
    assert BindColls([], []) + colls == colls;
  }

  const START: State := State(map[], map[], [], [], [])

  const EMPTY: Assoc := Assoc(Num(0), map[])

  const WRITTEN: Assoc := Assoc(Num(0), map[0 := Num(7)])

  const READ: Assoc := Assoc(Num(0), map[0 := Num(0)])

  // Two steps and the rest.
  lemma AfterTwoSteps(p: Program, a: Stmt, b: Stmt, rest: Stmt, s: State, t: State, u: State, fuel: nat)
    requires IsStep(a) && IsStep(b) && Step(p, a, s) == Done(t) && Step(p, b, t) == Done(u)
    ensures Exec(p, Then(a, Then(b, rest)), s, fuel) == Exec(p, rest, u, fuel)
  {
    hide Step;
    assert Exec(p, a, s, fuel) == Done(t) && Exec(p, b, t, fuel) == Done(u);
  }

  // Stores of the outer main before its call.
  function CallerBefore(): State {
    State(map[0 := Num(0), 2 := Ref(0)], map[], [Object(0, [Num(7)])], [], [])
  }

  function CallerAfter(): State {
    State(map[0 := Num(0), 2 := Ref(0)], map[G0 := 0], [Object(0, [Num(0)])], [WRITTEN], [])
  }

  lemma OuterBefore()
    ensures var s := State(map[0 := Num(0)], map[], [], [], []);
            && Enter(Reentrant(), 0, [Num(0)], [], START) == Some(s)
            && Exec(Reentrant(), Outer(), s, 1) == Exec(Reentrant(), Call(3, 0, [Local(2)], []), CallerBefore(), 1)
  {
    hide Exec, Enter;
    var p := Reentrant();
    EnterOne(p, Num(0), START, map[], []);
    var s := State(map[0 := Num(0)], map[], [], [], []);
    assert [] + [Object(0, [Num(0)])] == [Object(0, [Num(0)])];
    var t := State(map[0 := Num(0), 2 := Ref(0)], map[], [Object(0, [Num(0)])], [], []);
    assert Step(p, New(2, 0), s) == Done(t);
    assert [Num(0)][0 := Num(7)] == [Num(7)];
    assert Step(p, Write(2, F0, Lit(7)), t) == Done(CallerBefore());
    AfterTwoSteps(p, New(2, 0), Write(2, F0, Lit(7)), Call(3, 0, [Local(2)], []), s, t, CallerBefore(), 1);
  }

  lemma InnerBefore()
    ensures var s := State(map[0 := Ref(0)], map[], [Object(0, [Num(7)])], [], []);
            && Enter(Reentrant(), 0, [Ref(0)], [], CallerBefore()) == Some(s)
            && Exec(Reentrant(), Inner(), s, 0) == Done(s.(locals := map[0 := Ref(0), 1 := Num(7)], out := [Num(7)]))
  {
    var p := Reentrant();
    EnterOne(p, Ref(0), CallerBefore(), map[], []);
    var s := State(map[0 := Ref(0)], map[], [Object(0, [Num(7)])], [], []);
    var t := s.(locals := map[0 := Ref(0), 1 := Num(7)]);
    assert Step(p, Read(1, 0, F0), s) == Done(t);
    assert [] + [Num(7)] == [Num(7)];
    assert Step(p, Observe(Local(1)), t) == Done(t.(out := [Num(7)]));
  }

  lemma OuterAfter()
    ensures var q := ReentrantElided();
            var s := State(map[0 := Num(0)], map[G0 := 0], [], [EMPTY], []);
            && Enter(q, 0, [Num(0)], [], START) == Some(s)
            && Exec(q, q.functions[0].body.no, s, 1) == Exec(q, Call(3, 0, [Local(2)], []), CallerAfter(), 1)
  {
    hide Exec, Enter;
    var q := ReentrantElided();
    assert NewAssocs([Alloc(G0, Num(0))]) == [EMPTY] && [] + [EMPTY] == [EMPTY];
    assert [Alloc(G0, Num(0))][..0] == [];
    assert AllocColls([Alloc(G0, Num(0))], 0) == map[G0 := 0];
    EnterOne(q, Num(0), START, map[G0 := 0], [EMPTY]);
    var s := State(map[0 := Num(0)], map[G0 := 0], [], [EMPTY], []);
    assert [] + [Object(0, [Num(0)])] == [Object(0, [Num(0)])];
    var t := State(map[0 := Num(0), 2 := Ref(0)], map[G0 := 0], [Object(0, [Num(0)])], [EMPTY], []);
    assert Step(q, New(2, 0), s) == Done(t);
    assert [EMPTY][0 := WRITTEN] == [WRITTEN];
    assert Step(q, WriteAssoc(G0, 2, Lit(7)), t) == Done(CallerAfter());
    AfterTwoSteps(q, New(2, 0), WriteAssoc(G0, 2, Lit(7)), Call(3, 0, [Local(2)], []), s, t, CallerAfter(), 1);
  }

  lemma InnerAfter()
    ensures var q := ReentrantElided();
            var s := State(map[0 := Ref(0)], map[G0 := 1], [Object(0, [Num(0)])], [WRITTEN, EMPTY], []);
            && Enter(q, 0, [Ref(0)], [], CallerAfter()) == Some(s)
            && Exec(q, q.functions[0].body.yes, s, 0)
               == Done(s.(locals := map[0 := Ref(0), 1 := Num(0)], assocs := [WRITTEN, READ], out := [Num(0)]))
  {
    var q := ReentrantElided();
    assert NewAssocs([Alloc(G0, Num(0))]) == [EMPTY] && [WRITTEN] + [EMPTY] == [WRITTEN, EMPTY];
    assert [Alloc(G0, Num(0))][..0] == [];
    assert AllocColls([Alloc(G0, Num(0))], 1) == map[G0 := 1];
    EnterOne(q, Ref(0), CallerAfter(), map[G0 := 1], [WRITTEN, EMPTY]);
    var s := State(map[0 := Ref(0)], map[G0 := 1], [Object(0, [Num(0)])], [WRITTEN, EMPTY], []);
    assert [WRITTEN, EMPTY][1 := READ] == [WRITTEN, READ];
    var t := s.(locals := map[0 := Ref(0), 1 := Num(0)], assocs := [WRITTEN, READ]);
    assert Step(q, ReadAssoc(1, G0, 0), s) == Done(t);
    assert [] + [Num(0)] == [Num(0)];
    assert Step(q, Observe(Local(1)), t) == Done(t.(out := [Num(0)]));
  }

  // What the call inside the outer main comes to, and the whole run with it.
  lemma {:induction false} CallInside(p: Program, s: State, caller: State, inner: State, o: Outcome)
    requires 0 in p.functions && p.functions[0].body.If? && p.functions[0].body.e == Local(0)
    requires p.functions[0].params == [0] && p.functions[0].extras == [] && p.functions[0].result == Lit(0)
    requires s.locals == map[0 := Num(0)] && inner.locals == map[0 := Ref(0)]
    requires caller.locals == map[0 := Num(0), 2 := Ref(0)]
    requires Enter(p, 0, [Num(0)], [], START) == Some(s) && Enter(p, 0, [Ref(0)], [], caller) == Some(inner)
    requires Exec(p, p.functions[0].body.no, s, 1) == Exec(p, Call(3, 0, [Local(2)], []), caller, 1)
    requires Exec(p, p.functions[0].body.yes, inner, 0) == o && o.Done?
    ensures Run(p, 0, [Num(0)], 1) == Ended(o.s.out, Num(0))
  {
    hide Enter, Step;
    NothingPassed(caller.colls);
    assert EvalAll([], caller.locals) == Some([]);
    assert [Local(2)][1..] == [] && [Ref(0)] + [] == [Ref(0)];
    assert Exec(p, p.functions[0].body, inner, 0) == o;
    var r := Exec(p, Call(3, 0, [Local(2)], []), caller, 1);
    assert r == Return(Lit(0), 3, caller, o);
    assert Exec(p, p.functions[0].body, s, 1) == r;
  }

  // The write is seen before the pass and lost after it.
  lemma ReentrantMainBreaks()
    ensures Run(Reentrant(), 0, [Num(0)], 1) == Ended([Num(7)], Num(0))
    ensures Run(ReentrantElided(), 0, [Num(0)], 1) == Ended([Num(0)], Num(0))
    ensures var cs: Candidates := map[0 := [{0}]];
            Accepted(cs, Reentrant(), 0) && !EnteredOnce(GraphOf(cs, Reentrant()), 0)
  {
    hide Enter, Exec, Run, Accepted, EnteredOnce, GraphOf;
    ReentrantAccepted();
    ReentrantCallsMain();
    OuterBefore();
    InnerBefore();
    var s := Enter(Reentrant(), 0, [Num(0)], [], START).value;
    var inner := Enter(Reentrant(), 0, [Ref(0)], [], CallerBefore()).value;
    CallInside(Reentrant(), s, CallerBefore(), inner, Exec(Reentrant(), Inner(), inner, 0));
    OuterAfter();
    InnerAfter();
    var q := ReentrantElided();
    var s' := Enter(q, 0, [Num(0)], [], START).value;
    var inner' := Enter(q, 0, [Ref(0)], [], CallerAfter()).value;
    CallInside(q, s', CallerAfter(), inner', Exec(q, q.functions[0].body.yes, inner', 0));
  }
}
