/** The call-graph traversal of field elision (field_elision/src/FieldElision.hpp): which
    fields a function uses, directly or through the functions it calls. */
module FieldUses {
  import opened Digraphs
  import opened Lists

  // A struct type; the number is also its place in the order of argument lists.
  type StructType = nat

  datatype Field = Field(of: StructType, index: nat)

  // A node of the call graph: no function, an operation of the collections library, a
  // function without a body, or one with its call sites and the fields it accesses.
  datatype CallNode = NoFunction | Memoir | Declared | Defined(callees: seq<Node>, accesses: set<Field>)

  type CallGraph = map<Node, CallNode>

  ghost predicate WellFormed(g: CallGraph) {
    forall v, c | v in g && g[v].Defined? && c in g[v].callees :: c in g
  }

  function Callees(g: CallGraph, v: Node): set<Node> {
    if v in g && g[v].Defined? then set c | c in g[v].callees && c in g && !g[c].NoFunction? else {}
  }

  function Own(g: CallGraph, v: Node): set<Field> {
    if v in g && g[v].Defined? then g[v].accesses else {}
  }

  // The calls that can be followed.
  function Calls(g: CallGraph): Digraph {
    Digraph(map v | v in g :: Callees(g, v))
  }

  // The field is accessed by v or by a function v reaches.
  ghost predicate Uses(g: CallGraph, v: Node, f: Field) {
    exists w {:trigger Reaches(Calls(g), v, w)} :: Reaches(Calls(g), v, w) && f in Own(g, w)
  }

  // A walk of n edges none of whose nodes is in p.
  ghost predicate WalkAround(d: Digraph, p: set<Node>, a: Node, b: Node, n: nat)
    decreases n
  {
    a !in p && if n == 0 then a == b else exists c :: d.Edge(a, c) && WalkAround(d, p, c, b, n - 1)
  }

  ghost predicate ReachesAround(d: Digraph, p: set<Node>, a: Node, b: Node) {
    exists n: nat :: WalkAround(d, p, a, b, n)
  }

  // A walk around p to another node than v leaves v for good, or never meets it.
  lemma {:induction false} LastExit(d: Digraph, p: set<Node>, v: Node, a: Node, w: Node, n: nat)
    requires WalkAround(d, p, a, w, n) && w != v
    ensures ReachesAround(d, p + {v}, a, w) || exists c :: d.Edge(v, c) && ReachesAround(d, p + {v}, c, w)
    decreases n
  {
    if n == 0 {
      assert WalkAround(d, p + {v}, a, w, 0);
    } else {
      var x :| d.Edge(a, x) && WalkAround(d, p, x, w, n - 1);
      LastExit(d, p, v, x, w, n - 1);
      if a != v && ReachesAround(d, p + {v}, x, w) {
        var m: nat :| WalkAround(d, p + {v}, x, w, m);
        assert WalkAround(d, p + {v}, a, w, m + 1);
      }
    }
  }

  lemma LeaveForGood(d: Digraph, p: set<Node>, v: Node, w: Node)
    requires ReachesAround(d, p, v, w) && w != v
    ensures exists c :: d.Edge(v, c) && ReachesAround(d, p + {v}, c, w)
  {
    var n: nat :| WalkAround(d, p, v, w, n);
    LastExit(d, p, v, v, w, n);
    StartsOutside(d, p + {v}, v, w);
  }

  lemma StartsOutside(d: Digraph, p: set<Node>, a: Node, b: Node)
    ensures ReachesAround(d, p, a, b) ==> a !in p
  {
  }

  ghost predicate OnlySelf(d: Digraph, v: Node) {
    forall w {:trigger Mutual(d, v, w)} | Mutual(d, v, w) :: w == v
  }

  // Where no other function calls back to v, no path out of v comes back to what led to v.
  lemma {:induction false} NoWayBack(d: Digraph, p: set<Node>, v: Node, a: Node, w: Node, n: nat)
    requires OnlySelf(d, v) && v !in p && forall q | q in p :: Reaches(d, q, v)
    requires Reaches(d, v, a) && Walk(d, a, w, n)
    ensures WalkAround(d, p, a, w, n)
    decreases n
  {
    if a in p {
      assert Mutual(d, v, a);
      assert false;
    }
    if n > 0 {
      var x :| d.Edge(a, x) && Walk(d, x, w, n - 1);
      ReachesEdge(d, a, x);
      ReachesTrans(d, v, a, x);
      NoWayBack(d, p, v, x, w, n - 1);
    }
  }

  lemma {:induction false} AroundNothing(d: Digraph, a: Node, w: Node, n: nat)
    requires Walk(d, a, w, n)
    ensures WalkAround(d, {}, a, w, n)
    decreases n
  {
    if n > 0 {
      var x :| d.Edge(a, x) && Walk(d, x, w, n - 1);
      AroundNothing(d, x, w, n - 1);
    }
  }

  // Nor does a walk meet a node that leads back to where it must not go.
  lemma {:induction false} AroundUnreached(d: Digraph, p: set<Node>, v: Node, a: Node, w: Node, n: nat)
    requires Walk(d, a, w, n) && !Reaches(d, a, v) && forall q | q in p :: Reaches(d, q, v)
    ensures WalkAround(d, p, a, w, n)
    decreases n
  {
    if n > 0 {
      var x :| d.Edge(a, x) && Walk(d, x, w, n - 1);
      if Reaches(d, x, v) {
        ReachesEdge(d, a, x);
        ReachesTrans(d, a, x, v);
      }
      AroundUnreached(d, p, v, x, w, n - 1);
    }
  }

  // ---- Call graphs on which nothing is missed

  // The i-th call site of v, and every one before it, calls a function that never calls back.
  ghost predicate EarlySite(g: CallGraph, v: Node, i: nat) {
    && v in g && g[v].Defined? && i < |g[v].callees| && g[v].callees[i] in Callees(g, v)
    && forall j | 0 <= j <= i && g[v].callees[j] in Callees(g, v) :: !Reaches(Calls(g), g[v].callees[j], v)
  }

  // v learns all its fields before it first calls a function that calls back.
  ghost predicate Early(g: CallGraph, v: Node) {
    forall f {:trigger Uses(g, v, f)} | Uses(g, v, f) ::
      exists i: nat :: EarlySite(g, v, i) && Uses(g, g[v].callees[i], f)
  }

  // A function in a recursion of several learns its fields early, or calls back one that does.
  ghost predicate Foreseen(g: CallGraph) {
    forall v {:trigger OnlySelf(Calls(g), v)} ::
      || OnlySelf(Calls(g), v)
      || Early(g, v)
      || exists c :: c in Callees(g, v) && c != v && Reaches(Calls(g), c, v) && Early(g, c)
  }

  lemma SelfCallsForeseen(g: CallGraph)
    requires OnlySelfCycles(Calls(g))
    ensures Foreseen(g)
  {
    hide Mutual, Early;
  }

  // ---- Lists of fields

  // The list has every field used by what c reaches around p.
  ghost predicate Covers(g: CallGraph, fields: seq<Field>, p: set<Node>, c: Node) {
    forall w, f {:trigger ReachesAround(Calls(g), p, c, w), f in Own(g, w)}
      | ReachesAround(Calls(g), p, c, w) && f in Own(g, w) :: f in fields
  }

  ghost predicate Sound(g: CallGraph, used: map<Node, seq<Field>>) {
    forall v | v in used :: SoundAt(g, v, used[v])
  }

  ghost predicate SoundAt(g: CallGraph, v: Node, fields: seq<Field>) {
    NoDuplicates(fields) && forall f | f in fields :: Uses(g, v, f)
  }

  // The list has exactly the fields v uses.
  ghost predicate Exact(g: CallGraph, v: Node, fields: seq<Field>) {
    NoDuplicates(fields) && forall f {:trigger Uses(g, v, f)} :: f in fields <==> Uses(g, v, f)
  }

  ghost predicate Grown(a: map<Node, seq<Field>>, b: map<Node, seq<Field>>) {
    forall v | v in a :: v in b && Included(a[v], b[v])
  }

  ghost predicate Included<T(!new)>(a: seq<T>, b: seq<T>) {
    forall x | x in a :: x in b
  }

  // Every callee of a finished function has been traversed, and its own fields are listed.
  ghost predicate Settled(g: CallGraph, used: map<Node, seq<Field>>, open: set<Node>) {
    forall v | v in used && v !in open :: Callees(g, v) <= used.Keys && forall f | f in Own(g, v) :: f in used[v]
  }

  // No callee has a field that its caller lacks.
  ghost predicate ClosedUnderCalls(g: CallGraph, used: map<Node, seq<Field>>) {
    forall v, c | v in used && c in Callees(g, v) && c in used :: Included(used[c], used[v])
  }

  // On a graph that allows it, every finished function is exact.
  ghost predicate Finished(g: CallGraph, used: map<Node, seq<Field>>, open: set<Node>) {
    Foreseen(g) ==> forall v | v in used && v !in open :: Exact(g, v, used[v])
  }

  ghost predicate HasAll(g: CallGraph, v: Node, fields: seq<Field>) {
    forall f {:trigger Uses(g, v, f)} | Uses(g, v, f) :: f in fields
  }

  // Before c is called below the functions of open: those of them that it can call back and that
  // learn their fields early have them all.
  ghost predicate Prepared(g: CallGraph, used: map<Node, seq<Field>>, open: set<Node>, c: Node) {
    forall q | q in open && Reaches(Calls(g), c, q) && Early(g, q) :: q in used && HasAll(g, q, used[q])
  }

  lemma HasAllGrows(g: CallGraph, v: Node, a: seq<Field>, b: seq<Field>)
    requires Included(a, b)
    ensures HasAll(g, v, a) ==> HasAll(g, v, b)
  {
    hide Uses;
  }

  // Functions that call each other use the same fields.
  lemma MutualUses(g: CallGraph, v: Node, c: Node, f: Field)
    requires c in Callees(g, v) && Reaches(Calls(g), c, v) && Uses(g, v, f)
    ensures Uses(g, c, f)
  {
    var d := Calls(g);
    var w :| Reaches(d, v, w) && f in Own(g, w);
    ReachesTrans(d, c, v, w);
  }

  lemma CalleeHasAll(g: CallGraph, v: Node, c: Node, fields: seq<Field>)
    requires c in Callees(g, v) && Reaches(Calls(g), c, v) && HasAll(g, c, fields)
    ensures HasAll(g, v, fields)
  {
    hide Uses, Calls, Reaches;
    forall f {:trigger Uses(g, v, f)} | Uses(g, v, f) ensures f in fields {
      MutualUses(g, v, c, f);
    }
  }

  // A list that covers a callee around functions that it never calls has all its fields.
  lemma CoversUnreached(g: CallGraph, fields: seq<Field>, p: set<Node>, v: Node, c: Node)
    requires Covers(g, fields, p, c) && !Reaches(Calls(g), c, v) && forall q | q in p :: Reaches(Calls(g), q, v)
    ensures HasAll(g, c, fields)
  {
    hide Calls, Own;
    var d := Calls(g);
    forall f {:trigger Uses(g, c, f)} | Uses(g, c, f) ensures f in fields {
      var w :| Reaches(d, c, w) && f in Own(g, w);
      var n: nat :| Walk(d, c, w, n);
      AroundUnreached(d, p, v, c, w, n);
      assert ReachesAround(d, p, c, w);
    }
  }

  lemma CoveredIsExact(g: CallGraph, p: set<Node>, v: Node, fields: seq<Field>)
    requires SoundAt(g, v, fields) && Covers(g, fields, p, v) && v !in p
    requires p == {} || (OnlySelf(Calls(g), v) && forall q | q in p :: Reaches(Calls(g), q, v))
    ensures Exact(g, v, fields)
  {
    hide Calls, Callees;
    var d := Calls(g);
    forall f {:trigger Uses(g, v, f)} | Uses(g, v, f) ensures f in fields {
      var w :| Reaches(d, v, w) && f in Own(g, w);
      var n: nat :| Walk(d, v, w, n);
      if p == {} {
        AroundNothing(d, v, w, n);
      } else {
        ReachesSelf(d, v);
        NoWayBack(d, p, v, v, w, n);
      }
      assert ReachesAround(d, p, v, w);
    }
  }

  // A caller uses what its callees use.
  lemma CallerUses(g: CallGraph, v: Node, c: Node, f: Field)
    requires c in Callees(g, v) && Uses(g, c, f)
    ensures Uses(g, v, f)
  {
    var d := Calls(g);
    var w :| Reaches(d, c, w) && f in Own(g, w);
    assert d.Edge(v, c);
    ReachesEdge(d, v, c);
    ReachesTrans(d, v, c, w);
  }

  lemma OwnIsUsed(g: CallGraph, v: Node, f: Field)
    requires f in Own(g, v)
    ensures Uses(g, v, f)
  {
    ReachesSelf(Calls(g), v);
  }

  // One list covers v once it has v's own fields and covers every callee around v.
  lemma CoversNode(g: CallGraph, p: set<Node>, v: Node, fields: seq<Field>)
    requires forall f | f in Own(g, v) :: f in fields
    requires forall c | c in Callees(g, v) && c !in p + {v} :: Covers(g, fields, p + {v}, c)
    ensures Covers(g, fields, p, v)
  {
    var d := Calls(g);
    forall w, f {:trigger ReachesAround(d, p, v, w), f in Own(g, w)} | ReachesAround(d, p, v, w) && f in Own(g, w)
      ensures f in fields
    {
      if w != v {
        LeaveForGood(d, p, v, w);
        var c :| d.Edge(v, c) && ReachesAround(d, p + {v}, c, w);
        var n: nat :| WalkAround(d, p + {v}, c, w, n);
        assert c in Callees(g, v) && c !in p + {v};
      }
    }
  }

  // The call site has been dealt with: its callee is known, v's list covers it if new, and has
  // its fields if it learns them early and calls back.
  ghost predicate CallDone(g: CallGraph, used: map<Node, seq<Field>>, seen: set<Node>, v: Node, c: Node) {
    c in g && !g[c].NoFunction? ==>
      && c in used && v in used
      && (c !in seen ==> Covers(g, used[v], seen, c))
      && (Foreseen(g) && c != v && Reaches(Calls(g), c, v) && Early(g, c) ==> HasAll(g, v, used[v]))
  }

  // A callee that was already on the way to v has handed over what is listed for it.
  ghost predicate BackMerged(g: CallGraph, used: map<Node, seq<Field>>, seen: set<Node>, v: Node, c: Node) {
    c in seen && c in Callees(g, v) ==> c in used && v in used && Included(used[c], used[v])
  }

  // What v has now and had not before came from its callees.
  ghost predicate FromCallees(g: CallGraph, was: map<Node, seq<Field>>, now: map<Node, seq<Field>>, v: Node) {
    v in now && forall f | f in now[v] && (v in was ==> f !in was[v]) ::
      exists c :: c in Callees(g, v) && c in now && f in now[c]
  }

  // The lists of the functions of open are as they were, except that of v.
  ghost predicate Untouched(was: map<Node, seq<Field>>, now: map<Node, seq<Field>>, open: set<Node>, v: Node) {
    forall x | x in open && x != v && x in was :: x in now && now[x] == was[x]
  }

  lemma NothingToFollow(g: CallGraph, used: map<Node, seq<Field>>, seen: set<Node>, v: Node, c: Node)
    ensures c in g && g[c].NoFunction? ==> CallDone(g, used, seen, v, c) && BackMerged(g, used, seen, v, c)
  {
  }

  lemma PreparedAt(g: CallGraph, used: map<Node, seq<Field>>, open: set<Node>, c: Node)
    requires Prepared(g, used, open, c) && c in open && c in used
    ensures Early(g, c) ==> HasAll(g, c, used[c])
  {
    hide Early, HasAll;
    ReachesSelf(Calls(g), c);
  }

  lemma UntouchedTrans(a: map<Node, seq<Field>>, b: map<Node, seq<Field>>, c: map<Node, seq<Field>>, open: set<Node>,
                       v: Node)
    requires Untouched(a, b, open, v) && Untouched(b, c, open, v)
    ensures Untouched(a, c, open, v)
  {
  }

  lemma BackStaysMerged(g: CallGraph, was: map<Node, seq<Field>>, now: map<Node, seq<Field>>, seen: set<Node>, v: Node)
    requires Grown(was, now) && Untouched(was, now, seen, v)
    ensures forall c {:trigger BackMerged(g, now, seen, v, c)} | BackMerged(g, was, seen, v, c) ::
              BackMerged(g, now, seen, v, c)
  {
    hide Callees;
  }

  lemma FromCalleesTrans(g: CallGraph, a: map<Node, seq<Field>>, b: map<Node, seq<Field>>, c: map<Node, seq<Field>>,
                         v: Node)
    requires Grown(b, c) && v in a && FromCallees(g, a, b, v) && FromCallees(g, b, c, v)
    ensures FromCallees(g, a, c, v)
  {
    hide Callees;
    forall f | f in c[v] && f !in a[v] ensures exists x :: x in Callees(g, v) && x in c && f in c[x] {
      if f in b[v] {
        var x :| x in Callees(g, v) && x in b && f in b[x];
        assert x in c && f in c[x];
      }
    }
  }

  // Once the early call sites are done, a function that learns early has all its fields.
  lemma EarlyHasAll(g: CallGraph, used: map<Node, seq<Field>>, seen: set<Node>, v: Node, n: nat)
    requires v in g && g[v].Defined? && n <= |g[v].callees| && v in used && Early(g, v)
    requires forall q | q in seen :: Reaches(Calls(g), q, v)
    requires forall j | 0 <= j < n :: CallDone(g, used, seen, v, g[v].callees[j])
    requires n < |g[v].callees| ==>
               g[v].callees[n] in Callees(g, v) && Reaches(Calls(g), g[v].callees[n], v)
    ensures HasAll(g, v, used[v])
  {
    hide Covers, Calls, Reaches, Uses, Foreseen;
    forall f {:trigger Uses(g, v, f)} | Uses(g, v, f) ensures f in used[v] {
      var i: nat :| EarlySite(g, v, i) && Uses(g, g[v].callees[i], f);
      assert CallDone(g, used, seen, v, g[v].callees[i]);
      CoversUnreached(g, used[v], seen, v, g[v].callees[i]);
    }
  }

  lemma PreparedBelow(g: CallGraph, was: map<Node, seq<Field>>, used: map<Node, seq<Field>>, visited: set<Node>,
                      v: Node,
                      i: nat)
    requires v in g && g[v].Defined? && i < |g[v].callees| && g[v].callees[i] in Callees(g, v) && v in used
    requires Prepared(g, was, visited, v) && Grown(was, used)
    requires forall q | q in visited + {v} :: Reaches(Calls(g), q, v)
    requires forall j | 0 <= j < i :: CallDone(g, used, visited + {v}, v, g[v].callees[j])
    ensures Prepared(g, used, visited + {v}, g[v].callees[i])
  {
    hide Covers, Calls, Reaches, Uses, Early, Foreseen, CallDone, HasAll;
    var c := g[v].callees[i];
    forall q | q in visited + {v} && Reaches(Calls(g), c, q) && Early(g, q) ensures q in used && HasAll(g, q, used[q]) {
      if q == v {
        EarlyHasAll(g, used, visited + {v}, v, i);
      } else {
        StepReaches(g, v, c);
        HasAllGrows(g, q, was[q], used[q]);
      }
    }
  }

  lemma CallStaysDone(g: CallGraph, was: map<Node, seq<Field>>, now: map<Node, seq<Field>>, seen: set<Node>, v: Node)
    requires Grown(was, now)
    ensures forall c {:trigger CallDone(g, now, seen, v, c)} | CallDone(g, was, seen, v, c) ::
                CallDone(g, now, seen, v, c)
  {
    hide Covers, HasAll, Early, Foreseen, Calls, Reaches;
    if v in was {
      CoversGrows(g, was[v], now[v]);
      HasAllGrows(g, v, was[v], now[v]);
    }
  }

  lemma StepReaches(g: CallGraph, v: Node, c: Node)
    requires c in Callees(g, v)
    ensures forall q {:trigger Reaches(Calls(g), q, v)} | Reaches(Calls(g), q, v) :: Reaches(Calls(g), q, c)
    ensures forall x {:trigger Reaches(Calls(g), c, x)} | Reaches(Calls(g), c, x) :: Reaches(Calls(g), v, x)
  {
    var d := Calls(g);
    assert d.Edge(v, c);
    ReachesEdge(d, v, c);
    forall q {:trigger Reaches(d, q, v)} | Reaches(d, q, v) ensures Reaches(d, q, c) {
      ReachesTrans(d, q, v, c);
    }
    forall x {:trigger Reaches(d, c, x)} | Reaches(d, c, x) ensures Reaches(d, v, x) {
      ReachesTrans(d, v, c, x);
    }
  }

  lemma SoundFields(g: CallGraph, used: map<Node, seq<Field>>, v: Node)
    requires Sound(g, used) && v in used
    ensures SoundAt(g, v, used[v]) && forall f | f in used[v] :: Uses(g, v, f)
  {
    hide Uses;
  }

  lemma CalleeFields(g: CallGraph, v: Node, c: Node)
    requires c in Callees(g, v)
    ensures forall f {:trigger Uses(g, c, f)} | Uses(g, c, f) :: Uses(g, v, f)
  {
    hide Uses;
    forall f {:trigger Uses(g, c, f)} | Uses(g, c, f) ensures Uses(g, v, f) {
      CallerUses(g, v, c, f);
    }
  }

  lemma GrownTrans(a: map<Node, seq<Field>>, b: map<Node, seq<Field>>, c: map<Node, seq<Field>>)
    requires Grown(a, b) && Grown(b, c)
    ensures Grown(a, c)
  {
  }

  lemma CoversGrows(g: CallGraph, a: seq<Field>, b: seq<Field>)
    requires Included(a, b)
    ensures forall p, c {:trigger Covers(g, b, p, c)} | Covers(g, a, p, c) :: Covers(g, b, p, c)
  {
  }

  lemma SetsMerged(was: map<Node, seq<Field>>, now: map<Node, seq<Field>>, v: Node, more: set<Field>)
    requires v in was && v in now && now == was[v := now[v]]
    requires forall f :: f in now[v] <==> f in was[v] || f in more
    ensures Sets(now) == Sets(was)[v := At(Sets(was), v) + more]
  {
    assert Elements(now[v]) == Elements(was[v]) + more;
  }

  // Fields joining the list of a function still being traversed.
  lemma Joined(g: CallGraph, was: map<Node, seq<Field>>, now: map<Node, seq<Field>>, v: Node, open: set<Node>)
    requires v in was && v in now && v in open && now == was[v := now[v]] && SoundAt(g, v, now[v])
    requires forall f | f in was[v] :: f in now[v]
    requires Sound(g, was) && Settled(g, was, open) && Finished(g, was, open)
    ensures Sound(g, now) && Settled(g, now, open) && Finished(g, now, open)
    ensures Grown(was, now) && Included(was[v], now[v])
  {
    hide SoundAt, Exact, Foreseen;
  }

  // ---- The traversal

  type FieldSets = map<Node, set<Field>>

  ghost function Elements(s: seq<Field>): set<Field> {
    set f | f in s
  }

  ghost function Sets(used: map<Node, seq<Field>>): FieldSets {
    map v | v in used :: Elements(used[v])
  }

  function At(used: FieldSets, v: Node): set<Field> {
    if v in used then used[v] else {}
  }

  // The field sets after the traversal of v below the functions of visited.
  ghost function Traversed(g: CallGraph, used: FieldSets, visited: set<Node>, v: Node): (r: FieldSets)
    requires WellFormed(g) && v in g && v !in visited
    ensures v in r
    decreases g.Keys - visited, 0, 0
  {
    var entered := used[v := At(used, v)];
    if g[v].Defined? then
      var after := CallsTraversed(g, entered, visited + {v}, v, |g[v].callees|);
      after[v := At(after, v) + g[v].accesses]
    else entered
  }

  // The same after the first n call sites of v.
  ghost function CallsTraversed(g: CallGraph, used: FieldSets, seen: set<Node>, v: Node, n: nat): FieldSets
    requires WellFormed(g) && v in g && g[v].Defined? && n <= |g[v].callees|
    decreases g.Keys - seen, 1, n
  {
    if n == 0 then used
    else CallTraversed(g, CallsTraversed(g, used, seen, v, n - 1), seen, v, g[v].callees[n - 1])
  }

  // One call site: a callee already on the way to v gives what it has so far.
  ghost function CallTraversed(g: CallGraph, used: FieldSets, seen: set<Node>, v: Node, c: Node): FieldSets
    requires WellFormed(g) && c in g
    decreases g.Keys - seen, 1, 0
  {
    if g[c].NoFunction? then used
    else
      var after := if c in seen then used else Traversed(g, used, seen, c);
      after[v := At(after, v) + At(after, c)]
  }

  // Function 0 calls 1; 1 and 2 call each other; only 1 accesses a field.
  function CrossCalls(): CallGraph {
    map[0 := Defined([1], {}), 1 := Defined([2], {Field(0, 0)}), 2 := Defined([1], {})]
  }

  lemma CrossCallsTraversed()
    ensures WellFormed(CrossCalls())
    ensures Traversed(CrossCalls(), map[], {}, 0) == map[0 := {Field(0, 0)}, 1 := {Field(0, 0)}, 2 := {}]
  {
    var g, x := CrossCalls(), Field(0, 0);
    assert g[0].callees == [1] && g[1].callees == [2] && g[2].callees == [1];
    var s0: set<Node>, s1: set<Node>, s2: set<Node> := {} + {0}, {} + {0} + {1}, {} + {0} + {1} + {2};
    var u0: FieldSets, u1: FieldSets := map[0 := {}], map[0 := {}, 1 := {}];
    var u2: FieldSets := map[0 := {}, 1 := {}, 2 := {}];
    var r1: FieldSets := map[0 := {}, 1 := {x}, 2 := {}];
    assert At(u2, 2) + At(u2, 1) == {} && At(u2, 1) + {x} == {x} && At(r1, 0) + At(r1, 1) == {x} && {x} + {} == {x};
    assert Traversed(g, u1, s1, 2) == u2 by {
      assert u2[2 := At(u2, 2) + At(u2, 1)] == u2;
      assert CallsTraversed(g, u2, s2, 2, 0) == u2;
      assert CallsTraversed(g, u2, s2, 2, 1) == u2;
    }
    assert u0[1 := At(u0, 1)] == u1 && u2[1 := At(u2, 1) + {x}] == r1;
    assert Traversed(g, u0, s0, 1) == r1 by {
      assert CallTraversed(g, u1, s1, 1, 2) == u2;
      assert CallsTraversed(g, u1, s1, 1, 0) == u1;
      assert CallsTraversed(g, u1, s1, 1, 1) == u2;
    }
    assert r1[0 := At(r1, 0) + At(r1, 1)] == r1[0 := {x}];
    assert CallsTraversed(g, u0, s0, 0, 0) == u0;
    assert CallsTraversed(g, u0, s0, 0, 1) == r1[0 := {x}];
  }

  // With functions calling each other the traversal can miss a used field.
  lemma MutualRecursionMisses()
    ensures WellFormed(CrossCalls())
    ensures Uses(CrossCalls(), 2, Field(0, 0)) && Field(0, 0) !in At(Traversed(CrossCalls(), map[], {}, 0), 2)
  {
    CrossCallsTraversed();
    OwnIsUsed(CrossCalls(), 1, Field(0, 0));
    CallerUses(CrossCalls(), 2, 1, Field(0, 0));
  }

  lemma {:induction false} ClosedListsReach(g: CallGraph, used: map<Node, seq<Field>>, v: Node, w: Node, n: nat)
    requires Settled(g, used, {}) && ClosedUnderCalls(g, used) && v in used && Walk(Calls(g), v, w, n)
    ensures w in used && Included(used[w], used[v])
    decreases n
  {
    if n > 0 {
      var c :| Calls(g).Edge(v, c) && Walk(Calls(g), c, w, n - 1);
      ClosedListsReach(g, used, c, w, n - 1);
    }
  }

  // The same on sets of fields.
  ghost predicate ClosedSets(g: CallGraph, used: FieldSets) {
    forall v, c | v in used && c in Callees(g, v) && c in used :: used[c] <= used[v]
  }

  lemma ClosedAsSets(g: CallGraph, used: map<Node, seq<Field>>)
    ensures ClosedSets(g, Sets(used)) <==> ClosedUnderCalls(g, used)
  {
    forall v, c | v in used && c in used
      ensures Elements(used[c]) <= Elements(used[v]) <==> Included(used[c], used[v])
    {
      if Elements(used[c]) <= Elements(used[v]) {
        forall f | f in used[c] ensures f in used[v] {
          assert f in Elements(used[c]);
        }
      }
    }
    var sets := Sets(used);
    if ClosedSets(g, sets) {
      forall v, c | v in used && c in Callees(g, v) && c in used ensures Included(used[c], used[v]) {
        assert sets[c] <= sets[v];
      }
    }
    if ClosedUnderCalls(g, used) {
      forall v, c | v in sets && c in Callees(g, v) && c in sets ensures sets[c] <= sets[v] {
        assert Included(used[c], used[v]);
      }
    }
  }

  // One look at every call edge after a traversal tells whether it found everything.
  lemma ExactIffClosed(g: CallGraph, used: map<Node, seq<Field>>)
    requires Sound(g, used) && Settled(g, used, {})
    ensures (forall v | v in used :: Exact(g, v, used[v])) <==> ClosedUnderCalls(g, used)
  {
    if forall v | v in used :: Exact(g, v, used[v]) {
      forall v, c | v in used && c in Callees(g, v) && c in used ensures Included(used[c], used[v]) {
        CalleeFields(g, v, c);
      }
    }
    if ClosedUnderCalls(g, used) {
      forall v, f {:trigger Uses(g, v, f)} | v in used && Uses(g, v, f) ensures f in used[v] {
        var w :| Reaches(Calls(g), v, w) && f in Own(g, w);
        var n: nat :| Walk(Calls(g), v, w, n);
        ClosedListsReach(g, used, v, w, n);
      }
    }
  }

  method InsertUnique<T(==)>(s: seq<T>, x: T) returns (r: seq<T>)
    ensures r == if x in s then s else s + [x]
  {
    for i := 0 to |s|
      invariant x !in s[..i]
    {
      if s[i] == x {
        return s;
      }
    }
    return s + [x];
  }

  class Traversal {
    const g: CallGraph
    var used: map<Node, seq<Field>>

    constructor (g: CallGraph)
      ensures this.g == g && used == map[]
    {
      this.g, used := g, map[];
    }

    // All of the list joins the fields of v.
    method Merge(v: Node, fields: seq<Field>)
      requires v in used
      requires SoundAt(g, v, used[v]) && forall f | f in fields :: Uses(g, v, f)
      modifies this`used
      ensures v in used && used == old(used)[v := used[v]] && SoundAt(g, v, used[v])
      ensures forall f :: f in used[v] <==> f in old(used[v]) || f in fields
    {
      hide Uses;
      for i := 0 to |fields|
        invariant v in used && used == old(used)[v := used[v]] && SoundAt(g, v, used[v])
        invariant forall f :: f in used[v] <==> f in old(used[v]) || f in fields[..i]
      {
        var now := InsertUnique(used[v], fields[i]);
        used := used[v := now];
      }
    }

    // The function's own fields are entered after those of its callees.
    method MergeOwn(v: Node)
      requires v in g && g[v].Defined? && v in used && SoundAt(g, v, used[v])
      modifies this`used
      ensures v in used && used == old(used)[v := used[v]] && SoundAt(g, v, used[v])
      ensures forall f :: f in used[v] <==> f in old(used[v]) || f in Own(g, v)
    {
      hide Uses;
      var todo := g[v].accesses;
      ghost var done := {};
      while todo != {}
        invariant todo !! done && todo + done == Own(g, v)
        invariant v in used && used == old(used)[v := used[v]] && SoundAt(g, v, used[v])
        invariant forall f :: f in used[v] <==> f in old(used[v]) || f in done
        decreases todo
      {
        var f :| f in todo;
        OwnIsUsed(g, v, f);
        var now := InsertUnique(used[v], f);
        used := used[v := now];
        todo, done := todo - {f}, done + {f};
      }
    }

    // The state while the functions of open are being traversed.
    ghost predicate State(open: set<Node>)
      reads this
    {
      && open <= used.Keys <= g.Keys
      && Sound(g, used) && Settled(g, used, open) && Finished(g, used, open)
    }

    // visited is passed by value: it holds the functions between the entry and v, and a
    // function outside it is traversed again at every call. It ends on every call graph. A
    // callee on the way to v hands over what is listed for it by then, and whatever v gets is
    // its own or listed for a callee.
    method Visit(v: Node, visited: set<Node>)
      requires WellFormed(g) && v in g && !g[v].NoFunction? && v !in visited && State(visited)
      requires forall q | q in visited :: Reaches(Calls(g), q, v)
      requires Foreseen(g) ==> Prepared(g, used, visited, v)
      modifies this`used
      ensures State(visited) && Grown(old(used), used)
      ensures v in used && Covers(g, used[v], visited, v)
      ensures forall x | x in used && x !in old(used) :: Reaches(Calls(g), v, x)
      ensures forall c | c in Callees(g, v) && c in visited :: c in used && Included(used[c], used[v])
      ensures forall f | f in used[v] && (v in old(used) ==> f !in old(used)[v]) ::
                f in Own(g, v) || exists c :: c in Callees(g, v) && c in used && f in used[c]
      ensures forall x | x in visited :: x in old(used) && used[x] == old(used)[x]
      ensures Sets(used) == Traversed(g, old(Sets(used)), visited, v)
      decreases g.Keys - visited, 0
    {
      hide Covers, Calls, Uses, Reaches, Exact, SoundAt, Included, CallDone, Grown, BackMerged, FromCallees, Foreseen,
        Prepared;
      var seen := visited + {v};
      ReachesSelf(Calls(g), v);
      Enter(v, visited);
      ghost var entered := used;
      if g[v].Defined? {
        PreparedStays(g, old(used), entered, visited, v);
        FollowAll(v, visited);
        GrownTrans(old(used), entered, used);
        ghost var was := used;
        SoundFields(g, used, v);
        MergeOwn(v);
        SetsMerged(was, used, v, Own(g, v));
        Joined(g, was, used, v, seen);
        GrownTrans(old(used), was, used);
        CallStaysDone(g, was, used, seen, v);
        BackStaysMerged(g, was, used, seen, v);
        OwnOrCallees(g, entered, was, used, v);
      }
      Merged(g, used, visited, v);
      Leave(v, visited);
    }

    // Every call site of v in turn.
    method FollowAll(v: Node, visited: set<Node>)
      requires WellFormed(g) && v in g && g[v].Defined? && v !in visited && State(visited + {v})
      requires forall q | q in visited + {v} :: Reaches(Calls(g), q, v)
      requires Foreseen(g) ==> Prepared(g, used, visited, v)
      modifies this`used
      ensures State(visited + {v}) && Grown(old(used), used) && v in used
      ensures forall j | 0 <= j < |g[v].callees| :: CallDone(g, used, visited + {v}, v, g[v].callees[j])
      ensures forall j | 0 <= j < |g[v].callees| :: BackMerged(g, used, visited + {v}, v, g[v].callees[j])
      ensures FromCallees(g, old(used), used, v) && Untouched(old(used), used, visited + {v}, v)
      ensures forall x | x in used && x !in old(used) :: Reaches(Calls(g), v, x)
      ensures Sets(used) == CallsTraversed(g, old(Sets(used)), visited + {v}, v, |g[v].callees|)
      decreases g.Keys - (visited + {v}), 2
    {
      hide Covers, Calls, Uses, Reaches, Exact, SoundAt, CallDone, BackMerged, FromCallees, Untouched, Sound, Settled,
        Finished, Foreseen, Prepared;
      ghost var seen := visited + {v};
      NothingFromCallees(g, used, v);
      UntouchedSelf(used, seen, v);
      for i := 0 to |g[v].callees|
        invariant State(seen) && Grown(old(used), used) && v in used
        invariant forall j | 0 <= j < i :: CallDone(g, used, seen, v, g[v].callees[j])
        invariant forall j | 0 <= j < i :: BackMerged(g, used, seen, v, g[v].callees[j])
        invariant FromCallees(g, old(used), used, v) && Untouched(old(used), used, seen, v)
        invariant forall x | x in used && x !in old(used) :: Reaches(Calls(g), v, x)
        invariant Sets(used) == CallsTraversed(g, old(Sets(used)), seen, v, i)
      {
        var c := g[v].callees[i];
        ghost var was := used;
        NothingToFollow(g, used, seen, v, c);
        if !g[c].NoFunction? {
          if Foreseen(g) {
            PreparedBelow(g, old(used), used, visited, v, i);
          }
          Follow(v, c, visited + {v});
          GrownTrans(old(used), was, used);
          UntouchedTrans(old(used), was, used, seen, v);
          FromCalleesTrans(g, old(used), was, used, v);
          CallStaysDone(g, was, used, seen, v);
          BackStaysMerged(g, was, used, seen, v);
        }
      }
    }

    // When the traversal of v ends, its list covers what v reaches around its callers.
    lemma Leave(v: Node, visited: set<Node>)
      requires v in g && v !in visited && State(visited + {v})
      requires forall q | q in visited :: Reaches(Calls(g), q, v)
      requires g[v].Defined? ==> forall j | 0 <= j < |g[v].callees| ::
                  CallDone(g, used, visited + {v}, v, g[v].callees[j])
      requires forall f | f in Own(g, v) :: f in used[v]
      ensures State(visited) && Covers(g, used[v], visited, v)
    {
      hide Covers, Calls, Uses, Reaches, SoundAt, Exact, Foreseen, HasAll, OnlySelf, Early;
      CoversNode(g, visited, v, used[v]);
      if Foreseen(g) {
        LeaveExact(g, used, visited, v);
      }
    }

    // The entry made for v on first sight.
    method Enter(v: Node, visited: set<Node>)
      requires v in g && State(visited) && v !in visited
      modifies this`used
      ensures State(visited + {v}) && Grown(old(used), used)
      ensures used == if v in old(used) then old(used) else old(used)[v := []]
      ensures Sets(used) == old(Sets(used))[v := At(old(Sets(used)), v)]
    {
      hide Exact, Uses, Foreseen, Reaches;
      if v !in used {
        used := used[v := []];
        assert Elements([]) == {};
      }
    }

    // One call site of v: whether or not the callee is on the way to v, v's list gets what is
    // listed for it afterwards, and nothing else.
    method Follow(v: Node, c: Node, seen: set<Node>)
      requires WellFormed(g) && c in Callees(g, v) && v in seen && State(seen)
      requires forall q | q in seen :: Reaches(Calls(g), q, v)
      requires Foreseen(g) ==> Prepared(g, used, seen, c)
      modifies this`used
      ensures State(seen) && Grown(old(used), used)
      ensures c in used && v in used && CallDone(g, used, seen, v, c)
      ensures Included(used[c], used[v]) && BackMerged(g, used, seen, v, c)
      ensures forall f | f in used[v] && f !in old(used)[v] :: f in used[c]
      ensures FromCallees(g, old(used), used, v) && Untouched(old(used), used, seen, v)
      ensures forall x | x in used && x !in old(used) :: Reaches(Calls(g), v, x)
      ensures Sets(used) == CallTraversed(g, old(Sets(used)), seen, v, c)
      decreases g.Keys - seen, 1
    {
      hide Covers, Calls, Uses, Reaches, Exact, SoundAt, Foreseen, Prepared, HasAll, Early;
      if c !in seen {
        StepReaches(g, v, c);
        Visit(c, seen);
      }
      ghost var was := used;
      SoundFields(g, used, v);
      SoundFields(g, used, c);
      CalleeFields(g, v, c);
      Merge(v, used[c]);
      SetsMerged(was, used, v, Elements(was[c]));
      Joined(g, was, used, v, seen);
      GrownTrans(old(used), was, used);
      CoversGrows(g, was[c], used[v]);
      if Foreseen(g) {
        if c in seen {
          PreparedAt(g, was, seen, c);
        }
        CalleeComplete(g, was, seen, v, c, used[v]);
      }
    }

    // The traversal from the entry: the entry's list is exact on every call graph, and every
    // list is where all recursions of several functions are foreseen, in particular where the
    // only cycles are self-calls.
    method TraverseFrom(entry: Node)
      requires WellFormed(g) && entry in g && !g[entry].NoFunction? && used == map[]
      modifies this`used
      ensures used.Keys <= g.Keys && Sound(g, used) && Settled(g, used, {})
      ensures Sets(used) == Traversed(g, map[], {}, entry)
      ensures forall v :: v in used <==> Reaches(Calls(g), entry, v)
      ensures entry in used && Exact(g, entry, used[entry])
      ensures Foreseen(g) ==> forall v | v in used :: Exact(g, v, used[v])
      ensures OnlySelfCycles(Calls(g)) ==> forall v | v in used :: Exact(g, v, used[v])
    {
      hide Covers, Reaches, Exact, SoundAt, OnlySelfCycles, Foreseen, Included;
      assert Sets(used) == map[];
      Visit(entry, {});
      SoundFields(g, used, entry);
      CoveredIsExact(g, {}, entry, used[entry]);
      ReachesSelf(Calls(g), entry);
      assert Closed(Calls(g), used.Keys);
      forall v {:trigger Reaches(Calls(g), entry, v)} | Reaches(Calls(g), entry, v) ensures v in used {
        ClosedKeepsPaths(Calls(g), used.Keys, entry, v);
      }
      if OnlySelfCycles(Calls(g)) {
        SelfCallsForeseen(g);
      }
    }
  }

  lemma PreparedStays(g: CallGraph, was: map<Node, seq<Field>>, used: map<Node, seq<Field>>, open: set<Node>, v: Node)
    requires Grown(was, used)
    ensures Prepared(g, was, open, v) ==> Prepared(g, used, open, v)
  {
    hide HasAll, Early, Reaches, Calls;
    forall q | q in was ensures HasAll(g, q, was[q]) ==> HasAll(g, q, used[q]) {
      HasAllGrows(g, q, was[q], used[q]);
    }
  }

  lemma NothingFromCallees(g: CallGraph, used: map<Node, seq<Field>>, v: Node)
    ensures v in used ==> FromCallees(g, used, used, v)
  {
  }

  lemma UntouchedSelf(used: map<Node, seq<Field>>, open: set<Node>, v: Node)
    ensures Untouched(used, used, open, v)
  {
  }

  // What is new for v is its own or a callee's.
  lemma OwnOrCallees(g: CallGraph, entered: map<Node, seq<Field>>, was: map<Node, seq<Field>>,
                     now: map<Node, seq<Field>>, v: Node)
    requires v in entered && v in was && v in now && now == was[v := now[v]] && FromCallees(g, entered, was, v)
    requires forall f :: f in now[v] <==> f in was[v] || f in Own(g, v)
    ensures forall f | f in now[v] && f !in entered[v] ::
              f in Own(g, v) || exists c :: c in Callees(g, v) && c in now && f in now[c]
  {
    hide Callees, Own;
    forall f | f in now[v] && f !in entered[v] && f !in Own(g, v)
      ensures exists c :: c in Callees(g, v) && c in now && f in now[c]
    {
      var c :| c in Callees(g, v) && c in was && f in was[c];
      assert c in now && f in now[c];
    }
  }

  // Every callee that is visited has a call site.
  lemma Merged(g: CallGraph, used: map<Node, seq<Field>>, visited: set<Node>, v: Node)
    requires v in g && v in used
    requires g[v].Defined? ==> forall j | 0 <= j < |g[v].callees| ::
                BackMerged(g, used, visited + {v}, v, g[v].callees[j])
    ensures forall c | c in Callees(g, v) && c in visited :: c in used && Included(used[c], used[v])
  {
    hide Included;
    forall c | c in Callees(g, v) && c in visited ensures c in used && Included(used[c], used[v]) {
      var j :| 0 <= j < |g[v].callees| && g[v].callees[j] == c;
      assert BackMerged(g, used, visited + {v}, v, g[v].callees[j]);
    }
  }

  // A callee that calls v back has all its fields by then, if it is new or learns them early.
  lemma CalleeComplete(g: CallGraph, used: map<Node, seq<Field>>, seen: set<Node>, v: Node, c: Node, fields: seq<Field>)
    requires Foreseen(g) && c in Callees(g, v) && c in used && Included(used[c], fields)
    requires if c in seen then Early(g, c) ==> HasAll(g, c, used[c]) else Exact(g, c, used[c])
    ensures Reaches(Calls(g), c, v) && Early(g, c) ==> HasAll(g, v, fields)
  {
    hide Reaches, Calls, Callees, Early, Foreseen, Uses;
    HasAllGrows(g, c, used[c], fields);
    if Reaches(Calls(g), c, v) && Early(g, c) {
      CalleeHasAll(g, v, c, fields);
    }
  }

  // On a graph that allows it, the list of a function is exact when its traversal ends.
  lemma LeaveExact(g: CallGraph, used: map<Node, seq<Field>>, visited: set<Node>, v: Node)
    requires Foreseen(g) && v in g && v in used && v !in visited && SoundAt(g, v, used[v])
    requires forall q | q in visited :: Reaches(Calls(g), q, v)
    requires Covers(g, used[v], visited, v)
    requires g[v].Defined? ==> forall j | 0 <= j < |g[v].callees| ::
               CallDone(g, used, visited + {v}, v, g[v].callees[j])
    ensures Exact(g, v, used[v])
  {
    hide Covers, Calls, Uses, Reaches, OnlySelf, Early;
    ReachesSelf(Calls(g), v);
    if OnlySelf(Calls(g), v) {
      CoveredIsExact(g, visited, v, used[v]);
    } else if Early(g, v) {
      if g[v].Defined? {
        EarlyHasAll(g, used, visited + {v}, v, |g[v].callees|);
      } else {
        NoSites(g, v);
      }
    } else {
      var c :| c in Callees(g, v) && c != v && Reaches(Calls(g), c, v) && Early(g, c);
      var j :| 0 <= j < |g[v].callees| && g[v].callees[j] == c;
      assert CallDone(g, used, visited + {v}, v, g[v].callees[j]);
    }
  }

  lemma NoSites(g: CallGraph, v: Node)
    requires v in g && !g[v].Defined? && Early(g, v)
    ensures HasAll(g, v, [])
  {
    hide Uses;
  }

  // Function 1 learns of the field that 3 accesses before it calls 2, which calls it back.
  function Loop(): CallGraph {
    map[0 := Defined([1], {}), 1 := Defined([3, 2], {}), 2 := Defined([1], {}), 3 := Defined([], {Field(0, 0)})]
  }

  lemma LoopForeseen()
    ensures WellFormed(Loop()) && Foreseen(Loop()) && Mutual(Calls(Loop()), 1, 2)
  {
    hide Reaches;
    var g := Loop();
    var d := Calls(g);
    assert g[0].callees == [1] && g[1].callees == [3, 2] && g[2].callees == [1] && g[3].callees == [];
    assert 1 in Callees(g, 0) && 3 in Callees(g, 1) && 2 in Callees(g, 1) && 1 in Callees(g, 2);
    ReachesEdge(d, 1, 2);
    ReachesEdge(d, 2, 1);
    forall v | v !in {1, 2} ensures OnlySelf(d, v) {
      forall w {:trigger Mutual(d, v, w)} | Mutual(d, v, w) ensures w == v {
        LoopApart(v, w);
      }
    }
    assert Early(g, 1) by {
      forall f {:trigger Uses(g, 1, f)} | Uses(g, 1, f) ensures EarlySite(g, 1, 0) && Uses(g, g[1].callees[0], f) {
        var w :| Reaches(d, 1, w) && f in Own(g, w);
        assert w == 3;
        OwnIsUsed(g, 3, f);
        if Reaches(d, 3, 1) {
          assert Closed(d, {3});
          ClosedKeepsPaths(d, {3}, 3, 1);
        }
      }
    }
  }

  lemma LoopApart(v: Node, w: Node)
    requires v !in {1, 2} && Mutual(Calls(Loop()), v, w)
    ensures w == v
  {
    hide Reaches;
    var g := Loop();
    var d := Calls(g);
    assert g[0].callees == [1] && g[1].callees == [3, 2] && g[2].callees == [1] && g[3].callees == [];
    if v == 0 && w != 0 {
      assert Closed(d, {1, 2, 3});
      if w in {1, 2, 3} {
        ClosedKeepsPaths(d, {1, 2, 3}, w, v);
      } else {
        assert Closed(d, {0, 1, 2, 3});
        ClosedKeepsPaths(d, {0, 1, 2, 3}, v, w);
      }
    } else if v != 0 {
      assert Closed(d, {v});
      ClosedKeepsPaths(d, {v}, v, w);
    }
  }
}
