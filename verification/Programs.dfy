/** A small whole-program language over the runtime's structs and associative arrays
    (runtime/src/detail/objects.cpp, collections.cpp), before and after field elision. */
module Programs {
  import opened Options
  import opened Digraphs
  import opened FieldUses

  type Var = nat

  datatype Value = Num(n: int) | Ref(r: nat)

  // One group of elided fields of a struct type, named by its place in the candidate list.
  datatype Group = Group(of: StructType, at: nat)

  datatype Expr = Lit(n: int) | Local(x: Var) | Minus(a: Expr, b: Expr)

  datatype Stmt =
    | Skip
    | Assign(x: Var, e: Expr)
    | New(x: Var, of: StructType)
    | Read(x: Var, p: Var, f: Field)
    | Write(p: Var, f: Field, e: Expr)
    | ReadAssoc(x: Var, group: Group, p: Var)
    | WriteAssoc(group: Group, p: Var, e: Expr)
    | Call(x: Var, callee: Node, args: seq<Expr>, extras: seq<Group>)
    | Observe(e: Expr)
    | Then(first: Stmt, second: Stmt)
    | If(e: Expr, yes: Stmt, no: Stmt)
    | While(e: Expr, body: Stmt)

  // An associative array allocated on entry, with the value its missing keys read as.
  datatype Alloc = Alloc(group: Group, default: Value)

  // Collection parameters follow the ordinary ones.
  datatype Function = Function(params: seq<Var>, extras: seq<Group>, allocs: seq<Alloc>, body: Stmt, result: Expr)

  // types gives the initial value of every field.
  datatype Program = Program(types: map<StructType, seq<Value>>, functions: map<Node, Function>)

  // a is a statement in s.
  ghost predicate PartOf(a: Stmt, s: Stmt) {
    a == s || match s
              case Then(x, y) => PartOf(a, x) || PartOf(a, y)
              case If(_, x, y) => PartOf(a, x) || PartOf(a, y)
              case While(_, x) => PartOf(a, x)
              case _ => false
  }

  predicate Accesses(a: Stmt, f: Field) {
    (a.Read? || a.Write?) && a.f == f
  }

  datatype Object = Object(of: StructType, fields: seq<Value>)

  datatype Assoc = Assoc(default: Value, entries: map<nat, Value>)

  // References are places in the heap and are never reused.
  datatype State = State(locals: map<Var, Value>, colls: map<Group, nat>, heap: seq<Object>,
                         assocs: seq<Assoc>, out: seq<Value>)

  // A run that has not finished within its fuel shows what it has put out so far.
  datatype Outcome = Done(s: State) | Running(out: seq<Value>) | Wrong

  function Eval(e: Expr, locals: map<Var, Value>): Option<Value> {
    match e
    case Lit(n) => Some(Num(n))
    case Local(x) => if x in locals then Some(locals[x]) else None
    case Minus(a, b) =>
      match (Eval(a, locals), Eval(b, locals))
      case (Some(Num(m)), Some(Num(n))) => Some(Num(m - n))
      case _ => None
  }

  function EvalAll(es: seq<Expr>, locals: map<Var, Value>): (r: Option<seq<Value>>)
    ensures r.Some? ==> |r.value| == |es|
  {
    if es == [] then Some([])
    else
      match (Eval(es[0], locals), EvalAll(es[1..], locals))
      case (Some(v), Some(vs)) => Some([v] + vs)
      case _ => None
  }

  // The struct a local refers to.
  function Target(p: Var, s: State): Option<nat> {
    if p in s.locals && s.locals[p].Ref? && s.locals[p].r < |s.heap| then Some(s.locals[p].r) else None
  }

  predicate HasField(s: State, r: nat, f: Field) {
    r < |s.heap| && s.heap[r].of == f.of && f.index < |s.heap[r].fields|
  }

  // A missing key reads as the default.
  function AssocValue(a: Assoc, r: nat): Value {
    if r in a.entries then a.entries[r] else a.default
  }

  // Reading enters a missing key.
  function AssocTouch(a: Assoc, r: nat): Assoc {
    a.(entries := a.entries[r := AssocValue(a, r)])
  }

  function AssocAt(s: State, group: Group): Option<nat> {
    if group in s.colls && s.colls[group] < |s.assocs| then Some(s.colls[group]) else None
  }

  function BindLocals(params: seq<Var>, args: seq<Value>): map<Var, Value>
    requires |params| == |args|
    decreases |params|
  {
    if params == [] then map[]
    else
      var n := |params| - 1;
      BindLocals(params[..n], args[..n])[params[n] := args[n]]
  }

  // The collections a call passes; one that the caller does not have is null.
  function Passed(extras: seq<Group>, colls: map<Group, nat>): (r: seq<Option<nat>>)
    ensures |r| == |extras|
  {
    seq(|extras|, i requires 0 <= i < |extras| => if extras[i] in colls then Some(colls[extras[i]]) else None)
  }

  // The i-th collection parameter gets the i-th collection argument.
  function BindColls(extras: seq<Group>, passed: seq<Option<nat>>): map<Group, nat>
    requires |extras| == |passed|
    decreases |extras|
  {
    if extras == [] then map[]
    else
      var n := |extras| - 1;
      var rest := BindColls(extras[..n], passed[..n]);
      if passed[n].Some? then rest[extras[n] := passed[n].value] else rest - {extras[n]}
  }

  function AllocColls(allocs: seq<Alloc>, base: nat): map<Group, nat>
    decreases |allocs|
  {
    if allocs == [] then map[]
    else
      var n := |allocs| - 1;
      AllocColls(allocs[..n], base)[allocs[n].group := base + n]
  }

  function NewAssocs(allocs: seq<Alloc>): (r: seq<Assoc>)
    ensures |r| == |allocs|
  {
    seq(|allocs|, i requires 0 <= i < |allocs| => Assoc(allocs[i].default, map[]))
  }

  // The state in which the body of f starts.
  function Enter(p: Program, f: Node, args: seq<Value>, passed: seq<Option<nat>>, s: State): Option<State> {
    if f in p.functions && |p.functions[f].params| == |args| && |p.functions[f].extras| == |passed| then
      var fn := p.functions[f];
      Some(State(BindLocals(fn.params, args), BindColls(fn.extras, passed) + AllocColls(fn.allocs, |s.assocs|),
                 s.heap, s.assocs + NewAssocs(fn.allocs), s.out))
    else None
  }

  predicate IsStep(s: Stmt) {
    !s.Call? && !s.Then? && !s.If? && !s.While?
  }

  // Statements that touch no other function.
  function Step(p: Program, stmt: Stmt, s: State): Outcome
    requires IsStep(stmt)
  {
    match stmt
    case Skip => Done(s)
    case Assign(x, e) =>
      (match Eval(e, s.locals)
       case Some(v) => Done(s.(locals := s.locals[x := v]))
       case None => Wrong)
    case New(x, of) =>
      if of in p.types then
        Done(s.(locals := s.locals[x := Ref(|s.heap|)], heap := s.heap + [Object(of, p.types[of])]))
      else Wrong
    case Read(x, q, f) =>
      (match Target(q, s)
       case Some(r) => if HasField(s, r, f) then Done(s.(locals := s.locals[x := s.heap[r].fields[f.index]])) else Wrong
       case None => Wrong)
    case Write(q, f, e) =>
      (match (Target(q, s), Eval(e, s.locals))
       case (Some(r), Some(v)) =>
         if HasField(s, r, f) then Done(s.(heap := s.heap[r := WithField(s.heap[r], f.index, v)])) else Wrong
       case _ => Wrong)
    case ReadAssoc(x, group, q) =>
      (match (AssocAt(s, group), Target(q, s))
       case (Some(a), Some(r)) =>
         Done(s.(locals := s.locals[x := AssocValue(s.assocs[a], r)],
                 assocs := s.assocs[a := AssocTouch(s.assocs[a], r)]))
       case _ => Wrong)
    case WriteAssoc(group, q, e) =>
      (match (AssocAt(s, group), Target(q, s), Eval(e, s.locals))
       case (Some(a), Some(r), Some(v)) =>
         Done(s.(assocs := s.assocs[a := s.assocs[a].(entries := s.assocs[a].entries[r := v])]))
       case _ => Wrong)
    case Observe(e) =>
      (match Eval(e, s.locals)
       case Some(v) => Done(s.(out := s.out + [v]))
       case None => Wrong)
  }

  function WithField(o: Object, i: nat, v: Value): Object
    requires i < |o.fields|
  {
    o.(fields := o.fields[i := v])
  }

  function Exec(p: Program, stmt: Stmt, s: State, fuel: nat): Outcome
    decreases fuel, stmt
  {
    match stmt
    case Then(first, second) =>
      (match Exec(p, first, s, fuel)
       case Done(t) => Exec(p, second, t, fuel)
       case other => other)
    case If(e, yes, no) =>
      (match Eval(e, s.locals)
       case Some(v) => if v == Num(0) then Exec(p, no, s, fuel) else Exec(p, yes, s, fuel)
       case None => Wrong)
    case While(e, body) =>
      (match Eval(e, s.locals)
       case Some(v) =>
         if v == Num(0) then Done(s)
         else if fuel == 0 then Running(s.out)
         else
           (match Exec(p, body, s, fuel)
            case Done(t) => Exec(p, stmt, t, fuel - 1)
            case other => other)
       case None => Wrong)
    case Call(x, callee, args, extras) =>
      (match EvalAll(args, s.locals)
       case Some(vs) =>
         (match Enter(p, callee, vs, Passed(extras, s.colls), s)
          case Some(inner) =>
            if fuel == 0 then Running(s.out)
            else Return(p.functions[callee].result, x, s, Exec(p, p.functions[callee].body, inner, fuel - 1))
          case None => Wrong)
       case None => Wrong)
    case _ => Step(p, stmt, s)
  }

  // Back in the caller with the callee's result.
  function Return(result: Expr, x: Var, s: State, o: Outcome): Outcome {
    match o
    case Done(t) =>
      (match Eval(result, t.locals)
       case Some(v) => Done(s.(locals := s.locals[x := v], heap := t.heap, assocs := t.assocs, out := t.out))
       case None => Wrong)
    case other => other
  }

  // What a run of the program shows: its observations, and its result if it ends.
  datatype Behaviour = Ended(out: seq<Value>, result: Value) | Ongoing(out: seq<Value>) | Undefined

  function Run(p: Program, main: Node, args: seq<Value>, fuel: nat): Behaviour {
    match Enter(p, main, args, [], State(map[], map[], [], [], []))
    case None => Undefined
    case Some(s) =>
      (match Exec(p, p.functions[main].body, s, fuel)
       case Done(t) =>
         (match Eval(p.functions[main].result, t.locals)
          case Some(v) => Ended(t.out, v)
          case None => Undefined)
       case Running(out) => Ongoing(out)
       case Wrong => Undefined)
  }
}
