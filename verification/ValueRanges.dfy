/** Symbolic ranges of values and their merges (RangeAnalysis.hpp, LiveRangeAnalysis.cpp). */
module ValueRanges {

  import opened Options
  import opened Arithmetic

  datatype Comparison = Ule | Uge

  // The value expressions that bound live ranges. Variable stands for any program value.
  datatype Expr =
    | Constant(n: nat)
    | Variable(id: nat)
    | End
    | Sum(left: Expr, right: Expr)
    | Select(cmp: Comparison, x: Expr, y: Expr, then_: Expr, else_: Expr)

  // [lower, upper)
  datatype Bounds = Bounds(lower: Expr, upper: Expr)

  // A range object; id is its identity.
  datatype Range = Range(id: nat, bounds: Bounds)

  // The value of an expression as an unsigned machine word, given the program's values.
  function Eval(e: Expr, env: nat -> nat): (r: nat)
    ensures r < WORD
  {
    match e
    case Constant(n) => n % WORD
    case Variable(id) => env(id) % WORD
    case End => WORD - 1
    case Sum(a, b) => (Eval(a, env) + Eval(b, env)) % WORD
    case Select(cmp, x, y, a, b) =>
      var (p, q) := (Eval(x, env), Eval(y, env));
      if (if cmp.Ule? then p <= q else p >= q) then Eval(a, env) else Eval(b, env)
  }

  // i lies in the range; a range that ends in End is not bounded above.
  predicate Contains(b: Bounds, env: nat -> nat, i: nat) {
    Eval(b.lower, env) <= i && (b.upper.End? || i < Eval(b.upper, env))
  }

  function CreateMin(a: Expr, b: Expr): Expr {
    Select(Ule, a, b, a, b)
  }

  function CreateMax(a: Expr, b: Expr): Expr {
    Select(Uge, a, b, a, b)
  }

  // A missing range yields the other one; otherwise a new range object is made.
  function DisjunctiveMerge(r: Option<Range>, q: Option<Range>, id: nat): Option<Range> {
    if r.None? then q
    else if q.None? then r
    else Some(Range(id, Bounds(CreateMin(r.value.bounds.lower, q.value.bounds.lower),
                               CreateMax(r.value.bounds.upper, q.value.bounds.upper))))
  }

  function ConjunctiveMerge(r: Option<Range>, q: Option<Range>, id: nat): Option<Range> {
    if r.None? then q
    else if q.None? then r
    else Some(Range(id, Bounds(CreateMax(r.value.bounds.lower, q.value.bounds.lower),
                               CreateMin(r.value.bounds.upper, q.value.bounds.upper))))
  }

  // No element has the last index, so End as a bound excludes none.
  lemma EndBoundsNothing(b: Bounds, env: nat -> nat, i: nat)
    requires i < WORD - 1
    ensures Contains(b, env, i) <==> Eval(b.lower, env) <= i < Eval(b.upper, env)
  {
  }

  // A missing range bounds nothing here.
  predicate Allows(r: Option<Range>, env: nat -> nat, i: nat) {
    r.Some? ==> Contains(r.value.bounds, env, i)
  }

  // The conjunctive merge is the intersection.
  lemma ConjunctiveIsIntersection(r: Option<Range>, q: Option<Range>, id: nat, env: nat -> nat, i: nat)
    requires i < WORD - 1
    ensures ConjunctiveMerge(r, q, id).Some? <==> r.Some? || q.Some?
    ensures Allows(ConjunctiveMerge(r, q, id), env, i) <==> Allows(r, env, i) && Allows(q, env, i)
  {
    if r.Some? && q.Some? {
      EndBoundsNothing(r.value.bounds, env, i);
      EndBoundsNothing(q.value.bounds, env, i);
    }
  }

  // The range has an index.
  ghost predicate Holds(b: Bounds, env: nat -> nat) {
    Eval(b.lower, env) < Eval(b.upper, env)
  }

  // A missing range has no index here.
  predicate Has(r: Option<Range>, env: nat -> nat, i: nat) {
    r.Some? && Contains(r.value.bounds, env, i)
  }

  ghost predicate MissingOrHolds(r: Option<Range>, env: nat -> nat) {
    r.Some? ==> Holds(r.value.bounds, env)
  }

  // The disjunctive merge of two ranges that hold something is the least range around both: an
  // index is in it exactly when it lies between two indices of them.
  lemma DisjunctiveIsHull(r: Option<Range>, q: Option<Range>, id: nat, env: nat -> nat, i: nat)
    requires i < WORD - 1 && MissingOrHolds(r, env) && MissingOrHolds(q, env)
    ensures DisjunctiveMerge(r, q, id).Some? <==> r.Some? || q.Some?
    ensures Has(DisjunctiveMerge(r, q, id), env, i) <==>
            exists a: nat, b: nat :: a <= i <= b < WORD - 1 && (Has(r, env, a) || Has(q, env, a))
                                     && (Has(r, env, b) || Has(q, env, b))
  {
    if r.Some? && q.Some? {
      HullOfBoth(r.value, q.value, id, env, i);
    } else if Has(DisjunctiveMerge(r, q, id), env, i) {
      assert i <= i <= i && (Has(r, env, i) || Has(q, env, i));
    }
  }

  lemma HullOfBoth(r: Range, q: Range, id: nat, env: nat -> nat, i: nat)
    requires i < WORD - 1 && Holds(r.bounds, env) && Holds(q.bounds, env)
    ensures Has(DisjunctiveMerge(Some(r), Some(q), id), env, i) <==>
            exists a: nat, b: nat :: a <= i <= b < WORD - 1 && (Has(Some(r), env, a) || Has(Some(q), env, a))
                                     && (Has(Some(r), env, b) || Has(Some(q), env, b))
  {
    var m := DisjunctiveMerge(Some(r), Some(q), id).value.bounds;
    EndBoundsNothing(m, env, i);
    if Contains(m, env, i) {
      var a := if Eval(r.bounds.lower, env) <= Eval(q.bounds.lower, env) then Eval(r.bounds.lower, env)
               else Eval(q.bounds.lower, env);
      var b := (if Eval(r.bounds.upper, env) >= Eval(q.bounds.upper, env) then Eval(r.bounds.upper, env)
                else Eval(q.bounds.upper, env)) - 1;
      assert Has(Some(r), env, a) || Has(Some(q), env, a);
      assert Has(Some(r), env, b) || Has(Some(q), env, b);
    }
  }

  // The range of a copy's source: every index of the copy, moved by the start of the copy.
  function Shifted(start: Bounds, b: Bounds): Bounds {
    Bounds(Sum(start.lower, b.lower), Sum(start.upper, b.upper))
  }

  // The copy's element i is element s + i of the source.
  ghost predicate ElementShifted(start: Bounds, b: Bounds, env: nat -> nat, s: nat, i: nat) {
    Contains(Shifted(start, b), env, s + i)
  }

  // The source elements that the copy's elements in b stand for are in the shifted range. No
  // element has the last index.
  ghost predicate ShiftSound(start: Bounds, b: Bounds, env: nat -> nat) {
    forall s: nat, i: nat
      | Eval(start.lower, env) <= s < Eval(start.upper, env) && Contains(b, env, i) && s + i < WORD - 1
      :: ElementShifted(start, b, env, s, i)
  }

  lemma ShiftContains(start: Bounds, b: Bounds, env: nat -> nat, s: nat, i: nat)
    requires Eval(start.upper, env) + Eval(b.upper, env) < WORD
    requires Eval(start.lower, env) <= s < Eval(start.upper, env) && Contains(b, env, i)
    ensures ElementShifted(start, b, env, s, i)
  {
    var t := Shifted(start, b);
    assert Eval(t.upper, env) == Eval(start.upper, env) + Eval(b.upper, env);
    assert Eval(t.lower, env) == (Eval(start.lower, env) + Eval(b.lower, env)) % WORD;
  }

  // A sum of the upper bounds that wraps around leaves an element out.
  lemma ShiftWraps(start: Bounds, b: Bounds, env: nat -> nat)
    requires Eval(start.upper, env) + Eval(b.upper, env) >= WORD
    requires Holds(start, env) && Holds(b, env)
    requires Eval(start.lower, env) + Eval(b.lower, env) < WORD - 1
    ensures !ShiftSound(start, b, env)
  {
    var least := Eval(start.lower, env) + Eval(b.lower, env);
    var top := Eval(start.upper, env) + Eval(b.upper, env) - WORD;
    assert Eval(Shifted(start, b).upper, env) == top;
    var p := if least <= top then top else least;
    var s := if p - least <= Eval(start.upper, env) - 1 - Eval(start.lower, env)
             then Eval(start.lower, env) + p - least else Eval(start.upper, env) - 1;
    EndBoundsNothing(b, env, p - s);
    assert !ElementShifted(start, b, env, s, p - s);
  }

  // It is so exactly when the sum of the upper bounds does not wrap around, or no element of the
  // copy stands for one of the source.
  lemma ShiftSoundIff(start: Bounds, b: Bounds, env: nat -> nat)
    ensures ShiftSound(start, b, env) <==>
            || Eval(start.upper, env) + Eval(b.upper, env) < WORD
            || !Holds(start, env)
            || !Holds(b, env)
            || Eval(start.lower, env) + Eval(b.lower, env) >= WORD - 1
  {
    if Eval(start.upper, env) + Eval(b.upper, env) < WORD {
      forall s: nat, i: nat | Eval(start.lower, env) <= s < Eval(start.upper, env) && Contains(b, env, i)
        ensures ElementShifted(start, b, env, s, i)
      {
        ShiftContains(start, b, env, s, i);
      }
    } else if Holds(start, env) && Holds(b, env)
              && Eval(start.lower, env) + Eval(b.lower, env) < WORD - 1 {
      ShiftWraps(start, b, env);
    } else {
      forall i: nat | i < WORD - 1 && Contains(b, env, i)
        ensures Eval(b.lower, env) <= i < Eval(b.upper, env)
      {
        EndBoundsNothing(b, env, i);
      }
    }
  }
}
