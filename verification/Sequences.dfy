/** The sequence operations of the runtime in their two forms: in place (mut_operations.cpp)
    and as new versions (ssa_operations.cpp), over SequenceAlloc (detail/collections.cpp). */
module Sequences {
  import opened Arithmetic

  // A 64-bit value, whatever its type.
  type Elem = nat

  // The index that stands for the size, in the versioned operations only.
  const END: nat := 0xFFFF_FFFF_FFFF_FFFF

  // ---- What the operations mean

  function Inserted(s: seq<Elem>, i: nat, t: seq<Elem>): seq<Elem>
    requires i <= |s|
  {
    s[..i] + t + s[i..]
  }

  function Removed(s: seq<Elem>, b: nat, e: nat): seq<Elem>
    requires b <= e <= |s|
  {
    s[..b] + s[e..]
  }

  function WithRange(s: seq<Elem>, i: nat, t: seq<Elem>): (r: seq<Elem>)
    requires i + |t| <= |s|
    ensures |r| == |s|
  {
    s[..i] + t + s[i + |t|..]
  }

  lemma NothingCopied(s: seq<Elem>, i: nat)
    requires i <= |s|
    ensures WithRange(s, i, []) == s
  {
  }

  lemma OneMoreCopied(s: seq<Elem>, i: nat, t: seq<Elem>, i2: nat, k: nat)
    requires i + k < |s| && i2 + k < |t|
    ensures WithRange(s, i, t[i2..i2 + k])[i + k] == s[i + k]
    ensures WithRange(s, i, t[i2..i2 + (k + 1)]) == WithRange(s, i, t[i2..i2 + k])[i + k := t[i2 + k]]
  {
  }

  lemma NoRuns(s: seq<Elem>, a: nat, b: nat)
    ensures a <= |s| && b <= |s| ==> SwapRuns(s, a, b, 0) == s
  {
  }

  lemma OneMoreRun(s: seq<Elem>, a: nat, b: nat, n: nat)
    ensures a + n < |s| && b + n < |s| ==>
              SwapRuns(s, a, b, n + 1) == SwapAt(SwapRuns(s, a, b, n), a + n, b + n)
  {
  }

  function SwapAt(s: seq<Elem>, i: nat, j: nat): (r: seq<Elem>)
    requires i < |s| && j < |s|
    ensures |r| == |s|
  {
    s[i := s[j]][j := s[i]]
  }

  // The first n element swaps between the ranges at a and b, one after the other.
  function SwapRuns(s: seq<Elem>, a: nat, b: nat, n: nat): (r: seq<Elem>)
    requires a + n <= |s| && b + n <= |s|
    ensures |r| == |s|
  {
    if n == 0 then s else SwapAt(SwapRuns(s, a, b, n - 1), a + n - 1, b + n - 1)
  }

  // Overlapping or not, the swaps rearrange the elements.
  lemma {:induction false} SwapRunsKeepElements(s: seq<Elem>, a: nat, b: nat, n: nat)
    requires a + n <= |s| && b + n <= |s|
    ensures multiset(SwapRuns(s, a, b, n)) == multiset(s)
    decreases n
  {
    hide SwapAt;
    if n > 0 {
      SwapRunsKeepElements(s, a, b, n - 1);
      SwapKeepsElements(SwapRuns(s, a, b, n - 1), a + n - 1, b + n - 1);
    }
  }

  lemma SwapKeepsElements(s: seq<Elem>, i: nat, j: nat)
    requires i < |s| && j < |s|
    ensures multiset(SwapAt(s, i, j)) == multiset(s)
  {
  }

  function Distance(a: nat, b: nat): nat {
    if a < b then b - a else a - b
  }

  // Ranges that overlap or not: what lands at each index. The upper range comes down whole;
  // what is left of the lower one turns around behind it.
  function SwappedAt(s: seq<Elem>, a: nat, b: nat, n: nat, i: nat): Elem
    requires a + n <= |s| && b + n <= |s| && i < |s|
  {
    var lo, d := Min(a, b), Distance(a, b);
    if d == 0 || i < lo || i >= lo + d + n then s[i]
    else if i < lo + n then s[i + d]
    else s[lo + (i - lo) % d]
  }

  lemma {:induction false} SwapRunsAt(s: seq<Elem>, a: nat, b: nat, n: nat, i: nat)
    requires a + n <= |s| && b + n <= |s| && i < |s|
    ensures SwapRuns(s, a, b, n)[i] == SwappedAt(s, a, b, n, i)
    decreases n
  {
    hide SwappedAt;
    if n == 0 {
      NoSwaps(s, a, b, i);
    } else {
      SwapRunsAt(s, a, b, n - 1, i);
      SwapRunsAt(s, a, b, n - 1, a + n - 1);
      SwapRunsAt(s, a, b, n - 1, b + n - 1);
      OneMoreSwap(s, a, b, n, i);
    }
  }

  lemma {:induction false} NoSwaps(s: seq<Elem>, a: nat, b: nat, i: nat)
    requires a <= |s| && b <= |s| && i < |s|
    ensures SwappedAt(s, a, b, 0, i) == s[i]
  {
    var lo, d := Min(a, b), Distance(a, b);
    if lo <= i < lo + d {
      RemainderOfSmall(i - lo, d);
    }
  }

  // The n-th swap, seen at index i.
  lemma OneMoreSwap(s: seq<Elem>, a: nat, b: nat, n: nat, i: nat)
    requires n > 0 && a + n <= |s| && b + n <= |s| && i < |s|
    ensures SwappedAt(s, a, b, n, i) ==
            if i == a + n - 1 then SwappedAt(s, a, b, n - 1, b + n - 1)
            else if i == b + n - 1 then SwappedAt(s, a, b, n - 1, a + n - 1)
            else SwappedAt(s, a, b, n - 1, i)
  {
    var d := Distance(a, b);
    if d > 0 {
      RemainderOfShifted(n - 1, d);
      assert Min(a, b) + d == if a < b then b else a;
    }
  }

  // Ranges apart from each other change places.
  lemma {:induction false} SwapApart(s: seq<Elem>, a: nat, b: nat, n: nat)
    requires a + n <= b && b + n <= |s|
    ensures SwapRuns(s, a, b, n) == WithRange(WithRange(s, a, s[b..b + n]), b, s[a..a + n])
  {
    hide WithRange, SwappedAt, SwapRuns;
    var u := WithRange(s, a, s[b..b + n]);
    var t := WithRange(u, b, s[a..a + n]);
    forall i | 0 <= i < |s| ensures SwapRuns(s, a, b, n)[i] == t[i] {
      SwapRunsAt(s, a, b, n, i);
      ApartAt(s, a, b, n, i);
      WithRangeAt(s, a, s[b..b + n], i);
      WithRangeAt(u, b, s[a..a + n], i);
    }
  }

  lemma WithRangeAt(s: seq<Elem>, a: nat, t: seq<Elem>, i: nat)
    requires a + |t| <= |s| && i < |s|
    ensures WithRange(s, a, t)[i] == if a <= i < a + |t| then t[i - a] else s[i]
  {
  }

  lemma ApartAt(s: seq<Elem>, a: nat, b: nat, n: nat, i: nat)
    requires a + n <= b && b + n <= |s| && i < |s|
    ensures SwappedAt(s, a, b, n, i) ==
            if a <= i < a + n then s[i - a + b] else if b <= i < b + n then s[i - b + a] else s[i]
  {
    var d := b - a;
    if a + n <= i < b {
      RemainderOfSmall(i - a, d);
    } else if b <= i < b + n {
      RemainderOfShifted(i - b, d);
      RemainderOfSmall(i - b, d);
    }
  }

  // Copies src to dst from position at.
  method CopyInto(src: seq<Elem>, dst: array<Elem>, at: nat)
    requires at + |src| <= dst.Length
    modifies dst
    ensures dst[..] == WithRange(old(dst[..]), at, src)
  {
    for k := 0 to |src|
      invariant forall i | 0 <= i < dst.Length :: dst[i] == if at <= i < at + k then src[i - at] else old(dst[i])
    {
      dst[at + k] := src[k];
    }
  }

  // ---- Sequences in memory and the operations in place

  class SequenceAlloc {
    var elems: seq<Elem>

    constructor (elems: seq<Elem>)
      ensures this.elems == elems
    {
      this.elems := elems;
    }

    method InsertElement(index: nat, value: Elem)
      requires index <= |elems|
      modifies this
      ensures elems == Inserted(old(elems), index, [value])
    {
      elems := elems[..index] + [value] + elems[index..];
    }

    method Insert(index: nat, other: SequenceAlloc)
      requires index <= |elems| && other != this
      modifies this
      ensures elems == Inserted(old(elems), index, other.elems)
    {
      elems := elems[..index] + other.elems + elems[index..];
    }

    method Erase(from: nat, to: nat)
      requires from <= to <= |elems|
      modifies this
      ensures elems == Removed(old(elems), from, to)
    {
      elems := elems[..from] + elems[to..];
    }

    // resize fills the new places with zero.
    method Grow(size: nat)
      modifies this
      ensures elems == old(elems) + seq(size, _ => 0)
    {
      elems := elems + seq(size, _ => 0);
    }

    // The appended sequence is deleted afterwards.
    method Append(other: SequenceAlloc)
      requires other != this
      modifies this
      ensures elems == Inserted(old(elems), |old(elems)|, other.elems)
    {
      var size1 := |elems|;
      Grow(|other.elems|);
      for k := 0 to |other.elems|
        invariant |elems| == size1 + |other.elems| && elems[..size1 + k] == old(elems) + other.elems[..k]
      {
        elems := elems[size1 + k := other.elems[k]];
      }
    }

    // false where an assertion of the runtime ends the program, before anything changes.
    method SwapWithin(i: nat, j: nat, i2: nat) returns (ok: bool)
      requires j <= |elems|
      modifies this
      ensures ok <==> i <= j && i2 + (j - i) <= |old(elems)|
      ensures elems == if ok then SwapRuns(old(elems), i, i2, j - i) else old(elems)
    {
      if i > j || i2 + (j - i) > |elems| {
        return false;
      }
      for k := 0 to j - i
        invariant elems == SwapRuns(old(elems), i, i2, k)
      {
        elems := SwapAt(elems, i + k, i2 + k);
      }
      return true;
    }

    // Both ranges may be of one sequence, when other is this one.
    method Swap(i: nat, j: nat, other: SequenceAlloc, i2: nat) returns (ok: bool)
      requires j <= |elems|
      modifies this, other
      ensures ok <==> i <= j && i2 + (j - i) <= |old(other.elems)|
      ensures ok && other == this ==> elems == SwapRuns(old(elems), i, i2, j - i)
      ensures ok && other != this ==> elems == WithRange(old(elems), i, old(other.elems)[i2..i2 + (j - i)])
      ensures ok && other != this ==> other.elems == WithRange(old(other.elems), i2, old(elems)[i..j])
      ensures !ok ==> elems == old(elems) && other.elems == old(other.elems)
    {
      hide WithRange, SwapRuns;
      if i > j || i2 + (j - i) > |other.elems| {
        return false;
      }
      NoRuns(elems, i, i2);
      NothingCopied(elems, i);
      NothingCopied(other.elems, i2);
      assert other.elems[i2..i2] == [] && elems[i..i] == [];
      for k := 0 to j - i
        invariant |elems| == |old(elems)| && |other.elems| == |old(other.elems)|
        invariant other == this ==> elems == SwapRuns(old(elems), i, i2, k)
        invariant other != this ==> elems == WithRange(old(elems), i, old(other.elems)[i2..i2 + k])
        invariant other != this ==> other.elems == WithRange(old(other.elems), i2, old(elems)[i..i + k])
      {
        OneMoreRun(old(elems), i, i2, k);
        OneMoreCopied(old(elems), i, old(other.elems), i2, k);
        OneMoreCopied(old(other.elems), i2, old(elems), i, k);
        var x, y := elems[i + k], other.elems[i2 + k];
        elems := elems[i + k := y];
        other.elems := other.elems[i2 + k := x];
      }
      assert old(elems)[i..i + (j - i)] == old(elems)[i..j];
      return true;
    }

    // The elements from i to j - 1 move to a sequence of their own.
    method Split(i: nat, j: nat) returns (part: SequenceAlloc)
      requires i <= j <= |elems|
      modifies this
      ensures fresh(part) && part.elems == old(elems)[i..j] && elems == Removed(old(elems), i, j)
    {
      part := new SequenceAlloc(elems[i..j]);
      Erase(i, j);
    }
  }

  // Inserting what was split off where it was restores the sequence.
  lemma SplitInsert(s: seq<Elem>, i: nat, j: nat)
    requires i <= j <= |s|
    ensures Inserted(Removed(s, i, j), i, s[i..j]) == s
  {
  }

  // ---- The operations as new versions: no argument changes

  function At(index: nat, s: seq<Elem>): nat {
    if index == END then |s| else index
  }

  // Copying the pieces one after the other builds the whole.
  lemma CopiedInsertion(u: seq<Elem>, s: seq<Elem>, i: nat, t: seq<Elem>)
    requires i <= |s| && |u| == |s| + |t|
    ensures WithRange(WithRange(WithRange(u, 0, s[..i]), i, t), i + |t|, s[i..]) == Inserted(s, i, t)
  {
  }

  lemma CopiedRemoval(u: seq<Elem>, s: seq<Elem>, b: nat, e: nat)
    requires b <= e <= |s| && |u| == |s| - (e - b)
    ensures WithRange(WithRange(u, 0, s[..b]), b, s[e..]) == Removed(s, b, e)
  {
  }

  lemma OnePlace(u: seq<Elem>, i: nat, value: Elem)
    requires i < |u|
    ensures WithRange(u, i, [value]) == u[i := value]
  {
  }

  method InsertedElement(value: Elem, c: SequenceAlloc, index: nat) returns (r: SequenceAlloc)
    requires At(index, c.elems) <= |c.elems|
    ensures fresh(r) && r.elems == Inserted(c.elems, At(index, c.elems), [value])
  {
    hide Inserted, WithRange;
    var i := if index == END then |c.elems| else index;
    var container := new Elem[|c.elems| + 1];
    CopiedInsertion(container[..], c.elems, i, [value]);
    CopyInto(c.elems[..i], container, 0);
    OnePlace(container[..], i, value);
    container[i] := value;
    CopyInto(c.elems[i..], container, i + 1);
    r := new SequenceAlloc(container[..]);
  }

  method InsertedSequence(other: SequenceAlloc, c: SequenceAlloc, index: nat) returns (r: SequenceAlloc)
    requires At(index, c.elems) <= |c.elems|
    ensures fresh(r) && r.elems == Inserted(c.elems, At(index, c.elems), other.elems)
  {
    hide Inserted, WithRange;
    var i := if index == END then |c.elems| else index;
    var container := new Elem[|c.elems| + |other.elems|];
    CopiedInsertion(container[..], c.elems, i, other.elems);
    CopyInto(c.elems[..i], container, 0);
    CopyInto(other.elems, container, i);
    CopyInto(c.elems[i..], container, i + |other.elems|);
    r := new SequenceAlloc(container[..]);
  }

  method RemovedRange(c: SequenceAlloc, begin: nat, end: nat) returns (r: SequenceAlloc)
    requires At(begin, c.elems) <= At(end, c.elems) <= |c.elems|
    ensures fresh(r) && r.elems == Removed(c.elems, At(begin, c.elems), At(end, c.elems))
  {
    hide Removed, WithRange;
    var b := if begin == END then |c.elems| else begin;
    var e := if end == END then |c.elems| else end;
    var container := new Elem[|c.elems| - (e - b)];
    CopiedRemoval(container[..], c.elems, b, e);
    CopyInto(c.elems[..b], container, 0);
    CopyInto(c.elems[e..], container, b);
    r := new SequenceAlloc(container[..]);
  }

  datatype Pair = Aborted | Swapped(first: SequenceAlloc, second: SequenceAlloc)

  method SwappedRanges(c: SequenceAlloc, from: nat, to: nat, c2: SequenceAlloc, from2: nat) returns (pair: Pair)
    requires At(from, c.elems) <= |c.elems| && At(to, c.elems) <= |c.elems|
    ensures var i, j, i2 := At(from, c.elems), At(to, c.elems), At(from2, c2.elems);
            && (pair.Swapped? <==> i <= j && i2 + (j - i) <= |c2.elems|)
            && (pair.Swapped? ==>
                  && fresh(pair.first) && fresh(pair.second) && pair.first != pair.second
                  && pair.first.elems == WithRange(c.elems, i, c2.elems[i2..i2 + (j - i)])
                  && pair.second.elems == WithRange(c2.elems, i2, c.elems[i..j]))
  {
    var i := if from == END then |c.elems| else from;
    var j := if to == END then |c.elems| else to;
    var i2 := if from2 == END then |c2.elems| else from2;
    if i > j || i2 + (j - i) > |c2.elems| {
      return Aborted;
    }
    var new1 := new SequenceAlloc(c.elems);
    var new2 := new SequenceAlloc(c2.elems);
    var ok := new1.Swap(i, j, new2, i2);
    return Swapped(new1, new2);
  }

  datatype Version = Failed | Made(c: SequenceAlloc)

  method SwappedWithin(c: SequenceAlloc, from: nat, to: nat, at: nat) returns (v: Version)
    requires At(to, c.elems) <= |c.elems|
    ensures var i, j, i2 := At(from, c.elems), At(to, c.elems), At(at, c.elems);
            && (v.Made? <==> i <= j && i2 + (j - i) <= |c.elems|)
            && (v.Made? ==> fresh(v.c) && v.c.elems == SwapRuns(c.elems, i, i2, j - i))
  {
    var i := if from == END then |c.elems| else from;
    var j := if to == END then |c.elems| else to;
    var i2 := if at == END then |c.elems| else at;
    if i > j || i2 + (j - i) > |c.elems| {
      return Failed;
    }
    var r := new SequenceAlloc(c.elems);
    var ok := r.SwapWithin(i, j, i2);
    return Made(r);
  }

  // ---- Whole runs

  type Var = nat

  type Store = map<Var, seq<Elem>>

  datatype Op =
    | InsertValue(x: Var, i: nat, value: Elem)
    | InsertOther(x: Var, i: nat, y: Var)
    | AppendOther(x: Var, y: Var)
    | Remove(x: Var, b: nat, e: nat)
    | Within(x: Var, i: nat, j: nat, k: nat)
    | Exchange(x: Var, i: nat, j: nat, y: Var, k: nat)

  // The operation names sequences that exist, two different ones where it needs two, and
  // indices within them; no sequence is as long as the largest index.
  predicate InRange(op: Op, st: Store) {
    && (forall x | x in st :: |st[x]| < END)
    && op.x in st
    && match op
       case InsertValue(x, i, _) => i <= |st[x]|
       case InsertOther(x, i, y) => y in st && y != x && i <= |st[x]|
       case AppendOther(x, y) => y in st && y != x
       case Remove(x, b, e) => b <= e <= |st[x]|
       case Within(x, i, j, k) => i <= j <= |st[x]| && k + (j - i) <= |st[x]|
       case Exchange(x, i, j, y, k) => y in st && y != x && i <= j <= |st[x]| && k + (j - i) <= |st[y]|
  }

  // The contents after the operation.
  function After(op: Op, st: Store): Store
    requires InRange(op, st)
  {
    match op
    case InsertValue(x, i, value) => st[x := Inserted(st[x], i, [value])]
    case InsertOther(x, i, y) => st[x := Inserted(st[x], i, st[y])]
    case AppendOther(x, y) => st[x := Inserted(st[x], |st[x]|, st[y])] - {y}
    case Remove(x, b, e) => st[x := Removed(st[x], b, e)]
    case Within(x, i, j, k) => st[x := SwapRuns(st[x], i, k, j - i)]
    case Exchange(x, i, j, y, k) =>
      st[x := WithRange(st[x], i, st[y][k..k + (j - i)])][y := WithRange(st[y], k, st[x][i..j])]
  }

  predicate AllInRange(ops: seq<Op>, st: Store)
    decreases |ops|, 0
  {
    ops == [] || (AllInRange(ops[..|ops| - 1], st) && InRange(ops[|ops| - 1], AfterAll(ops[..|ops| - 1], st)))
  }

  function AfterAll(ops: seq<Op>, st: Store): Store
    requires AllInRange(ops, st)
    decreases |ops|, 1
  {
    if ops == [] then st else After(ops[|ops| - 1], AfterAll(ops[..|ops| - 1], st))
  }

  lemma {:induction false} PrefixInRange(ops: seq<Op>, st: Store, k: nat)
    requires AllInRange(ops, st) && k <= |ops|
    ensures AllInRange(ops[..k], st)
    decreases |ops|
  {
    if k < |ops| {
      PrefixInRange(ops[..|ops| - 1], st, k);
      assert ops[..|ops| - 1][..k] == ops[..k];
    } else {
      assert ops[..k] == ops;
    }
  }

  lemma OneMoreOp(ops: seq<Op>, st: Store, k: nat)
    requires AllInRange(ops, st) && k < |ops|
    ensures AllInRange(ops[..k], st) && InRange(ops[k], AfterAll(ops[..k], st))
    ensures AllInRange(ops[..k + 1], st) && AfterAll(ops[..k + 1], st) == After(ops[k], AfterAll(ops[..k], st))
  {
    PrefixInRange(ops, st, k + 1);
    assert ops[..k + 1][..k] == ops[..k];
  }

  lemma NoOps(st: Store)
    ensures AllInRange([], st) && AfterAll([], st) == st
  {
  }

  type Objects = map<Var, SequenceAlloc>

  ghost function Contents(objs: Objects): Store
    reads objs.Values
  {
    map x | x in objs :: objs[x].elems
  }

  ghost predicate Distinct(objs: Objects) {
    forall x, y | x in objs && y in objs && x != y :: objs[x] != objs[y]
  }

  method StepInPlace(op: Op, objs: Objects) returns (now: Objects)
    requires Distinct(objs) && InRange(op, Contents(objs))
    modifies objs.Values
    ensures now.Keys <= objs.Keys && (forall x | x in now :: now[x] == objs[x])
    ensures Contents(now) == After(op, old(Contents(objs)))
  {
    hide Inserted, Removed, WithRange, SwapRuns;
    now := objs;
    match op
    case InsertValue(x, i, value) => objs[x].InsertElement(i, value);
    case InsertOther(x, i, y) => objs[x].Insert(i, objs[y]);
    case AppendOther(x, y) =>
      objs[x].Append(objs[y]);
      now := objs - {y};
    case Remove(x, b, e) => objs[x].Erase(b, e);
    case Within(x, i, j, k) => var ok := objs[x].SwapWithin(i, j, k);
    case Exchange(x, i, j, y, k) => var ok := objs[x].Swap(i, j, objs[y], k);
  }

  method StepVersions(op: Op, objs: Objects) returns (now: Objects)
    requires InRange(op, Contents(objs))
    ensures Contents(now) == After(op, Contents(objs))
  {
    hide Inserted, Removed, WithRange, SwapRuns;
    match op
    case InsertValue(x, i, value) =>
      var r := InsertedElement(value, objs[x], i);
      now := objs[x := r];
    case InsertOther(x, i, y) =>
      var r := InsertedSequence(objs[y], objs[x], i);
      now := objs[x := r];
    case AppendOther(x, y) =>
      var r := InsertedSequence(objs[y], objs[x], END);
      now := objs[x := r] - {y};
    case Remove(x, b, e) =>
      var r := RemovedRange(objs[x], b, e);
      now := objs[x := r];
    case Within(x, i, j, k) =>
      var v := SwappedWithin(objs[x], i, j, k);
      now := objs[x := v.c];
    case Exchange(x, i, j, y, k) =>
      var pair := SwappedRanges(objs[x], i, j, objs[y], k);
      now := objs[x := pair.first][y := pair.second];
  }

  // The operations one after the other, in place.
  method RunInPlace(ops: seq<Op>, objs: Objects) returns (now: Objects)
    requires Distinct(objs) && AllInRange(ops, Contents(objs))
    modifies objs.Values
    ensures Contents(now) == AfterAll(ops, old(Contents(objs)))
  {
    hide After, AfterAll, AllInRange, InRange;
    now := objs;
    assert ops[..0] == [];
    NoOps(Contents(objs));
    for k := 0 to |ops|
      invariant now.Keys <= objs.Keys && forall x | x in now :: now[x] == objs[x]
      invariant AllInRange(ops[..k], old(Contents(objs))) && Contents(now) == AfterAll(ops[..k], old(Contents(objs)))
    {
      OneMoreOp(ops, old(Contents(objs)), k);
      now := StepInPlace(ops[k], now);
    }
    assert ops[..|ops|] == ops;
  }

  // The same as a chain of versions: it ends with the contents the run in place has, and at
  // the end every earlier version is still what it was when it was made.
  method RunVersions(ops: seq<Op>, objs: Objects) returns (chain: seq<Objects>)
    requires AllInRange(ops, Contents(objs))
    ensures |chain| == |ops| + 1 && chain[0] == objs
    ensures forall k | 0 <= k <= |ops| ::
              AllInRange(ops[..k], Contents(objs)) && Contents(chain[k]) == AfterAll(ops[..k], Contents(objs))
    ensures Contents(chain[|ops|]) == AfterAll(ops, Contents(objs))
  {
    hide After, AfterAll, AllInRange, InRange;
    chain := [objs];
    assert ops[..0] == [];
    NoOps(Contents(objs));
    for k := 0 to |ops|
      invariant |chain| == k + 1 && chain[0] == objs
      invariant forall i | 0 <= i <= k ::
                  AllInRange(ops[..i], Contents(objs)) && Contents(chain[i]) == AfterAll(ops[..i], Contents(objs))
    {
      OneMoreOp(ops, Contents(objs), k);
      var now := StepVersions(ops[k], chain[k]);
      chain := chain + [now];
    }
    assert ops[..|ops|] == ops;
  }

  // ---- One sequence given twice

  // The first version made of a sequence swapped with itself is what the swap in place leaves.
  ghost predicate SelfSwapAgrees(m: nat, i: nat, k: nat, n: nat)
    requires i + n <= m && k + n <= m
  {
    forall s: seq<Elem> {:trigger SwapRuns(s, i, k, n)} | |s| == m ::
      SwapRuns(s, i, k, n) == WithRange(s, i, s[k..k + n])
  }

  // In place the ranges change places; each of the two new versions takes the other range over
  // a copy of its own. They agree on all contents exactly when there is nothing to swap.
  lemma SelfSwapAgreesIff(m: nat, i: nat, k: nat, n: nat)
    requires i + n <= m && k + n <= m
    ensures SelfSwapAgrees(m, i, k, n) <==> n == 0 || i == k
  {
    hide SwapRuns, WithRange, SwappedAt;
    if n == 0 || i == k {
      forall s: seq<Elem> {:trigger SwapRuns(s, i, k, n)} | |s| == m
        ensures SwapRuns(s, i, k, n) == WithRange(s, i, s[k..k + n])
      {
        forall p | 0 <= p < m ensures SwapRuns(s, i, k, n)[p] == WithRange(s, i, s[k..k + n])[p] {
          SwapRunsAt(s, i, k, n, p);
          NothingSwapped(s, i, k, n, p);
          WithRangeAt(s, i, s[k..k + n], p);
        }
      }
    } else {
      var p := if i < k then k + n - 1 else k;
      var s: seq<Elem> := seq(m, q => if q == p then 1 else 0);
      SwapRunsAt(s, i, k, n, p);
      WithRangeAt(s, i, s[k..k + n], p);
      LostAt(s, i, k, n);
      assert SwapRuns(s, i, k, n) != WithRange(s, i, s[k..k + n]);
    }
  }

  // The second version is the first one of the swap the other way round, and in place the two
  // swaps are one.
  lemma {:induction false} SelfSwapSymmetric(s: seq<Elem>, i: nat, k: nat, n: nat)
    requires i + n <= |s| && k + n <= |s|
    ensures SwapRuns(s, i, k, n) == SwapRuns(s, k, i, n)
  {
    hide SwapRuns;
    forall p | 0 <= p < |s| ensures SwapRuns(s, i, k, n)[p] == SwapRuns(s, k, i, n)[p] {
      SwapRunsAt(s, i, k, n, p);
      SwapRunsAt(s, k, i, n, p);
    }
  }

  // The same of the second version.
  ghost predicate SelfSwapAgreesSecond(m: nat, i: nat, k: nat, n: nat)
    requires i + n <= m && k + n <= m
  {
    forall s: seq<Elem> {:trigger SwapRuns(s, i, k, n)} | |s| == m ::
      SwapRuns(s, i, k, n) == WithRange(s, k, s[i..i + n])
  }

  lemma SelfSwapAgreesSecondIff(m: nat, i: nat, k: nat, n: nat)
    requires i + n <= m && k + n <= m
    ensures SelfSwapAgreesSecond(m, i, k, n) <==> n == 0 || i == k
  {
    hide SwapRuns, WithRange;
    SelfSwapAgreesIff(m, k, i, n);
    if SelfSwapAgreesSecond(m, i, k, n) {
      forall s: seq<Elem> {:trigger SwapRuns(s, k, i, n)} | |s| == m
        ensures SwapRuns(s, k, i, n) == WithRange(s, k, s[i..i + n])
      {
        SelfSwapSymmetric(s, i, k, n);
      }
    } else {
      var s: seq<Elem> :| |s| == m && SwapRuns(s, i, k, n) != WithRange(s, k, s[i..i + n]);
      SelfSwapSymmetric(s, i, k, n);
    }
  }

  lemma {:induction false} NothingSwapped(s: seq<Elem>, i: nat, k: nat, n: nat, p: nat)
    requires i + n <= |s| && k + n <= |s| && p < |s| && (n == 0 || i == k)
    ensures SwappedAt(s, i, k, n, p) == s[p]
  {
    if n == 0 {
      NoSwaps(s, i, k, p);
    }
  }

  // The element that stays in the version and leaves its place in the swap.
  lemma LostAt(s: seq<Elem>, i: nat, k: nat, n: nat)
    requires i + n <= |s| && k + n <= |s| && n > 0 && i != k
    ensures var p := if i < k then k + n - 1 else k;
            && !(i <= p < i + n)
            && exists q :: 0 <= q < |s| && q != p && SwappedAt(s, i, k, n, p) == s[q]
  {
    var lo, d := Min(i, k), Distance(i, k);
    if i < k {
      assert SwappedAt(s, i, k, n, k + n - 1) == s[lo + (n + d - 1) % d];
    } else {
      assert SwappedAt(s, i, k, n, k) == s[lo + d];
    }
  }
}
