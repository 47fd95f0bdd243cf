/** The tensor of the runtime (detail/collections.cpp): one vector, indexed through a
    flattening in which each dimension is scaled by the length of the one before it. */
module Tensors {
  import opened Options
  import opened Arithmetic

  // The scale of dimension k: the length of the dimension before it.
  function Scale(dims: seq<nat>, k: nat): nat
    requires k <= |dims|
  {
    if k == 0 then 1 else dims[k - 1]
  }

  function Length(dims: seq<nat>, n: nat): nat
    requires n <= |dims|
  {
    if n == 0 then 0 else Length(dims, n - 1) * Scale(dims, n - 1) + dims[n - 1]
  }

  predicate InRange(dims: seq<nat>, indices: seq<nat>) {
    |indices| == |dims| && forall k | 0 <= k < |dims| :: indices[k] < dims[k]
  }

  // The place of the first n indices.
  function Flat(dims: seq<nat>, indices: seq<nat>, n: nat): nat
    requires n <= |dims| == |indices|
  {
    if n == 0 then 0 else Flat(dims, indices, n - 1) * Scale(dims, n - 1) + indices[n - 1]
  }

  // Every tuple of indices in range has a place in the vector.
  lemma {:induction false} FlatInLength(dims: seq<nat>, indices: seq<nat>, n: nat)
    requires InRange(dims, indices) && 0 < n <= |dims|
    ensures Flat(dims, indices, n) < Length(dims, n)
    decreases n
  {
    if n > 1 {
      FlatInLength(dims, indices, n - 1);
      MultiplyMonotone(Flat(dims, indices, n - 1), Length(dims, n - 1), Scale(dims, n - 1));
    }
  }

  // Different tuples have different places.
  ghost predicate Injective(dims: seq<nat>) {
    forall s, t {:trigger InRange(dims, s), InRange(dims, t)} |
      InRange(dims, s) && InRange(dims, t) && Flat(dims, s, |dims|) == Flat(dims, t, |dims|) :: s == t
  }

  // The lengths other than 1 never grow.
  predicate NonIncreasing(dims: seq<nat>) {
    forall j, k | 0 <= j < k < |dims| && dims[j] != 1 && dims[k] != 1 :: dims[k] <= dims[j]
  }

  // ---- Enough for different places

  // The last length before n other than 1.
  function Base(dims: seq<nat>, n: nat): (b: nat)
    requires n <= |dims|
    ensures b == 1 || exists j :: 0 <= j < n && dims[j] == b
    ensures b == 1 ==> forall j | 0 <= j < n :: dims[j] == 1
  {
    if n == 0 then 1 else if dims[n - 1] == 1 then Base(dims, n - 1) else dims[n - 1]
  }

  // The place among the dimensions other than 1.
  function Count(dims: seq<nat>, indices: seq<nat>, n: nat): nat
    requires n <= |dims| == |indices|
  {
    if n == 0 then 0
    else if dims[n - 1] == 1 then Count(dims, indices, n - 1)
    else Base(dims, n - 1) * Count(dims, indices, n - 1) + indices[n - 1]
  }

  lemma {:induction false} FlatIsScaledCount(dims: seq<nat>, indices: seq<nat>, n: nat)
    requires InRange(dims, indices) && n <= |dims|
    ensures Flat(dims, indices, n) * Scale(dims, n) == Base(dims, n) * Count(dims, indices, n)
    decreases n
  {
    if n > 0 {
      FlatIsScaledCount(dims, indices, n - 1);
      var before := Base(dims, n - 1) * Count(dims, indices, n - 1);
      assert Flat(dims, indices, n) == before + indices[n - 1];
      if dims[n - 1] == 1 {
        assert indices[n - 1] == 0;
        TimesOne(before);
      } else {
        Commute(before + indices[n - 1], dims[n - 1]);
      }
    }
  }

  lemma TimesOne(a: nat)
    ensures a * 1 == a
  {
  }

  lemma Commute(a: nat, b: nat)
    ensures a * b == b * a
  {
  }

  lemma SplitUnique(m: nat, a: nat, i: nat, b: nat, j: nat)
    requires m * a + i == m * b + j && i < m && j < m
    ensures a == b && i == j
  {
    DivisionIsUnique(m * a + i, m, a, i);
    DivisionIsUnique(m * b + j, m, b, j);
  }

  lemma {:induction false} CountOfOnes(dims: seq<nat>, indices: seq<nat>, n: nat)
    requires n <= |dims| == |indices| && forall j | 0 <= j < n :: dims[j] == 1
    ensures Count(dims, indices, n) == 0
    decreases n
  {
    if n > 0 {
      CountOfOnes(dims, indices, n - 1);
    }
  }

  lemma {:induction false} CountInjective(dims: seq<nat>, s: seq<nat>, t: seq<nat>, n: nat)
    requires NonIncreasing(dims) && InRange(dims, s) && InRange(dims, t) && n <= |dims|
    requires Count(dims, s, n) == Count(dims, t, n)
    ensures s[..n] == t[..n]
    decreases n
  {
    if n > 0 {
      var m := Base(dims, n - 1);
      if dims[n - 1] != 1 {
        if m == 1 {
          CountOfOnes(dims, s, n - 1);
          CountOfOnes(dims, t, n - 1);
        } else {
          SplitUnique(m, Count(dims, s, n - 1), s[n - 1], Count(dims, t, n - 1), t[n - 1]);
        }
      }
      CountInjective(dims, s, t, n - 1);
      assert s[..n] == s[..n - 1] + [s[n - 1]] && t[..n] == t[..n - 1] + [t[n - 1]];
    }
  }

  lemma NonIncreasingIsInjective(dims: seq<nat>)
    requires NonIncreasing(dims)
    ensures Injective(dims)
  {
    var n := |dims|;
    forall s, t {:trigger InRange(dims, s), InRange(dims, t)} |
      InRange(dims, s) && InRange(dims, t) && Flat(dims, s, n) == Flat(dims, t, n) ensures s == t
    {
      FlatIsScaledCount(dims, s, n);
      FlatIsScaledCount(dims, t, n);
      if n > 0 {
        CancelBase(dims, s, t);
        CountInjective(dims, s, t, n);
      }
      assert s[..n] == s && t[..n] == t;
    }
  }

  lemma CancelBase(dims: seq<nat>, s: seq<nat>, t: seq<nat>)
    requires InRange(dims, s) && InRange(dims, t) && dims != []
    requires Base(dims, |dims|) * Count(dims, s, |dims|) == Base(dims, |dims|) * Count(dims, t, |dims|)
    ensures Count(dims, s, |dims|) == Count(dims, t, |dims|)
  {
    SplitUnique(Base(dims, |dims|), Count(dims, s, |dims|), 0, Count(dims, t, |dims|), 0);
  }

  // ---- And necessary

  // Two neighbours among the lengths other than 1 that grow.
  lemma {:induction false} Neighbours(dims: seq<nat>, j: nat, k: nat) returns (a: nat, b: nat)
    requires j < k < |dims| && dims[j] != 1 && dims[k] != 1 && dims[j] < dims[k]
    ensures a < b < |dims| && dims[a] != 1 && dims[b] != 1 && dims[a] < dims[b]
    ensures forall i | a < i < b :: dims[i] == 1
    decreases k - j
  {
    if m: nat :| j < m < k && dims[m] != 1 {
      if dims[m] < dims[k] {
        a, b := Neighbours(dims, m, k);
      } else {
        a, b := Neighbours(dims, j, m);
      }
    } else {
      a, b := j, k;
    }
  }

  function Only(n: nat, k: nat, v: nat): seq<nat> {
    seq(n, i => if i == k then v else 0)
  }

  // One index alone: its place up to the end of the ones after it, and further on.
  lemma {:induction false} FlatOfOnly(dims: seq<nat>, k: nat, v: nat, n: nat)
    requires k < |dims| && n <= |dims|
    ensures n <= k ==> Flat(dims, Only(|dims|, k, v), n) == 0
    ensures n == k + 1 ==> Flat(dims, Only(|dims|, k, v), n) == v
    ensures n > k + 1 && (forall i | k < i < n - 1 :: dims[i] == 1) ==>
              Flat(dims, Only(|dims|, k, v), n) == v * dims[k]
    decreases n
  {
    if n > 0 {
      FlatOfOnly(dims, k, v, n - 1);
    }
  }

  lemma {:induction false} SamePlaceOn(dims: seq<nat>, s: seq<nat>, t: seq<nat>, m: nat, n: nat)
    requires m <= n <= |dims| == |s| == |t| && Flat(dims, s, m) == Flat(dims, t, m)
    requires forall i | m <= i < n :: s[i] == t[i]
    ensures Flat(dims, s, n) == Flat(dims, t, n)
    decreases n
  {
    if m < n {
      SamePlaceOn(dims, s, t, m, n - 1);
    }
  }

  // Growing lengths and no zero: two tuples share a place.
  lemma Collision(dims: seq<nat>, j: nat, k: nat)
    requires (forall i | 0 <= i < |dims| :: dims[i] > 0)
    requires j < k < |dims| && dims[j] != 1 && dims[k] != 1 && dims[j] < dims[k]
    ensures !Injective(dims)
  {
    var a, b := Neighbours(dims, j, k);
    var n := |dims|;
    var s, t := Only(n, b, dims[a]), Only(n, a, 1);
    FlatOfOnly(dims, b, dims[a], b + 1);
    FlatOfOnly(dims, a, 1, b + 1);
    SamePlaceOn(dims, s, t, b + 1, n);
    assert s[a] != t[a];
    assert InRange(dims, s) && InRange(dims, t);
  }

  // Exactly when a tensor keeps its elements apart.
  lemma InjectiveIff(dims: seq<nat>)
    ensures Injective(dims) <==> 0 in dims || NonIncreasing(dims)
  {
    if 0 in dims {
      var k :| 0 <= k < |dims| && dims[k] == 0;
      forall s {:trigger InRange(dims, s)} ensures !InRange(dims, s) {
        assert dims[k] == 0;
      }
    } else if NonIncreasing(dims) {
      NonIncreasingIsInjective(dims);
    } else {
      var j, k :| 0 <= j < k < |dims| && dims[j] != 1 && dims[k] != 1 && dims[k] > dims[j];
      Collision(dims, j, k);
    }
  }

  // ---- The tensor in memory

  class Tensor {
    const dims: seq<nat>
    var elems: array<nat>

    ghost predicate Valid()
      reads this
    {
      dims != [] && elems.Length == Length(dims, |dims|)
    }

    ghost function Element(indices: seq<nat>): nat
      reads this, elems
      requires Valid() && InRange(dims, indices)
    {
      FlatInLength(dims, indices, |dims|);
      elems[Flat(dims, indices, |dims|)]
    }

    constructor (dims: seq<nat>, init: nat)
      requires dims != []
      ensures Valid() && this.dims == dims && fresh(elems)
      ensures forall s | InRange(dims, s) :: Element(s) == init
    {
      this.dims := dims;
      var length, last := 0, 1;
      for i := 0 to |dims|
        invariant length == Length(dims, i) && last == Scale(dims, i)
      {
        length := length * last + dims[i];
        last := dims[i];
      }
      elems := new nat[length](_ => init);
      new;
      forall s | InRange(dims, s) ensures Element(s) == init {
        FlatInLength(dims, s, |dims|);
      }
    }

    // None where the runtime's range assertion ends the program.
    method Flatten(indices: seq<nat>) returns (r: Option<nat>)
      requires Valid() && |indices| == |dims|
      ensures r.Some? <==> InRange(dims, indices)
      ensures r.Some? ==> r.value == Flat(dims, indices, |dims|) < elems.Length
    {
      var flat, last := 0, 1;
      for i := 0 to |dims|
        invariant flat == Flat(dims, indices, i) && last == Scale(dims, i)
        invariant forall k | 0 <= k < i :: indices[k] < dims[k]
      {
        if indices[i] >= dims[i] {
          return None;
        }
        flat := flat * last + indices[i];
        last := dims[i];
      }
      FlatInLength(dims, indices, |dims|);
      return Some(flat);
    }

    method Get(indices: seq<nat>) returns (r: Option<nat>)
      requires Valid() && |indices| == |dims|
      ensures r == if InRange(dims, indices) then Some(Element(indices)) else None
    {
      var flat := Flatten(indices);
      match flat
      case Some(i) => r := Some(elems[i]);
      case None => r := None;
    }

    // A write reaches its tuple, and no other one where tuples have places of their own.
    method Set(indices: seq<nat>, value: nat) returns (ok: bool)
      requires Valid() && |indices| == |dims|
      modifies elems
      ensures Valid() && (ok <==> InRange(dims, indices))
      ensures ok ==> Element(indices) == value
      ensures ok ==> forall s | InRange(dims, s) && Flat(dims, s, |dims|) != Flat(dims, indices, |dims|) ::
                       Element(s) == old(Element(s))
      ensures ok && (0 in dims || NonIncreasing(dims)) ==>
                forall s | InRange(dims, s) && s != indices :: Element(s) == old(Element(s))
      ensures !ok ==> elems[..] == old(elems[..])
    {
      InjectiveIff(dims);
      var flat := Flatten(indices);
      match flat
      case Some(i) =>
        elems[i] := value;
        ok := true;
      case None => ok := false;
    }
  }
}
