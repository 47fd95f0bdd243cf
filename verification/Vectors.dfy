/** The hand-written two-ended vector (runtime/backend/vector/vector.h). */
module Vectors {
  import opened Options
  import opened Arithmetic
  import opened PowersOfTwo
  import opened Sequences

  // memmove within one storage: n elements from src to dst, overlapping or not.
  function Moved(s: seq<Elem>, dst: nat, src: nat, n: nat): (r: seq<Elem>)
    requires dst + n <= |s| && src + n <= |s|
    ensures |r| == |s|
  {
    s[..dst] + s[src..src + n] + s[dst + n..]
  }

  function MovedElem(s: seq<Elem>, dst: nat, src: nat, n: nat, i: nat): Elem
    requires dst + n <= |s| && src + n <= |s| && i < |s|
  {
    if dst <= i < dst + n then s[i - dst + src] else s[i]
  }

  lemma MovedIs(s: seq<Elem>, r: seq<Elem>, dst: nat, src: nat, n: nat)
    requires dst + n <= |s| && src + n <= |s| && |r| == |s|
    requires forall i | 0 <= i < |s| :: r[i] == MovedElem(s, dst, src, n, i)
    ensures r == Moved(s, dst, src, n)
  {
    var m := Moved(s, dst, src, n);
    forall i | 0 <= i < |s| ensures r[i] == m[i] {
      MovedAt(s, dst, src, n, i);
    }
  }

  lemma MovedAt(s: seq<Elem>, dst: nat, src: nat, n: nat, i: nat)
    requires dst + n <= |s| && src + n <= |s| && i < |s|
    ensures Moved(s, dst, src, n)[i] == MovedElem(s, dst, src, n, i)
  {
    var a, b, c := s[..dst], s[src..src + n], s[dst + n..];
    if i < dst {
      assert (a + b + c)[i] == a[i];
    } else if i < dst + n {
      assert (a + b + c)[i] == b[i - dst];
    } else {
      assert (a + b + c)[i] == c[i - dst - n];
    }
  }

  method Move(storage: array<Elem>, dst: nat, src: nat, n: nat)
    requires dst + n <= storage.Length && src + n <= storage.Length
    modifies storage
    ensures storage[..] == Moved(old(storage[..]), dst, src, n)
  {
    hide Moved;
    ghost var was := storage[..];
    if dst < src {
      for k := 0 to n
        invariant forall i | 0 <= i < storage.Length :: storage[i] == MovedElem(was, dst, src, k, i)
      {
        storage[dst + k] := storage[src + k];
      }
    } else {
      for k := n downto 0
        invariant forall i | 0 <= i < storage.Length :: storage[i] == MovedElem(was, dst + k, src + k, n - k, i)
      {
        storage[dst + k] := storage[src + k];
      }
    }
    MovedIs(was, storage[..], dst, src, n);
  }

  lemma NothingMoved(s: seq<Elem>, at: nat)
    requires at < |s|
    ensures Moved(s, at + 1, at, 0) == s
  {
  }

  lemma MovedUp(s: seq<Elem>, front: nat, back: nat, from: nat, to: nat)
    requires front <= back <= |s| && from <= to <= back - front
    ensures Moved(s, front + to - from, front, from)[front + to - from..back] == Removed(s[front..back], from, to)
  {
    var r, f := Moved(s, front + to - from, front, from), front + to - from;
    assert r[f..back] == r[f..f + from] + r[f + from..back];
    assert r[f..f + from] == s[front..front + from];
    assert r[f + from..back] == s[front + to..back];
    assert s[front..back][..from] == s[front..front + from] && s[front..back][to..] == s[front + to..back];
  }

  // memmove down of that many bytes.
  method MoveBytes(storage: array<Elem>, dst: nat, src: nat, bytes: nat, width: nat)
    requires width > 0 && dst <= src
    requires src + Whole(bytes, width) + (if Rest(bytes, width) > 0 then 1 else 0) <= storage.Length
    modifies storage
    ensures var s := old(storage[..]);
            storage[..] == WithRest(Moved(s, dst, src, Whole(bytes, width)), s, src, dst, bytes, width)
  {
    hide Moved, Mixed, Whole, Rest;
    var whole, rest := Whole(bytes, width), Rest(bytes, width);
    var part := if rest > 0 then Mixed(storage[src + whole], storage[dst + whole], rest) else 0;
    Move(storage, dst, src, whole);
    if rest > 0 {
      storage[dst + whole] := part;
    }
  }

  // The branch of a removal that copies fewer bytes than it should covers whole elements and,
  // beyond them, the low bytes of one.
  lemma MovedDown(s: seq<Elem>, width: nat, front: nat, back: nat, from: nat, to: nat)
    requires width > 0 && front <= back <= |s| && from <= to <= back - front
    requires BackShifted(s, width, front, back, from, to).Some?
    ensures var n, src, dst := back - front - to, back + (to - from), front + from;
            var r := Moved(s, dst, src, Whole(n, width));
            Some(WithRest(r, s, src, dst, n, width)[front..back - (to - from)])
             == BackShifted(s, width, front, back, from, to)
  {
    hide Mixed, Whole, Rest, Moved;
    var n, src, dst := back - front - to, back + (to - from), front + from;
    var r := Moved(s, dst, src, Whole(n, width));
    var t := WithRest(r, s, src, dst, n, width);
    var u := BackShifted(s, width, front, back, from, to).value;
    forall i | 0 <= i < |u| ensures t[front..back - (to - from)][i] == u[i] {
      MovedAt(s, dst, src, Whole(n, width), front + i);
    }
    assert t[front..back - (to - from)] == u;
  }

  lemma MovedAside(s: seq<Elem>, front: nat, back: nat, start: nat, value: Elem)
    requires front <= back < |s| && start <= back - front
    ensures var at := front + start;
            Moved(s, at + 1, at, back - at)[at := value][front..back + 1] == Inserted(s[front..back], start, [value])
  {
    var at := front + start;
    var r := Moved(s, at + 1, at, back - at)[at := value];
    assert r[front..back + 1] == r[front..at] + [r[at]] + r[at + 1..back + 1];
    assert r[front..at] == s[front..at];
    assert r[at + 1..back + 1] == s[at..back];
  }

  lemma NextAtLeast(n: nat, p: nat)
    ensures IsNextPowerOfTwo(n, p) ==> n <= p
  {
  }

  lemma MiddleOf(n: nat, max: nat, diff: nat)
    requires n < WORD && diff == if n <= max then max - n else max + WORD - n
    requires if n <= WORD / 2 then n <= max && (n == 0 ==> max == 0) else max == 0
    ensures n <= WORD / 2 ==> diff / 2 + n <= max && diff / 2 <= max - (diff / 2 + n) <= diff / 2 + 1
    ensures n > WORD / 2 ==> diff / 2 + n < WORD
  {
  }

  class Vector {
    var front: nat
    var back: nat
    var storage: array<Elem>

    ghost predicate Valid()
      reads this
    {
      front <= back <= storage.Length
    }

    ghost function Contents(): (s: seq<Elem>)
      reads this, storage
      requires Valid()
      ensures |s| == back - front
    {
      storage[front..back]
    }

    // Capacity for the next power of two, the elements in the middle; none for no element. For
    // more than half of all words the capacity wraps around to none.
    constructor Allocate(n: nat)
      requires n < WORD
      ensures fresh(storage) && (Valid() <==> n <= WORD / 2)
      ensures front <= back < WORD && back - front == n
      ensures if 1 <= n <= WORD / 2 then IsNextPowerOfTwo(n, storage.Length) else storage.Length == 0
      ensures n <= WORD / 2 ==> front <= storage.Length - back <= front + 1
    {
      hide NextPowerOfTwo, IsNextPowerOfTwo;
      NextPowerOfTwoIff(n);
      var max := NextPowerOfTwo(n);
      NextAtLeast(n, max);
      var diff := if n <= max then max - n else max + WORD - n;
      MiddleOf(n, max, diff);
      front := diff / 2;
      back := (diff / 2 + n) % WORD;
      storage := new Elem[max];
    }

    // A vector as realloc or malloc leaves it.
    constructor Make(front: nat, back: nat, storage: array<Elem>)
      ensures this.front == front && this.back == back && this.storage == storage
    {
      this.front, this.back, this.storage := front, back, storage;
    }

    method Size() returns (n: nat)
      requires Valid()
      ensures n == |Contents()|
    {
      n := back - front;
    }

    method Read(index: nat) returns (v: Elem)
      requires Valid() && index < |Contents()|
      ensures v == Contents()[index]
    {
      v := storage[front + index];
    }

    method Write(index: nat, value: Elem)
      requires Valid() && index < |Contents()|
      modifies storage
      ensures Valid() && Contents() == old(Contents())[index := value]
    {
      storage[front + index] := value;
    }

    // false where the code reads past the end of the storage. An element has width bytes.
    method Remove(from: nat, to: nat, width: nat) returns (defined: bool)
      requires Valid() && from <= to <= |Contents()| && width > 0
      modifies this, storage
      ensures storage == old(storage)
      ensures !BackShift(from, to, |old(Contents())|) ==>
                defined && Valid() && Contents() == Removed(old(Contents()), from, to)
      ensures BackShift(from, to, |old(Contents())|) ==>
                var r := BackShifted(old(storage[..]), width, old(front), old(back), from, to);
                (defined <==> r.Some?) && (defined ==> Valid() && Contents() == r.value)
    {
      hide Removed, BackShifted;
      defined := true;
      var size := back - front;
      RemovedEnds(Contents(), from, to);
      if to == size {
        back := back - (to - from);
      } else if from == 0 {
        front := front + (to - from);
      } else if size - to < from {
        defined := PullBack(from, to, width);
      } else {
        ShiftUp(from, to);
      }
    }

    // The part before the removed range moves up to its end.
    method ShiftUp(from: nat, to: nat)
      requires Valid() && from <= to <= |Contents()|
      modifies this, storage
      ensures storage == old(storage) && Valid() && Contents() == Removed(old(Contents()), from, to)
    {
      hide Moved, Removed;
      MovedUp(storage[..], front, back, from, to);
      Move(storage, front + to - from, front, from);
      front := front + (to - from);
      assert Contents() == storage[..][front..back];
    }

    // The part behind it is meant to move down.
    method PullBack(from: nat, to: nat, width: nat) returns (defined: bool)
      requires Valid() && from <= to <= |Contents()| && width > 0
      modifies this, storage
      ensures storage == old(storage)
      ensures var r := BackShifted(old(storage[..]), width, old(front), old(back), from, to);
              (defined <==> r.Some?) && (defined ==> Valid() && Contents() == r.value)
    {
      hide Moved, Mixed, Whole, Rest, WithRest, BackShifted;
      var bytes := back - front - to;
      var src, dst := back + (to - from), front + from;
      var whole, rest := Whole(bytes, width), Rest(bytes, width);
      BackShiftedWhen(storage[..], width, front, back, from, to);
      if src + whole + (if rest > 0 then 1 else 0) > storage.Length {
        return false;
      }
      MovedDown(storage[..], width, front, back, from, to);
      MoveBytes(storage, dst, src, bytes, width);
      back := back - (to - from);
      assert Contents() == storage[..][front..back];
      return true;
    }

    // One element more, from the end of the storage's free part; None where there is none.
    method InsertInPlace(start: nat, value: Elem) returns (ok: bool)
      requires Valid() && start <= |Contents()|
      modifies this, storage
      ensures storage == old(storage) && (ok <==> old(back) < storage.Length)
      ensures ok ==> Valid() && Contents() == Inserted(old(Contents()), start, [value])
    {
      hide Moved, Inserted;
      if back >= storage.Length {
        return false;
      }
      var at := front + start;
      MovedAside(storage[..], front, back, start, value);
      assert Contents() == storage[..][front..back];
      NothingMoved(storage[..], at);
      if at < back {
        Move(storage, at + 1, at, back - at);
      }
      storage[at] := value;
      back := back + 1;
      assert Contents() == storage[..][front..back];
      return true;
    }

    // A full vector moves to the middle of twice the capacity, behind the new first element.
    method InsertFirst(value: Elem) returns (r: Option<Vector>)
      requires Valid() && front == 0 && back == storage.Length
      ensures r.Some? <==> storage.Length > 0
      ensures r.Some? ==> r.value.Valid() && r.value.Contents() == Inserted(Contents(), 0, [value])
      ensures r.Some? ==> r.value.storage.Length == 2 * storage.Length
    {
      var size, max := back - front, storage.Length;
      if 2 * max < size + 1 {
        return None;
      }
      var diff := (2 * max - (size + 1)) / 2;
      var larger := new Elem[2 * max];
      larger[front + diff] := value;
      CopyInto(storage[front..back], larger, front + diff + 1);
      var v := new Vector.Make(front + diff, front + diff + size + 1, larger);
      return Some(v);
    }

    // None where the code would write past the end of the storage. A full vector moves to
    // twice the capacity: as it lies when inserting after the first place, else to the middle.
    method InsertElement(start: nat, value: Elem) returns (r: Option<Vector>)
      requires Valid() && start <= |Contents()|
      modifies this, storage
      ensures r.Some? <==> old(back) < old(storage.Length) || (old(front) == 0 && old(storage.Length) > 0)
      ensures r.Some? ==> r.value.Valid() && r.value.Contents() == Inserted(old(Contents()), start, [value])
      ensures r.Some? ==> r.value.storage.Length ==
                          old(storage.Length) * if old(front) == 0 && old(back) == old(storage.Length) then 2 else 1
    {
      var size, max := back - front, storage.Length;
      if size + 1 > max {
        if start > 0 {
          var larger := new Elem[2 * max];
          CopyInto(storage[..], larger, 0);
          var v := new Vector.Make(front, back, larger);
          assert v.Contents() == Contents();
          var ok := v.InsertInPlace(start, value);
          return Some(v);
        } else {
          r := InsertFirst(value);
        }
      } else {
        var ok := InsertInPlace(start, value);
        return if ok then Some(this) else None;
      }
    }

    method SwapElements(i: nat, j: nat)
      requires Valid() && i < |Contents()| && j < |Contents()|
      modifies storage
      ensures Valid() && Contents() == SwapAt(old(Contents()), i, j)
    {
      var tmp := storage[front + i];
      storage[front + i] := storage[front + j];
      storage[front + j] := tmp;
    }

    // The ranges from .. to - 1 and start .. change places, element by element.
    method Swap(from: nat, to: nat, start: nat)
      requires Valid() && from <= to <= |Contents()| && start + (to - from) <= |Contents()|
      modifies storage
      ensures Valid() && Contents() == SwapRuns(old(Contents()), start, from, to - from)
    {
      hide SwapRuns, SwapAt;
      NoRuns(Contents(), start, from);
      for k := 0 to to - from
        invariant Valid() && Contents() == SwapRuns(old(Contents()), start, from, k)
      {
        SwapElements(start + k, from + k);
        OneMoreRun(old(Contents()), start, from, k);
      }
    }
  }

  lemma RemovedEnds(s: seq<Elem>, from: nat, to: nat)
    requires from <= to <= |s|
    ensures to == |s| ==> Removed(s, from, to) == s[..from]
    ensures from == 0 ==> Removed(s, from, to) == s[to..]
  {
  }

  // The branch of remove that pulls the back part down.
  predicate BackShift(from: nat, to: nat, size: nat) {
    to != size && from != 0 && size - to < from
  }

  // The whole elements among that many bytes, and the bytes beyond them.
  function Whole(bytes: nat, width: nat): (n: nat)
    requires width > 0
    ensures n <= bytes && (Rest(bytes, width) > 0 ==> n < bytes)
    ensures n == 0 ==> Rest(bytes, width) == bytes
  {
    WholeBound(bytes / width, width);
    bytes / width
  }

  function Rest(bytes: nat, width: nat): nat
    requires width > 0
  {
    bytes % width
  }

  lemma WholeBound(n: nat, width: nat)
    requires width > 0
    ensures n <= n * width
  {
    assert n * width == n + n * (width - 1);
  }

  lemma MixedParts(a: nat, b: nat, p: nat)
    requires p > 0
    ensures b % p <= b
    ensures (a % p + (b - b % p)) % p == a % p && (a % p + (b - b % p)) / p == b / p
  {
    assert b == b / p * p + b % p;
    DivisionIsUnique(a % p + (b - b % p), p, b / p, a % p);
  }

  // The low bytes of a before the high bytes of b.
  function Mixed(a: Elem, b: Elem, bytes: nat): (e: Elem)
    ensures Pow2(8 * bytes) > 0
    ensures e % Pow2(8 * bytes) == a % Pow2(8 * bytes) && e / Pow2(8 * bytes) == b / Pow2(8 * bytes)
  {
    Pow2Grows(0, 8 * bytes);
    var p := Pow2(8 * bytes);
    MixedParts(a, b, p);
    a % p + (b - b % p)
  }

  // r with the bytes beyond the whole elements copied from s.
  function WithRest(r: seq<Elem>, s: seq<Elem>, src: nat, dst: nat, bytes: nat, width: nat): seq<Elem>
    requires width > 0 && |r| == |s| && dst <= src
    requires src + Whole(bytes, width) + (if Rest(bytes, width) > 0 then 1 else 0) <= |s|
  {
    var whole, rest := Whole(bytes, width), Rest(bytes, width);
    if rest > 0 then r[dst + whole := Mixed(s[src + whole], s[dst + whole], rest)] else r
  }

  // What that branch makes of the contents: it copies as many bytes as there are elements to
  // move, and from behind the last one.
  function BackShifted(storage: seq<Elem>, width: nat, front: nat, back: nat, from: nat, to: nat): Option<seq<Elem>>
    requires width > 0 && front <= back <= |storage| && from <= to <= back - front
  {
    var n, src, dst := back - front - to, back + (to - from), front + from;
    var whole, rest := Whole(n, width), Rest(n, width);
    if src + whole + (if rest > 0 then 1 else 0) > |storage| then None
    else
      Some(storage[front..dst] + seq(n, k requires 0 <= k < n =>
             if k < whole then storage[src + k]
             else if k == whole && rest > 0 then Mixed(storage[src + k], storage[dst + k], rest)
             else storage[dst + k]))
  }

  lemma BackShiftedWhen(storage: seq<Elem>, width: nat, front: nat, back: nat, from: nat, to: nat)
    requires width > 0 && front <= back <= |storage| && from <= to <= back - front
    ensures var n := back - front - to;
            BackShifted(storage, width, front, back, from, to).Some? <==>
            back + (to - from) + Whole(n, width) + (if Rest(n, width) > 0 then 1 else 0) <= |storage|
  {
    hide Whole, Rest, Mixed;
  }

  // A removal is right for every storage exactly when it takes another branch.
  lemma BackShiftWrong(max: nat, width: nat, front: nat, back: nat, from: nat, to: nat)
    requires width > 0 && front <= back <= max && from <= to <= back - front && BackShift(from, to, back - front)
    ensures exists storage: seq<Elem> :: |storage| == max &&
              BackShifted(storage, width, front, back, from, to) != Some(Removed(storage[front..back], from, to))
  {
    hide Whole, Rest, Mixed;
    var n, src := back - front - to, back + (to - from);
    var storage: seq<Elem> := seq(max, i => if i == src then 1 else 0);
    var r := BackShifted(storage, width, front, back, from, to);
    if r.Some? {
      if Whole(n, width) == 0 {
        OneMixed(n);
      }
      assert r.value[from] == 1;
      assert Removed(storage[front..back], from, to)[from] == storage[front + to] == 0;
    }
  }

  lemma OneMixed(bytes: nat)
    requires bytes > 0
    ensures Mixed(1, 0, bytes) == 1
  {
    Pow2Grows(1, 8 * bytes);
    RemainderOfSmall(1, Pow2(8 * bytes));
    RemainderOfSmall(0, Pow2(8 * bytes));
    assert Pow2(1) == 2;
  }
}
