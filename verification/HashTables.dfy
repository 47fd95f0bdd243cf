/** The open-addressing hash table (hashtable.h, INSTANTIATE_PRIMITIVE_HASHTABLE): linear
    probing from the hashed slot, doubled when half full. */
module HashTables {
  import opened Options
  import opened Arithmetic

  datatype Slot<K, V> = Free | Taken(key: K, value: V)

  // Bitwise and of the hash and capacity - 1.
  function BitAnd(a: nat, b: nat): nat {
    if a == 0 || b == 0 then 0 else 2 * BitAnd(a / 2, b / 2) + (a % 2) * (b % 2)
  }

  lemma {:induction false} BitAndBounded(a: nat, b: nat)
    ensures BitAnd(a, b) <= b
  {
    if a != 0 && b != 0 {
      BitAndBounded(a / 2, b / 2);
      assert (a % 2) * (b % 2) <= b % 2;
    }
  }

  // For a power of two the mask is the remainder.
  lemma {:induction false} MaskIsRemainder(h: nat, n: nat)
    ensures Pow2(n) > 0 && BitAnd(h, Pow2(n) - 1) == h % Pow2(n)
    decreases n
  {
    if n > 0 {
      MaskIsRemainder(h / 2, n - 1);
      MaskHalves(h, Pow2(n - 1));
      HalfRemainder(h, Pow2(n - 1));
    }
  }

  lemma MaskHalves(h: nat, c: nat)
    requires c > 0
    ensures BitAnd(h, 2 * c - 1) == 2 * BitAnd(h / 2, c - 1) + h % 2
  {
    assert (2 * c - 1) / 2 == c - 1 && (2 * c - 1) % 2 == 1;
  }

  lemma HalfRemainder(h: nat, c: nat)
    requires c > 0
    ensures h % (2 * c) == 2 * ((h / 2) % c) + h % 2
  {
    var q, r := (h / 2) / c, (h / 2) % c;
    assert h == 2 * (q * c + r) + h % 2;
    assert h == q * (2 * c) + (2 * r + h % 2);
    DivisionIsUnique(h, 2 * c, q, 2 * r + h % 2);
  }

  ghost predicate IsPowerOfTwo(n: nat) {
    exists e: nat :: n == Pow2(e)
  }

  lemma MaskOfPower(h: nat, capacity: nat)
    requires capacity > 0 && IsPowerOfTwo(capacity)
    ensures BitAnd(h, capacity - 1) == h % capacity
  {
    var e: nat :| capacity == Pow2(e);
    MaskIsRemainder(h, e);
  }

  // The slot a key is hashed to: the remainder, for the capacities a table has.
  function Home(hash: nat, capacity: nat): (i: nat)
    requires capacity > 0
    ensures i < capacity
    ensures IsPowerOfTwo(capacity) ==> i == hash % capacity
  {
    BitAndBounded(hash, capacity - 1);
    assert IsPowerOfTwo(capacity) ==> BitAnd(hash, capacity - 1) == hash % capacity by {
      if IsPowerOfTwo(capacity) {
        MaskOfPower(hash, capacity);
      }
    }
    BitAnd(hash, capacity - 1)
  }

  // The slot d probes after slot h.
  function Probe(h: nat, d: nat, capacity: nat): (i: nat)
    requires h < capacity && d < capacity
    ensures i < capacity
  {
    if h + d < capacity then h + d else h + d - capacity
  }

  // How many probes after slot h slot i comes.
  function Offset(h: nat, i: nat, capacity: nat): (d: nat)
    requires h < capacity && i < capacity
    ensures d < capacity && Probe(h, d, capacity) == i
  {
    if h <= i then i - h else i + capacity - h
  }

  // The probes from slot h to the one before offset d find taken slots.
  ghost predicate PathTaken<K, V>(s: seq<Slot<K, V>>, h: nat, d: nat)
    requires h < |s| && d <= |s|
  {
    forall e: nat | e < d :: s[Probe(h, e, |s|)].Taken?
  }

  ghost predicate Holds<K, V>(s: seq<Slot<K, V>>, k: K) {
    exists i :: 0 <= i < |s| && s[i].Taken? && s[i].key == k
  }

  // The taken slots are exactly the entries of m, each key once.
  ghost predicate Represents<K, V>(s: seq<Slot<K, V>>, m: map<K, V>) {
    && (forall i | 0 <= i < |s| && s[i].Taken? :: s[i].key in m && m[s[i].key] == s[i].value)
    && (forall k {:trigger Holds(s, k)} | k in m :: Holds(s, k))
    && (forall i, j | 0 <= i < |s| && 0 <= j < |s| && s[i].Taken? && s[j].Taken? && s[i].key == s[j].key :: i == j)
  }

  // Every entry is found by probing from its hashed slot.
  ghost predicate Findable<K, V>(s: seq<Slot<K, V>>, hash: K -> nat) {
    forall i | 0 <= i < |s| && s[i].Taken? ::
      PathTaken(s, Home(hash(s[i].key), |s|), Offset(Home(hash(s[i].key), |s|), i, |s|))
  }

  // What probing for k finds from offset d on.
  function Lookup<K(==), V>(s: seq<Slot<K, V>>, h: nat, k: K, d: nat): Option<V>
    requires h < |s| && d <= |s|
    decreases |s| - d
  {
    if d == |s| then None
    else
      match s[Probe(h, d, |s|)]
      case Free => None
      case Taken(key, value) => if key == k then Some(value) else Lookup(s, h, k, d + 1)
  }

  function Find<K(==), V>(s: seq<Slot<K, V>>, hash: K -> nat, k: K): Option<V>
    requires |s| > 0
  {
    Lookup(s, Home(hash(k), |s|), k, 0)
  }

  lemma {:induction false} LookupFinds<K, V>(s: seq<Slot<K, V>>, h: nat, k: K, d: nat, e: nat)
    requires h < |s| && d <= e < |s| && PathTaken(s, h, e)
    requires forall f: nat | d <= f < e :: s[Probe(h, f, |s|)].Taken? && s[Probe(h, f, |s|)].key != k
    ensures Lookup(s, h, k, d) == Lookup(s, h, k, e)
    decreases e - d
  {
    if d < e {
      assert s[Probe(h, d, |s|)].Taken?;
      LookupFinds(s, h, k, d + 1, e);
    }
  }

  // Probing finds the map's value, and nothing for a key that is not in the map.
  lemma FindIsMap<K, V>(s: seq<Slot<K, V>>, hash: K -> nat, m: map<K, V>, k: K)
    requires |s| > 0 && Represents(s, m) && Findable(s, hash)
    ensures Find(s, hash, k) == if k in m then Some(m[k]) else None
  {
    var h := Home(hash(k), |s|);
    if k in m {
      assert Holds(s, k);
      var i :| 0 <= i < |s| && s[i].Taken? && s[i].key == k;
      var e := Offset(h, i, |s|);
      forall f: nat | f < e ensures s[Probe(h, f, |s|)].Taken? && s[Probe(h, f, |s|)].key != k {
        assert Probe(h, f, |s|) != i;
      }
      LookupFinds(s, h, k, 0, e);
    } else {
      LookupMisses(s, h, k, 0);
    }
  }

  lemma {:induction false} LookupMisses<K, V>(s: seq<Slot<K, V>>, h: nat, k: K, d: nat)
    requires h < |s| && d <= |s|
    requires forall i | 0 <= i < |s| && s[i].Taken? :: s[i].key != k
    ensures Lookup(s, h, k, d) == None
    decreases |s| - d
  {
    if d < |s| {
      LookupMisses(s, h, k, d + 1);
    }
  }

  // The slot where a probe for k stops: its own, or the first free one.
  ghost predicate Stops<K, V>(s: seq<Slot<K, V>>, h: nat, k: K, d: nat)
    requires h < |s| && d < |s|
  {
    && (forall e: nat | e < d :: s[Probe(h, e, |s|)].Taken? && s[Probe(h, e, |s|)].key != k)
    && (s[Probe(h, d, |s|)].Free? || s[Probe(h, d, |s|)].key == k)
  }

  lemma StopDecides<K, V>(s: seq<Slot<K, V>>, hash: K -> nat, m: map<K, V>, k: K, d: nat)
    requires |s| > 0 && Represents(s, m) && Findable(s, hash) && d < |s| && Stops(s, Home(hash(k), |s|), k, d)
    ensures k in m <==> s[Probe(Home(hash(k), |s|), d, |s|)].Taken?
    ensures k in m ==> s[Probe(Home(hash(k), |s|), d, |s|)] == Taken(k, m[k])
  {
    var h := Home(hash(k), |s|);
    if k in m {
      assert Holds(s, k);
      var i :| 0 <= i < |s| && s[i].Taken? && s[i].key == k;
      var e := Offset(h, i, |s|);
      assert PathTaken(s, h, e);
      assert Probe(h, e, |s|) == i;
    }
  }

  // Writing the slot where the probe stops is the map update.
  lemma StoreKeeps<K, V>(s: seq<Slot<K, V>>, hash: K -> nat, m: map<K, V>, k: K, v: V, d: nat)
    requires |s| > 0 && Represents(s, m) && Findable(s, hash) && d < |s| && Stops(s, Home(hash(k), |s|), k, d)
    ensures var t := s[Probe(Home(hash(k), |s|), d, |s|) := Taken(k, v)];
            Represents(t, m[k := v]) && Findable(t, hash)
  {
    StopDecides(s, hash, m, k, d);
    var h := Home(hash(k), |s|);
    var p := Probe(h, d, |s|);
    var t := s[p := Taken(k, v)];
    forall x | x in m[k := v] ensures Holds(t, x) {
      if x != k {
        assert Holds(s, x);
        var i :| 0 <= i < |s| && s[i].Taken? && s[i].key == x;
        assert t[i].Taken? && t[i].key == x;
      } else {
        assert t[p].Taken? && t[p].key == x;
      }
    }
    forall i | 0 <= i < |t| && t[i].Taken?
      ensures PathTaken(t, Home(hash(t[i].key), |t|), Offset(Home(hash(t[i].key), |t|), i, |t|))
    {
      if i != p {
        assert PathTaken(s, Home(hash(s[i].key), |s|), Offset(Home(hash(s[i].key), |s|), i, |s|));
      }
    }
  }

  // No entry but the one in slot p is probed for through slot p.
  ghost predicate Uncrossed<K, V>(s: seq<Slot<K, V>>, hash: K -> nat, p: nat)
    requires p < |s|
  {
    forall i, e: nat {:trigger s[i], Probe(Home(hash(s[i].key), |s|), e, |s|)}
      | 0 <= i < |s| && i != p && s[i].Taken? && e < Offset(Home(hash(s[i].key), |s|), i, |s|) ::
      Probe(Home(hash(s[i].key), |s|), e, |s|) != p
  }

  lemma ClearedRepresents<K, V>(s: seq<Slot<K, V>>, m: map<K, V>, p: nat)
    requires p < |s| && Represents(s, m) && s[p].Taken?
    ensures Represents(s[p := Free], m - {s[p].key})
  {
    var t := s[p := Free];
    forall x | x in m - {s[p].key} ensures Holds(t, x) {
      assert Holds(s, x);
      var i :| 0 <= i < |s| && s[i].Taken? && s[i].key == x;
      assert t[i].Taken? && t[i].key == x;
    }
  }

  lemma UncrossedFindable<K, V>(s: seq<Slot<K, V>>, hash: K -> nat, p: nat)
    requires p < |s| && Findable(s, hash) && Uncrossed(s, hash, p)
    ensures Findable(s[p := Free], hash)
  {
    var t := s[p := Free];
    forall i | 0 <= i < |t| && t[i].Taken?
      ensures PathTaken(t, Home(hash(t[i].key), |t|), Offset(Home(hash(t[i].key), |t|), i, |t|))
    {
      var h := Home(hash(s[i].key), |s|);
      assert PathTaken(s, h, Offset(h, i, |s|));
      forall e: nat | e < Offset(h, i, |s|) ensures t[Probe(h, e, |t|)].Taken? {
        assert s[Probe(h, e, |s|)].Taken?;
      }
    }
  }

  // An entry whose probe path crosses the cleared slot is lost.
  lemma CrossedIsLost<K, V>(s: seq<Slot<K, V>>, hash: K -> nat, m: map<K, V>, p: nat, i: nat, e: nat)
    requires p < |s| && Represents(s, m) && Findable(s, hash) && s[p].Taken?
    requires i < |s| && i != p && s[i].Taken? && e < Offset(Home(hash(s[i].key), |s|), i, |s|)
    requires Probe(Home(hash(s[i].key), |s|), e, |s|) == p
    ensures s[i].key in m - {s[p].key} && Find(s[p := Free], hash, s[i].key) == None
  {
    var t, k := s[p := Free], s[i].key;
    var h := Home(hash(k), |s|);
    assert PathTaken(s, h, Offset(h, i, |s|));
    forall f: nat | f < e ensures t[Probe(h, f, |t|)].Taken? && t[Probe(h, f, |t|)].key != k {
      assert s[Probe(h, f, |s|)].Taken? && Probe(h, f, |s|) != p && Probe(h, f, |s|) != i;
    }
    LookupFinds(t, h, k, 0, e);
  }

  // Clearing a slot deletes its key from what probing finds, and nothing else, exactly when no
  // other entry is probed for through that slot.
  lemma ClearIsDeletionIff<K(!new), V>(s: seq<Slot<K, V>>, hash: K -> nat, m: map<K, V>, p: nat)
    requires p < |s| && Represents(s, m) && Findable(s, hash) && s[p].Taken?
    ensures var t := s[p := Free];
            var m' := m - {s[p].key};
            && (Findable(t, hash) <==> Uncrossed(s, hash, p))
            && ((forall k :: Find(t, hash, k) == if k in m' then Some(m'[k]) else None) <==> Uncrossed(s, hash, p))
  {
    var t, m' := s[p := Free], m - {s[p].key};
    ClearedRepresents(s, m, p);
    if Uncrossed(s, hash, p) {
      UncrossedFindable(s, hash, p);
      forall k ensures Find(t, hash, k) == if k in m' then Some(m'[k]) else None {
        FindIsMap(t, hash, m', k);
      }
    } else {
      var i, e: nat :| 0 <= i < |s| && i != p && s[i].Taken? && e < Offset(Home(hash(s[i].key), |s|), i, |s|)
                       && Probe(Home(hash(s[i].key), |s|), e, |s|) == p;
      CrossedIsLost(s, hash, m, p, i, e);
      if Findable(t, hash) {
        FindIsMap(t, hash, m', s[i].key);
      }
    }
  }

  lemma ProbeNext(h: nat, e: nat, capacity: nat)
    requires h < capacity && e < capacity && 1 < capacity
    ensures e + 1 < capacity ==> Probe(h, e + 1, capacity) == Probe(Probe(h, e, capacity), 1, capacity)
  {
  }

  // It is enough that the next slot is free.
  lemma NextFreeUncrossed<K, V>(s: seq<Slot<K, V>>, hash: K -> nat, p: nat)
    requires p < |s| && |s| > 1 && Findable(s, hash) && s[Probe(p, 1, |s|)].Free?
    ensures Uncrossed(s, hash, p)
  {
    forall i, e: nat | 0 <= i < |s| && i != p && s[i].Taken? && e < Offset(Home(hash(s[i].key), |s|), i, |s|)
      ensures Probe(Home(hash(s[i].key), |s|), e, |s|) != p
    {
      var h := Home(hash(s[i].key), |s|);
      assert PathTaken(s, h, Offset(h, i, |s|));
      ProbeNext(h, e, |s|);
    }
  }

  // The keys' hash values have different remainders.
  ghost predicate ApartModulo<K(!new), V>(m: map<K, V>, hash: K -> nat, n: nat)
    requires n > 0
  {
    forall j, k | j in m && k in m && j != k :: hash(j) % n != hash(k) % n
  }

  // Nothing pushes such keys aside: walking back from an entry over those that were in its way
  // never passes the free slot, so it would end at one in the slot of another's remainder.
  lemma {:induction false} AtRemainder<K(!new), V>(s: seq<Slot<K, V>>, hash: K -> nat, m: map<K, V>, free: nat, i: nat)
    requires free < |s| && i < |s| && s[free].Free? && s[i].Taken? && Represents(s, m) && Findable(s, hash)
    requires IsPowerOfTwo(|s|) && ApartModulo(m, hash, |s|)
    ensures i == hash(s[i].key) % |s|
    decreases Offset(free, i, |s|)
  {
    hide IsPowerOfTwo;
    var h := Home(hash(s[i].key), |s|);
    if h != i {
      var d := Offset(h, i, |s|);
      assert PathTaken(s, h, d);
      assert Probe(h, 0, |s|) == h && s[h].Taken?;
      assert s[h].key != s[i].key;
      BeforeOnPath(s, h, d, free);
      AtRemainder(s, hash, m, free, h);
    }
  }

  lemma BeforeOnPath<K, V>(s: seq<Slot<K, V>>, h: nat, d: nat, free: nat)
    requires h < |s| && 0 < d < |s| && free < |s| && s[free].Free? && PathTaken(s, h, d) && Probe(h, d, |s|) != free
    ensures Offset(free, h, |s|) < Offset(free, Probe(h, d, |s|), |s|)
  {
    var e := Offset(h, free, |s|);
    assert Probe(h, e, |s|) == free;
    assert e > d;
  }

  // So a removal is right whenever the hash values of the keys have different remainders.
  lemma ApartUncrossed<K(!new), V>(s: seq<Slot<K, V>>, hash: K -> nat, m: map<K, V>, free: nat, p: nat)
    requires free < |s| && p < |s| && s[free].Free? && Represents(s, m) && Findable(s, hash)
    requires IsPowerOfTwo(|s|) && ApartModulo(m, hash, |s|)
    ensures Uncrossed(s, hash, p)
  {
    hide IsPowerOfTwo, Represents, Findable, ApartModulo;
    forall i | 0 <= i < |s| && s[i].Taken? ensures Offset(Home(hash(s[i].key), |s|), i, |s|) == 0 {
      AtRemainder(s, hash, m, free, i);
    }
  }

  // The keys and the positions of the taken slots among the first n.
  ghost function TakenKeys<K, V>(s: seq<Slot<K, V>>, n: nat): set<K>
    requires n <= |s|
  {
    set i | 0 <= i < n && s[i].Taken? :: s[i].key
  }

  ghost function TakenSlots<K, V>(s: seq<Slot<K, V>>, n: nat): set<nat>
    requires n <= |s|
  {
    set i: nat | i < n && s[i].Taken?
  }

  lemma TakenStep<K, V>(s: seq<Slot<K, V>>, n: nat)
    requires n < |s|
    requires forall i, j | 0 <= i < |s| && 0 <= j < |s| && s[i].Taken? && s[j].Taken? && s[i].key == s[j].key :: i == j
    ensures TakenSlots(s, n + 1) == if s[n].Taken? then TakenSlots(s, n) + {n} else TakenSlots(s, n)
    ensures TakenKeys(s, n + 1) == if s[n].Taken? then TakenKeys(s, n) + {s[n].key} else TakenKeys(s, n)
    ensures n !in TakenSlots(s, n) && (s[n].Taken? ==> s[n].key !in TakenKeys(s, n))
  {
  }

  lemma {:induction false} KeysAreSlots<K, V>(s: seq<Slot<K, V>>, n: nat)
    requires n <= |s|
    requires forall i, j | 0 <= i < |s| && 0 <= j < |s| && s[i].Taken? && s[j].Taken? && s[i].key == s[j].key :: i == j
    ensures |TakenKeys(s, n)| == |TakenSlots(s, n)| <= n
    ensures (forall i | 0 <= i < n :: s[i].Taken?) ==> |TakenSlots(s, n)| == n
  {
    if n == 0 {
      assert TakenKeys(s, 0) == {} && TakenSlots(s, 0) == {};
    } else {
      KeysAreSlots(s, n - 1);
      TakenStep(s, n - 1);
    }
  }

  // As many slots are taken as there are entries, so fewer entries than slots leave one free.
  lemma SlotsAreEntries<K, V>(s: seq<Slot<K, V>>, m: map<K, V>)
    requires Represents(s, m)
    ensures |TakenSlots(s, |s|)| == |m|
    ensures |m| < |s| ==> exists i :: 0 <= i < |s| && s[i].Free?
  {
    forall k ensures k in TakenKeys(s, |s|) <==> k in m {
      if k in m {
        assert Holds(s, k);
      }
    }
    assert TakenKeys(s, |s|) == m.Keys;
    KeysAreSlots(s, |s|);
  }

  // set, on the slots alone: probes without a stop of its own, so a free slot must be there.
  method Store<K(==), V>(slots: array<Slot<K, V>>, hash: K -> nat, key: K, value: V, ghost m: map<K, V>)
    returns (added: bool)
    requires slots.Length > 0 && Represents(slots[..], m) && Findable(slots[..], hash) && |m| < slots.Length
    modifies slots
    ensures Represents(slots[..], m[key := value]) && Findable(slots[..], hash)
    ensures added <==> key !in m
    ensures IsPowerOfTwo(slots.Length) && old(slots[hash(key) % slots.Length]).Free? ==>
              slots[hash(key) % slots.Length] == Taken(key, value)
  {
    hide Represents, Findable, BitAnd, Home, IsPowerOfTwo;
    SlotsAreEntries(slots[..], m);
    var index := Home(hash(key), slots.Length);
    ghost var h, d := index, 0;
    ghost var free :| 0 <= free < slots.Length && slots[..][free].Free?;
    while slots[index].Taken?
      invariant d <= Offset(h, free, slots.Length) && index == Probe(h, d, slots.Length)
      invariant forall e: nat | e < d ::
                  slots[..][Probe(h, e, slots.Length)].Taken? && slots[..][Probe(h, e, slots.Length)].key != key
      decreases slots.Length - d
    {
      if slots[index].key == key {
        assert Stops(slots[..], h, key, d);
        StopDecides(slots[..], hash, m, key, d);
        StoreKeeps(slots[..], hash, m, key, value, d);
        ghost var was := slots[..];
        slots[index] := Taken(key, value);
        assert slots[..] == was[index := Taken(key, value)];
        return false;
      }
      index := index + 1;
      if index >= slots.Length {
        index := 0;
      }
      d := d + 1;
    }
    assert Stops(slots[..], h, key, d);
    StopDecides(slots[..], hash, m, key, d);
    StoreKeeps(slots[..], hash, m, key, value, d);
    ghost var was := slots[..];
    slots[index] := Taken(key, value);
    assert slots[..] == was[index := Taken(key, value)];
    return true;
  }

  class HashTable<K(==,!new), V> {
    const hash: K -> nat
    const zero: V
    var slots: array<Slot<K, V>>
    var length: nat
    ghost var contents: map<K, V>

    ghost predicate Valid()
      reads this, slots
    {
      && slots.Length > 0 && Represents(slots[..], contents) && Findable(slots[..], hash)
      && length == |contents| && length <= slots.Length / 2
    }

    // allocate; the initial capacity must not be zero.
    constructor (hash: K -> nat, zero: V, initialCapacity: nat)
      requires initialCapacity > 0
      ensures Valid() && fresh(slots) && contents == map[] && slots.Length == initialCapacity
      ensures this.hash == hash && this.zero == zero
    {
      this.hash, this.zero := hash, zero;
      slots := new Slot<K, V>[initialCapacity](_ => Free);
      length, contents := 0, map[];
    }

    // The probe loop of has, read and remove.
    method Seek(key: K) returns (index: nat, found: bool)
      requires Valid()
      ensures found <==> key in contents
      ensures found ==> index < slots.Length && slots[index] == Taken(key, contents[key])
    {
      hide Represents, Findable, BitAnd, Home;
      SlotsAreEntries(slots[..], contents);
      index := Home(hash(key), slots.Length);
      var beginIndex := index;
      ghost var d := 0;
      ghost var free :| 0 <= free < slots.Length && slots[..][free].Free?;
      while slots[index].Taken?
        invariant d <= Offset(beginIndex, free, slots.Length) && index == Probe(beginIndex, d, slots.Length)
        invariant forall e: nat | e < d ::
                    slots[..][Probe(beginIndex, e, slots.Length)].Taken? &&
                        slots[..][Probe(beginIndex, e, slots.Length)].key != key
        decreases slots.Length - d
      {
        if slots[index].key == key {
          assert Stops(slots[..], beginIndex, key, d);
          StopDecides(slots[..], hash, contents, key, d);
          return index, true;
        }
        index := index + 1;
        if index == beginIndex {
          return index, false;
        } else if index >= slots.Length {
          index := 0;
        }
        d := d + 1;
      }
      assert Stops(slots[..], beginIndex, key, d);
      StopDecides(slots[..], hash, contents, key, d);
      return index, false;
    }

    method Has(key: K) returns (r: bool)
      requires Valid()
      ensures r <==> key in contents
    {
      var _, found := Seek(key);
      return found;
    }

    // A missing key reads as zero.
    method Read(key: K) returns (v: V)
      requires Valid()
      ensures v == if key in contents then contents[key] else zero
    {
      var index, found := Seek(key);
      if found {
        return slots[index].value;
      }
      return zero;
    }

    method Size() returns (n: nat)
      requires Valid()
      ensures n == |contents|
    {
      return length;
    }

    // expand: every entry moves to a table of twice the capacity.
    method Expand()
      requires Valid()
      modifies this`slots
      ensures Valid() && fresh(slots) && slots.Length == 2 * old(slots.Length)
      ensures old(IsPowerOfTwo(slots.Length)) ==> IsPowerOfTwo(slots.Length)
    {
      hide Represents, Findable, IsPowerOfTwo;
      DoubledPower(slots.Length);
      var next := new Slot<K, V>[2 * slots.Length](_ => Free);
      ghost var moved: map<K, V> := map[];
      EmptyTable(next[..], hash);
      for i := 0 to slots.Length
        invariant fresh(next) && next.Length == 2 * slots.Length && slots == old(slots) && slots[..] == old(slots[..])
        invariant Represents(next[..], moved) && Findable(next[..], hash)
        invariant moved == Restricted(slots[..], i) && |moved| <= i
      {
        if slots[i].Taken? {
          MoveNext(slots[..], i);
          var _ := Store(next, hash, slots[i].key, slots[i].value, moved);
          moved := moved[slots[i].key := slots[i].value];
        } else {
          MoveNext(slots[..], i);
        }
      }
      MovedAll(slots[..], contents);
      slots := next;
    }

    // write: doubles first when another entry would be more than half.
    method Write(key: K, value: V)
      requires Valid()
      modifies this, slots
      ensures Valid() && contents == old(contents)[key := value]
      ensures slots.Length == if old(length) >= old(slots.Length) / 2 then 2 * old(slots.Length) else old(slots.Length)
      ensures old(IsPowerOfTwo(slots.Length)) ==> IsPowerOfTwo(slots.Length)
      ensures IsPowerOfTwo(slots.Length) && slots == old(slots) && old(slots[hash(key) % slots.Length]).Free? ==>
                slots[hash(key) % slots.Length] == Taken(key, value)
      ensures slots == old(slots) || fresh(slots)
    {
      hide Represents, Findable, IsPowerOfTwo;
      if length >= slots.Length / 2 {
        Expand();
      }
      var added := Store(slots, hash, key, value, contents);
      if added {
        length := length + 1;
      }
      contents := contents[key := value];
    }

    // remove: clears the slot of the key. The table stays good exactly when no other entry is
    // probed for through that slot.
    method Remove(key: K)
      requires Valid()
      modifies this, slots
      ensures slots == old(slots) && contents == old(contents) - {key} && length == |contents|
      ensures Represents(slots[..], contents)
      ensures key !in old(contents) ==> slots[..] == old(slots[..])
      ensures key in old(contents) ==>
                exists p: nat :: p < slots.Length && old(slots[..])[p] == Taken(key, old(contents)[key])
                                 && slots[..] == old(slots[..])[p := Free]
                                 && (Valid() <==> Uncrossed(old(slots[..]), hash, p))
      ensures IsPowerOfTwo(slots.Length) && ApartModulo(old(contents), hash, slots.Length) ==> Valid()
    {
      hide Represents, Findable, Uncrossed, IsPowerOfTwo, ApartModulo;
      ghost var s := slots[..];
      var index, found := Seek(key);
      if found {
        SlotsAreEntries(s, contents);
        ghost var free :| 0 <= free < |s| && s[free].Free?;
        if IsPowerOfTwo(slots.Length) && ApartModulo(contents, hash, slots.Length) {
          ApartUncrossed(s, hash, contents, free, index);
        }
        ClearedRepresents(s, contents, index);
        ClearedFindable(s, hash, contents, index);
        slots[index] := Free;
        length := length - 1;
        contents := contents - {key};
        assert slots[..] == s[index := Free];
      } else {
        assert contents - {key} == contents;
      }
    }
  }

  lemma ClearedFindable<K, V>(s: seq<Slot<K, V>>, hash: K -> nat, m: map<K, V>, p: nat)
    requires p < |s| && Represents(s, m) && Findable(s, hash) && s[p].Taken?
    ensures Findable(s[p := Free], hash) <==> Uncrossed(s, hash, p)
    ensures |m - {s[p].key}| == |m| - 1
  {
    assert m.Keys == (m - {s[p].key}).Keys + {s[p].key};
    if Uncrossed(s, hash, p) {
      UncrossedFindable(s, hash, p);
    } else {
      var i, e: nat :| 0 <= i < |s| && i != p && s[i].Taken? && e < Offset(Home(hash(s[i].key), |s|), i, |s|)
                       && Probe(Home(hash(s[i].key), |s|), e, |s|) == p;
      assert s[p := Free][i].Taken? &&
          !PathTaken(s[p := Free], Home(hash(s[i].key), |s|), Offset(Home(hash(s[i].key), |s|), i, |s|));
    }
  }

  lemma DoubledPower(n: nat)
    requires n > 0
    ensures IsPowerOfTwo(n) ==> IsPowerOfTwo(2 * n)
  {
    if IsPowerOfTwo(n) {
      var e: nat :| n == Pow2(e);
      assert 2 * n == Pow2(e + 1);
    }
  }

  lemma EmptyTable<K, V>(s: seq<Slot<K, V>>, hash: K -> nat)
    requires |s| > 0 && forall i | 0 <= i < |s| :: s[i].Free?
    ensures Represents(s, map[]) && Findable(s, hash)
  {
  }

  // The entries among the first n slots.
  ghost function Restricted<K, V>(s: seq<Slot<K, V>>, n: nat): map<K, V>
    requires n <= |s|
  {
    if n == 0 then map[]
    else if s[n - 1].Free? then Restricted(s, n - 1)
    else Restricted(s, n - 1)[s[n - 1].key := s[n - 1].value]
  }

  lemma MoveNext<K, V>(s: seq<Slot<K, V>>, n: nat)
    requires n < |s|
    ensures s[n].Free? ==> Restricted(s, n + 1) == Restricted(s, n)
    ensures s[n].Taken? ==> Restricted(s, n + 1) == Restricted(s, n)[s[n].key := s[n].value]
  {
  }

  lemma {:induction false} RestrictedEntries<K, V>(s: seq<Slot<K, V>>, m: map<K, V>, n: nat)
    requires Represents(s, m) && n <= |s|
    ensures forall k :: k in Restricted(s, n) <==> exists i :: 0 <= i < n && s[i].Taken? && s[i].key == k
    ensures forall k | k in Restricted(s, n) :: k in m && Restricted(s, n)[k] == m[k]
  {
    if n > 0 {
      RestrictedEntries(s, m, n - 1);
    }
  }

  lemma MovedAll<K, V>(s: seq<Slot<K, V>>, m: map<K, V>)
    requires Represents(s, m)
    ensures Restricted(s, |s|) == m
  {
    RestrictedEntries(s, m, |s|);
    forall k | k in m ensures k in Restricted(s, |s|) {
      assert Holds(s, k);
    }
  }
}
