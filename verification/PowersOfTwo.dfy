/** The next power of two of the vector's allocation (runtime/backend/vector/vector.h). */
module PowersOfTwo {
  import opened Arithmetic

  function BitOr(a: nat, b: nat): nat {
    if a == 0 && b == 0 then 0 else 2 * BitOr(a / 2, b / 2) + if a % 2 == 1 || b % 2 == 1 then 1 else 0
  }

  function Shift(x: nat, k: nat): nat {
    if k == 0 then x else Shift(x / 2, k - 1)
  }

  function Bit(x: nat, i: nat): nat {
    if i == 0 then x % 2 else Bit(x / 2, i - 1)
  }

  // How many bits x takes.
  function Width(x: nat): nat {
    if x == 0 then 0 else 1 + Width(x / 2)
  }

  // x with the k bits below each of its bits set too.
  function SmearBy(x: nat, k: nat): nat {
    BitOr(x, Shift(x, k))
  }

  function Smear(x: nat): nat {
    SmearBy(SmearBy(SmearBy(SmearBy(SmearBy(SmearBy(x, 1), 2), 4), 8), 16), 32)
  }

  // In 64-bit arithmetic, where 0 - 1 and the last increment wrap around.
  function NextPowerOfTwo(n: nat): (p: nat)
    requires n < WORD
    ensures p < WORD
  {
    (Smear((n + WORD - 1) % WORD) + 1) % WORD
  }

  lemma {:induction false} BitOfOr(a: nat, b: nat, i: nat)
    ensures Bit(BitOr(a, b), i) == if Bit(a, i) == 1 || Bit(b, i) == 1 then 1 else 0
    decreases i
  {
    if a == 0 && b == 0 {
      BitOfZero(i);
    } else if i > 0 {
      BitOfOr(a / 2, b / 2, i - 1);
    }
  }

  lemma {:induction false} BitOfZero(i: nat)
    ensures Bit(0, i) == 0
    decreases i
  {
    if i > 0 {
      BitOfZero(i - 1);
    }
  }

  lemma {:induction false} BitOfShift(x: nat, k: nat, i: nat)
    ensures Bit(Shift(x, k), i) == Bit(x, i + k)
    decreases k
  {
    if k > 0 {
      BitOfShift(x / 2, k - 1, i);
    }
  }

  lemma {:induction false} OrBelow(a: nat, b: nat, w: nat)
    requires a < Pow2(w) && b < Pow2(w)
    ensures BitOr(a, b) < Pow2(w)
    decreases w
  {
    if w > 0 {
      OrBelow(a / 2, b / 2, w - 1);
    }
  }

  lemma {:induction false} ShiftBelow(x: nat, k: nat)
    ensures Shift(x, k) <= x
    decreases k
  {
    if k > 0 {
      ShiftBelow(x / 2, k - 1);
    }
  }

  lemma {:induction false} AllOnes(x: nat, w: nat)
    requires x < Pow2(w) && forall i: nat | i < w :: Bit(x, i) == 1
    ensures x == Pow2(w) - 1
    decreases w
  {
    if w > 0 {
      forall i: nat | i < w - 1 ensures Bit(x / 2, i) == 1 {
        assert Bit(x, i + 1) == 1;
      }
      AllOnes(x / 2, w - 1);
      assert Bit(x, 0) == 1;
    }
  }

  lemma {:induction false} WidthBounds(x: nat)
    ensures x < Pow2(Width(x))
    ensures x > 0 ==> Pow2(Width(x) - 1) <= x && Bit(x, Width(x) - 1) == 1
    decreases x
  {
    hide Pow2;
    Pow2Step(0);
    if x > 0 {
      var w := Width(x / 2);
      WidthBounds(x / 2);
      Pow2Step(w);
      if w > 0 {
        Pow2Step(w - 1);
      }
    }
  }

  lemma Pow2Step(w: nat)
    ensures Pow2(0) == 1 && Pow2(w + 1) == 2 * Pow2(w)
  {
  }

  // x takes w bits, of which the top k are set.
  ghost predicate TopSet(x: nat, w: nat, k: nat) {
    x < Pow2(w) && forall i: nat | i < w <= i + k :: Bit(x, i) == 1
  }

  // Each step doubles the run of set bits at the top.
  lemma Doubled(x: nat, w: nat, k: nat)
    requires TopSet(x, w, k)
    ensures TopSet(SmearBy(x, k), w, 2 * k)
  {
    ShiftBelow(x, k);
    OrBelow(x, Shift(x, k), w);
    forall i: nat | i < w <= i + 2 * k ensures Bit(SmearBy(x, k), i) == 1 {
      BitOfOr(x, Shift(x, k), i);
      BitOfShift(x, k, i);
      assert w <= i + k || Bit(x, i + k) == 1;
    }
  }

  lemma SmearFills(x: nat)
    requires Width(x) <= 64
    ensures Smear(x) == Pow2(Width(x)) - 1
  {
    hide SmearBy, BitOr, Shift;
    var w := Width(x);
    WidthBounds(x);
    assert TopSet(x, w, 1);
    var x1 := SmearBy(x, 1);
    Doubled(x, w, 1);
    var x2 := SmearBy(x1, 2);
    Doubled(x1, w, 2);
    var x4 := SmearBy(x2, 4);
    Doubled(x2, w, 4);
    var x8 := SmearBy(x4, 8);
    Doubled(x4, w, 8);
    var x16 := SmearBy(x8, 16);
    Doubled(x8, w, 16);
    Doubled(x16, w, 32);
    AllOnes(SmearBy(x16, 32), w);
  }

  lemma {:induction false} Pow2Grows(a: nat, b: nat)
    requires a <= b
    ensures 1 <= Pow2(a) <= Pow2(b)
    decreases b
  {
    if a < b {
      Pow2Grows(a, b - 1);
    } else if a > 0 {
      Pow2Grows(a - 1, b - 1);
    }
  }

  lemma {:induction false} WidthAtMost(x: nat, w: nat)
    requires x < Pow2(w)
    ensures Width(x) <= w
    decreases x
  {
    if x > 0 {
      WidthAtMost(x / 2, w - 1);
    }
  }

  lemma {:induction false} Pow2Sum(a: nat, b: nat)
    ensures Pow2(a + b) == Pow2(a) * Pow2(b)
    decreases a
  {
    if a > 0 {
      Pow2Sum(a - 1, b);
      assert Pow2(a + b) == 2 * (Pow2(a - 1) * Pow2(b));
    }
  }

  lemma SmallPowers()
    ensures Pow2(1) == 2 && Pow2(4) == 16
  {
    assert Pow2(2) == 4;
  }

  lemma WordSizes()
    ensures Pow2(64) == WORD && Pow2(63) == WORD / 2
  {
    hide Pow2;
    SmallPowers();
    Pow2Sum(4, 4);
    assert Pow2(8) == 0x100;
    Pow2Sum(8, 8);
    assert Pow2(16) == 0x1_0000;
    Pow2Sum(16, 16);
    assert Pow2(32) == 0x1_0000_0000;
    Pow2Sum(32, 32);
    Pow2Sum(1, 63);
  }

  // The least power of two that is at least n.
  ghost predicate IsNextPowerOfTwo(n: nat, p: nat) {
    (exists e: nat :: p == Pow2(e)) && n <= p && forall e: nat | n <= Pow2(e) :: p <= Pow2(e)
  }

  // The bit trick is right exactly from 1 to 2^63; outside, it comes to 0.
  lemma NextPowerOfTwoIff(n: nat)
    requires n < WORD
    ensures IsNextPowerOfTwo(n, NextPowerOfTwo(n)) <==> 1 <= n <= WORD / 2
    ensures !(1 <= n <= WORD / 2) ==> NextPowerOfTwo(n) == 0
  {
    hide Smear, Pow2;
    WordSizes();
    var x := (n + WORD - 1) % WORD;
    assert x == if n == 0 then WORD - 1 else n - 1;
    WidthAtMost(x, 64);
    SmearFills(x);
    WidthBounds(x);
    if 1 <= n <= WORD / 2 {
      WidthAtMost(x, 63);
      Pow2Grows(Width(x), 63);
      LeastPower(n);
    } else {
      if Width(x) < 64 {
        Pow2Grows(Width(x), 63);
      }
      forall e: nat ensures Pow2(e) != 0 {
        Pow2Grows(e, e);
      }
    }
  }

  lemma LeastPower(n: nat)
    requires n >= 1
    ensures IsNextPowerOfTwo(n, Pow2(Width(n - 1)))
  {
    var w := Width(n - 1);
    WidthBounds(n - 1);
    forall e: nat | n <= Pow2(e) ensures Pow2(w) <= Pow2(e) {
      WidthAtMost(n - 1, e);
      Pow2Grows(w, e);
    }
  }
}
