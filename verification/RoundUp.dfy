/** The `kroundup32` macro: smear the top set bit of x - 1 downwards with shifts and ors, add one. */
module RoundUp {
  import opened Probe

  const WORD := 0x1_0000_0000

  // ---------- shift, or and exclusive or, on numbers ----------

  function Shr(x: nat, k: nat): nat {
    if k == 0 then x else Shr(x / 2, k - 1)
  }

  function Or(a: nat, b: nat): nat {
    if a == 0 && b == 0 then 0
    else 2 * Or(a / 2, b / 2) + (if a % 2 == 1 || b % 2 == 1 then 1 else 0)
  }

  function Xor(a: nat, b: nat): nat {
    if a == 0 && b == 0 then 0
    else 2 * Xor(a / 2, b / 2) + (if a % 2 != b % 2 then 1 else 0)
  }

  predicate Bit(x: nat, i: nat) {
    if i == 0 then x % 2 == 1 else Bit(x / 2, i - 1)
  }

  function Smear(x: nat, k: nat): nat {
    Or(x, Shr(x, k))
  }

  /** The macro, on 32-bit words: the decrement and the increment wrap around. */
  function Kroundup32(x: nat): nat
    requires x < WORD
  {
    var y := (x + WORD - 1) % WORD;
    (Smear(Smear(Smear(Smear(Smear(y, 1), 2), 4), 8), 16) + 1) % WORD
  }

  // ---------- what the bits are ----------

  lemma {:induction false} OrBit(a: nat, b: nat, i: nat)
    ensures Bit(Or(a, b), i) <==> Bit(a, i) || Bit(b, i)
    decreases i
  {
    if i == 0 {
    } else {
      OrBit(a / 2, b / 2, i - 1);
      assert Or(a, b) / 2 == Or(a / 2, b / 2);
    }
  }

  lemma {:induction false} ShrBit(x: nat, k: nat, i: nat)
    ensures Bit(Shr(x, k), i) <==> Bit(x, i + k)
    decreases k
  {
    if k == 0 {
    } else {
      ShrBit(x / 2, k - 1, i);
    }
  }

  lemma {:induction false} SameBits(a: nat, b: nat)
    requires forall i: nat :: Bit(a, i) <==> Bit(b, i)
    ensures a == b
    decreases a + b
  {
    if a == 0 && b == 0 {
    } else {
      assert Bit(a, 0) <==> Bit(b, 0);
      forall i: nat
        ensures Bit(a / 2, i) <==> Bit(b / 2, i)
      {
        assert Bit(a, i + 1) <==> Bit(b, i + 1);
      }
      SameBits(a / 2, b / 2);
    }
  }

  /** A number with highest bit number l. */
  lemma {:induction false} TopBit(x: nat, l: nat, i: nat)
    requires Pow2(l) <= x < Pow2(l + 1) && l <= i
    ensures Bit(x, i) <==> i == l
    decreases l
  {
    if l == 0 {
      if i > 0 { NoBits(i - 1); }
    } else {
      TopBit(x / 2, l - 1, i - 1);
    }
  }

  lemma {:induction false} NoBits(i: nat)
    ensures !Bit(0, i)
  {
    if i == 0 {
    } else {
      NoBits(i - 1);
    }
  }

  lemma {:induction false} AllOnes(l: nat, i: nat)
    ensures Bit(Pow2(l) - 1, i) <==> i < l
  {
    if l == 0 {
      NoBits(i);
    } else {
      assert (Pow2(l) - 1) / 2 == Pow2(l - 1) - 1;
      if i > 0 { AllOnes(l - 1, i - 1); }
    }
  }

  ghost predicate AnyBit(x: nat, lo: nat, hi: nat) {
    exists j: nat :: lo <= j < hi && Bit(x, j)
  }

  /** z has a bit wherever x has one at most m - 1 places higher up. */
  ghost predicate Smeared(x: nat, m: nat, z: nat) {
    forall i: nat :: Bit(z, i) <==> AnyBit(x, i, i + m)
  }

  lemma SmearDoubles(x: nat, m: nat, z: nat)
    requires Smeared(x, m, z)
    ensures Smeared(x, 2 * m, Smear(z, m))
  {
    forall i: nat
      ensures Bit(Smear(z, m), i) <==> AnyBit(x, i, i + 2 * m)
    {
      OrBit(z, Shr(z, m), i);
      ShrBit(z, m, i);
      assert Bit(z, i) <==> AnyBit(x, i, i + m);
      assert Bit(z, i + m) <==> AnyBit(x, i + m, i + m + m);
    }
  }

  lemma {:induction false} ShrZero(k: nat)
    ensures Shr(0, k) == 0
  {
    if k == 0 {
    } else {
      ShrZero(k - 1);
    }
  }

  lemma RoundUpOne()
    ensures Kroundup32(1) == 1
  {
  }

  lemma RoundUpZero()
    ensures Kroundup32(0) == 0
  {
    hide Smear, Smeared;
    Pow2Of32();
    assert (0 + WORD - 1) % WORD == WORD - 1;
    FiveSmears(WORD - 1);
    SmearedIsAllOnes(WORD - 1, 31, Smear(Smear(Smear(Smear(Smear(WORD - 1, 1), 2), 4), 8), 16));
  }

  lemma FiveSmears(y: nat)
    ensures Smeared(y, 32, Smear(Smear(Smear(Smear(Smear(y, 1), 2), 4), 8), 16))
  {
    forall i: nat
      ensures Bit(y, i) <==> AnyBit(y, i, i + 1)
    {
      assert Bit(y, i) ==> i <= i < i + 1;
    }
    SmearDoubles(y, 1, y);
    SmearDoubles(y, 2, Smear(y, 1));
    SmearDoubles(y, 4, Smear(Smear(y, 1), 2));
    SmearDoubles(y, 8, Smear(Smear(Smear(y, 1), 2), 4));
    SmearDoubles(y, 16, Smear(Smear(Smear(Smear(y, 1), 2), 4), 8));
  }

  lemma SmearedIsAllOnes(y: nat, l: nat, z: nat)
    requires Pow2(l) <= y < Pow2(l + 1) && l < 32 && Smeared(y, 32, z)
    ensures z == Pow2(l + 1) - 1
  {
    forall i: nat
      ensures Bit(z, i) <==> Bit(Pow2(l + 1) - 1, i)
    {
      AllOnes(l + 1, i);
      TopBit(y, l, l);
      if l < i {
        forall j: nat | i <= j
          ensures !Bit(y, j)
        {
          TopBit(y, l, j);
        }
      }
    }
    SameBits(z, Pow2(l + 1) - 1);
  }

  /** kroundup32 gives the least power of two that is not below x, modulo 2^32: above 2^31 it wraps to 0. */
  lemma Kroundup32IsNextPow2(x: nat, l: nat)
    requires Pow2(l) < x <= Pow2(l + 1) && x < WORD && l < 32
    ensures Kroundup32(x) == Pow2(l + 1) % WORD
  {
    hide Smear, Smeared;
    assert (x + WORD - 1) % WORD == x - 1;
    FiveSmears(x - 1);
    SmearedIsAllOnes(x - 1, l, Smear(Smear(Smear(Smear(Smear(x - 1, 1), 2), 4), 8), 16));
  }

  lemma Pow2Of32()
    ensures Pow2(31) == 0x8000_0000 && Pow2(32) == WORD
  {
    assert Pow2(8) == 256;
    assert Pow2(16) == 0x1_0000;
    assert Pow2(24) == 0x100_0000;
  }

  lemma {:induction false} Pow2Mono(a: nat, b: nat)
    requires a <= b
    ensures Pow2(a) <= Pow2(b)
  {
    if a == b {
    } else {
      Pow2Mono(a, b - 1);
    }
  }

  lemma Pow2Order(a: nat, b: nat)
    requires Pow2(a) < Pow2(b)
    ensures a < b && 2 * Pow2(a) <= Pow2(b)
  {
  }

  lemma {:induction false} Bracket(x: nat) returns (l: nat)
    requires x >= 2
    ensures Pow2(l) < x <= Pow2(l + 1)
  {
    if x == 2 {
      l := 0;
    } else {
      var l' := Bracket((x + 1) / 2);
      l := l' + 1;
    }
  }

  lemma RoundUpLarge(x: nat)
    requires 2 <= x < WORD
    ensures x > 0x8000_0000 ==> Kroundup32(x) == 0
    ensures x <= 0x8000_0000 ==>
      IsPow2(Kroundup32(x)) && x <= Kroundup32(x) <= 0x8000_0000 && Kroundup32(x) < 2 * x
  {
    hide Kroundup32;
    Pow2Of32();
    var l := Bracket(x);
    Pow2Order(l, 32);
    Kroundup32IsNextPow2(x, l);
    if x > 0x8000_0000 {
      Pow2Order(31, l + 1);
    } else {
      Pow2Order(l, 31);
      Pow2Mono(l + 1, 31);
      assert Kroundup32(x) == Pow2(l + 1);
    }
  }

  /** For every requested size: either the wrapped 0, or the least power of two that is big enough. */
  lemma Kroundup32Spec(x: nat)
    requires x < WORD
    ensures x == 0 || x > 0x8000_0000 ==> Kroundup32(x) == 0
    ensures 0 < x <= 0x8000_0000 ==>
      IsPow2(Kroundup32(x)) && x <= Kroundup32(x) <= 0x8000_0000 && Kroundup32(x) < 2 * x
  {
    hide Kroundup32;
    Pow2Of32();
    if x == 0 {
      RoundUpZero();
    } else if x == 1 {
      RoundUpOne();
      assert 1 == Pow2(0);
    } else {
      RoundUpLarge(x);
    }
  }
}
