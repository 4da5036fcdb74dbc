/** Triangular ("quadratic") probing over a power-of-two number of buckets: the arithmetic that
    khash relies on when it stops a probe loop as soon as it is back at the bucket it started from. */
module Probe {

  function Pow2(k: nat): (r: nat)
    ensures r >= 1
  {
    if k == 0 then 1 else 2 * Pow2(k - 1)
  }

  ghost predicate IsPow2(n: nat) {
    exists k: nat :: n == Pow2(k)
  }

  /** 1 + 2 + ... + s: how far a probe loop has moved after s steps. */
  function Tri(s: nat): nat {
    if s == 0 then 0 else Tri(s - 1) + s
  }

  /** The bucket looked at after s steps from hash value h, in a table of n buckets.
      `x & (n - 1)` of the C code is the remainder modulo n, as n is a power of two. */
  function Bucket(h: nat, s: nat, n: nat): (b: nat)
    requires n > 0
    ensures b < n
  {
    (h + Tri(s)) % n
  }

  lemma FirstBucket(h: nat, n: nat)
    requires n > 0
    ensures Bucket(h, 0, n) == h % n
  {
  }

  // ---------- arithmetic ----------

  /** Every quotient-remainder split is the quotient-remainder split. */
  lemma DivModUnique(x: int, d: int, q: int, r: int)
    requires d > 0 && 0 <= r < d && x == q * d + r
    ensures x / d == q && x % d == r
  {
    var e := q - x / d;
    assert x == (x / d) * d + x % d;
    assert e * d == x % d - r;
    assert e >= 1 ==> e * d >= d;
    assert e <= -1 ==> e * d <= -d;
  }

  lemma SmallMod(x: nat, d: nat)
    requires x < d
    ensures x % d == x
  {
  }

  /** Taking one more step from a reduced bucket is the same as taking it from the unreduced sum. */
  lemma NextBucket(h: nat, s: nat, n: nat)
    requires n > 0
    ensures (Bucket(h, s, n) + (s + 1)) % n == Bucket(h, s + 1, n)
  {
    var x := h + Tri(s);
    var y := x % n + (s + 1);
    assert x == (x / n) * n + x % n;
    assert x + s + 1 == (x / n + y / n) * n + y % n by {
      assert y == (y / n) * n + y % n;
      assert (x / n + y / n) * n == (x / n) * n + (y / n) * n;
    }
    DivModUnique(x + s + 1, n, x / n + y / n, y % n);
  }

  lemma SameRemainder(x: nat, y: nat, n: nat)
    requires n > 0 && x <= y && x % n == y % n
    ensures (y - x) % n == 0
  {
    assert x == (x / n) * n + x % n;
    assert y == (y / n) * n + y % n;
    assert y - x == (y / n - x / n) * n + 0 by {
      assert (y / n - x / n) * n == (y / n) * n - (x / n) * n;
    }
    DivModUnique(y - x, n, y / n - x / n, 0);
  }

  lemma {:induction false} TriClosed(s: nat)
    ensures 2 * Tri(s) == s * (s + 1)
  {
    if s == 0 {
    } else {
      TriClosed(s - 1);
      assert s * (s + 1) == (s - 1) * s + 2 * s;
    }
  }

  lemma EvenProduct(a: nat, b: nat)
    requires a % 2 == 1 && (a * b) % 2 == 0
    ensures b % 2 == 0
  {
    var p, q := a / 2, b / 2;
    assert a * b == (2 * p + 1) * b == 2 * (p * b) + b;
  }

  /** An odd factor can be cancelled from divisibility by a power of two. */
  lemma {:induction false} CancelOdd(a: nat, b: nat, m: nat)
    requires a % 2 == 1 && (a * b) % Pow2(m) == 0
    ensures b % Pow2(m) == 0
  {
    if m == 0 {
    } else {
      var p := Pow2(m - 1);
      var q := (a * b) / (2 * p);
      assert a * b == q * (2 * p);
      assert a * b == 2 * (q * p);
      EvenProduct(a, b);
      var c := b / 2;
      assert b == 2 * c;
      assert a * b == 2 * (a * c);
      assert a * c == q * p;
      DivModUnique(a * c, p, q, 0);
      CancelOdd(a, c, m - 1);
      assert c == (c / p) * p;
      assert b == (c / p) * (2 * p) + 0;
      DivModUnique(b, 2 * p, c / p, 0);
    }
  }

  // ---------- the probe sequence ----------

  lemma TriDifference(s: nat, t: nat)
    requires s < t
    ensures Tri(t) > Tri(s)
    ensures 2 * (Tri(t) - Tri(s)) == (t - s) * (t + s + 1)
  {
  }

  /** One of two coprime-parity factors carries all the twos. */
  lemma SplitPow2(a: nat, b: nat, m: nat)
    requires (a + b) % 2 == 1 && (a * b) % Pow2(m) == 0
    ensures a % Pow2(m) == 0 || b % Pow2(m) == 0
  {
    if a % 2 == 1 {
      CancelOdd(a, b, m);
    } else {
      assert a * b == b * a;
      CancelOdd(b, a, m);
    }
  }

  lemma TwiceMultiple(x: nat, d: nat, n: nat)
    requires n > 0 && x == 2 * d && d % n == 0
    ensures x % (2 * n) == 0
  {
    assert x == (d / n) * (2 * n) + 0;
    DivModUnique(x, 2 * n, d / n, 0);
  }

  /** Two probes of one search meet exactly when a factor of their step distance is a multiple of 2n. */
  lemma ProbesMeet(h: nat, s: nat, t: nat, k: nat)
    requires s < t && Bucket(h, s, Pow2(k)) == Bucket(h, t, Pow2(k))
    ensures (t - s) % Pow2(k + 1) == 0 || (t + s + 1) % Pow2(k + 1) == 0
  {
    hide Tri;
    var n := Pow2(k);
    TriDifference(s, t);
    SameRemainder(h + Tri(s), h + Tri(t), n);
    TwiceMultiple((t - s) * (t + s + 1), Tri(t) - Tri(s), n);
    assert ((t - s) + (t + s + 1)) % 2 == 1;
    SplitPow2(t - s, t + s + 1, k + 1);
  }

  /** The first 2^k probes of any search look at pairwise different buckets. */
  lemma ProbesDistinct(h: nat, s: nat, t: nat, k: nat)
    requires s < t < Pow2(k)
    ensures Bucket(h, s, Pow2(k)) != Bucket(h, t, Pow2(k))
  {
    SmallMod(t - s, Pow2(k + 1));
    SmallMod(t + s + 1, Pow2(k + 1));
    if Bucket(h, s, Pow2(k)) == Bucket(h, t, Pow2(k)) {
      ProbesMeet(h, s, t, k);
    }
  }

  /** The first n natural numbers. */
  ghost function Range(n: nat): (r: set<nat>)
    ensures forall i: nat :: i in r <==> i < n
  {
    if n == 0 then {} else Range(n - 1) + {n - 1}
  }

  lemma {:induction false} RangeSize(n: nat)
    ensures |Range(n)| == n
  {
    if n == 0 {
    } else {
      RangeSize(n - 1);
    }
  }

  lemma {:induction false} VisitedSize(h: nat, s: nat, k: nat)
    requires s <= Pow2(k)
    ensures |set t | 0 <= t < s :: Bucket(h, t, Pow2(k))| == s
  {
    if s == 0 {
    } else {
      VisitedSize(h, s - 1, k);
      var before := set t | 0 <= t < s - 1 :: Bucket(h, t, Pow2(k));
      var last := Bucket(h, s - 1, Pow2(k));
      if last in before {
        var t :| 0 <= t < s - 1 && Bucket(h, t, Pow2(k)) == last;
        ProbesDistinct(h, t, s - 1, k);
      }
      assert (set t | 0 <= t < s :: Bucket(h, t, Pow2(k))) == before + {last};
    }
  }

  lemma SubsetOfSameSize<T>(a: set<T>, b: set<T>)
    requires a <= b && |a| == |b|
    ensures a == b
  {
    assert b == a + (b - a);
    assert |b| == |a| + |b - a|;
  }

  /** ... and so the first 2^k probes look at every bucket: a search that has seen them all has
      seen the whole table. */
  lemma ProbesCover(h: nat, b: nat, n: nat) returns (s: nat)
    requires IsPow2(n) && b < n
    ensures s < n && Bucket(h, s, n) == b
  {
    var k: nat :| n == Pow2(k);
    var visited := set t | 0 <= t < n :: Bucket(h, t, n);
    VisitedSize(h, n, k);
    RangeSize(n);
    SubsetOfSameSize(visited, Range(n));
    assert b in visited;
    s :| 0 <= s < n && Bucket(h, s, n) == b;
  }

  lemma MultipleOf(x: nat, d: nat) returns (q: nat)
    requires d > 0 && x % d == 0
    ensures x == q * d
  {
    q := x / d;
  }

  lemma AddMultiple(x: nat, q: nat, n: nat)
    requires n > 0
    ensures (x + q * n) % n == x % n
  {
    assert x + q * n == (x / n + q) * n + x % n by {
      assert (x / n + q) * n == (x / n) * n + q * n;
    }
    DivModUnique(x + q * n, n, x / n + q, x % n);
  }

  lemma MultipleReturns(h: nat, s: nat, n: nat)
    requires n > 0 && (s % (2 * n) == 0 || (s + 1) % (2 * n) == 0)
    ensures Bucket(h, s, n) == h % n
  {
    TriClosed(s);
    if s % (2 * n) == 0 {
      var q := MultipleOf(s, 2 * n);
      Regroup(q, n, s + 1);
      AddMultiple(h, q * (s + 1), n);
    } else {
      var q := MultipleOf(s + 1, 2 * n);
      Regroup(q, n, s);
      AddMultiple(h, q * s, n);
    }
  }

  lemma Regroup(q: nat, n: nat, t: nat)
    ensures (q * (2 * n)) * t == 2 * ((q * t) * n) && t * (q * (2 * n)) == 2 * ((q * t) * n)
  {
  }

  /** A search is back at its first bucket exactly after the steps s with 2n | s or 2n | s + 1 ... */
  lemma ReturnsToStart(h: nat, s: nat, k: nat)
    requires s > 0
    ensures Bucket(h, s, Pow2(k)) == h % Pow2(k)
      <==> s % Pow2(k + 1) == 0 || (s + 1) % Pow2(k + 1) == 0
  {
    if Bucket(h, s, Pow2(k)) == h % Pow2(k) {
      assert Bucket(h, 0, Pow2(k)) == h % Pow2(k);
      ProbesMeet(h, 0, s, k);
    }
    if s % Pow2(k + 1) == 0 || (s + 1) % Pow2(k + 1) == 0 {
      MultipleReturns(h, s, Pow2(k));
    }
  }

  /** ... so the first return is at step 2n - 1, after every bucket has been seen. */
  lemma FirstReturn(h: nat, s: nat, n: nat)
    requires IsPow2(n) && s > 0
    ensures s < 2 * n - 1 ==> Bucket(h, s, n) != h % n
    ensures Bucket(h, 2 * n - 1, n) == h % n
  {
    var k: nat :| n == Pow2(k);
    ReturnsToStart(h, s, k);
    if s < 2 * n - 1 {
      SmallMod(s, 2 * n);
      SmallMod(s + 1, 2 * n);
    }
    DivModUnique(2 * n, 2 * n, 1, 0);
    ReturnsToStart(h, 2 * n - 1, k);
  }
}
