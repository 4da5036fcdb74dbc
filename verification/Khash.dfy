/** The khash table itself: open addressing over power-of-two arrays, tombstones, in-place rehash. */
module Khash {
  import opened Probe
  import opened RoundUp
  import opened KhashFlags
  import opened KhashTable

  const MAX_BUCKETS := 0x8000_0000

  /** (khint_t)(n * 0.77 + 0.5) */
  function Upper(n: nat): nat {
    (77 * n + 50) / 100
  }

  /** So many buckets may be used before a rehash: 0.77 of them, rounded to the nearest whole number. */
  lemma UpperIs(n: nat)
    ensures Upper(n) as real <= n as real * 0.77 + 0.5 < Upper(n) as real + 1.0
  {
    var u, r := Upper(n), (77 * n + 50) % 100;
    assert 77 * n + 50 == 100 * u + r;
    assert 77.0 * n as real + 50.0 == 100.0 * u as real + r as real;
  }

  datatype PutResult = Present | NewBucket | ReusedBucket

  /** krealloc: a block of the given length with as much of the old contents as fits. */
  method Realloc<T(0)>(a: array<T>, length: nat) returns (b: array<T>)
    ensures fresh(b) && b.Length == length
    ensures forall i :: 0 <= i < length && i < a.Length ==> b[i] == a[i]
  {
    b := new T[length];
    forall i | 0 <= i < length && i < a.Length {
      b[i] := a[i];
    }
  }

  /** Whatever is asked for, the new table has a legal size. */
  lemma LegalSize(asked: nat, n: nat)
    requires asked < WORD && n == (if Kroundup32(asked) < 4 then 4 else Kroundup32(asked))
    ensures IsPow2(n) && 4 <= n <= MAX_BUCKETS && (n < 16 || n % 16 == 0)
  {
    Kroundup32Spec(asked);
    assert 4 == Pow2(2);
    if n >= 16 {
      var k: nat :| n == Pow2(k);
      assert Pow2(4) == 16;
      if k < 4 { Pow2Mono(k, 3); }
      Pow2Multiple(4, k);
    }
  }

  /** Rehashing at the present size ... */
  lemma RoundUpSame(n: nat)
    requires IsPow2(n) && 4 <= n <= MAX_BUCKETS
    ensures Kroundup32(n - 1) == n && 2 * Upper(n) > n
  {
    hide Kroundup32;
    Kroundup32Spec(n - 1);
    var k: nat :| n == Pow2(k);
    var l: nat :| Kroundup32(n - 1) == Pow2(l);
    if Pow2(l) < Pow2(k) { Pow2Order(l, k); }
    if Pow2(k) < Pow2(l) { Pow2Order(k, l); }
  }

  /** ... and at the next one. */
  lemma RoundUpNext(n: nat)
    requires n == 0 || (IsPow2(n) && 4 <= n <= MAX_BUCKETS)
    ensures n == 0 ==> Kroundup32(n + 1) == 1
    ensures 0 < n < MAX_BUCKETS ==> Kroundup32(n + 1) == 2 * n && Upper(2 * n) > n
    ensures n == MAX_BUCKETS ==> Kroundup32(n + 1) == 0
  {
    hide Kroundup32;
    Kroundup32Spec(n + 1);
    if n == 0 {
      RoundUpOne();
    } else if n < MAX_BUCKETS {
      var k: nat :| n == Pow2(k);
      var l: nat :| Kroundup32(n + 1) == Pow2(l);
      Pow2Order(k, l);
    }
  }

  lemma Doubled(size: nat)
    requires size <= MAX_BUCKETS
    ensures 2 * size % WORD == if size < MAX_BUCKETS then 2 * size else 0
  {
  }

  lemma {:induction false} Pow2Multiple(a: nat, b: nat)
    requires a <= b
    ensures Pow2(b) % Pow2(a) == 0
  {
    if a == b {
    } else {
      Pow2Multiple(a, b - 1);
      var q := Pow2(b - 1) / Pow2(a);
      assert Pow2(b) == (2 * q) * Pow2(a) + 0;
      DivModUnique(Pow2(b), Pow2(a), 2 * q, 0);
    }
  }

  class KHash<K(==,0), V(0)> {
    const hash: K -> nat
    var nBuckets: nat
    var size: nat
    var nOccupied: nat
    var upperBound: nat
    var flags: Flags
    var keys: array<K>
    var vals: array<V>
    ghost var m: map<K, V>       // the map the table stands for
    ghost var at: map<K, nat>    // the bucket of each of its keys

    /** The objects are in place and do not overlap. */
    ghost predicate Shape()
      reads this, flags, flags.words, keys, vals
    {
      && flags.Valid()
      && keys as object != vals as object && keys as object != flags.words as object
      && vals as object != flags.words as object
      && keys.Length == vals.Length == nBuckets <= |flags.st|
    }

    ghost predicate Valid()
      reads this, flags, flags.words, keys, vals
    {
      && Shape()
      && size == |m|
      && (nBuckets == 0 ==> m == map[] && at == map[] && nOccupied == upperBound == 0)
      && (nBuckets > 0 ==>
            && 4 <= nBuckets <= MAX_BUCKETS && IsPow2(nBuckets)
            && upperBound == Upper(nBuckets)
            && Table(hash, nBuckets, flags.st, keys[..], vals[..], m, at)
            && nOccupied == |Occupied(flags.st, nBuckets)|
            && (nOccupied <= upperBound || nBuckets == MAX_BUCKETS))
    }

    /** kh_init */
    constructor (hash: K -> nat)
      ensures Valid() && m == map[] && this.hash == hash
      ensures fresh(flags) && fresh(flags.words) && fresh(keys) && fresh(vals)
    {
      this.hash := hash;
      nBuckets, size, nOccupied, upperBound := 0, 0, 0, 0;
      m, at := map[], map[];
      var f := new Flags(0);
      var ks := new K[0];
      var vs := new V[0];
      flags, keys, vals := f, ks, vs;
    }

    /** What is in the bucket of a key. */
    lemma AtKey(key: K)
      requires Valid() && key in m
      ensures key in at && at[key] < nBuckets && flags.st[at[key]].Live?
      ensures at[key] < keys.Length == vals.Length && keys[at[key]] == key && vals[at[key]] == m[key]
    {
      assert keys[..][at[key]] == key && vals[..][at[key]] == m[key];
    }

    lemma Located()
      requires Valid()
      ensures at.Keys == m.Keys
      ensures nBuckets <= |flags.st| && keys.Length == vals.Length == nBuckets
      ensures forall key :: key in m ==> at[key] < nBuckets
    {
    }

    /** What is in a live bucket. */
    lemma InBucket(x: nat)
      requires Valid() && x < nBuckets && flags.st[x].Live?
      ensures x < keys.Length == vals.Length && keys[x] in m && keys[x] in at
      ensures at[keys[x]] == x && vals[x] == m[keys[x]]
    {
      assert keys[..][x] == keys[x] && vals[..][x] == vals[x];
    }

    /** kh_get: the bucket of the key, or n_buckets. */
    method Get(key: K) returns (x: nat)
      requires Valid()
      ensures key in m ==> x < nBuckets && key in at && x == at[key]
      ensures key !in m ==> x == nBuckets
    {
      hide Table, Scanned, Bucket;
      if nBuckets == 0 {
        return 0;
      }
      var step := 0;
      var i: nat := hash(key) % nBuckets;
      var last := i;
      FirstBucket(hash(key), nBuckets);
      ghost var h, n, st, ks := hash(key), nBuckets, flags.st, keys[..];
      ScannedNone(h, n, st, ks, key);
      while true
        invariant step < 2 * n - 1 && i == Bucket(h, step, n)
        invariant Scanned(h, step, n, st, ks, key)
        decreases 2 * n - step
      {
        var empty := flags.IsEmpty(i);
        if empty {
          SearchIsComplete(hash, n, st, ks, vals[..], m, at, key, step);
          return nBuckets;
        }
        var del := flags.IsDel(i);
        if !del && keys[i] == key {
          SearchIsSound(hash, n, st, ks, vals[..], m, at, i);
          return i;
        }
        ScannedOne(h, step, n, st, ks, key);
        NextBucket(h, step, n);
        step := step + 1;
        i := (i + step) % nBuckets;
        FirstReturn(h, step, n);
        if i == last {
          SearchIsComplete(hash, n, st, ks, vals[..], m, at, key, step);
          return nBuckets;
        }
      }
    }

    /** kh_exist */
    method Exist(x: nat) returns (b: bool)
      requires Valid() && x < nBuckets
      ensures b == flags.st[x].Live?
    {
      var either := flags.IsEither(x);
      return !either;
    }

    /** kh_del */
    method Del(x: nat)
      requires Valid() && x <= nBuckets
      modifies this, flags, flags.words
      ensures Valid() && flags == old(flags) && keys == old(keys) && vals == old(vals)
      ensures nBuckets == old(nBuckets)
      ensures if x < nBuckets && old(flags.st[x].Live?) then m == old(m) - {old(keys[x])} else m == old(m)
    {
      hide Table, Occupied, Flags.Valid, IsPow2;
      if x != nBuckets {
        var either := flags.IsEither(x);
        if !either {
          DelKeeps(hash, nBuckets, flags.st, keys[..], vals[..], m, at, x);
          assert keys[..][x] == keys[x];
          flags.SetIsDelTrue(x);
          size := size - 1;
          at := at - {keys[x]};
          m := m - {keys[x]};
        }
      }
    }

    /** The objects the rehash works on are all different. */
    ghost predicate Apart(nf: Flags)
      reads this
    {
      && nf != flags && nf.words != flags.words
      && keys as object != vals as object
      && keys as object != flags.words as object && vals as object != flags.words as object
      && keys as object != nf.words as object && vals as object != nf.words as object
    }

    /** Find an empty bucket among the new flags for a key. */
    method FindNewBucket(nf: Flags, n: nat, key: K, ghost old_: seq<Flag>, ghost at': map<K, int>) returns (i: nat)
      requires nf.Valid() && IsPow2(n) && |m| < n <= |nf.st|
      requires Moving(hash, nBuckets, n, old_, nf.st, keys[..], vals[..], m, at', Holding(key))
      ensures i < n && nf.st[i].Empty? && Reach(hash(key), n, nf.st, i)
    {
      ghost var b := EmptyBucketLeft(hash, nBuckets, n, old_, nf.st, keys[..], vals[..], m, at', Holding(key));
      hide Moving, Bucket;
      ghost var d := ProbesCover(hash(key), b, n);
      var step := 0;
      i := hash(key) % n;
      FirstBucket(hash(key), n);
      assert Path(hash(key), 0, n, nf.st);
      var empty := nf.IsEmpty(i);
      while !empty
        invariant step <= d && i == Bucket(hash(key), step, n)
        invariant empty == nf.st[i].Empty?
        invariant Path(hash(key), step, n, nf.st)
        decreases n - step
      {
        NextBucket(hash(key), step, n);
        step := step + 1;
        i := (i + step) % n;
        empty := nf.IsEmpty(i);
      }
    }

    /** The kick-out loop, for the live pair in old bucket j. */
    method KickOut(nf: Flags, n: nat, j: nat, ghost at0: map<K, int>) returns (ghost at1: map<K, int>)
      requires Apart(nf) && flags.Valid() && nf.Valid() && IsPow2(n) && |m| < n <= |nf.st|
      requires Moving(hash, nBuckets, n, flags.st, nf.st, keys[..], vals[..], m, at0, Nothing)
      requires nBuckets <= |flags.st| && nBuckets <= keys.Length && n <= keys.Length == vals.Length
      requires j < nBuckets && flags.st[j].Live?
      modifies flags, flags.words, nf, nf.words, keys, vals
      ensures flags.Valid() && nf.Valid() && |nf.st| == old(|nf.st|)
      ensures Moving(hash, nBuckets, n, flags.st, nf.st, keys[..], vals[..], m, at1, Nothing)
      ensures |flags.st| == old(|flags.st|) && !flags.st[j].Live?
      ensures forall i :: 0 <= i < nBuckets && flags.st[i].Live? ==> old(flags.st[i].Live?)
    {
      hide Moving, Reach, LiveSet, Flags.Valid, IsPow2;
      var key, val := keys[j], vals[j];
      LiftKeeps(hash, nBuckets, n, flags.st, nf.st, keys[..], vals[..], m, at0, j);
      at1 := at0[key := -1];
      flags.SetIsDelTrue(j);
      while true
        invariant flags.Valid() && nf.Valid() && |nf.st| == old(|nf.st|) && |flags.st| == old(|flags.st|)
        invariant Moving(hash, nBuckets, n, flags.st, nf.st, keys[..], vals[..], m, at1, Holding(key))
        invariant key in m && val == m[key] && !flags.st[j].Live?
        invariant forall i :: 0 <= i < nBuckets && flags.st[i].Live? ==> old(flags.st[i].Live?)
        decreases |LiveSet(flags.st, nBuckets)|
      {
        var i := FindNewBucket(nf, n, key, flags.st, at1);
        ghost var ks, vs, fs, ns := keys[..], vals[..], flags.st, nf.st;
        nf.SetIsEmptyFalse(i);
        var kick := i < nBuckets;
        if kick {
          var either := flags.IsEither(i);
          kick := !either;
        }
        if kick {
          KickKeeps(hash, nBuckets, n, fs, ns, ks, vs, m, at1, key, i);
          LiveSetShrinks(fs, nBuckets, i);
          at1 := at1[key := i][keys[i] := -1];
          var tmpKey := keys[i];
          keys[i] := key;
          key := tmpKey;
          var tmpVal := vals[i];
          vals[i] := val;
          val := tmpVal;
          assert keys[..] == ks[i := keys[i]] && vals[..] == vs[i := vals[i]];
          flags.SetIsDelTrue(i);
        } else {
          DropKeeps(hash, nBuckets, n, fs, ns, ks, vs, m, at1, key, i);
          at1 := at1[key := i];
          keys[i] := key;
          vals[i] := val;
          assert keys[..] == ks[i := keys[i]] && vals[..] == vs[i := vals[i]];
          break;
        }
      }
    }

    /** kh_resize: rehash in place, for whatever 32-bit number of buckets is asked for. */
    method Resize(newBuckets: nat)
      requires Valid() && newBuckets < WORD
      modifies this, flags, flags.words, keys, vals
      ensures Valid() && m == old(m)
      ensures flags == old(flags) || (fresh(flags) && fresh(flags.words))
      ensures (keys == old(keys) || fresh(keys)) && (vals == old(vals) || fresh(vals))
      ensures var n := if Kroundup32(newBuckets) < 4 then 4 else Kroundup32(newBuckets);
        if |m| >= Upper(n) then nBuckets == old(nBuckets) && nOccupied == old(nOccupied)
        else nBuckets == n && nOccupied == |m| && forall i :: 0 <= i < n ==> !flags.st[i].Deleted?
    {
      var n := Kroundup32(newBuckets);
      if n < 4 {
        n := 4;
      }
      if size >= Upper(n) {
        return;
      }
      LegalSize(newBuckets, n);
      Rehash(n);
    }

    /** The part of kh_resize that is reached when the requested size is big enough. */
    method Rehash(n: nat)
      requires Valid() && |m| < Upper(n)
      requires IsPow2(n) && 4 <= n <= MAX_BUCKETS && (n < 16 || n % 16 == 0)
      modifies this, flags, flags.words, keys, vals
      ensures Valid() && m == old(m)
      ensures flags == old(flags) || (fresh(flags) && fresh(flags.words))
      ensures (keys == old(keys) || fresh(keys)) && (vals == old(vals) || fresh(vals))
      ensures nBuckets == n && nOccupied == |m| && forall i :: 0 <= i < n ==> !flags.st[i].Deleted?
    {
      hide Moving, Table, IsPow2, Flags.Valid;
      var nf := new Flags(n);
      ghost var ks, vs := keys[..], vals[..];
      Grow(n);
      StartMoving(hash, nBuckets, n, flags.st, nf.st, ks, vs, keys[..], vals[..], m, at);
      ghost var at' := RehashAll(nf, n);
      Install(nf, n, at');
    }

    /** Shrink the arrays if need be and make the new flags the flags of the table. */
    method Install(nf: Flags, n: nat, ghost at': map<K, int>)
      requires Apart(nf) && nf.Valid() && 4 <= n <= MAX_BUCKETS && IsPow2(n) && |m| < Upper(n) && n <= |nf.st|
      requires size == |m| && nBuckets <= |flags.st|
      requires keys.Length == vals.Length == if nBuckets < n then n else nBuckets
      requires Moving(hash, nBuckets, n, flags.st, nf.st, keys[..], vals[..], m, at', Nothing)
      requires forall i :: 0 <= i < nBuckets ==> !flags.st[i].Live?
      modifies this
      ensures Valid() && m == old(m)
      ensures flags == nf && (keys == old(keys) || fresh(keys)) && (vals == old(vals) || fresh(vals))
      ensures nBuckets == n && nOccupied == |m| && forall i :: 0 <= i < n ==> !flags.st[i].Deleted?
    {
      hide Moving, Table, LiveSet, Occupied, IsPow2, Flags.Valid;
      ghost var at'' := DoneMoving(hash, nBuckets, n, flags.st, nf.st, keys[..], vals[..], m, at');
      Shrink(n);
      Adopt(nf, n, at'');
    }

    /** The new flags and the new numbers. */
    method Adopt(nf: Flags, n: nat, ghost at': map<K, nat>)
      requires Apart(nf) && nf.Valid() && 4 <= n <= MAX_BUCKETS && IsPow2(n) && n <= |nf.st|
      requires keys.Length == vals.Length == n && size == |m| == |Occupied(nf.st, n)| && |m| < Upper(n)
      requires Table(hash, n, nf.st, keys[..], vals[..], m, at')
      modifies this`flags, this`nBuckets, this`nOccupied, this`upperBound, this`at
      ensures Valid() && flags == nf && nBuckets == n && nOccupied == |m|
    {
      hide Table, Occupied, IsPow2, Flags.Valid;
      flags, nBuckets, nOccupied, upperBound := nf, n, size, Upper(n);
      at := at';
    }

    /** The first realloc of the arrays. */
    method Grow(n: nat)
      requires keys.Length == vals.Length == nBuckets && keys as object != vals as object
      modifies this`keys, this`vals
      ensures keys == old(keys) || fresh(keys)
      ensures vals == old(vals) || fresh(vals)
      ensures keys as object != vals as object && keys.Length == vals.Length == (if nBuckets < n then n else nBuckets)
      ensures forall i :: 0 <= i < nBuckets ==> keys[..][i] == old(keys[..])[i] && vals[..][i] == old(vals[..])[i]
    {
      if nBuckets < n {
        keys := Realloc(keys, n);
        vals := Realloc(vals, n);
      }
    }

    /** The final realloc of the arrays. */
    method Shrink(n: nat)
      requires n <= keys.Length == vals.Length == (if nBuckets < n then n else nBuckets) && keys as object != vals as object
      modifies this`keys, this`vals
      ensures keys == old(keys) || fresh(keys)
      ensures vals == old(vals) || fresh(vals)
      ensures keys as object != vals as object && keys.Length == vals.Length == n
      ensures keys[..] == old(keys[..n]) && vals[..] == old(vals[..n])
    {
      if nBuckets > n {
        keys := Realloc(keys, n);
        vals := Realloc(vals, n);
      }
    }

    /** The outer loop of the rehash. */
    method RehashAll(nf: Flags, n: nat) returns (ghost at': map<K, int>)
      requires Apart(nf) && flags.Valid() && nf.Valid() && IsPow2(n) && |m| < n <= |nf.st|
      requires nBuckets <= |flags.st| && nBuckets <= keys.Length && n <= keys.Length == vals.Length
      requires Moving(hash, nBuckets, n, flags.st, nf.st, keys[..], vals[..], m, at, Nothing)
      modifies flags, flags.words, nf, nf.words, keys, vals
      ensures flags.Valid() && nf.Valid() && |nf.st| == old(|nf.st|) && |flags.st| == old(|flags.st|)
      ensures Moving(hash, nBuckets, n, flags.st, nf.st, keys[..], vals[..], m, at', Nothing)
      ensures forall i :: 0 <= i < nBuckets ==> !flags.st[i].Live?
    {
      hide Moving;
      at' := at;
      var j := 0;
      while j != nBuckets
        invariant 0 <= j <= nBuckets
        invariant flags.Valid() && nf.Valid() && |nf.st| == old(|nf.st|) && |flags.st| == old(|flags.st|)
        invariant Moving(hash, nBuckets, n, flags.st, nf.st, keys[..], vals[..], m, at', Nothing)
        invariant forall i :: 0 <= i < j ==> !flags.st[i].Live?
        decreases nBuckets - j
      {
        var either := flags.IsEither(j);
        if !either {
          at' := KickOut(nf, n, j, at');
        }
        j := j + 1;
      }
    }

    /** What kh_put does first when too many buckets have been used: rehash, in a bigger table if need be. The shift
        of the size wraps around when there are 2^31 keys. */
    method MakeRoom()
      requires Valid()
      modifies this, flags, flags.words, keys, vals
      ensures Valid() && m == old(m) && nBuckets > 0
      ensures flags == old(flags) || (fresh(flags) && fresh(flags.words))
      ensures (keys == old(keys) || fresh(keys)) && (vals == old(vals) || fresh(vals))
      ensures |m| < nBuckets || (|m| == nBuckets == MAX_BUCKETS)
      ensures nOccupied < upperBound || nBuckets == MAX_BUCKETS
      ensures old(nOccupied) < old(upperBound) ==> nBuckets == old(nBuckets) && nOccupied == old(nOccupied)
      ensures old(nOccupied) >= old(upperBound) && old(nBuckets) < MAX_BUCKETS ==>
        && nOccupied == |m|
        && nBuckets == if old(nBuckets) == 0 then 4
                       else if old(nBuckets) > 2 * |m| then old(nBuckets) else 2 * old(nBuckets)
    {
      hide Table, Kroundup32, Shape;
      SizeBound();
      Doubled(size);
      if nOccupied >= upperBound {
        if nBuckets > 2 * size % WORD {
          RoundUpSame(nBuckets);
          Resize(nBuckets - 1);
        } else {
          RoundUpNext(nBuckets);
          Resize(nBuckets + 1);
        }
      }
      SizeBound();
    }

    lemma SizeBound()
      requires Valid()
      ensures |m| <= nOccupied <= nBuckets <= MAX_BUCKETS
    {
      if nBuckets > 0 {
        LiveSize(hash, nBuckets, flags.st, keys[..], vals[..], m, at);
        SubsetSize(LiveSet(flags.st, nBuckets), Occupied(flags.st, nBuckets));
        OccupiedBound(flags.st, nBuckets);
      }
    }

    /** An allocated table has an empty bucket exactly if fewer buckets have been used than there are, which is always
        so below the largest size. */
    lemma RoomStays()
      requires Valid() && nBuckets > 0
      ensures nBuckets <= |flags.st|
      ensures (exists i :: 0 <= i < nBuckets && flags.st[i].Empty?) <==> nOccupied < nBuckets
      ensures nBuckets < MAX_BUCKETS ==> nOccupied <= upperBound < nBuckets
    {
      hide Table, IsPow2;
      OccupiedBound(flags.st, nBuckets);
      if nOccupied < nBuckets {
        EmptyStays(flags.st, nBuckets);
      }
    }

    /** The probe loop of kh_put: the bucket of the key, or else a free bucket for it, where the last
        tombstone that was passed is preferred to the empty bucket at the end. */
    method FindSlot(key: K) returns (x: nat)
      requires Valid() && nBuckets > 0
      ensures x < nBuckets
      ensures key in m ==> flags.st[x].Live? && x == at[key]
      ensures key !in m && |m| < nBuckets ==> !flags.st[x].Live? && Reach(hash(key), nBuckets, flags.st, x)
      ensures key !in m && |m| >= nBuckets ==> flags.st[x].Live?
      ensures key !in m && flags.st[x].Empty? ==>
        exists s: nat | Bucket(hash(key), s, nBuckets) == x :: LivePath(hash(key), s, nBuckets, flags.st)
    {
      hide Table, Scanned, Bucket, Reach, Site, LivePath;
      var step := 0;
      var i: nat := hash(key) % nBuckets;
      var last := i;
      var site: nat := nBuckets;
      FirstBucket(hash(key), nBuckets);
      ghost var h, n, st, ks := hash(key), nBuckets, flags.st, keys[..];
      ScannedNone(h, n, st, ks, key);
      SiteNone(h, n, st);
      while true
        invariant step < 2 * n - 1 && i == Bucket(h, step, n)
        invariant Scanned(h, step, n, st, ks, key)
        invariant Site(h, step, n, st, site)
        decreases 2 * n - step
      {
        var empty := flags.IsEmpty(i);
        if empty {
          SearchIsComplete(hash, n, st, ks, vals[..], m, at, key, step);
          ScannedReach(h, step, n, st, ks, key);
          SiteFree(h, step, n, st, site);
          x := site;
          if x == nBuckets {
            x := i;
          }
          RoomLeft(hash, n, st, ks, vals[..], m, at, x);
          return;
        }
        var del := flags.IsDel(i);
        if !del && keys[i] == key {
          SearchIsSound(hash, n, st, ks, vals[..], m, at, i);
          return i;
        }
        SiteOne(h, step, n, st, ks, key, site);
        if del {
          site := i;
        }
        ScannedOne(h, step, n, st, ks, key);
        NextBucket(h, step, n);
        step := step + 1;
        i := (i + step) % nBuckets;
        FirstReturn(h, step, n);
        if i == last {
          SearchIsComplete(hash, n, st, ks, vals[..], m, at, key, step);
          SiteFree(h, step, n, st, site);
          FullTable(h, step, hash, n, st, ks, vals[..], m, at, site);
          x := site;
          if x == nBuckets {
            x := i;
          }
          RoomLeft(hash, n, st, ks, vals[..], m, at, x);
          return;
        }
      }
    }

    /** kh_put: the value of a new key is whatever the array holds there. A table of 2^31 buckets does not grow
        any more: once it is full, a new key gets the bucket of some other key and is reported as present. */
    method Put(key: K) returns (x: nat, ret: PutResult)
      requires Valid()
      modifies this, flags, flags.words, keys, vals
      ensures Valid() && x < nBuckets && x < keys.Length
      ensures flags == old(flags) || (fresh(flags) && fresh(flags.words))
      ensures (keys == old(keys) || fresh(keys)) && (vals == old(vals) || fresh(vals))
      ensures key in old(m) ==> m == old(m) && key in at && x == at[key] && ret == Present
      ensures key !in old(m) && |old(m)| < MAX_BUCKETS ==>
        m == old(m)[key := vals[x]] && key in at && x == at[key] && ret != Present
      ensures key !in old(m) && |old(m)| >= MAX_BUCKETS ==>
        m == old(m) && flags.st[x].Live? && keys[x] in m && ret == Present
    {
      MakeRoom();
      x := FindSlot(key);
      ret := StoreKey(x, key);
    }

    /** The last part of kh_put. */
    method StoreKey(x: nat, key: K) returns (ret: PutResult)
      requires Valid() && x < nBuckets
      requires key in m ==> flags.st[x].Live? && x == at[key]
      requires key !in m ==> flags.st[x].Live? || Reach(hash(key), nBuckets, flags.st, x)
      requires nOccupied < upperBound || nBuckets == MAX_BUCKETS
      modifies this, flags, flags.words, keys
      ensures Valid() && nBuckets == old(nBuckets) && flags.st[x].Live? && keys[x] in m
      ensures flags == old(flags) && keys == old(keys) && vals == old(vals)
      ensures old(flags.st[x].Live?) ==> m == old(m) && at == old(at) && ret == Present
      ensures !old(flags.st[x].Live?) ==> m == old(m)[key := vals[x]] && at == old(at)[key := x]
      ensures old(flags.st[x].Empty?) ==> ret == NewBucket
      ensures old(flags.st[x].Deleted?) ==> ret == ReusedBucket
    {
      hide Table, Reach, Occupied, Flags.Valid, IsPow2, Upper;
      var empty := flags.IsEmpty(x);
      var del := flags.IsDel(x);
      if !empty && !del {
        SearchIsSound(hash, nBuckets, flags.st, keys[..], vals[..], m, at, x);
        return Present;
      }
      Fill(x, key, empty);
      ret := if empty then NewBucket else ReusedBucket;
    }

    /** A new key goes into bucket x. */
    method Fill(x: nat, key: K, empty: bool)
      requires Valid() && x < nBuckets && !flags.st[x].Live? && (empty <==> flags.st[x].Empty?)
      requires key !in m && Reach(hash(key), nBuckets, flags.st, x)
      requires nOccupied < upperBound || nBuckets == MAX_BUCKETS
      modifies this`size, this`nOccupied, this`m, this`at, flags, flags.words, keys
      ensures Valid() && flags.st[x].Live? && keys[x] == key
      ensures m == old(m)[key := vals[x]] && at == old(at)[key := x]
    {
      hide Table, Reach, Occupied, Flags.Valid, IsPow2, Upper;
      PutKeeps(hash, nBuckets, flags.st, keys[..], vals[..], m, at, x, key);
      keys[x] := key;
      flags.SetIsBothFalse(x);
      size := size + 1;
      m := m[key := vals[x]];
      at := at[key := x];
      if empty {
        nOccupied := nOccupied + 1;
      }
    }

    /** kh_value(h, x) = v */
    method SetValue(x: nat, v: V)
      requires Valid() && x < nBuckets && flags.st[x].Live?
      modifies this, vals
      ensures Valid() && flags == old(flags) && keys == old(keys) && vals == old(vals)
      ensures m == old(m)[old(keys[x]) := v]
    {
      hide Table;
      SetValueKeeps(hash, nBuckets, flags.st, keys[..], vals[..], m, at, x, v);
      vals[x] := v;
      m := m[keys[x] := v];
    }

    /** kh_clear */
    method Clear()
      requires Valid()
      modifies this, flags, flags.words
      ensures Valid() && flags == old(flags) && keys == old(keys) && vals == old(vals)
      ensures m == map[] && nBuckets == old(nBuckets)
    {
      hide Table, Occupied;
      flags.SetAllEmpty();
      size, nOccupied := 0, 0;
      m, at := map[], map[];
      if nBuckets > 0 {
        EmptyTable(hash, nBuckets, flags.st, keys[..], vals[..]);
      }
    }
  }
}
