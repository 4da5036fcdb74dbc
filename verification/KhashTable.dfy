/** What the arrays of a khash table mean, and what each step of the in-place rehash keeps. */
module KhashTable {
  import opened Probe
  import opened KhashFlags

  // ---------- probing ----------

  /** The first s probes for hash value h found no empty bucket. */
  ghost predicate Path(h: nat, s: nat, n: nat, st: seq<Flag>)
    requires 0 < n <= |st|
  {
    forall t: nat :: t < s ==> !st[Bucket(h, t, n)].Empty?
  }

  /** A search for hash value h comes to bucket b before it comes to an empty one. */
  ghost predicate Reach(h: nat, n: nat, st: seq<Flag>, b: nat)
    requires 0 < n <= |st|
  {
    exists s: nat :: s < n && Bucket(h, s, n) == b && Path(h, s, n, st)
  }

  lemma ReachOnPath(h: nat, t: nat, n: nat, st: seq<Flag>)
    requires IsPow2(n) && n <= |st| && Path(h, t, n, st)
    ensures Reach(h, n, st, Bucket(h, t, n))
  {
    if t >= n {
      var s := ProbesCover(h, Bucket(h, t, n), n);
      assert Path(h, s, n, st);
    }
  }

  /** Buckets that get filled or marked deleted never break a search. */
  lemma ReachGrows(h: nat, n: nat, st: seq<Flag>, st': seq<Flag>, b: nat)
    requires 0 < n <= |st| && n <= |st'| && Reach(h, n, st, b)
    requires forall i :: 0 <= i < n && st'[i].Empty? ==> st[i].Empty?
    ensures Reach(h, n, st', b)
  {
  }

  /** The first s probes for the key found neither an empty bucket nor the key. */
  ghost predicate Scanned<K>(h: nat, s: nat, n: nat, st: seq<Flag>, keys: seq<K>, key: K)
    requires 0 < n <= |st| && n <= |keys|
  {
    forall t: nat :: t < s ==>
      var b := Bucket(h, t, n); !st[b].Empty? && (st[b].Live? ==> keys[b] != key)
  }

  lemma ScannedNone<K>(h: nat, n: nat, st: seq<Flag>, keys: seq<K>, key: K)
    requires 0 < n <= |st| && n <= |keys|
    ensures Scanned(h, 0, n, st, keys, key)
  {
  }

  lemma ScannedOne<K>(h: nat, s: nat, n: nat, st: seq<Flag>, keys: seq<K>, key: K)
    requires 0 < n <= |st| && n <= |keys| && Scanned(h, s, n, st, keys, key)
    requires var b := Bucket(h, s, n); !st[b].Empty? && (st[b].Live? ==> keys[b] != key)
    ensures Scanned(h, s + 1, n, st, keys, key)
  {
  }

  lemma ScannedReach<K>(h: nat, s: nat, n: nat, st: seq<Flag>, keys: seq<K>, key: K)
    requires IsPow2(n) && n <= |st| && n <= |keys| && Scanned(h, s, n, st, keys, key)
    ensures Reach(h, n, st, Bucket(h, s, n))
  {
    ReachOnPath(h, s, n, st);
  }

  /** The tombstone kh_put remembers after s probes, n for none. */
  ghost predicate Site(h: nat, s: nat, n: nat, st: seq<Flag>, site: nat)
    requires 0 < n <= |st|
  {
    && site <= n
    && (site < n ==> st[site].Deleted? && Reach(h, n, st, site))
    && (site == n ==> forall t: nat :: t < s ==> st[Bucket(h, t, n)].Live?)
  }

  /** The first s buckets of a search are live. */
  ghost predicate LivePath(h: nat, s: nat, n: nat, st: seq<Flag>)
    requires 0 < n <= |st|
  {
    forall t: nat :: t < s ==> st[Bucket(h, t, n)].Live?
  }

  lemma SiteNone(h: nat, n: nat, st: seq<Flag>)
    requires 0 < n <= |st|
    ensures Site(h, 0, n, st, n)
  {
  }

  lemma SiteOne<K>(h: nat, s: nat, n: nat, st: seq<Flag>, keys: seq<K>, key: K, site: nat)
    requires IsPow2(n) && n <= |st| && n <= |keys| && Scanned(h, s, n, st, keys, key)
    requires Site(h, s, n, st, site) && !st[Bucket(h, s, n)].Empty?
    ensures Site(h, s + 1, n, st, if st[Bucket(h, s, n)].Deleted? then Bucket(h, s, n) else site)
  {
    ReachOnPath(h, s, n, st);
  }

  lemma SiteFree(h: nat, s: nat, n: nat, st: seq<Flag>, site: nat)
    requires 0 < n <= |st| && Site(h, s, n, st, site)
    ensures site <= n && (site < n ==> st[site].Deleted? && Reach(h, n, st, site))
    ensures site == n && s > 0 ==> st[Bucket(h, 0, n)].Live?
    ensures site == n ==> LivePath(h, s, n, st)
  {
  }

  // ---------- a table between operations ----------

  /** The arrays of a table with n buckets hold exactly the map m; at says where each key lives. */
  ghost predicate Table<K, V>(hash: K -> nat, n: nat, st: seq<Flag>, keys: seq<K>, vals: seq<V>,
                              m: map<K, V>, at: map<K, nat>)
  {
    && 0 < n <= |st| && |keys| == |vals| == n
    && at.Keys == m.Keys
    && (forall k :: k in m ==> at[k] < n && st[at[k]].Live? && keys[at[k]] == k)
    && (forall i :: 0 <= i < n && st[i].Live? ==>
          keys[i] in m && at[keys[i]] == i && vals[i] == m[keys[i]] && Reach(hash(keys[i]), n, st, i))
  }

  ghost function Occupied(st: seq<Flag>, n: nat): set<nat>
    requires n <= |st|
  {
    set i: nat | i < n && !st[i].Empty?
  }

  ghost function LiveSet(st: seq<Flag>, n: nat): set<nat>
    requires n <= |st|
  {
    set i: nat | i < n && st[i].Live?
  }

  lemma EmptyStays(st: seq<Flag>, n: nat)
    requires n <= |st| && |Occupied(st, n)| < n
    ensures exists i :: 0 <= i < n && st[i].Empty?
  {
    if forall i :: 0 <= i < n ==> !st[i].Empty? {
      assert Occupied(st, n) == Range(n);
      RangeSize(n);
    }
  }

  lemma OccupiedBound(st: seq<Flag>, n: nat)
    requires n <= |st|
    ensures |Occupied(st, n)| <= n
    ensures |Occupied(st, n)| == n ==> forall i :: 0 <= i < n ==> !st[i].Empty?
  {
    RangeSize(n);
    SubsetSize(Occupied(st, n), Range(n));
    if |Occupied(st, n)| == n {
      SubsetOfSameSize(Occupied(st, n), Range(n));
      forall i | 0 <= i < n ensures !st[i].Empty? {
        assert i in Occupied(st, n);
      }
    }
  }

  lemma SubsetSize<T>(a: set<T>, b: set<T>)
    requires a <= b
    ensures |a| <= |b|
  {
    assert b == a + (b - a);
    assert |b| == |a| + |b - a|;
  }

  lemma {:induction false} ImageSize<K>(s: set<nat>, keys: seq<K>)
    requires forall i :: i in s ==> i < |keys|
    requires forall i, j :: i in s && j in s && keys[i] == keys[j] ==> i == j
    ensures |set i | i in s :: keys[i]| == |s|
    decreases |s|
  {
    if s == {} {
    } else {
      var x :| x in s;
      ImageSize(s - {x}, keys);
      assert (set i | i in s :: keys[i]) == (set i | i in s - {x} :: keys[i]) + {keys[x]};
    }
  }

  lemma EmptyTable<K, V>(hash: K -> nat, n: nat, st: seq<Flag>, keys: seq<K>, vals: seq<V>)
    requires 0 < n <= |st| && |keys| == |vals| == n
    requires forall i :: 0 <= i < |st| ==> st[i].Empty?
    ensures Table(hash, n, st, keys, vals, map[], map[])
    ensures Occupied(st, n) == {}
  {
  }

  /** As many live buckets as keys. */
  lemma LiveSize<K, V>(hash: K -> nat, n: nat, st: seq<Flag>, keys: seq<K>, vals: seq<V>,
                       m: map<K, V>, at: map<K, nat>)
    requires Table(hash, n, st, keys, vals, m, at)
    ensures |LiveSet(st, n)| == |m|
  {
    var live := LiveSet(st, n);
    ImageSize(live, keys);
    var image := set i | i in live :: keys[i];
    forall k | k in m ensures k in image {
      assert at[k] in live;
    }
    assert image == m.Keys;
  }

  /** A search that came to an empty bucket, or looked at all of them, has not missed its key. */
  lemma SearchIsComplete<K, V>(hash: K -> nat, n: nat, st: seq<Flag>, keys: seq<K>, vals: seq<V>,
                               m: map<K, V>, at: map<K, nat>, key: K, s: nat)
    requires Table(hash, n, st, keys, vals, m, at) && Scanned(hash(key), s, n, st, keys, key)
    requires s >= n || st[Bucket(hash(key), s, n)].Empty?
    ensures key !in m
  {
  }

  /** A live bucket with the key is the bucket of the key. */
  lemma SearchIsSound<K, V>(hash: K -> nat, n: nat, st: seq<Flag>, keys: seq<K>, vals: seq<V>,
                            m: map<K, V>, at: map<K, nat>, b: nat)
    requires Table(hash, n, st, keys, vals, m, at) && b < n && st[b].Live?
    ensures keys[b] in m && keys[b] in at && at[keys[b]] == b && vals[b] == m[keys[b]]
  {
  }

  /** A search that saw all buckets and only live ones: the table is full. */
  lemma FullTable<K, V>(h: nat, s: nat, hash: K -> nat, n: nat, st: seq<Flag>, keys: seq<K>, vals: seq<V>,
                        m: map<K, V>, at: map<K, nat>, site: nat)
    requires Table(hash, n, st, keys, vals, m, at) && IsPow2(n)
    requires s >= n && Site(h, s, n, st, site)
    ensures site == n ==> |m| == n
  {
    if site == n {
      forall b: nat | b < n ensures b in LiveSet(st, n) {
        var t := ProbesCover(h, b, n);
      }
      assert LiveSet(st, n) == Range(n);
      RangeSize(n);
      LiveSize(hash, n, st, keys, vals, m, at);
    }
  }

  lemma RoomLeft<K, V>(hash: K -> nat, n: nat, st: seq<Flag>, keys: seq<K>, vals: seq<V>,
                       m: map<K, V>, at: map<K, nat>, b: nat)
    requires Table(hash, n, st, keys, vals, m, at) && b < n
    ensures |m| <= n && (!st[b].Live? ==> |m| < n)
  {
    RangeSize(n);
    LiveSize(hash, n, st, keys, vals, m, at);
    SubsetSize(LiveSet(st, n), Range(n));
    if !st[b].Live? {
      SubsetSize(LiveSet(st, n), Range(n) - {b});
    }
  }

  lemma PutKeeps<K, V>(hash: K -> nat, n: nat, st: seq<Flag>, keys: seq<K>, vals: seq<V>,
                       m: map<K, V>, at: map<K, nat>, x: nat, key: K)
    requires Table(hash, n, st, keys, vals, m, at)
    requires x < n && !st[x].Live? && key !in m && Reach(hash(key), n, st, x)
    ensures Table(hash, n, st[x := Live], keys[x := key], vals, m[key := vals[x]], at[key := x])
    ensures |m[key := vals[x]]| == |m| + 1
    ensures |Occupied(st[x := Live], n)| == |Occupied(st, n)| + if st[x].Empty? then 1 else 0
  {
    var st' := st[x := Live];
    assert Occupied(st', n) == Occupied(st, n) + {x};
    assert x in Occupied(st, n) <==> !st[x].Empty?;
    forall i | 0 <= i < n && st'[i].Live?
      ensures Reach(hash(keys[x := key][i]), n, st', i)
    {
      ReachGrows(hash(keys[x := key][i]), n, st, st', i);
    }
  }

  lemma SetValueKeeps<K, V>(hash: K -> nat, n: nat, st: seq<Flag>, keys: seq<K>, vals: seq<V>,
                            m: map<K, V>, at: map<K, nat>, x: nat, v: V)
    requires Table(hash, n, st, keys, vals, m, at)
    requires x < n && st[x].Live?
    ensures Table(hash, n, st, keys, vals[x := v], m[keys[x] := v], at)
    ensures |m[keys[x] := v]| == |m|
  {
    assert m[keys[x] := v].Keys == m.Keys;
  }

  lemma DelKeeps<K, V>(hash: K -> nat, n: nat, st: seq<Flag>, keys: seq<K>, vals: seq<V>,
                       m: map<K, V>, at: map<K, nat>, x: nat)
    requires Table(hash, n, st, keys, vals, m, at)
    requires x < n && st[x].Live?
    ensures Table(hash, n, st[x := Deleted], keys, vals, m - {keys[x]}, at - {keys[x]})
    ensures |m - {keys[x]}| == |m| - 1
    ensures Occupied(st[x := Deleted], n) == Occupied(st, n)
  {
    var st' := st[x := Deleted];
    forall i | 0 <= i < n && st'[i].Live?
      ensures Reach(hash(keys[i]), n, st', i)
    {
      ReachGrows(hash(keys[i]), n, st, st', i);
    }
  }

  // ---------- a table in the middle of a rehash ----------

  datatype Hand<K> = Nothing | Holding(key: K)

  /** Some pairs are still where the old flags say, some are already where the new flags say, and at
      most one is in the hands of the kick-out loop. */
  ghost predicate Moving<K, V>(hash: K -> nat, o: nat, n: nat, old_: seq<Flag>, new_: seq<Flag>,
                               keys: seq<K>, vals: seq<V>, m: map<K, V>, at: map<K, int>, hand: Hand<K>)
  {
    && o <= |old_| && 0 < n <= |new_| && |keys| == |vals| && o <= |keys| && n <= |keys|
    && at.Keys == m.Keys
    && (hand.Holding? ==> hand.key in m && at[hand.key] == -1)
    && (forall k :: k in m && hand != Holding(k) ==>
          && 0 <= at[k] < |keys| && keys[at[k]] == k
          && ((at[k] < o && old_[at[k]].Live?) || (at[k] < n && new_[at[k]].Live?)))
    && (forall i :: 0 <= i < o && old_[i].Live? ==>
          keys[i] in m && at[keys[i]] == i && vals[i] == m[keys[i]] && (i < n ==> new_[i].Empty?))
    && (forall i :: 0 <= i < n && !new_[i].Empty? ==>
          new_[i].Live? && keys[i] in m && at[keys[i]] == i && vals[i] == m[keys[i]]
          && Reach(hash(keys[i]), n, new_, i))
  }

  /** As long as there are more new buckets than pairs, the kick-out loop finds an empty one. */
  lemma EmptyBucketLeft<K, V>(hash: K -> nat, o: nat, n: nat, old_: seq<Flag>, new_: seq<Flag>, keys: seq<K>,
                              vals: seq<V>, m: map<K, V>, at: map<K, int>, hand: Hand<K>) returns (b: nat)
    requires Moving(hash, o, n, old_, new_, keys, vals, m, at, hand) && |m| < n
    ensures b < n && new_[b].Empty?
  {
    var occupied := Occupied(new_, n);
    ImageSize(occupied, keys);
    SubsetSize(set i | i in occupied :: keys[i], m.Keys);
    RangeSize(n);
    if Range(n) <= occupied { SubsetSize(Range(n), occupied); }
    b :| b in Range(n) && b !in occupied;
  }

  lemma StartMoving<K, V>(hash: K -> nat, o: nat, n: nat, old_: seq<Flag>, new_: seq<Flag>, keys: seq<K>,
                          vals: seq<V>, keys': seq<K>, vals': seq<V>, m: map<K, V>, at: map<K, nat>)
    requires Table(hash, o, old_, keys, vals, m, at) || (o == 0 && m == map[] && at == map[])
    requires 0 < n <= |new_| && (forall i :: 0 <= i < |new_| ==> new_[i].Empty?)
    requires |keys'| == |vals'| && o <= |keys'| && n <= |keys'|
    requires o <= |keys| == |vals|
    requires forall i :: 0 <= i < o ==> keys'[i] == keys[i] && vals'[i] == vals[i]
    ensures Moving(hash, o, n, old_, new_, keys', vals', m, at, Nothing)
  {
  }

  /** The outer loop picks up the pair of a live old bucket. */
  lemma LiftKeeps<K, V>(hash: K -> nat, o: nat, n: nat, old_: seq<Flag>, new_: seq<Flag>, keys: seq<K>,
                        vals: seq<V>, m: map<K, V>, at: map<K, int>, j: nat)
    requires Moving(hash, o, n, old_, new_, keys, vals, m, at, Nothing)
    requires j < o && old_[j].Live?
    ensures keys[j] in m && vals[j] == m[keys[j]]
    ensures Moving(hash, o, n, old_[j := Deleted], new_, keys, vals, m, at[keys[j] := -1], Holding(keys[j]))
  {
  }

  lemma NewReachable<K>(hash: K -> nat, n: nat, new_: seq<Flag>, keys: seq<K>, keys': seq<K>, i: nat)
    requires i < n <= |new_| && n <= |keys| == |keys'| && keys' == keys[i := keys'[i]]
    requires Reach(hash(keys'[i]), n, new_, i)
    requires forall j :: 0 <= j < n && !new_[j].Empty? ==> Reach(hash(keys[j]), n, new_, j)
    ensures forall j :: 0 <= j < n && !new_[i := Live][j].Empty? ==> Reach(hash(keys'[j]), n, new_[i := Live], j)
  {
  }

  /** The pair in hand goes into an empty new bucket whose place in the array is free: the chain ends. */
  lemma DropKeeps<K, V>(hash: K -> nat, o: nat, n: nat, old_: seq<Flag>, new_: seq<Flag>, keys: seq<K>,
                        vals: seq<V>, m: map<K, V>, at: map<K, int>, k: K, i: nat)
    requires Moving(hash, o, n, old_, new_, keys, vals, m, at, Holding(k))
    requires i < n && new_[i].Empty? && Reach(hash(k), n, new_, i)
    requires !(i < o && old_[i].Live?)
    ensures Moving(hash, o, n, old_, new_[i := Live], keys[i := k], vals[i := m[k]], m, at[k := i], Nothing)
  {
    NewReachable(hash, n, new_, keys, keys[i := k], i);
  }

  /** The pair in hand takes the place of one that has not moved yet, which is now in hand. */
  lemma KickKeeps<K, V>(hash: K -> nat, o: nat, n: nat, old_: seq<Flag>, new_: seq<Flag>, keys: seq<K>,
                        vals: seq<V>, m: map<K, V>, at: map<K, int>, k: K, i: nat)
    requires Moving(hash, o, n, old_, new_, keys, vals, m, at, Holding(k))
    requires i < n && new_[i].Empty? && Reach(hash(k), n, new_, i)
    requires i < o && old_[i].Live?
    ensures keys[i] in m && keys[i] != k && vals[i] == m[keys[i]]
    ensures Moving(hash, o, n, old_[i := Deleted], new_[i := Live], keys[i := k], vals[i := m[k]], m,
                   at[k := i][keys[i] := -1], Holding(keys[i]))
  {
    NewReachable(hash, n, new_, keys, keys[i := k], i);
  }

  /** Nothing left in the old buckets and nothing in hand: the new flags describe the whole map. */
  lemma DoneMoving<K, V>(hash: K -> nat, o: nat, n: nat, old_: seq<Flag>, new_: seq<Flag>, keys: seq<K>,
                         vals: seq<V>, m: map<K, V>, at: map<K, int>) returns (at': map<K, nat>)
    requires Moving(hash, o, n, old_, new_, keys, vals, m, at, Nothing)
    requires forall i :: 0 <= i < o ==> !old_[i].Live?
    ensures Table(hash, n, new_, keys[..n], vals[..n], m, at')
    ensures |Occupied(new_, n)| == |m| && forall i :: 0 <= i < n ==> !new_[i].Deleted?
  {
    at' := map k | k in m :: at[k];
    assert Occupied(new_, n) == LiveSet(new_, n);
    LiveSize(hash, n, new_, keys[..n], vals[..n], m, at');
  }

  lemma LiveSetShrinks(st: seq<Flag>, n: nat, x: nat)
    requires x < n <= |st| && st[x].Live?
    ensures |LiveSet(st[x := Deleted], n)| < |LiveSet(st, n)|
  {
    assert LiveSet(st[x := Deleted], n) == LiveSet(st, n) - {x};
    assert x in LiveSet(st, n);
  }
}
