/** ur_map: a khash table from 64-bit keys, with the put that replaces. */
module UrMap {
  import opened Khash
  import opened RoundUp

  const KEYS := 0x1_0000_0000_0000_0000

  /** uint64_t */
  type Key = k: nat | k < KEYS

  /** kh_int64_hash_func: key >> 33 ^ key ^ key << 11 in 64 bits, cut to 32. */
  function Int64Hash(key: Key): nat {
    Xor(Xor(Shr(key, 33), key), (key * 0x800) % KEYS) % WORD
  }

  datatype Lookup<V> = Found(value: V) | Missing

  class UrMap<V(0)> {
    const h: KHash<Key, V>

    ghost predicate Valid()
      reads this, h, h.flags, h.flags.words, h.keys, h.vals
    {
      h.Valid()
    }

    /** ur_map_create */
    constructor ()
      ensures Valid() && h.m == map[]
      ensures fresh(h) && fresh(h.flags) && fresh(h.flags.words) && fresh(h.keys) && fresh(h.vals)
    {
      h := new KHash(Int64Hash);
    }

    /** ur_map_put: drop the present entry of the key, if any, then store the new one. With 2^31 other keys in the
        table there is no bucket left: the put fails, and takes the entry of some other key with it. */
    method Put(key: Key, value: V) returns (ok: bool)
      requires Valid()
      modifies h, h.flags, h.flags.words, h.keys, h.vals
      ensures Valid()
      ensures ok <==> key in old(h.m) || |old(h.m)| < MAX_BUCKETS
      ensures ok ==> h.m == old(h.m)[key := value]
      ensures !ok ==> exists victim :: victim in old(h.m) && h.m == old(h.m) - {victim}
      ensures h.flags == old(h.flags) || (fresh(h.flags) && fresh(h.flags.words))
      ensures (h.keys == old(h.keys) || fresh(h.keys)) && (h.vals == old(h.vals) || fresh(h.vals))
    {
      hide KHash.Valid;
      var k := h.Get(key);
      h.SizeBound();
      if k != h.nBuckets {
        h.AtKey(key);
        h.Del(k);
        assert |h.m| == |old(h.m)| - 1;
      }
      assert h.m == old(h.m) - {key};
      var x, ret := h.Put(key);
      if ret == Present {
        ghost var victim := h.keys[x];
        h.Del(x);
        assert h.m == old(h.m) - {victim};
        return false;
      }
      h.AtKey(key);
      h.SetValue(x, value);
      assert h.m == old(h.m)[key := value];
      return true;
    }

    /** ur_map_get */
    method Get(key: Key) returns (r: Lookup<V>)
      requires Valid()
      ensures r == if key in h.m then Found(h.m[key]) else Missing
    {
      hide KHash.Valid;
      var k := h.Get(key);
      if k != h.nBuckets {
        h.AtKey(key);
        var exist := h.Exist(k);
        if exist {
          return Found(h.vals[k]);
        }
      }
      return Missing;
    }

    /** ur_map_del; the caller gets the value its delfunc is applied to. */
    method Del(key: Key) returns (r: Lookup<V>)
      requires Valid()
      modifies h, h.flags, h.flags.words
      ensures Valid() && h.flags == old(h.flags) && h.keys == old(h.keys) && h.vals == old(h.vals)
      ensures h.m == old(h.m) - {key}
      ensures r == if key in old(h.m) then Found(old(h.m)[key]) else Missing
    {
      hide KHash.Valid;
      var k := h.Get(key);
      if k != h.nBuckets {
        h.AtKey(key);
        var exist := h.Exist(k);
        if exist {
          r := Found(h.vals[k]);
          h.Del(k);
          return;
        }
      }
      return Missing;
    }

    /** ur_map_size */
    method Size() returns (n: nat)
      requires Valid()
      ensures n == |h.m|
    {
      return h.size;
    }
  }

  /** A table gets as full as that, without an empty bucket, when the keys 0, 1, 2, ... are put. */
  method FillUp() returns (u: UrMap<int>)
    ensures u.Valid() && fresh(u) && fresh(u.h) && fresh(u.h.flags) && fresh(u.h.flags.words)
    ensures fresh(u.h.keys) && fresh(u.h.vals)
    ensures |u.h.m| == u.h.nOccupied == u.h.nBuckets == MAX_BUCKETS && MAX_BUCKETS !in u.h.m
    ensures u.h.nBuckets <= |u.h.flags.st| && forall i :: 0 <= i < u.h.nBuckets ==> !u.h.flags.st[i].Empty?
  {
    hide KHash.Valid;
    u := new UrMap<int>();
    var k := 0;
    while k < MAX_BUCKETS
      invariant 0 <= k <= MAX_BUCKETS && u.Valid() && fresh(u) && fresh(u.h) && fresh(u.h.flags)
      invariant fresh(u.h.flags.words) && fresh(u.h.keys) && fresh(u.h.vals)
      invariant |u.h.m| == k && forall key :: key in u.h.m ==> key < k
    {
      var _ := u.Put(k, 0);
      k := k + 1;
    }
    u.h.SizeBound();
    u.h.RoomStays();
  }

  /** One put more fails, and an entry is gone. */
  method PutTooMany() returns (u: UrMap<int>, ok: bool)
    ensures u.Valid() && !ok && |u.h.m| == MAX_BUCKETS - 1
  {
    hide KHash.Valid;
    u := FillUp();
    ghost var m := u.h.m;
    ok := u.Put(MAX_BUCKETS, 0);
    ghost var victim :| victim in m && u.h.m == m - {victim};
  }
}
