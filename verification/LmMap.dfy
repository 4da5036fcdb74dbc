/** lm_map: the small table in each permission, from port numbers to channels. Eight buckets of three fixed slots,
    each with overflow slots that are appended one at a time and reused. */
module LmMap {
  import opened Options

  const LM_MAP_HASH_SIZE := 8
  const LM_MAP_ARRAY_SIZE := 3

  /** Key and value of a slot are always zeroed together. */
  datatype Slot<V> = Free | Used(key: nat, value: V)

  datatype Bucket<V> = Bucket(main: seq<Slot<V>>, extra: seq<Slot<V>>)

  // ---------- what a scan over slots finds ----------

  predicate Has<V>(slots: seq<Slot<V>>, key: nat) {
    exists i :: 0 <= i < |slots| && slots[i].Used? && slots[i].key == key
  }

  ghost predicate Distinct<V>(slots: seq<Slot<V>>) {
    forall i, j :: 0 <= i < j < |slots| && slots[i].Used? && slots[j].Used? ==> slots[i].key != slots[j].key
  }

  /** The slots of bucket b hold the keys of the map that belong to it. */
  ghost predicate Holds<V>(b: nat, bucket: Bucket<V>, m: map<nat, V>) {
    var slots := bucket.main + bucket.extra;
    && |bucket.main| == LM_MAP_ARRAY_SIZE
    && Distinct(slots)
    && (forall i :: 0 <= i < |slots| && slots[i].Used? ==>
          slots[i].key > 0 && slots[i].key % LM_MAP_HASH_SIZE == b
          && slots[i].key in m && m[slots[i].key] == slots[i].value)
    && (forall key :: key in m && key % LM_MAP_HASH_SIZE == b ==> Has(slots, key))
  }

  // ---------- put, as a function of the bucket ----------

  /** Index of the first free slot, or the number of slots. */
  function FirstFree<V>(slots: seq<Slot<V>>): (i: nat)
    ensures i <= |slots| && (i < |slots| ==> slots[i].Free?)
    ensures forall j :: 0 <= j < i ==> slots[j].Used?
  {
    if slots == [] || slots[0].Free? then 0 else 1 + FirstFree(slots[1..])
  }

  /** Index of the first slot with the key, or the number of slots. */
  function FirstKey<V>(slots: seq<Slot<V>>, key: nat): (i: nat)
    ensures i <= |slots| && (i < |slots| ==> slots[i].Used? && slots[i].key == key)
    ensures forall j :: 0 <= j < i ==> slots[j].Free? || slots[j].key != key
  {
    if slots == [] || (slots[0].Used? && slots[0].key == key) then 0 else 1 + FirstKey(slots[1..], key)
  }

  /** lm_map_put inside the bucket of the key: only the fixed slots up to the first free one are looked at for the
      key, the overflow slots never. */
  function PutBucket<V>(bucket: Bucket<V>, key: nat, value: V): Bucket<V> {
    var free := FirstFree(bucket.main);
    if FirstKey(bucket.main, key) < free then bucket
    else if free < |bucket.main| then bucket.(main := bucket.main[free := Used(key, value)])
    else
      var spare := FirstFree(bucket.extra);
      if spare < |bucket.extra| then bucket.(extra := bucket.extra[spare := Used(key, value)])
      else bucket.(extra := bucket.extra + [Used(key, value)])
  }

  /** Where PutBucket stores, in the row of all slots. */
  function PutIndex<V>(bucket: Bucket<V>, key: nat): nat {
    var free := FirstFree(bucket.main);
    if free < |bucket.main| then free else |bucket.main| + FirstFree(bucket.extra)
  }

  lemma PutSlots<V>(bucket: Bucket<V>, key: nat, value: V)
    requires FirstKey(bucket.main, key) >= FirstFree(bucket.main)
    ensures var slots := bucket.main + bucket.extra;
      var bucket' := PutBucket(bucket, key, value);
      var at := PutIndex(bucket, key);
      && at <= |slots| && (at < |slots| ==> slots[at].Free?) && |bucket'.main| == |bucket.main|
      && bucket'.main + bucket'.extra ==
           if at < |slots| then slots[at := Used(key, value)] else slots + [Used(key, value)]
  {
  }

  /** A put keeps the keys of a bucket distinct exactly when the key is not there yet, or stands in a fixed slot
      before the first free one (and then nothing is stored). */
  lemma PutDistinctExactly<V>(bucket: Bucket<V>, key: nat, value: V)
    requires Distinct(bucket.main + bucket.extra)
    ensures var bucket' := PutBucket(bucket, key, value);
      var inPlace := FirstKey(bucket.main, key) < FirstFree(bucket.main);
      Distinct(bucket'.main + bucket'.extra) <==> !Has(bucket.main + bucket.extra, key) || inPlace
  {
    var slots := bucket.main + bucket.extra;
    var bucket' := PutBucket(bucket, key, value);
    var slots' := bucket'.main + bucket'.extra;
    var at := PutIndex(bucket, key);
    if FirstKey(bucket.main, key) < FirstFree(bucket.main) {
    } else {
      PutSlots(bucket, key, value);
      if Has(slots, key) {
        var i :| 0 <= i < |slots| && slots[i].Used? && slots[i].key == key;
        assert slots'[i].Used? && slots'[i].key == key && slots'[at].key == key && i != at;
      }
    }
  }

  lemma PutHolds<V>(b: nat, bucket: Bucket<V>, m: map<nat, V>, key: nat, value: V)
    requires Holds(b, bucket, m) && key > 0 && key !in m && key % LM_MAP_HASH_SIZE == b
    ensures Holds(b, PutBucket(bucket, key, value), m[key := value])
  {
    var slots := bucket.main + bucket.extra;
    var bucket' := PutBucket(bucket, key, value);
    var slots' := bucket'.main + bucket'.extra;
    AbsentKey(b, bucket, m, key);
    PutDistinctExactly(bucket, key, value);
    PutSlots(bucket, key, value);
    hide PutBucket, PutIndex, FirstFree, FirstKey, Distinct, Has;
    StoredHolds(b, slots, slots', m, PutIndex(bucket, key), key, value);
  }

  lemma AbsentKey<V>(b: nat, bucket: Bucket<V>, m: map<nat, V>, key: nat)
    requires Holds(b, bucket, m) && key !in m
    ensures FirstKey(bucket.main, key) == |bucket.main| && !Has(bucket.main + bucket.extra, key)
  {
    var slots := bucket.main + bucket.extra;
    forall i | 0 <= i < |bucket.main| && bucket.main[i].Used? ensures bucket.main[i].key != key {
      assert slots[i] == bucket.main[i];
    }
  }

  /** The row of all slots holds the larger map once the key stands in a free one. */
  lemma StoredHolds<V>(b: nat, slots: seq<Slot<V>>, slots': seq<Slot<V>>, m: map<nat, V>, at: nat, key: nat, value: V)
    requires forall i :: 0 <= i < |slots| && slots[i].Used? ==>
      slots[i].key > 0 && slots[i].key % LM_MAP_HASH_SIZE == b && slots[i].key in m && m[slots[i].key] == slots[i].value
    requires forall k :: k in m && k % LM_MAP_HASH_SIZE == b ==> Has(slots, k)
    requires key > 0 && key !in m && key % LM_MAP_HASH_SIZE == b
    requires at <= |slots| && (at < |slots| ==> slots[at].Free?)
    requires slots' == if at < |slots| then slots[at := Used(key, value)] else slots + [Used(key, value)]
    ensures forall i :: 0 <= i < |slots'| && slots'[i].Used? ==>
      slots'[i].key > 0 && slots'[i].key % LM_MAP_HASH_SIZE == b
      && slots'[i].key in m[key := value] && m[key := value][slots'[i].key] == slots'[i].value
    ensures forall k :: k in m[key := value] && k % LM_MAP_HASH_SIZE == b ==> Has(slots', k)
  {
    hide Has;
    HasAfterPut(slots, slots', at, key, value);
    forall i | 0 <= i < |slots'| && slots'[i].Used? && i != at ensures slots'[i].key != key {
      assert slots'[i] == slots[i];
    }
  }

  /** The bucket of the key after any put. */
  lemma PutAny<V>(b: nat, bucket: Bucket<V>, m: map<nat, V>, key: nat, value: V)
    requires Holds(b, bucket, m) && key > 0 && key % LM_MAP_HASH_SIZE == b
    ensures var inPlace := FirstKey(bucket.main, key) < FirstFree(bucket.main);
      var bucket' := PutBucket(bucket, key, value);
      && (inPlace ==> key in m && m[key] == bucket.main[FirstKey(bucket.main, key)].value && bucket' == bucket)
      && (key in m && !inPlace ==> !Holds(b, bucket', m))
      && (key !in m ==> Holds(b, bucket', m[key := value]))
  {
    var i := FirstKey(bucket.main, key);
    if i < |bucket.main| {
      assert (bucket.main + bucket.extra)[i] == bucket.main[i];
    }
    if key in m {
      PutDistinctExactly(bucket, key, value);
    } else {
      PutHolds(b, bucket, m, key, value);
    }
  }

  /** Two keys of one bucket put, the first deleted, the second put again: it is there twice. */
  lemma PutTwice<V>(a: V, b: V, c: V)
    ensures var put := PutBucket(PutBucket(Bucket([Free, Free, Free], []), 8, a), 16, b);
      var again := PutBucket(DelBucket(put, 8), 16, c);
      again == Bucket([Used(16, c), Used(16, b), Free], []) && !Distinct(again.main + again.extra)
  {
    var empty: Bucket<V> := Bucket([Free, Free, Free], []);
    var one := PutBucket(empty, 8, a);
    assert one.main == [Used(8, a), Free, Free];
    var two := PutBucket(one, 16, b);
    assert two.main == [Used(8, a), Used(16, b), Free];
    var less := DelBucket(two, 8);
    assert less.main == [Free, Used(16, b), Free];
    var again := PutBucket(less, 16, c);
    assert again.main == [Used(16, c), Used(16, b), Free];
    assert (again.main + again.extra)[0] == Used(16, c) && (again.main + again.extra)[1] == Used(16, b);
  }

  lemma HasAfterPut<V>(slots: seq<Slot<V>>, slots': seq<Slot<V>>, at: nat, key: nat, value: V)
    requires at <= |slots| && (at < |slots| ==> slots[at].Free?)
    requires slots' == if at < |slots| then slots[at := Used(key, value)] else slots + [Used(key, value)]
    ensures forall k :: Has(slots', k) <==> k == key || Has(slots, k)
  {
    forall k ensures Has(slots', k) <==> k == key || Has(slots, k) {
      if k == key {
        assert slots'[at].Used? && slots'[at].key == key;
      } else if Has(slots, k) {
        var i :| 0 <= i < |slots| && slots[i].Used? && slots[i].key == k;
        assert slots'[i] == slots[i];
      }
    }
  }

  lemma OtherBucketHolds<V>(b: nat, bucket: Bucket<V>, m: map<nat, V>, m': map<nat, V>, key: nat)
    requires Holds(b, bucket, m) && key % LM_MAP_HASH_SIZE != b
    requires m' - {key} == m - {key}
    ensures Holds(b, bucket, m')
  {
    forall k | k % LM_MAP_HASH_SIZE == b ensures (k in m <==> k in m') && (k in m ==> m[k] == m'[k]) {
      assert k in m - {key} <==> k in m;
      assert k in m' - {key} <==> k in m';
    }
  }

  // ---------- del, as a function of the bucket ----------

  function DelBucket<V>(bucket: Bucket<V>, key: nat): Bucket<V> {
    var i := FirstKey(bucket.main, key);
    if i < |bucket.main| then bucket.(main := bucket.main[i := Free])
    else
      var j := FirstKey(bucket.extra, key);
      if j < |bucket.extra| then bucket.(extra := bucket.extra[j := Free]) else bucket
  }

  lemma DelHolds<V>(b: nat, bucket: Bucket<V>, m: map<nat, V>, key: nat)
    requires Holds(b, bucket, m) && key % LM_MAP_HASH_SIZE == b
    ensures Holds(b, DelBucket(bucket, key), m - {key})
  {
    var slots := bucket.main + bucket.extra;
    var bucket' := DelBucket(bucket, key);
    var slots' := bucket'.main + bucket'.extra;
    var i := FirstKey(bucket.main, key);
    var at := if i < |bucket.main| then i else |bucket.main| + FirstKey(bucket.extra, key);
    assert slots' == if at < |slots| then slots[at := Free] else slots;
    forall j | 0 <= j < |slots'| && slots'[j].Used? ensures slots'[j].key != key {
      assert slots[j] == slots'[j];
      if at < |slots| {
        assert slots[at].Used? && slots[at].key == key;
      } else if j < |bucket.main| {
        assert bucket.main[j] == slots[j];
      } else {
        assert bucket.extra[j - |bucket.main|] == slots[j];
      }
    }
    forall k | k in m - {key} && k % LM_MAP_HASH_SIZE == b ensures Has(slots', k) {
      assert Has(slots, k);
      var j :| 0 <= j < |slots| && slots[j].Used? && slots[j].key == k;
      assert slots'[j] == slots[j];
    }
  }

  lemma LookupFound<V>(b: nat, bucket: Bucket<V>, m: map<nat, V>, slot: Slot<V>)
    requires Holds(b, bucket, m) && (slot in bucket.main || slot in bucket.extra) && slot.Used?
    ensures slot.key in m && m[slot.key] == slot.value
  {
    var slots := bucket.main + bucket.extra;
    assert slot in slots;
  }

  lemma LookupMissed<V>(b: nat, bucket: Bucket<V>, m: map<nat, V>, key: nat)
    requires Holds(b, bucket, m) && key % LM_MAP_HASH_SIZE == b
    requires FirstKey(bucket.main, key) == |bucket.main| && FirstKey(bucket.extra, key) == |bucket.extra|
    ensures key !in m
  {
  }

  // ---------- the table ----------

  class LmMap<V(==)> {
    var table: seq<Bucket<V>>
    ghost var m: map<nat, V>

    ghost predicate Valid()
      reads this
    {
      && |table| == LM_MAP_HASH_SIZE
      && forall b :: 0 <= b < |table| ==> Holds(b, table[b], m)
    }

    /** lm_map_init */
    constructor ()
      ensures Valid() && m == map[]
    {
      table := seq(LM_MAP_HASH_SIZE, _ => Bucket([Free, Free, Free], []));
      m := map[];
    }

    /** The first slot with the key, by a loop over the slots. */
    static method ScanKey(slots: seq<Slot<V>>, key: nat) returns (i: nat)
      ensures i == FirstKey(slots, key)
    {
      i := 0;
      while i < |slots|
        invariant i <= |slots| && FirstKey(slots, key) == i + FirstKey(slots[i..], key)
      {
        if slots[i].Used? && slots[i].key == key {
          return;
        }
        assert slots[i..][1..] == slots[i + 1..];
        i := i + 1;
      }
    }

    /** The first free slot, by a loop over the slots. */
    static method ScanFree(slots: seq<Slot<V>>) returns (i: nat)
      ensures i == FirstFree(slots)
    {
      i := 0;
      while i < |slots|
        invariant i <= |slots| && FirstFree(slots) == i + FirstFree(slots[i..])
      {
        if slots[i].Free? {
          return;
        }
        assert slots[i..][1..] == slots[i + 1..];
        i := i + 1;
      }
    }

    /** lm_map_get */
    method Get(key: nat) returns (r: Option<V>)
      requires Valid()
      ensures r == if key in m && key > 0 then Some(m[key]) else None
    {
      if key == 0 {
        return None;
      }
      var a := table[key % LM_MAP_HASH_SIZE];
      var i := ScanKey(a.main, key);
      if i < |a.main| {
        LookupFound(key % LM_MAP_HASH_SIZE, a, m, a.main[i]);
        return Some(a.main[i].value);
      }
      var j := ScanKey(a.extra, key);
      if j < |a.extra| {
        LookupFound(key % LM_MAP_HASH_SIZE, a, m, a.extra[j]);
        return Some(a.extra[j].value);
      }
      LookupMissed(key % LM_MAP_HASH_SIZE, a, m, key);
      return None;
    }

    /** Putting the key stores nothing: it stands in a fixed slot before the first free one. */
    predicate InPlace(key: nat)
      reads this
      requires Valid()
    {
      var a := table[key % LM_MAP_HASH_SIZE];
      FirstKey(a.main, key) < FirstFree(a.main)
    }

    /** lm_map_put: the table is still one that holds a map exactly if the key was not there, or is not stored again. */
    method Put(key: nat, value: V) returns (ok: bool)
      requires Valid()
      modifies this
      ensures ok <==> key > 0 && (key in old(m) && old(InPlace(key)) ==> old(m)[key] == value)
      ensures m == if key == 0 || key in old(m) then old(m) else old(m)[key := value]
      ensures key == 0 ==> table == old(table)
      ensures key > 0 ==>
        var b := key % LM_MAP_HASH_SIZE;
        table == old(table)[b := PutBucket(old(table)[b], key, value)]
      ensures Valid() <==> key == 0 || key !in old(m) || old(InPlace(key))
    {
      if key == 0 {
        return false;
      }
      var index := key % LM_MAP_HASH_SIZE;
      var a := table[index];
      PutAny(index, a, m, key, value);
      forall b | 0 <= b < |table| && b != index ensures Holds(b, table[b], m[key := value]) {
        OtherBucketHolds(b, table[b], m, m[key := value], key);
      }
      var here := ScanKey(a.main, key);
      var free := ScanFree(a.main);
      if here < free {
        return a.main[here].value == value;
      }
      if free < |a.main| {
        a := a.(main := a.main[free := Used(key, value)]);
      } else {
        var spare := ScanFree(a.extra);
        a := a.(extra := if spare < |a.extra| then a.extra[spare := Used(key, value)]
                         else a.extra + [Used(key, value)]);
      }
      table := table[index := a];
      if key in m {
        assert !Holds(index, table[index], m);
      } else {
        m := m[key := value];
      }
      return true;
    }

    /** lm_map_del */
    method Del(key: nat) returns (found: bool)
      requires Valid()
      modifies this
      ensures Valid() && m == old(m) - {key} && found == (key in old(m))
    {
      NoZero();
      if key == 0 {
        assert m == m - {key};
        return false;
      }
      var index := key % LM_MAP_HASH_SIZE;
      var a := table[index];
      DelHolds(index, a, m, key);
      forall b | 0 <= b < |table| && b != index ensures Holds(b, table[b], m - {key}) {
        OtherBucketHolds(b, table[b], m, m - {key}, key);
      }
      var i := ScanKey(a.main, key);
      if i < |a.main| {
        LookupFound(index, a, m, a.main[i]);
        table := table[index := a.(main := a.main[i := Free])];
        m := m - {key};
        return true;
      }
      var j := ScanKey(a.extra, key);
      if j < |a.extra| {
        LookupFound(index, a, m, a.extra[j]);
        table := table[index := a.(extra := a.extra[j := Free])];
        m := m - {key};
        return true;
      }
      LookupMissed(index, a, m, key);
      assert m == m - {key};
      return false;
    }

    lemma NoZero()
      requires Valid()
      ensures 0 !in m
    {
      assert Holds(0, table[0], m);
    }

    /** The values lm_map_foreach visits, in its order. */
    method Visit() returns (values: seq<V>)
      requires Valid()
      ensures forall key :: key in m ==> m[key] in values
      ensures forall v :: v in values ==> exists key :: key in m && m[key] == v
    {
      values := [];
      var i := 0;
      while i < LM_MAP_HASH_SIZE
        invariant 0 <= i <= LM_MAP_HASH_SIZE
        invariant forall key :: key in m && key % LM_MAP_HASH_SIZE < i ==> m[key] in values
        invariant forall v :: v in values ==> exists key :: key in m && m[key] == v
      {
        var slots := table[i].main + table[i].extra;
        var j := 0;
        while j < |slots|
          invariant 0 <= j <= |slots|
          invariant forall key :: key in m && key % LM_MAP_HASH_SIZE < i ==> m[key] in values
          invariant forall k :: 0 <= k < j && slots[k].Used? ==> slots[k].value in values
          invariant forall v :: v in values ==> exists key :: key in m && m[key] == v
        {
          if slots[j].Used? {
            assert slots[j].key in m && m[slots[j].key] == slots[j].value;
            values := values + [slots[j].value];
          }
          j := j + 1;
        }
        assert Holds(i, table[i], m);
        forall key | key in m && key % LM_MAP_HASH_SIZE == i ensures m[key] in values {
          assert Has(slots, key);
        }
        i := i + 1;
      }
    }

    /** lm_map_clean */
    method Clean()
      modifies this
      ensures Valid() && m == map[]
    {
      table := seq(LM_MAP_HASH_SIZE, _ => Bucket([Free, Free, Free], []));
      m := map[];
    }
  }
}
