/** The allocation: hash tables of permission and channel records, updated in place, and the timers set on them. */
module Allocation {
  import opened IoaAddr
  import opened LmMap
  import opened StunDefs
  import opened TurnSpec
  import opened TurnGraph

  const TURN_PERMISSION_ARRAY_SIZE := 3
  const CH_MAP_HASH_SIZE := 8
  const CH_MAP_ARRAY_SIZE := 3

  /** One bucket: three records in place and more behind pointers. */
  datatype Row<R> = Row(main: seq<R>, extra: seq<R>)

  ghost predicate InRow<R>(row: Row<R>, older r: R) {
    r in row.main || r in row.extra
  }

  ghost predicate PermShows(p: PermInfo, r: PermRec)
    reads p, p.chns
  {
    p.chns.Valid() && r == PermRec(p.active, p.addr, p.lifetimeEv, p.chns.m)
  }

  ghost predicate ChanShows(c: ChInfo, r: ChanRec)
    reads c
  {
    r == ChanRec(c.active, c.chnum, c.port, c.peerAddr, c.lifetimeEv, c.owner)
  }

  lemma PermTimerShown(p: PermInfo, r: PermRec)
    requires PermShows(p, r)
    ensures p.lifetimeEv == r.timer
  {
  }

  method SetTimerOf(p: PermInfo, id: nat, expires: nat, ghost r: PermRec)
    requires PermShows(p, r)
    modifies p`lifetimeEv, p`expirationTime
    ensures PermShows(p, r.(timer := id)) && p.expirationTime == expires
  {
    p.SetTimer(id, expires);
  }

  /** Permission records stand in the bucket their address belongs to. */
  ghost predicate PermsPlaced(table: seq<Row<PermInfo>>, perms: map<PermInfo, PermRec>) {
    && |table| == TURN_PERMISSION_HASHTABLE_SIZE
    && (forall b, p :: 0 <= b < |table| && InRow(table[b], p) ==> p in perms)
    && (forall p :: p in perms && perms[p].active ==>
          InRow(table[PermIndex(perms[p].addr)], p))
  }

  /** Channel records stand in the bucket their number belongs to. */
  ghost predicate ChansPlaced(table: seq<Row<ChInfo>>, chans: map<ChInfo, ChanRec>) {
    && |table| == CH_MAP_HASH_SIZE
    && (forall b, c :: 0 <= b < |table| && InRow(table[b], c) ==> c in chans)
    && (forall c :: c in chans && chans[c].active ==> InRow(table[chans[c].chnum % CH_MAP_HASH_SIZE], c))
  }

  lemma PermsPlacedAppend(table: seq<Row<PermInfo>>, perms: map<PermInfo, PermRec>, b: nat, p: PermInfo)
    requires PermsPlaced(table, perms) && p !in perms && b < |table|
    ensures var table' := table[b := table[b].(extra := table[b].extra + [p])];
      PermsPlaced(table', perms[p := BLANK_PERM]) && InRow(table'[b], p)
  {
  }

  lemma PermsPlacedRow(table: seq<Row<PermInfo>>, perms: map<PermInfo, PermRec>, b: nat)
    requires PermsPlaced(table, perms) && b < TURN_PERMISSION_HASHTABLE_SIZE
    ensures b < |table| && forall p :: (p in table[b].main || p in table[b].extra) ==> p in perms && InRow(table[b], p)
  {
  }

  lemma PermsPlacedSet(table: seq<Row<PermInfo>>, perms: map<PermInfo, PermRec>, p: PermInfo, r: PermRec)
    requires PermsPlaced(table, perms) && p in perms
    requires r.active ==> InRow(table[PermIndex(r.addr)], p)
    ensures PermsPlaced(table, perms[p := r])
  {
  }

  lemma ChansPlacedAppend(table: seq<Row<ChInfo>>, chans: map<ChInfo, ChanRec>, b: nat, c: ChInfo)
    requires ChansPlaced(table, chans) && c !in chans && b < |table|
    ensures var table' := table[b := table[b].(extra := table[b].extra + [c])];
      ChansPlaced(table', chans[c := BLANK_CHAN]) && InRow(table'[b], c)
  {
  }

  lemma PermsPlacedSame(table: seq<Row<PermInfo>>, perms: map<PermInfo, PermRec>, p: PermInfo, r: PermRec)
    requires PermsPlaced(table, perms) && p in perms && (r.active ==> perms[p].active && r.addr == perms[p].addr)
    ensures PermsPlaced(table, perms[p := r])
  {
  }

  lemma ChansPlacedSame(table: seq<Row<ChInfo>>, chans: map<ChInfo, ChanRec>, c: ChInfo, r: ChanRec)
    requires ChansPlaced(table, chans) && c in chans && (r.active ==> chans[c].active && r.chnum == chans[c].chnum)
    ensures ChansPlaced(table, chans[c := r])
  {
  }

  lemma ChansPlacedRow(table: seq<Row<ChInfo>>, chans: map<ChInfo, ChanRec>, b: nat)
    requires ChansPlaced(table, chans) && b < CH_MAP_HASH_SIZE
    ensures b < |table| && forall c :: (c in table[b].main || c in table[b].extra) ==> c in chans && InRow(table[b], c)
  {
  }

  lemma ChansPlacedSet(table: seq<Row<ChInfo>>, chans: map<ChInfo, ChanRec>, c: ChInfo, r: ChanRec)
    requires ChansPlaced(table, chans) && c in chans
    requires r.active ==> InRow(table[r.chnum % CH_MAP_HASH_SIZE], c)
    ensures ChansPlaced(table, chans[c := r])
  {
  }

  /** A row of new records. */
  lemma PermsPlacedFresh(table: seq<Row<PermInfo>>, perms: map<PermInfo, PermRec>, b: nat, row: Row<PermInfo>,
      perms': map<PermInfo, PermRec>)
    requires PermsPlaced(table, perms) && b < |table| && perms.Keys <= perms'.Keys
    requires forall p :: p in perms' ==> !perms'[p].active
    requires forall p :: (p in row.main || p in row.extra) ==> p in perms'
    ensures PermsPlaced(table[b := row], perms')
  {
  }

  lemma ChansPlacedFresh(table: seq<Row<ChInfo>>, chans: map<ChInfo, ChanRec>, b: nat, row: Row<ChInfo>,
      chans': map<ChInfo, ChanRec>)
    requires ChansPlaced(table, chans) && b < |table| && chans.Keys <= chans'.Keys
    requires forall c :: c in chans' ==> !chans'[c].active
    requires forall c :: (c in row.main || c in row.extra) ==> c in chans'
    ensures ChansPlaced(table[b := row], chans')
  {
  }

  /** The overflow records of a row can go once none in the row is in use. */
  lemma PermsPlacedFree(table: seq<Row<PermInfo>>, perms: map<PermInfo, PermRec>, b: nat)
    requires PermsPlaced(table, perms) && b < |table|
    requires forall p :: p in perms && InRow(table[b], p) ==> !perms[p].active
    ensures PermsPlaced(table[b := table[b].(extra := [])], perms)
  {
  }

  lemma ChansPlacedFree(table: seq<Row<ChInfo>>, chans: map<ChInfo, ChanRec>, b: nat)
    requires ChansPlaced(table, chans) && b < |table|
    requires forall c :: c in chans && InRow(table[b], c) ==> !chans[c].active
    ensures ChansPlaced(table[b := table[b].(extra := [])], chans)
  {
  }

  class Allocation {
    var isValid: bool
    var permTable: seq<Row<PermInfo>>
    var chTable: seq<Row<ChInfo>>
    var timers: map<nat, Target>   // the timers of the engine that are set on records of this allocation
    var lastTimer: nat
    var dues: map<nat, nat>        // for when each timer was set
    ghost var perms: map<PermInfo, PermRec>   // a picture of the records; with the timers, the graph
    ghost var chans: map<ChInfo, ChanRec>
    ghost var Repr: set<object>    // the records and their port tables
    ghost var st: State
    ghost var holder: map<LmMap<ChInfo>, PermInfo>   // which record a port table is part of

    ghost function G(): Graph
      reads this`perms, this`chans, this`timers
    {
      Graph(perms, chans, timers)
    }

    /** The permission records and their port tables are different objects. */
    ghost predicate Owned()
      reads this`Repr, this`perms, this`chans, this`holder
    {
      && (forall p :: p in perms ==> p in Repr && p.chns in Repr && p.chns in holder && holder[p.chns] == p)
      && (forall c :: c in chans ==> c in Repr)
    }

    ghost predicate PermsShown()
      reads this`perms, perms.Keys, set p | p in perms :: p.chns
    {
      forall p :: p in perms ==> PermShows(p, perms[p])
    }

    ghost predicate ChansShown()
      reads this`chans, chans.Keys
    {
      forall c :: c in chans ==> ChanShows(c, chans[c])
    }

    /** The picture is true. */
    ghost predicate Tied()
      reads this`Repr, this`perms, this`chans, this`holder, this`timers, this`lastTimer, Repr
    {
      && this !in Repr && Owned() && PermsShown() && ChansShown()
      && (forall id :: id in timers ==> id <= lastTimer)
    }

    ghost predicate Placed()
      reads this`permTable, this`chTable, this`perms, this`chans
    {
      PermsPlaced(permTable, perms) && ChansPlaced(chTable, chans)
    }

    ghost predicate Valid()
      reads this, Repr
    {
      Tied() && Placed() && Core(G()) && Means(G(), st)
    }

    lemma ValidMeans()
      requires Valid()
      ensures Means(G(), st)
    {
    }

    // ---------- a new allocation ----------

    /** init_allocation: eight rows of three zeroed records in either table. */
    constructor ()
      ensures Valid() && Armed(G()) && !isValid && st == EMPTY && fresh(Repr)
    {
      isValid, timers, lastTimer, dues := false, map[], 0, map[];
      permTable := seq(TURN_PERMISSION_HASHTABLE_SIZE, _ => Row([], []));
      chTable := seq(CH_MAP_HASH_SIZE, _ => Row([], []));
      perms, chans, holder, Repr, st := map[], map[], map[], {}, EMPTY;
      new;
      assert Tied() && Placed();
      hide PermIndex, PermsPlaced, ChansPlaced, InRow, Owned, PermsShown, ChansShown, Tied;
      hide Linked, Unique, TimersPoint, TimersLive, Means, Armed;
      var b := 0;
      while b < TURN_PERMISSION_HASHTABLE_SIZE
        invariant b <= TURN_PERMISSION_HASHTABLE_SIZE && Tied() && Placed() && fresh(Repr) && timers == map[]
        invariant forall p :: p in perms ==> perms[p] == BLANK_PERM
        invariant chans == map[] && st == EMPTY && !isValid
      {
        NewPermRow(b);
        b := b + 1;
      }
      b := 0;
      while b < CH_MAP_HASH_SIZE
        invariant b <= CH_MAP_HASH_SIZE && Tied() && Placed() && fresh(Repr) && timers == map[]
        invariant forall p :: p in perms ==> perms[p] == BLANK_PERM
        invariant forall c :: c in chans ==> chans[c] == BLANK_CHAN
        invariant st == EMPTY && !isValid
      {
        NewChanRow(b);
        b := b + 1;
      }
      AllBlank(G());
    }

    method NewPermRow(b: nat)
      requires Tied() && PermsPlaced(permTable, perms) && b < TURN_PERMISSION_HASHTABLE_SIZE
      requires forall p :: p in perms ==> perms[p] == BLANK_PERM
      modifies this`permTable, this`perms, this`holder, this`Repr
      ensures Tied() && PermsPlaced(permTable, perms) && fresh(Repr - old(Repr))
      ensures forall p :: p in perms ==> perms[p] == BLANK_PERM
    {
      hide PermIndex, InRow, Owned, PermsShown, ChansShown;
      ghost var before := perms;
      var p := NewPerm();
      var q := NewPerm();
      var r := NewPerm();
      var row := Row([p, q, r], []);
      assert |row.main| == TURN_PERMISSION_ARRAY_SIZE;
      PermsPlacedFresh(permTable, before, b, row, perms);
      permTable := permTable[b := row];
    }

    method NewChanRow(b: nat)
      requires Tied() && ChansPlaced(chTable, chans) && b < CH_MAP_HASH_SIZE
      requires forall c :: c in chans ==> chans[c] == BLANK_CHAN
      modifies this`chTable, this`chans, this`Repr
      ensures Tied() && ChansPlaced(chTable, chans) && fresh(Repr - old(Repr))
      ensures forall c :: c in chans ==> chans[c] == BLANK_CHAN
    {
      hide InRow, Owned, PermsShown, ChansShown;
      ghost var before := chans;
      var c := NewChan();
      var d := NewChan();
      var e := NewChan();
      var row := Row([c, d, e], []);
      assert |row.main| == CH_MAP_ARRAY_SIZE;
      ChansPlacedFresh(chTable, before, b, row, chans);
      chTable := chTable[b := row];
    }

    // ---------- lookups ----------

    /** The loop over the slots of a bucket in get_from_turn_permission_hashtable. */
    method ScanPerm(slots: seq<PermInfo>, addr: IoaAddr) returns (r: PermInfo?)
      ensures r != null ==> r in slots && r.active && AddrEqNoPort(r.addr, addr)
      ensures r == null ==> forall p :: p in slots ==> !(p.active && AddrEqNoPort(p.addr, addr))
    {
      var i := 0;
      while i < |slots|
        invariant i <= |slots|
        invariant forall k :: 0 <= k < i ==> !(slots[k].active && AddrEqNoPort(slots[k].addr, addr))
      {
        if slots[i].active && AddrEqNoPort(slots[i].addr, addr) {
          return slots[i];
        }
        i := i + 1;
      }
      return null;
    }

    /** allocation_get_permission */
    method GetPermission(addr: IoaAddr) returns (r: PermInfo?)
      requires Tied() && Placed()
      ensures r != null ==> r in perms && r.active && AddrEqNoPort(r.addr, addr)
      ensures r == null ==> NoPermFor(G(), addr)
    {
      hide PermIndex;
      var row := permTable[PermIndex(addr)];
      r := ScanPerm(row.main, addr);
      if r != null {
        assert InRow(row, r);
        return;
      }
      r := ScanPerm(row.extra, addr);
      if r != null {
        assert InRow(row, r);
        return;
      }
      forall p | p in perms && perms[p].active && AddrEqNoPort(perms[p].addr, addr)
        ensures InRow(row, p)
      {
        SameIpSameIndex(perms[p].addr, addr);
      }
    }

    /** The loop of ch_map_get over the slots of a bucket, looking for a number. */
    method ScanChan(slots: seq<ChInfo>, n: nat) returns (r: ChInfo?)
      ensures r != null ==> r in slots && r.active && r.chnum == n
      ensures r == null ==> forall c :: c in slots ==> !(c.active && c.chnum == n)
    {
      var i := 0;
      while i < |slots|
        invariant i <= |slots|
        invariant forall k :: 0 <= k < i ==> !(slots[k].active && slots[k].chnum == n)
      {
        if slots[i].active && slots[i].chnum == n {
          return slots[i];
        }
        i := i + 1;
      }
      return null;
    }

    /** allocation_get_ch_info, that is ch_map_get without new_chn */
    method GetChannel(n: nat) returns (r: ChInfo?)
      requires Tied() && Placed()
      ensures r != null ==> r in chans && ChanFor(G(), r, n)
      ensures r == null ==> forall c :: c in chans ==> !ChanFor(G(), c, n)
    {
      var row := chTable[n % CH_MAP_HASH_SIZE];
      r := ScanChan(row.main, n);
      if r != null {
        assert InRow(row, r);
        return;
      }
      r := ScanChan(row.extra, n);
      if r != null {
        assert InRow(row, r);
        return;
      }
      assert forall c :: c in chans && ChanFor(G(), c, n) ==> InRow(row, c);
    }

    /** get_turn_channel, and allocation_get_ch_info_by_peer_addr on top of it */
    method GetChannelByPeer(peer: IoaAddr) returns (r: ChInfo?)
      requires Tied() && Placed() && Core(G())
      ensures r != null ==> ByPeer(G(), peer, r) && r in chans && chans[r].active
      ensures r == null ==> forall c :: c in chans ==> !ByPeer(G(), peer, c)
    {
      hide Linked, Unique, TimersPoint, TimersLive;
      var p := GetPermission(peer);
      if p == null {
        return null;
      }
      r := ChannelOfPerm(p, peer);
      if r != null {
        assert ByPeer(G(), peer, r);
        return;
      }
      forall q | q in perms && perms[q].active && AddrEqNoPort(perms[q].addr, peer)
        ensures q == p
      {
        SameOwner(G(), q, p);
      }
    }

    /** get_turn_channel */
    method ChannelOfPerm(p: PermInfo, peer: IoaAddr) returns (r: ChInfo?)
      requires Tied() && Linked(G()) && p in perms
      ensures r != null ==> r in chans && chans[r].active && chans[r].owner == p
      ensures r != null ==> GetPort(peer) in perms[p].chns && perms[p].chns[GetPort(peer)] == r
      ensures r == null ==> GetPort(peer) !in perms[p].chns
    {
      var t := p.chns.Get(GetPort(peer));
      p.chns.NoZero();
      if t.None? {
        return null;
      }
      ActiveHangs(G(), t.value);
      if ValidChannel(t.value.chnum) {
        return t.value;
      }
      return null;
    }

    // ---------- lookups and what they mean ----------

    /** What the record found for a number is worth. */
    lemma NumberMeans(n: nat, c: ChInfo?)
      requires Valid()
      requires c != null ==> c in chans && ChanFor(G(), c, n)
      requires c == null ==> forall d :: d in chans ==> !ChanFor(G(), d, n)
      ensures c != null <==> n in st.channels
      ensures c != null ==> ChannelStands(c, n) && PermitOwns(G(), c, PeerOf(c.peerAddr).ip)
      ensures c != null && Armed(G()) ==> ArmedBut(G(), chans[c].owner, c)
    {
    }

    /** The fields of a channel record agree with each other, with its permission and with what the number stands
        for. */
    ghost predicate ChannelStands(c: ChInfo, n: nat)
      reads this`st, this`chans, this`perms, c, c.owner
    {
      && c in chans && chans[c].active && c.chnum == n
      && n in st.channels && st.channels[n] == PeerOf(c.peerAddr) && c.peerAddr.Addr?
      && c.owner != null && c.owner in perms && AddrEqNoPort(c.peerAddr, c.owner.addr) && c.port == GetPort(c.peerAddr)
      && c.peerAddr.ip in st.permits
    }

    lemma PeerMeans(peer: IoaAddr, c: ChInfo?)
      requires Valid() && peer.Addr?
      requires c != null ==> ByPeer(G(), peer, c) && c in chans
      requires c == null ==> forall d :: d in chans ==> !ByPeer(G(), peer, d)
      ensures c != null <==> PeerOf(peer) in st.channels.Values
    {
      hide Owned, PermsShown, ChansShown, PermsPlaced, ChansPlaced;
      if c == null {
        UnboundPeer(G(), st, peer);
      } else {
        BoundPeer(G(), st, peer, c);
      }
    }

    /** What the permission found for an address is worth. */
    lemma PermissionMeans(addr: IoaAddr, p: PermInfo?)
      requires Valid() && addr.Addr?
      requires p != null ==> p in perms && p.active && AddrEqNoPort(p.addr, addr)
      requires p == null ==> NoPermFor(G(), addr)
      ensures p != null <==> addr.ip in st.permits
    {
    }

    /** get_turn_channel_number: 0 if there is none. */
    method ChannelNumberOf(p: PermInfo, from: IoaAddr) returns (n: nat)
      requires Valid() && from.Addr? && p in perms && p.active && AddrEqNoPort(p.addr, from)
      ensures n != 0 ==> n in st.channels && st.channels[n] == PeerOf(from)
      ensures n == 0 ==> PeerOf(from) !in st.channels.Values
    {
      hide Owned, PermsShown, ChansShown, PermsPlaced, ChansPlaced, Means, Linked, Unique, TimersLive, TimersPoint, ByPeer;
      var c := ChannelOfPerm(p, from);
      ShowsPerm(p);
      ByPeerOf(G(), from, p, c);
      if c == null {
        UnboundPeer(G(), st, from);
        return 0;
      }
      BoundPeer(G(), st, from, c);
      ShowsChan(c);
      return c.chnum;
    }

    // ---------- free records ----------

    /** The first free permission record of a bucket's slots. */
    method ScanFreePerm(slots: seq<PermInfo>) returns (r: PermInfo?)
      ensures r != null ==> r in slots && !r.active
      ensures r == null ==> forall p :: p in slots ==> p.active
    {
      var i := 0;
      while i < |slots|
        invariant i <= |slots| && forall k :: 0 <= k < i ==> slots[k].active
      {
        if !slots[i].active {
          return slots[i];
        }
        i := i + 1;
      }
      return null;
    }

    /** A new record joins the picture. */
    method NewPerm() returns (p: PermInfo)
      requires Tied()
      modifies this`perms, this`holder, this`Repr
      ensures Tied() && p !in old(perms) && fresh(p) && fresh(p.chns) && perms == old(perms)[p := BLANK_PERM]
      ensures Repr == old(Repr) + {p, p.chns}
    {
      hide LmMap.Valid;
      p := new PermInfo();
      assert p !in Repr && p !in perms && p.chns !in holder;
      perms := perms[p := BLANK_PERM];
      holder := holder[p.chns := p];
      Repr := Repr + {p, p.chns};
    }

    method NewChan() returns (c: ChInfo)
      requires Tied()
      modifies this`chans, this`Repr
      ensures Tied() && c !in old(chans) && fresh(c) && chans == old(chans)[c := BLANK_CHAN]
      ensures Repr == old(Repr) + {c}
    {
      hide LmMap.Valid;
      c := new ChInfo();
      assert c !in Repr && c !in chans;
      chans := chans[c := BLANK_CHAN];
      Repr := Repr + {c};
    }

    // ---------- writing one record ----------

    method InitPerm(p: PermInfo, addr: IoaAddr)
      requires Tied() && p in perms
      modifies this`perms, p, p.chns
      ensures Tied() && perms == old(perms)[p := PermRec(true, addr, 0, map[])]
    {
      hide LmMap.Valid;
      p.Init(addr);
      perms := perms[p := PermRec(true, addr, 0, map[])];
    }

    /** memset of a permission record whose timer is gone. */
    method ZeroPerm(p: PermInfo)
      requires Tied() && p in perms
      modifies this`perms, p, p.chns
      ensures Tied() && perms == old(perms)[p := BLANK_PERM]
    {
      hide LmMap.Valid;
      p.Zero();
      perms := perms[p := BLANK_PERM];
    }

    method InitChan(c: ChInfo, n: nat, peer: IoaAddr, p: PermInfo)
      requires Tied() && c in chans && chans[c] == BLANK_CHAN
      modifies this`chans, c
      ensures Tied() && chans == old(chans)[c := ChanRec(true, n, GetPort(peer), peer, 0, p)]
    {
      hide LmMap.Valid;
      c.Init(n, peer, p);
      chans := chans[c := ChanRec(true, n, GetPort(peer), peer, 0, p)];
    }

    /** lm_map_put of a channel into the port table of a permission. */
    method Hang(p: PermInfo, port: nat, c: ChInfo)
      requires Tied() && p in perms && port > 0 && port !in perms[p].chns
      modifies this`perms, p.chns
      ensures Tied() && perms == old(perms)[p := old(perms)[p].(chns := old(perms)[p].chns[port := c])]
    {
      hide LmMap.Valid, LmMap.InPlace, PutBucket;
      var _ := p.chns.Put(port, c);
      perms := perms[p := perms[p].(chns := perms[p].chns[port := c])];
    }

    /** lm_map_del of a port from the port table of a permission. */
    method Unhang(p: PermInfo, port: nat)
      requires Tied() && p in perms
      modifies this`perms, p.chns
      ensures Tied() && perms == old(perms)[p := old(perms)[p].(chns := old(perms)[p].chns - {port})]
    {
      hide LmMap.Valid;
      var _ := p.chns.Del(port);
      perms := perms[p := perms[p].(chns := perms[p].chns - {port})];
    }

    // ---------- timers ----------

    /** IOA_EVENT_DEL and set_ioa_timer for a permission (update_turn_permission_lifetime) */
    method ArmPerm(p: PermInfo, expires: nat)
      requires Tied() && p in perms
      modifies this`timers, this`lastTimer, this`perms, p
      ensures Tied() && lastTimer == old(lastTimer) + 1
      ensures G() == SetPermTimer(old(G()), p, lastTimer) && p.expirationTime == expires
    {
      hide LmMap.Valid, PermShows, ChansShown;
      var id := lastTimer + 1;
      PermTimerShown(p, perms[p]);
      timers, lastTimer := (timers - {p.lifetimeEv})[id := PermTarget(p)], id;
      SetTimerOf(p, id, expires, perms[p]);
      perms := perms[p := perms[p].(timer := id)];
      forall q | q in perms ensures PermShows(q, perms[q]) {
        assert q != p ==> old(PermShows(q, perms[q])) && q.chns in Repr;
      }
    }

    method ArmChan(c: ChInfo, expires: nat)
      requires Tied() && c in chans
      modifies this`timers, this`lastTimer, this`chans, c
      ensures Tied() && lastTimer == old(lastTimer) + 1
      ensures G() == SetChanTimer(old(G()), c, lastTimer) && c.expirationTime == expires
    {
      hide LmMap.Valid, PermsShown;
      var id := lastTimer + 1;
      timers, lastTimer := (timers - {c.lifetimeEv})[id := ChanTarget(c)], id;
      chans := chans[c := chans[c].(timer := id)];
      c.SetTimer(id, expires);
    }

    /** IOA_EVENT_DEL for a permission */
    method DisarmPerm(p: PermInfo)
      requires Tied() && p in perms
      modifies this`timers, this`perms, p
      ensures Tied() && timers == old(timers) - {old(perms)[p].timer}
      ensures perms == old(perms)[p := old(perms)[p].(timer := 0)]
    {
      hide LmMap.Valid, PermShows, ChansShown;
      PermTimerShown(p, perms[p]);
      timers := timers - {p.lifetimeEv};
      SetTimerOf(p, 0, p.expirationTime, perms[p]);
      perms := perms[p := perms[p].(timer := 0)];
      forall q | q in perms ensures PermShows(q, perms[q]) {
        assert q != p ==> old(PermShows(q, perms[q])) && q.chns in Repr;
      }
    }

    /** ch_info_clean */
    method CleanChan(c: ChInfo)
      requires Tied() && c in chans
      modifies this`timers, this`chans, c
      ensures Tied() && timers == old(timers) - {old(chans)[c].timer}
      ensures chans == old(chans)[c := BLANK_CHAN]
    {
      hide LmMap.Valid, PermsShown;
      timers := timers - {c.lifetimeEv};
      c.Zero();
      chans := chans[c := BLANK_CHAN];
    }

    // ---------- free records ----------

    /** A free record in bucket b, or a new one appended to its overflow slots. */
    method FreePerm(b: nat) returns (p: PermInfo)
      requires Tied() && Placed() && b < TURN_PERMISSION_HASHTABLE_SIZE
      modifies this`permTable, this`perms, this`holder, this`Repr
      ensures Tied() && Placed() && p in perms && !perms[p].active && InRow(permTable[b], p)
      ensures perms == old(perms) || (p !in old(perms) && perms == old(perms)[p := BLANK_PERM])
      ensures fresh(Repr - old(Repr))
    {
      hide PermsPlaced, ChansPlaced, InRow, Owned, PermsShown, ChansShown;
      PermsPlacedRow(permTable, perms, b);
      var row := permTable[b];
      var slot := ScanFreePerm(row.main);
      if slot == null {
        slot := ScanFreePerm(row.extra);
      }
      if slot != null {
        ShowsPerm(slot);
        return slot;
      }
      ghost var before := perms;
      p := NewPerm();
      PermsPlacedAppend(permTable, before, b, p);
      permTable := permTable[b := row.(extra := row.extra + [p])];
    }

    lemma ShowsPerm(p: PermInfo)
      requires Tied() && p in perms
      ensures perms[p].active == p.active && perms[p].addr == p.addr && perms[p].timer == p.lifetimeEv
    {
    }

    method ScanFreeChan(slots: seq<ChInfo>) returns (r: ChInfo?)
      ensures r != null ==> r in slots && !r.active
      ensures r == null ==> forall c :: c in slots ==> c.active
    {
      var i := 0;
      while i < |slots|
        invariant i <= |slots| && forall k :: 0 <= k < i ==> slots[k].active
      {
        if !slots[i].active {
          return slots[i];
        }
        i := i + 1;
      }
      return null;
    }

    /** ch_map_get with new_chn: a free record in the bucket of the number, or a new one appended. */
    method FreeChan(b: nat) returns (c: ChInfo)
      requires Tied() && Placed() && Linked(G()) && b < CH_MAP_HASH_SIZE
      modifies this`chTable, this`chans, this`Repr
      ensures Tied() && Placed() && c in chans && chans[c] == BLANK_CHAN && InRow(chTable[b], c)
      ensures chans == old(chans) || (c !in old(chans) && chans == old(chans)[c := BLANK_CHAN])
      ensures fresh(Repr - old(Repr))
    {
      hide PermsPlaced, ChansPlaced, InRow, Owned, PermsShown, ChansShown;
      ChansPlacedRow(chTable, chans, b);
      var row := chTable[b];
      var slot := ScanFreeChan(row.main);
      if slot == null {
        slot := ScanFreeChan(row.extra);
      }
      if slot != null {
        ShowsChan(slot);
        return slot;
      }
      ghost var before := chans;
      c := NewChan();
      ChansPlacedAppend(chTable, before, b, c);
      chTable := chTable[b := row.(extra := row.extra + [c])];
    }

    lemma ShowsChan(c: ChInfo)
      requires Tied() && c in chans
      ensures chans[c] == ChanRec(c.active, c.chnum, c.port, c.peerAddr, c.lifetimeEv, c.owner)
    {
    }

    // ---------- permissions and channels come and go ----------

    /** allocation_add_permission */
    method AddPermission(addr: IoaAddr) returns (p: PermInfo)
      requires Tied() && Placed()
      modifies this`permTable, this`perms, this`holder, this`Repr, Repr
      ensures Tied() && Placed()
      ensures (p in old(perms) ==> !old(perms)[p].active) && G() == AddPerm(old(G()), p, addr)
      ensures fresh(Repr - old(Repr))
    {
      hide PermIndex, PermsPlaced, ChansPlaced, InRow, Owned, PermsShown, ChansShown;
      p := FreePerm(PermIndex(addr));
      AddPermOver(old(G()), p, addr);
      PermsPlacedSet(permTable, perms, p, PermRec(true, addr, 0, map[]));
      PermInRepr(p);
      InitPerm(p, addr);
    }

    lemma PermInRepr(p: PermInfo)
      requires Tied() && p in perms
      ensures p in Repr && p.chns in Repr
    {
    }

    lemma ChanInRepr(c: ChInfo)
      requires Tied() && c in chans
      ensures c in Repr
    {
    }

    /** The permission of an address, added if there is none. */
    method EnsurePermission(addr: IoaAddr) returns (p: PermInfo)
      requires Tied() && Placed() && Core(G()) && Means(G(), st)
      modifies this`permTable, this`perms, this`holder, this`Repr, this`st, Repr
      ensures Tied() && Placed() && Core(G()) && Means(G(), st)
      ensures Ensured(old(perms), perms, p, addr)
      ensures st == if addr.Addr? then Next(old(st), Permit({addr.ip})) else old(st)
      ensures Armed(old(G())) ==> ArmedBut(G(), p, null)
      ensures (forall d :: d in chans ==> !ByPeer(old(G()), addr, d)) ==> GetPort(addr) !in perms[p].chns
      ensures fresh(Repr - old(Repr))
    {
      hide PermIndex, PermsPlaced, ChansPlaced, InRow, Owned, PermsShown, ChansShown;
      hide Linked, Unique, TimersPoint, TimersLive, Means, ByPeer;
      var known := GetPermission(addr);
      ghost var g0 := G();
      if known == null {
        p := AddPermission(addr);
        AddPermKeeps(g0, p, addr);
        AddPermMeans(g0, p, addr, st);
        st := if addr.Addr? then st.(permits := st.permits + {addr.ip}) else st;
      } else {
        p := known;
        ShowsPerm(p);
        PermitOf(g0, st, p);
        assert st.permits + {addr.ip} == st.permits;
        if forall d :: d in chans ==> !ByPeer(g0, addr, d) {
          PortFree(g0, p, addr);
        }
      }
    }

    /** allocation_get_new_ch_info */
    method NewChannel(n: nat, peer: IoaAddr) returns (c: ChInfo)
      requires Tied() && Placed() && Core(G()) && Means(G(), st)
      requires ValidChannel(n) && peer.Addr? && peer.port > 0
      requires forall d :: d in chans ==> !ChanFor(G(), d, n)
      requires forall d :: d in chans ==> !ByPeer(G(), peer, d)
      modifies this`permTable, this`chTable, this`perms, this`chans, this`holder, this`Repr, this`st, Repr
      ensures Tied() && Placed() && Core(G()) && Means(G(), st) && c in chans && ChanFor(G(), c, n)
      ensures st == Next(old(st), Bind(n, Peer(peer.ip, peer.port)))
      ensures Armed(old(G())) ==> ArmedBut(G(), chans[c].owner, c)
      ensures fresh(Repr - old(Repr))
    {
      hide PermIndex, PermsPlaced, ChansPlaced, InRow, Owned, PermsShown, ChansShown, Linked, Unique, TimersPoint, TimersLive, Means;
      var p := EnsurePermission(peer);
      c := FillChannel(n, peer, p);
    }

    /** The part of allocation_get_new_ch_info that has the permission. */
    method FillChannel(n: nat, peer: IoaAddr, p: PermInfo) returns (c: ChInfo)
      requires Tied() && Placed() && Core(G()) && Means(G(), st)
      requires ValidChannel(n) && peer.Addr? && peer.port > 0
      requires forall d :: d in chans ==> !ChanFor(G(), d, n)
      requires p in perms && perms[p].active && AddrEqNoPort(perms[p].addr, peer) && peer.port !in perms[p].chns
      modifies this`chTable, this`perms, this`chans, this`Repr, this`st, Repr
      ensures Tied() && Placed() && Core(G()) && Means(G(), st) && c in chans && ChanFor(G(), c, n)
      ensures chans[c].owner == p && p in perms && perms[p].active
      ensures st == old(st).(channels := old(st).channels[n := Peer(peer.ip, peer.port)])
      ensures ArmedBut(old(G()), p, null) ==> ArmedBut(G(), p, c)
      ensures fresh(Repr - old(Repr))
    {
      hide PermIndex, PermsPlaced, ChansPlaced, InRow, Owned, PermsShown, ChansShown;
      hide Linked, Unique, TimersPoint, TimersLive, Means;
      ghost var g := G();
      c := FreeChan(n % CH_MAP_HASH_SIZE);
      AddChanOver(g, c, n, peer, p);
      AddChanKeeps(g, c, n, peer, p);
      AddChanMeans(g, c, n, peer, p, st);
      FillRecords(c, n, peer, p);
      st := st.(channels := st.channels[n := PeerOf(peer)]);
    }

    /** A free channel record becomes the channel of a number and a peer, and hangs in the table of its permission. */
    method FillRecords(c: ChInfo, n: nat, peer: IoaAddr, p: PermInfo)
      requires Tied() && Placed() && c in chans && chans[c] == BLANK_CHAN && InRow(chTable[n % CH_MAP_HASH_SIZE], c)
      requires p in perms && GetPort(peer) > 0 && GetPort(peer) !in perms[p].chns
      modifies this`perms, this`chans, Repr
      ensures Tied() && Placed() && G() == AddChan(old(G()), c, n, peer, p)
    {
      hide PermIndex, PermsPlaced, ChansPlaced, InRow, Owned, PermsShown, ChansShown;
      ChansPlacedSet(chTable, chans, c, ChanRec(true, n, GetPort(peer), peer, 0, p));
      PermsPlacedSame(permTable, perms, p, perms[p].(chns := perms[p].chns[GetPort(peer) := c]));
      ChanInRepr(c);
      InitChan(c, n, peer, p);
      PermInRepr(p);
      Hang(p, GetPort(peer), c);
    }

    /** update_channel_lifetime: the permission of the channel gets a new timer, too. */
    method UpdateChannelLifetime(c: ChInfo, expires: nat)
      requires Valid() && c in chans && chans[c].active && ArmedBut(G(), chans[c].owner, c)
      modifies this`timers, this`lastTimer, this`dues, this`perms, this`chans, Repr
      ensures Valid() && Armed(G()) && lastTimer == old(lastTimer) + 2
      ensures dues == old(dues)[lastTimer - 1 := expires][lastTimer := expires]
      ensures var g, p := old(G()), old(chans)[c].owner;
        p in g.perms && G() == SetChanTimer(SetPermTimer(g, p, lastTimer - 1), c, lastTimer)
        && c.expirationTime == expires && p.expirationTime == expires
    {
      hide PermIndex, PermsPlaced, ChansPlaced, InRow, Owned, PermsShown, ChansShown;
      hide Linked, Unique, TimersPoint, TimersLive, Means;
      ActiveHangs(G(), c);
      ShowsChan(c);
      ChanInRepr(c);
      var p := c.owner;
      PermInRepr(p);
      UpdatePermissionLifetime(p, expires, c);
      SetChanTimerKeeps(G(), c, lastTimer + 1);
      SetChanTimerMeans(G(), c, lastTimer + 1, st);
      ChansPlacedSame(chTable, chans, c, chans[c].(timer := lastTimer + 1));
      dues := dues[lastTimer + 1 := expires];
      ArmChan(c, expires);
    }

    /** update_turn_permission_lifetime */
    method UpdatePermissionLifetime(p: PermInfo, expires: nat, ghost c: ChInfo?)
      requires Valid() && p in perms && perms[p].active && ArmedBut(G(), p, c)
      modifies this`timers, this`lastTimer, this`dues, this`perms, p
      ensures Valid() && ArmedBut(G(), null, c)
      ensures lastTimer == old(lastTimer) + 1 && dues == old(dues)[lastTimer := expires]
      ensures G() == SetPermTimer(old(G()), p, lastTimer) && p.expirationTime == expires
    {
      hide PermIndex, PermsPlaced, ChansPlaced, InRow, Owned, PermsShown, ChansShown;
      hide Linked, Unique, TimersPoint, TimersLive, Means;
      PermInRepr(p);
      SetPermTimerKeeps(G(), p, lastTimer + 1);
      SetPermTimerMeans(G(), p, lastTimer + 1, st);
      PermsPlacedSame(permTable, perms, p, perms[p].(timer := lastTimer + 1));
      dues := dues[lastTimer + 1 := expires];
      ArmPerm(p, expires);
    }

    /** update_permission */
    method UpdatePermission(addr: IoaAddr, permExpires: nat, chanExpires: nat)
      requires Valid() && Armed(G())
      modifies this`permTable, this`perms, this`holder, this`Repr, this`chans, this`timers, this`lastTimer, this`dues
      modifies this`st, Repr
      ensures Valid() && Armed(G()) && fresh(Repr - old(Repr)) && isValid == old(isValid)
      ensures lastTimer >= old(lastTimer) && Younger(old(perms), perms, old(lastTimer))
      ensures OthersKept(old(perms), perms, addr) && PermRenewed(perms, addr, old(lastTimer))
      ensures forall id :: id <= old(lastTimer) && id in old(dues) ==> id in dues && dues[id] == old(dues)[id]
      ensures GetPort(addr) == 0 ==>
        forall id :: old(lastTimer) < id <= lastTimer ==> id in dues && dues[id] == permExpires
      ensures st == if addr.Addr? then Next(old(st), Permit({addr.ip})) else old(st)
    {
      hide PermIndex, PermsPlaced, ChansPlaced, InRow, Owned, PermsShown, ChansShown;
      hide Linked, Unique, TimersPoint, TimersLive, Means, Armed, ArmedBut, Younger, OthersKept, PermRenewed, ByPeer;
      var p := EnsurePermission(addr);
      ghost var perms1 := perms;
      RenewPermission(p, addr, permExpires, chanExpires);
      EnsuredAndRenewed(old(perms), perms1, p, addr, perms[p].timer, old(lastTimer));
    }

    /** The part of update_permission that has the permission. */
    method RenewPermission(p: PermInfo, addr: IoaAddr, permExpires: nat, chanExpires: nat)
      requires Valid() && p in perms && perms[p].active && ArmedBut(G(), p, null)
      modifies this`perms, this`chans, this`timers, this`lastTimer, this`dues, Repr
      ensures var bound := GetPort(addr) in old(perms)[p].chns;
        && (bound ==> GetPort(addr) != 0)
        && lastTimer == old(lastTimer) + (if bound then 3 else 1)
        && dues == if bound
             then old(dues)[lastTimer - 2 := permExpires][lastTimer - 1 := chanExpires][lastTimer := chanExpires]
             else old(dues)[lastTimer := permExpires]
      ensures Valid() && Armed(G())
      ensures p in perms && perms[p].timer > old(lastTimer)
      ensures perms == old(perms)[p := old(perms)[p].(timer := perms[p].timer)]
    {
      hide PermIndex, PermsPlaced, ChansPlaced, InRow, Owned, PermsShown, ChansShown;
      hide Linked, Unique, TimersPoint, TimersLive, Means, Armed, ArmedBut;
      NoPortZero(G(), p);
      PermInRepr(p);
      UpdatePermissionLifetime(p, permExpires, null);
      ArmedAgain(G());
      var c := ChannelOfPerm(p, addr);
      if c != null {
        UpdateChannelLifetime(c, chanExpires);
      }
    }

    /** turn_permission_clean: the channels in the port table are cleaned, then the record is zeroed. */
    method CleanPermission(p: PermInfo)
      requires Valid() && p in perms && perms[p].active
      modifies this`timers, this`perms, this`chans, this`st, Repr
      ensures Valid() && (Armed(old(G())) ==> Armed(G()))
      ensures old(perms)[p].chns.Values <= old(chans).Keys && G() == CleanPerm(old(G()), p)
      ensures old(perms)[p].addr.Addr? ==> old(perms)[p].addr.ip in old(st).permits
      ensures st == if old(perms)[p].addr.Addr? then Next(old(st), PermitExpires(old(perms)[p].addr.ip)) else old(st)
    {
      hide PermIndex, PermsPlaced, ChansPlaced, InRow, Owned, PermsShown, ChansShown;
      hide Linked, Unique, TimersPoint, TimersLive, Means, CleanPerm, Armed;
      ghost var g := G();
      ghost var addr := perms[p].addr;
      CleanPermKeeps(g, p);
      CleanPermMeans(g, p, st);
      CleanPermArmed(g, p);
      NoZeroTimer(g);
      CleanRecords(p);
      if addr.Addr? {
        st := Next(st, PermitExpires(addr.ip));
      }
    }

    method CleanRecords(p: PermInfo)
      requires Tied() && Placed() && p in perms && perms[p].chns.Values <= chans.Keys && 0 !in timers
      modifies this`timers, this`perms, this`chans, Repr
      ensures Tied() && Placed() && G() == CleanPerm(old(G()), p)
    {
      hide PermIndex, PermsPlaced, ChansPlaced, InRow, Owned, PermsShown, ChansShown, CleanSome;
      ghost var g := G();
      PermInRepr(p);
      ShowsTable(p);
      CleanSomeNone(g, p);
      CleanSomeKeys(g, p, g.perms[p].chns.Values);
      CleanSomeDone(g, p);
      PermsPlacedSame(permTable, perms, p, BLANK_PERM);
      var values := p.chns.Visit();
      assert forall c :: c in values ==> c in g.perms[p].chns.Values;
      assert (set c | c in values) == g.perms[p].chns.Values;
      DisarmPerm(p);
      CleanChannels(values, g, p);
      ZeroPerm(p);
    }

    /** lm_map_foreach with delete_channel_info_from_allocation_map */
    method CleanChannels(values: seq<ChInfo>, ghost g: Graph, ghost p: PermInfo)
      requires Tied() && ChansPlaced(chTable, chans) && p in g.perms && 0 !in g.timers
      requires G() == CleanSome(g, p, {})
      requires forall c :: c in values ==> c in g.chans
      modifies this`timers, this`chans, Repr
      ensures Tied() && ChansPlaced(chTable, chans) && perms == old(perms)
      ensures var ds := set c | c in values; ds <= g.chans.Keys && G() == CleanSome(g, p, ds)
    {
      hide ChansPlaced, InRow, Owned, PermsShown, ChansShown, CleanSome;
      var i := 0;
      ghost var ds: set<ChInfo> := {};
      while i < |values|
        invariant 0 <= i <= |values| && ds == (set c | c in values[..i]) && ds <= g.chans.Keys
        invariant Tied() && ChansPlaced(chTable, chans) && perms == old(perms)
        invariant G() == CleanSome(g, p, ds)
      {
        ghost var c := values[i];
        CleanSomeOne(g, p, ds, c);
        CleanSomeKeys(g, p, ds);
        ChanInRepr(values[i]);
        ChansPlacedSame(chTable, chans, c, BLANK_CHAN);
        CleanChan(values[i]);
        assert values[..i + 1] == values[..i] + [c];
        ds := ds + {c};
        i := i + 1;
      }
      assert values[..i] == values;
    }

    lemma ShowsTable(p: PermInfo)
      requires Tied() && p in perms
      ensures p.chns.Valid() && p.chns.m == perms[p].chns
    {
    }

    /** turn_channel_delete */
    method DeleteChannel(c: ChInfo)
      requires Valid() && c in chans && chans[c].active
      modifies this`timers, this`perms, this`chans, this`st, Repr
      ensures Valid() && (Armed(old(G())) ==> Armed(G()))
      ensures old(chans)[c].chnum in old(st).channels && st == Next(old(st), ChannelExpires(old(chans)[c].chnum))
      ensures old(chans)[c].owner in old(perms) && G() == DropChan(old(G()), c)
    {
      hide PermIndex, PermsPlaced, ChansPlaced, InRow, Owned, PermsShown, ChansShown;
      hide Linked, Unique, TimersPoint, TimersLive, Means;
      ghost var g, n := G(), chans[c].chnum;
      DropChanKeeps(g, c);
      DropChanMeans(g, c, st);
      ShowsChan(c);
      ChanInRepr(c);
      var p := c.owner;
      PermInRepr(p);
      PermsPlacedSame(permTable, perms, p, perms[p].(chns := perms[p].chns - {c.port}));
      ChansPlacedSame(chTable, chans, c, BLANK_CHAN);
      Unhang(p, GetPort(c.peerAddr));
      CleanChan(c);
      st := Next(st, ChannelExpires(n));
    }

    // ---------- the end of the allocation ----------

    /** clear_allocation: free_turn_permission_hashtable, then ch_map_clean. */
    method Clear()
      requires Valid()
      modifies this, Repr
      ensures Valid() && Armed(G()) && !isValid && Repr == old(Repr)
      ensures st == EMPTY && timers == map[]
      ensures forall c :: c in chans ==> !chans[c].active
      ensures forall p :: p in perms ==> !perms[p].active
    {
      hide PermIndex, PermsPlaced, ChansPlaced, InRow, Owned, PermsShown, ChansShown;
      hide Linked, Unique, TimersPoint, TimersLive, Means;
      FreePermissions();
      NothingLeft(G(), st);
      CleanChannelTable();
      isValid := false;
    }

    /** free_turn_permission_hashtable: with the permissions go all the channels. */
    method FreePermissions()
      requires Valid()
      modifies this`permTable, this`timers, this`perms, this`chans, this`st, Repr
      ensures Valid() && forall p :: p in perms ==> !perms[p].active
    {
      hide PermIndex, PermsPlaced, ChansPlaced, Owned, PermsShown, ChansShown;
      hide Linked, Unique, TimersPoint, TimersLive, Means, Core, AllFreed;
      var b := 0;
      NoneFreed();
      while b < TURN_PERMISSION_HASHTABLE_SIZE
        invariant b <= TURN_PERMISSION_HASHTABLE_SIZE && Valid() && AllFreed(b)
      {
        FreeRow(b);
        b := b + 1;
      }
      NoneActive();
    }

    method FreeRow(b: nat)
      requires Valid() && AllFreed(b) && b < TURN_PERMISSION_HASHTABLE_SIZE
      modifies this`permTable, this`timers, this`perms, this`chans, this`st, Repr
      ensures Valid() && AllFreed(b + 1)
    {
      hide PermIndex, PermsPlaced, ChansPlaced, Owned, PermsShown, ChansShown;
      hide Linked, Unique, TimersPoint, TimersLive, Means, Core;
      PermsPlacedRow(permTable, perms, b);
      var row := permTable[b];
      CleanSlots(row.main);
      CleanSlots(row.extra);
      PermsPlacedFree(permTable, perms, b);
      FreedOne(b);
      permTable := permTable[b := row.(extra := [])];
    }

    lemma NoneFreed()
      ensures AllFreed(0)
    {
    }

    /** The rows up to b have no permission in use. */
    ghost predicate AllFreed(b: nat)
      reads this`permTable, this`perms
    {
      forall p :: p in perms && perms[p].active ==> PermIndex(perms[p].addr) >= b
    }

    lemma FreedOne(b: nat)
      requires PermsPlaced(permTable, perms) && AllFreed(b) && b < |permTable|
      requires forall p :: p in perms && InRow(permTable[b], p) ==> !perms[p].active
      ensures AllFreed(b + 1)
    {
    }

    lemma NoneActive()
      requires AllFreed(TURN_PERMISSION_HASHTABLE_SIZE)
      ensures forall p :: p in perms ==> !perms[p].active
    {
    }

    /** Clean the permissions in use among some records. */
    method CleanSlots(slots: seq<PermInfo>)
      requires Valid() && forall p :: p in slots ==> p in perms
      modifies this`timers, this`perms, this`chans, this`st, Repr
      ensures Valid() && perms.Keys == old(perms).Keys
      ensures forall p :: p in slots ==> !perms[p].active
      ensures forall p :: p in perms ==> perms[p] == old(perms)[p] || perms[p] == BLANK_PERM
    {
      hide PermIndex, PermsPlaced, ChansPlaced, InRow, Owned, PermsShown, ChansShown;
      hide Linked, Unique, TimersPoint, TimersLive, Means, Core, CleanPerm, Next;
      var i := 0;
      while i < |slots|
        invariant 0 <= i <= |slots| && Valid() && perms.Keys == old(perms).Keys
        invariant forall k :: 0 <= k < i ==> !perms[slots[k]].active
        invariant forall p :: p in perms ==> perms[p] == old(perms)[p] || perms[p] == BLANK_PERM
      {
        ShowsPerm(slots[i]);
        if slots[i].active {
          ghost var g := G();
          CleanPermission(slots[i]);
          CleanPermPerms(g, slots[i]);
        }
        i := i + 1;
      }
    }

    /** ch_map_clean. Where no channel is in use it changes no record. */
    method CleanChannelTable()
      requires Tied() && ChansPlaced(chTable, chans) && 0 !in timers
      modifies this`chTable, this`timers, this`chans, Repr
      ensures Tied() && ChansPlaced(chTable, chans)
      ensures (forall c :: c in old(chans) ==> !old(chans)[c].active) ==> chans == old(chans) && timers == old(timers)
      ensures forall c :: c in chans ==> !chans[c].active
    {
      hide ChansPlaced, Owned, PermsShown, ChansShown;
      var b := 0;
      while b < CH_MAP_HASH_SIZE
        invariant b <= CH_MAP_HASH_SIZE && Tied() && ChansPlaced(chTable, chans) && 0 !in timers
        invariant chans.Keys == old(chans).Keys && Repr == old(Repr)
        invariant NoChannels(old(chans)) ==> chans == old(chans) && timers == old(timers)
        invariant forall c :: c in chans && chans[c].active ==> chans[c].chnum % CH_MAP_HASH_SIZE >= b
      {
        ChansPlacedRow(chTable, chans, b);
        var row := chTable[b];
        CleanChannelSlots(row.main);
        CleanChannelSlots(row.extra);
        RowCleaned(b);
        ChansPlacedFree(chTable, chans, b);
        chTable := chTable[b := row.(extra := [])];
        b := b + 1;
      }
    }

    ghost predicate NoChannels(chans: map<ChInfo, ChanRec>) {
      forall c :: c in chans ==> !chans[c].active
    }

    lemma RowCleaned(b: nat)
      requires ChansPlaced(chTable, chans) && b < |chTable|
      requires forall c :: (c in chTable[b].main || c in chTable[b].extra) && c in chans ==> !chans[c].active
      ensures forall c :: c in chans && chans[c].active ==> chans[c].chnum % CH_MAP_HASH_SIZE != b
      ensures forall c :: c in chans && InRow(chTable[b], c) ==> !chans[c].active
    {
    }

    method CleanChannelSlots(slots: seq<ChInfo>)
      requires Tied() && ChansPlaced(chTable, chans) && 0 !in timers && forall c :: c in slots ==> c in chans
      modifies this`timers, this`chans, Repr
      ensures Tied() && ChansPlaced(chTable, chans) && 0 !in timers && chans.Keys == old(chans).Keys
      ensures NoChannels(old(chans)) ==> chans == old(chans) && timers == old(timers)
      ensures forall c :: c in slots ==> !chans[c].active
      ensures forall c :: c in chans ==> chans[c] == old(chans)[c] || chans[c] == BLANK_CHAN
    {
      hide ChansPlaced, InRow, Owned, PermsShown, ChansShown;
      var i := 0;
      while i < |slots|
        invariant 0 <= i <= |slots| && Tied() && ChansPlaced(chTable, chans) && 0 !in timers
        invariant chans.Keys == old(chans).Keys
        invariant NoChannels(old(chans)) ==> chans == old(chans) && timers == old(timers)
        invariant forall k :: 0 <= k < i ==> !chans[slots[k]].active
        invariant forall c :: c in chans ==> chans[c] == old(chans)[c] || chans[c] == BLANK_CHAN
      {
        ShowsChan(slots[i]);
        ChanInRepr(slots[i]);
        if slots[i].active {
          ChansPlacedSame(chTable, chans, slots[i], BLANK_CHAN);
          CleanChan(slots[i]);
        }
        i := i + 1;
      }
    }
  }
}
