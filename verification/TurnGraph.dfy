/** The web of records behind an allocation: permissions, channels and timers that point at each other. A Graph is a
    snapshot of all of them; Allocation keeps one up to date beside the real records. */
module TurnGraph {
  import opened IoaAddr
  import opened LmMap
  import opened StunDefs
  import opened TurnSpec

  /** ch_info */
  class ChInfo {
    var active: bool
    var chnum: nat
    var port: nat
    var peerAddr: IoaAddr
    var expirationTime: nat
    var lifetimeEv: nat
    var owner: PermInfo?

    /** A calloc'ed record. */
    constructor ()
      ensures !active && chnum == 0 && port == 0 && peerAddr == NoAddr && lifetimeEv == 0 && owner == null
      ensures expirationTime == 0
    {
      active, chnum, port, peerAddr, expirationTime, lifetimeEv, owner := false, 0, 0, NoAddr, 0, 0, null;
    }

    /** What allocation_get_new_ch_info writes into a free record. */
    method Init(n: nat, peer: IoaAddr, p: PermInfo)
      modifies this
      ensures active && chnum == n && port == GetPort(peer) && peerAddr == peer && owner == p
      ensures lifetimeEv == old(lifetimeEv) && expirationTime == old(expirationTime)
    {
      active, chnum, port, peerAddr, owner := true, n, GetPort(peer), peer, p;
    }

    method SetTimer(id: nat, expires: nat)
      modifies this`lifetimeEv, this`expirationTime
      ensures lifetimeEv == id && expirationTime == expires
    {
      lifetimeEv, expirationTime := id, expires;
    }

    /** memset of the record. */
    method Zero()
      modifies this
      ensures !active && chnum == 0 && port == 0 && peerAddr == NoAddr && lifetimeEv == 0 && owner == null
      ensures expirationTime == 0
    {
      active, chnum, port, peerAddr, expirationTime, lifetimeEv, owner := false, 0, 0, NoAddr, 0, 0, null;
    }
  }

  /** turn_permission_info, with the port-to-channel table that is part of it. */
  class PermInfo {
    var active: bool
    const chns: LmMap<ChInfo>
    var addr: IoaAddr
    var expirationTime: nat
    var lifetimeEv: nat

    constructor ()
      ensures !active && addr == NoAddr && lifetimeEv == 0 && expirationTime == 0
      ensures fresh(chns) && chns.Valid() && chns.m == map[]
    {
      active, addr, expirationTime, lifetimeEv := false, NoAddr, 0, 0;
      chns := new LmMap<ChInfo>();
    }

    /** Zero the record, then make it a permission for the address. */
    method Init(addr: IoaAddr)
      modifies this, chns
      ensures active && this.addr == addr && lifetimeEv == 0 && expirationTime == 0 && chns.Valid() && chns.m == map[]
    {
      chns.Clean();
      active, this.addr, expirationTime, lifetimeEv := true, addr, 0, 0;
    }

    method SetTimer(id: nat, expires: nat)
      modifies this`lifetimeEv, this`expirationTime
      ensures lifetimeEv == id && expirationTime == expires
    {
      lifetimeEv, expirationTime := id, expires;
    }

    /** lm_map_clean and memset of the record. */
    method Zero()
      modifies this, chns
      ensures !active && addr == NoAddr && lifetimeEv == 0 && expirationTime == 0 && chns.Valid() && chns.m == map[]
    {
      chns.Clean();
      active, addr, expirationTime, lifetimeEv := false, NoAddr, 0, 0;
    }
  }

  /** What a timer's callback gets as its argument. */
  datatype Target = PermTarget(p: PermInfo) | ChanTarget(c: ChInfo)

  datatype PermRec = PermRec(active: bool, addr: IoaAddr, timer: nat, chns: map<nat, ChInfo>)

  datatype ChanRec = ChanRec(active: bool, chnum: nat, port: nat, peer: IoaAddr, timer: nat, owner: PermInfo?)

  datatype Graph = Graph(perms: map<PermInfo, PermRec>, chans: map<ChInfo, ChanRec>, timers: map<nat, Target>)

  const BLANK_PERM := PermRec(false, NoAddr, 0, map[])
  const BLANK_CHAN := ChanRec(false, 0, 0, NoAddr, 0, null)

  // ---------- the invariant ----------

  ghost predicate Blanks(g: Graph) {
    && (forall p :: p in g.perms && !g.perms[p].active ==> g.perms[p] == BLANK_PERM)
    && (forall c :: c in g.chans && !g.chans[c].active ==> g.chans[c] == BLANK_CHAN)
  }

  /** What hangs in a port table is an allocated channel of that permission and port. */
  ghost predicate TablesPoint(g: Graph) {
    forall p, port :: p in g.perms && port in g.perms[p].chns ==>
      var c := g.perms[p].chns[port];
      c in g.chans && g.chans[c].active && g.chans[c].owner == p && g.chans[c].port == port
  }

  ghost predicate AllHang(g: Graph) {
    forall c :: c in g.chans && g.chans[c].active ==> Hangs(g, c)
  }

  /** Every allocated channel hangs in the port table of the permission that owns it, under its own port, and that
      permission is allocated and for the same IP address; nothing else hangs there. */
  ghost predicate Linked(g: Graph) {
    Blanks(g) && TablesPoint(g) && AllHang(g)
  }

  ghost predicate Hangs(g: Graph, c: ChInfo)
    requires c in g.chans
  {
    var r := g.chans[c];
    && ValidChannel(r.chnum) && r.port == GetPort(r.peer) && r.port > 0
    && r.owner != null && r.owner in g.perms && g.perms[r.owner].active
    && AddrEqNoPort(r.peer, g.perms[r.owner].addr)
    && r.port in g.perms[r.owner].chns && g.perms[r.owner].chns[r.port] == c
  }

  /** At most one permission for an IP address, at most one channel for a number. */
  ghost predicate Unique(g: Graph) {
    && (forall p, q | p in g.perms && q in g.perms && g.perms[p].active && g.perms[q].active ::
          AddrEqNoPort(g.perms[p].addr, g.perms[q].addr) ==> p == q)
    && (forall c, d | c in g.chans && d in g.chans && g.chans[c].active && g.chans[d].active ::
          g.chans[c].chnum == g.chans[d].chnum ==> c == d)
  }

  /** A live timer is the timer of the allocated record it will be called for. */
  ghost predicate TimersPoint(g: Graph) {
    forall id | id in g.timers ::
      && id > 0
      && match g.timers[id]
         case PermTarget(p) => p in g.perms && g.perms[p].active && g.perms[p].timer == id
         case ChanTarget(c) => c in g.chans && g.chans[c].active && g.chans[c].timer == id
  }

  ghost predicate PermTimed(g: Graph, p: PermInfo)
    requires p in g.perms
  {
    g.perms[p].timer in g.timers && g.timers[g.perms[p].timer] == PermTarget(p)
  }

  ghost predicate ChanTimed(g: Graph, c: ChInfo)
    requires c in g.chans
  {
    g.chans[c].timer in g.timers && g.timers[g.chans[c].timer] == ChanTarget(c)
  }

  /** A record that has a timer has a live one. */
  ghost predicate TimersLive(g: Graph) {
    && (forall p :: p in g.perms && g.perms[p].timer != 0 ==> PermTimed(g, p))
    && (forall c :: c in g.chans && g.chans[c].timer != 0 ==> ChanTimed(g, c))
  }

  ghost predicate Core(g: Graph) {
    Linked(g) && Unique(g) && TimersPoint(g) && TimersLive(g)
  }

  /** Every allocated record has a timer. */
  ghost predicate Armed(g: Graph) {
    && (forall p :: p in g.perms && g.perms[p].active ==> g.perms[p].timer != 0)
    && (forall c :: c in g.chans && g.chans[c].active ==> g.chans[c].timer != 0)
  }

  /** ... but perhaps these two. */
  ghost predicate ArmedBut(g: Graph, p: PermInfo?, c: ChInfo?) {
    && (forall q :: q in g.perms && g.perms[q].active && q != p ==> g.perms[q].timer != 0)
    && (forall d :: d in g.chans && g.chans[d].active && d != c ==> g.chans[d].timer != 0)
  }

  lemma ArmedAgain(g: Graph)
    requires ArmedBut(g, null, null)
    ensures Armed(g) && forall p, c :: ArmedBut(g, p, c)
  {
  }

  /** Between events: live timers and allocated records are in one-to-one correspondence. */
  lemma TimersOneToOne(g: Graph)
    requires Core(g) && Armed(g)
    ensures forall p :: p in g.perms && g.perms[p].active ==>
      forall id :: id in g.timers && g.timers[id] == PermTarget(p) <==> id == g.perms[p].timer
    ensures forall c :: c in g.chans && g.chans[c].active ==>
      forall id :: id in g.timers && g.timers[id] == ChanTarget(c) <==> id == g.chans[c].timer
    ensures forall p :: p in g.perms && !g.perms[p].active ==> PermTarget(p) !in g.timers.Values
    ensures forall c :: c in g.chans && !g.chans[c].active ==> ChanTarget(c) !in g.timers.Values
  {
  }

  ghost predicate RenewedBy(perms: map<PermInfo, PermRec>, p: PermInfo, addr: IoaAddr, since: nat) {
    p in perms && perms[p].active && SameAddr(perms[p].addr, addr) && perms[p].timer > since
  }

  /** A permission for the address, or for none, got a new timer since. */
  ghost predicate PermRenewed(perms: map<PermInfo, PermRec>, addr: IoaAddr, since: nat) {
    exists p :: p in perms && RenewedBy(perms, p, addr, since)
  }

  /** Permissions stay, with the timer they had or with one that was set since. */
  ghost predicate Younger(perms: map<PermInfo, PermRec>, perms': map<PermInfo, PermRec>, since: nat) {
    forall p :: p in perms && perms[p].active ==>
      && p in perms' && perms'[p].active && perms'[p].addr == perms[p].addr
      && (perms'[p].timer == perms[p].timer || perms'[p].timer > since)
  }

  lemma StaysRenewed(perms: map<PermInfo, PermRec>, perms': map<PermInfo, PermRec>, now: nat, since: nat)
    requires Younger(perms, perms', now) && since <= now
    ensures forall addr :: PermRenewed(perms, addr, since) ==> PermRenewed(perms', addr, since)
  {
    forall addr | PermRenewed(perms, addr, since) ensures PermRenewed(perms', addr, since) {
      var p :| p in perms && RenewedBy(perms, p, addr, since);
      assert RenewedBy(perms', p, addr, since);
    }
  }

  /** Permissions in use for other addresses are as they were. */
  ghost predicate OthersKept(perms: map<PermInfo, PermRec>, perms': map<PermInfo, PermRec>, addr: IoaAddr) {
    forall p :: p in perms && perms[p].active && !AddrEqNoPort(perms[p].addr, addr) ==>
      p in perms' && perms'[p] == perms[p]
  }

  /** A permission was added for the address, or none. */
  ghost predicate Ensured(perms: map<PermInfo, PermRec>, perms': map<PermInfo, PermRec>, p: PermInfo, addr: IoaAddr) {
    && p in perms' && perms'[p].active && SameAddr(perms'[p].addr, addr)
    && (forall q :: q in perms && perms[q].active ==> q in perms' && perms'[q] == perms[q])
    && (p in perms && perms[p].active ==> AddrEqNoPort(perms[p].addr, addr))
  }

  /** What becomes of the permissions when one is found or added for an address and gets a new timer. */
  lemma EnsuredAndRenewed(perms: map<PermInfo, PermRec>, perms1: map<PermInfo, PermRec>, p: PermInfo, addr: IoaAddr,
      timer: nat, since: nat)
    requires Ensured(perms, perms1, p, addr) && timer > since
    ensures var perms' := perms1[p := perms1[p].(timer := timer)];
      Younger(perms, perms', since) && OthersKept(perms, perms', addr) && PermRenewed(perms', addr, since)
  {
    assert RenewedBy(perms1[p := perms1[p].(timer := timer)], p, addr, since);
  }

  /** The owner of a channel is a permission in use for the address. */
  ghost predicate PermitOwns(g: Graph, c: ChInfo, ip: Ip) {
    c in g.chans && g.chans[c].owner in g.perms && PermFor(g, g.chans[c].owner, ip)
  }

  /** So did the channel with the number. */
  ghost predicate ChanRenewed(g: Graph, n: nat, since: nat) {
    exists c :: c in g.chans && ChanFor(g, c, n) && g.chans[c].timer > since
  }

  // ---------- what a graph means ----------

  ghost predicate PermFor(g: Graph, p: PermInfo, ip: Ip)
    requires p in g.perms
  {
    g.perms[p].active && g.perms[p].addr.Addr? && g.perms[p].addr.ip == ip
  }

  ghost predicate ChanFor(g: Graph, c: ChInfo, n: nat)
    requires c in g.chans
  {
    g.chans[c].active && g.chans[c].chnum == n
  }

  function PeerOf(a: IoaAddr): Peer {
    if a.Addr? then Peer(a.ip, a.port) else Peer(Ip4([0, 0, 0, 0]), 0)
  }

  /** Addresses with an allocated permission are the permitted ones; allocated channels stand for their peers.
      A permission for an address without a family (a peer address that could not be decoded) permits nothing. */
  ghost predicate Means(g: Graph, st: State) {
    && (forall ip :: ip in st.permits <==> exists p :: p in g.perms && PermFor(g, p, ip))
    && (forall n :: n in st.channels <==> exists c :: c in g.chans && ChanFor(g, c, n))
    && (forall c, n :: c in g.chans && ChanFor(g, c, n) ==> st.channels[n] == PeerOf(g.chans[c].peer))
  }

  /** The record behind a number. */
  lemma ChannelOf(g: Graph, st: State, n: nat) returns (c: ChInfo)
    requires Linked(g) && Means(g, st) && n in st.channels
    ensures c in g.chans && ChanFor(g, c, n) && Hangs(g, c)
    ensures st.channels[n] == Peer(g.chans[c].peer.ip, g.chans[c].peer.port)
  {
    c :| c in g.chans && ChanFor(g, c, n);
  }

  lemma PermitOf(g: Graph, st: State, p: PermInfo)
    requires Means(g, st) && p in g.perms && g.perms[p].active && g.perms[p].addr.Addr?
    ensures g.perms[p].addr.ip in st.permits
  {
  }

  /** Whatever a graph that keeps the invariant means is safe. */
  lemma MeansSafe(g: Graph, st: State)
    requires Core(g) && Means(g, st)
    ensures Safe(st)
  {
    hide Linked, Unique, TimersPoint, TimersLive, Means;
    forall n | n in st.channels
      ensures ValidChannel(n) && st.channels[n].port > 0 && st.channels[n].ip in st.permits
    {
      var c := ChannelOf(g, st, n);
      PermitOf(g, st, g.chans[c].owner);
    }
    forall n, k | n in st.channels && k in st.channels && st.channels[n] == st.channels[k]
      ensures n == k
    {
      var c := ChannelOf(g, st, n);
      var d := ChannelOf(g, st, k);
      SameOwner(g, g.chans[c].owner, g.chans[d].owner);
    }
  }

  lemma SameOwner(g: Graph, p: PermInfo, q: PermInfo)
    requires Unique(g) && p in g.perms && q in g.perms && g.perms[p].active && g.perms[q].active
    ensures AddrEqNoPort(g.perms[p].addr, g.perms[q].addr) ==> p == q
  {
  }

  // ---------- the two indexes ----------

  /** get_turn_channel: the permission of the address, then the port in its table. */
  ghost predicate ByPeer(g: Graph, peer: IoaAddr, c: ChInfo) {
    exists p :: p in g.perms && g.perms[p].active && AddrEqNoPort(g.perms[p].addr, peer)
      && GetPort(peer) in g.perms[p].chns && g.perms[p].chns[GetPort(peer)] == c
  }

  /** Looking up a number and looking up a peer lead to the same channel records. */
  lemma IndexesInverse(g: Graph, n: nat, peer: IoaAddr, c: ChInfo)
    requires Core(g)
    ensures c in g.chans && ChanFor(g, c, n) && AddrEq(g.chans[c].peer, peer)
      <==> ByPeer(g, peer, c) && c in g.chans && g.chans[c].chnum == n
  {
  }

  /** A number stands for a peer exactly if both lookups lead to one record. */
  lemma OneRecord(g: Graph, st: State, n: nat, peer: IoaAddr)
    requires Core(g) && Means(g, st) && peer.Addr?
    ensures ClientData(st, n) == ToPeer(PeerOf(peer))
      <==> exists c :: c in g.chans && ChanFor(g, c, n) && ByPeer(g, peer, c)
  {
    hide Unique, TimersPoint, TimersLive, Means, ByPeer, ChanFor;
    if ClientData(st, n) == ToPeer(PeerOf(peer)) {
      var c := ChannelOf(g, st, n);
      IndexesInverse(g, n, peer, c);
    }
    if c :| c in g.chans && ChanFor(g, c, n) && ByPeer(g, peer, c) {
      NumberOf(g, c, n);
      IndexesInverse(g, n, peer, c);
      BoundNumber(g, st, c, n);
    }
  }

  lemma NumberOf(g: Graph, c: ChInfo, n: nat)
    requires c in g.chans && ChanFor(g, c, n)
    ensures g.chans[c].chnum == n
  {
  }

  /** What a timer going off means. */
  ghost function Expiry(g: Graph, id: nat): seq<Event>
    requires TimersPoint(g) && id in g.timers
  {
    match g.timers[id]
    case PermTarget(p) => if g.perms[p].addr.Addr? then [PermitExpires(g.perms[p].addr.ip)] else []
    case ChanTarget(c) => [ChannelExpires(g.chans[c].chnum)]
  }

  /** A timer only ever goes off for a record in use, whose timer it is. */
  lemma TimerTarget(g: Graph, id: nat)
    requires TimersPoint(g) && id in g.timers
    ensures match g.timers[id]
      case PermTarget(p) => p in g.perms && g.perms[p].active && g.perms[p].timer == id
      case ChanTarget(c) => c in g.chans && g.chans[c].active && g.chans[c].timer == id
  {
  }

  /** The port table of the permission for an address is all there is to look in. */
  lemma ByPeerOf(g: Graph, peer: IoaAddr, p: PermInfo, c: ChInfo?)
    requires Unique(g) && p in g.perms && g.perms[p].active && AddrEqNoPort(g.perms[p].addr, peer)
    requires if c == null then GetPort(peer) !in g.perms[p].chns
             else GetPort(peer) in g.perms[p].chns && g.perms[p].chns[GetPort(peer)] == c
    ensures c != null ==> ByPeer(g, peer, c)
    ensures c == null ==> forall d :: d in g.chans ==> !ByPeer(g, peer, d)
  {
  }

  // ---------- what lookups say about the meaning ----------

  lemma BoundNumber(g: Graph, st: State, c: ChInfo, n: nat)
    requires Linked(g) && Means(g, st) && c in g.chans && ChanFor(g, c, n)
    ensures Hangs(g, c) && n in st.channels && st.channels[n] == PeerOf(g.chans[c].peer)
    ensures g.chans[c].peer.Addr? && g.chans[c].peer.ip in st.permits
  {
  }

  lemma BoundPeer(g: Graph, st: State, peer: IoaAddr, c: ChInfo)
    requires Linked(g) && Means(g, st) && ByPeer(g, peer, c) && c in g.chans
    ensures g.chans[c].active && ValidChannel(g.chans[c].chnum) && peer.Addr? && peer.ip in st.permits
    ensures g.chans[c].chnum in st.channels && st.channels[g.chans[c].chnum] == PeerOf(peer)
  {
    assert Hangs(g, c);
    BoundNumber(g, st, c, g.chans[c].chnum);
  }

  lemma HangsByPeer(g: Graph, c: ChInfo)
    requires c in g.chans && Hangs(g, c)
    ensures ByPeer(g, g.chans[c].peer, c)
  {
  }

  lemma UnboundPeer(g: Graph, st: State, peer: IoaAddr)
    requires Linked(g) && Means(g, st) && peer.Addr? && forall c :: c in g.chans ==> !ByPeer(g, peer, c)
    ensures PeerOf(peer) !in st.channels.Values
  {
    forall n | n in st.channels ensures st.channels[n] != PeerOf(peer) {
      var c := ChannelOf(g, st, n);
      HangsByPeer(g, c);
    }
  }

  // ---------- what each change keeps ----------

  /** allocation_add_permission: a free or new record becomes a permission, still without a timer. */
  function AddPerm(g: Graph, p: PermInfo, addr: IoaAddr): Graph {
    g.(perms := g.perms[p := PermRec(true, addr, 0, map[])])
  }

  lemma AddPermOver(g: Graph, p: PermInfo, addr: IoaAddr)
    ensures AddPerm(g.(perms := g.perms[p := BLANK_PERM]), p, addr) == AddPerm(g, p, addr)
  {
  }

  ghost predicate NoPermFor(g: Graph, addr: IoaAddr) {
    forall p :: p in g.perms && g.perms[p].active ==> !AddrEqNoPort(g.perms[p].addr, addr)
  }

  lemma AddPermLinked(g: Graph, p: PermInfo, addr: IoaAddr)
    requires Linked(g) && Unique(g) && (p in g.perms ==> !g.perms[p].active) && NoPermFor(g, addr)
    ensures Linked(AddPerm(g, p, addr)) && Unique(AddPerm(g, p, addr))
  {
    var g' := AddPerm(g, p, addr);
    forall c | c in g'.chans && g'.chans[c].active ensures Hangs(g', c) {
      assert Hangs(g, c);
    }
  }

  lemma AddPermTimers(g: Graph, p: PermInfo, addr: IoaAddr)
    requires TimersPoint(g) && TimersLive(g) && (p in g.perms ==> !g.perms[p].active)
    ensures TimersPoint(AddPerm(g, p, addr)) && TimersLive(AddPerm(g, p, addr))
  {
  }

  lemma AddPermKeeps(g: Graph, p: PermInfo, addr: IoaAddr)
    requires Core(g) && (p in g.perms ==> !g.perms[p].active) && NoPermFor(g, addr)
    ensures Core(AddPerm(g, p, addr))
  {
    AddPermLinked(g, p, addr);
    AddPermTimers(g, p, addr);
  }

  lemma AddPermMeans(g: Graph, p: PermInfo, addr: IoaAddr, st: State)
    requires Means(g, st) && (p in g.perms ==> !g.perms[p].active)
    ensures Means(AddPerm(g, p, addr), if addr.Addr? then st.(permits := st.permits + {addr.ip}) else st)
  {
    var g' := AddPerm(g, p, addr);
    var permits := if addr.Addr? then st.permits + {addr.ip} else st.permits;
    forall ip ensures ip in permits <==> exists q :: q in g'.perms && PermFor(g', q, ip) {
      if ip in st.permits {
        var q :| q in g.perms && PermFor(g, q, ip);
        assert PermFor(g', q, ip);
      }
      if addr.Addr? && ip == addr.ip { assert PermFor(g', p, ip); }
      if q :| q in g'.perms && PermFor(g', q, ip) {
        if q != p { assert PermFor(g, q, ip); }
      }
    }
    ChansMeanSame(g, g', st);
  }

  /** Channel meanings only depend on the channel records. */
  lemma ChansMeanSame(g: Graph, g': Graph, st: State)
    requires Means(g, st)
    requires forall c :: c in g.chans && g.chans[c].active ==>
      c in g'.chans && g'.chans[c].active && g'.chans[c].chnum == g.chans[c].chnum && g'.chans[c].peer == g.chans[c].peer
    requires forall c :: c in g'.chans && g'.chans[c].active ==> c in g.chans && g.chans[c].active
    ensures forall n :: n in st.channels <==> exists c :: c in g'.chans && ChanFor(g', c, n)
    ensures forall c, n :: c in g'.chans && ChanFor(g', c, n) ==> st.channels[n] == PeerOf(g'.chans[c].peer)
  {
  }

  /** Delete the old timer of a permission, if it has one, and give it a new one. */
  function SetPermTimer(g: Graph, p: PermInfo, id: nat): Graph
    requires p in g.perms
  {
    g.(perms := g.perms[p := g.perms[p].(timer := id)],
       timers := (g.timers - {g.perms[p].timer})[id := PermTarget(p)])
  }

  /** Links and uniqueness do not depend on timers. */
  lemma LinkedSame(g: Graph, g': Graph)
    requires Linked(g) && Unique(g)
    requires g'.perms.Keys == g.perms.Keys && g'.chans.Keys == g.chans.Keys
    requires forall p :: p in g.perms ==> g'.perms[p] == g.perms[p].(timer := g'.perms[p].timer)
    requires forall p :: p in g.perms && !g.perms[p].active ==> g'.perms[p] == g.perms[p]
    requires forall c :: c in g.chans ==> g'.chans[c] == g.chans[c].(timer := g'.chans[c].timer)
    requires forall c :: c in g.chans && !g.chans[c].active ==> g'.chans[c] == g.chans[c]
    ensures Linked(g') && Unique(g')
  {
  }

  lemma SetPermTimerPoints(g: Graph, p: PermInfo, id: nat)
    requires TimersPoint(g) && TimersLive(g) && p in g.perms && g.perms[p].active && id > 0 && id !in g.timers
    ensures TimersPoint(SetPermTimer(g, p, id)) && TimersLive(SetPermTimer(g, p, id))
  {
    var g' := SetPermTimer(g, p, id);
    forall q | q in g'.perms && g'.perms[q].timer != 0 ensures PermTimed(g', q) {
      if q != p { assert PermTimed(g, q); }
    }
    forall d | d in g'.chans && g'.chans[d].timer != 0 ensures ChanTimed(g', d) {
      assert ChanTimed(g, d);
    }
  }

  lemma SetPermTimerKeeps(g: Graph, p: PermInfo, id: nat)
    requires Core(g) && p in g.perms && g.perms[p].active && id > 0 && id !in g.timers
    ensures Core(SetPermTimer(g, p, id))
  {
    hide Linked, Unique, TimersPoint, TimersLive;
    SetPermTimerPoints(g, p, id);
    LinkedSame(g, SetPermTimer(g, p, id));
  }

  lemma SetPermTimerMeans(g: Graph, p: PermInfo, id: nat, st: State)
    requires Means(g, st) && p in g.perms
    ensures Means(SetPermTimer(g, p, id), st)
  {
    var g' := SetPermTimer(g, p, id);
    PermsMeanSame(g, g', st);
    ChansMeanSame(g, g', st);
  }

  lemma PermsMeanSame(g: Graph, g': Graph, st: State)
    requires Means(g, st) && g'.perms.Keys == g.perms.Keys
    requires forall p :: p in g.perms ==> g'.perms[p].active == g.perms[p].active && g'.perms[p].addr == g.perms[p].addr
    ensures forall ip :: ip in st.permits <==> exists p :: p in g'.perms && PermFor(g', p, ip)
  {
  }

  function SetChanTimer(g: Graph, c: ChInfo, id: nat): Graph
    requires c in g.chans
  {
    g.(chans := g.chans[c := g.chans[c].(timer := id)],
       timers := (g.timers - {g.chans[c].timer})[id := ChanTarget(c)])
  }

  lemma SetChanTimerPoints(g: Graph, c: ChInfo, id: nat)
    requires TimersPoint(g) && TimersLive(g) && c in g.chans && g.chans[c].active && id > 0 && id !in g.timers
    ensures TimersPoint(SetChanTimer(g, c, id)) && TimersLive(SetChanTimer(g, c, id))
  {
  }

  lemma SetChanTimerKeeps(g: Graph, c: ChInfo, id: nat)
    requires Core(g) && c in g.chans && g.chans[c].active && id > 0 && id !in g.timers
    ensures Core(SetChanTimer(g, c, id))
  {
    hide Linked, Unique, TimersPoint, TimersLive;
    SetChanTimerPoints(g, c, id);
    LinkedSame(g, SetChanTimer(g, c, id));
  }

  lemma SetChanTimerMeans(g: Graph, c: ChInfo, id: nat, st: State)
    requires Means(g, st) && c in g.chans
    ensures Means(SetChanTimer(g, c, id), st)
  {
    var g' := SetChanTimer(g, c, id);
    PermsMeanSame(g, g', st);
    ChansMeanSame(g, g', st);
  }

  /** The rest of allocation_get_new_ch_info: a free or new record becomes a channel of permission p. */
  function AddChan(g: Graph, c: ChInfo, n: nat, peer: IoaAddr, p: PermInfo): Graph
    requires p in g.perms
  {
    g.(chans := g.chans[c := ChanRec(true, n, GetPort(peer), peer, 0, p)],
       perms := g.perms[p := g.perms[p].(chns := g.perms[p].chns[GetPort(peer) := c])])
  }

  lemma AddChanOver(g: Graph, c: ChInfo, n: nat, peer: IoaAddr, p: PermInfo)
    requires p in g.perms
    ensures AddChan(g.(chans := g.chans[c := BLANK_CHAN]), c, n, peer, p) == AddChan(g, c, n, peer, p)
  {
  }

  /** No channel for a peer: the port is free in the table of its permission. */
  lemma PortFree(g: Graph, p: PermInfo, peer: IoaAddr)
    requires Linked(g) && p in g.perms && g.perms[p].active && AddrEqNoPort(g.perms[p].addr, peer)
    requires forall c :: c in g.chans ==> !ByPeer(g, peer, c)
    ensures GetPort(peer) !in g.perms[p].chns
  {
  }

  lemma AddChanHangs(g: Graph, c: ChInfo, n: nat, peer: IoaAddr, p: PermInfo)
    requires AllHang(g) && p in g.perms && g.perms[p].active && AddrEqNoPort(g.perms[p].addr, peer)
    requires (c in g.chans ==> !g.chans[c].active) && ValidChannel(n) && GetPort(peer) > 0
    requires GetPort(peer) !in g.perms[p].chns
    ensures AllHang(AddChan(g, c, n, peer, p))
  {
  }

  lemma AddChanPoints(g: Graph, c: ChInfo, n: nat, peer: IoaAddr, p: PermInfo)
    requires Blanks(g) && TablesPoint(g) && p in g.perms && g.perms[p].active
    requires c in g.chans ==> !g.chans[c].active
    ensures Blanks(AddChan(g, c, n, peer, p)) && TablesPoint(AddChan(g, c, n, peer, p))
  {
  }

  lemma AddChanUnique(g: Graph, c: ChInfo, n: nat, peer: IoaAddr, p: PermInfo)
    requires Unique(g) && p in g.perms
    requires forall d :: d in g.chans && g.chans[d].active ==> g.chans[d].chnum != n
    ensures Unique(AddChan(g, c, n, peer, p))
  {
  }

  lemma AddChanTimers(g: Graph, c: ChInfo, n: nat, peer: IoaAddr, p: PermInfo)
    requires TimersPoint(g) && TimersLive(g) && p in g.perms && (c in g.chans ==> !g.chans[c].active)
    ensures TimersPoint(AddChan(g, c, n, peer, p)) && TimersLive(AddChan(g, c, n, peer, p))
  {
  }

  lemma AddChanKeeps(g: Graph, c: ChInfo, n: nat, peer: IoaAddr, p: PermInfo)
    requires Core(g) && p in g.perms && g.perms[p].active && AddrEqNoPort(g.perms[p].addr, peer)
    requires (c in g.chans ==> !g.chans[c].active) && ValidChannel(n) && GetPort(peer) > 0
    requires forall d :: d in g.chans && g.chans[d].active ==> g.chans[d].chnum != n
    requires GetPort(peer) !in g.perms[p].chns
    ensures Core(AddChan(g, c, n, peer, p))
  {
    hide Blanks, TablesPoint, AllHang, Unique, TimersPoint, TimersLive, AddChan;
    AddChanHangs(g, c, n, peer, p);
    AddChanPoints(g, c, n, peer, p);
    AddChanUnique(g, c, n, peer, p);
    AddChanTimers(g, c, n, peer, p);
  }

  lemma AddChanMeans(g: Graph, c: ChInfo, n: nat, peer: IoaAddr, p: PermInfo, st: State)
    requires Means(g, st) && p in g.perms && (c in g.chans ==> !g.chans[c].active)
    requires forall d :: d in g.chans && g.chans[d].active ==> g.chans[d].chnum != n
    ensures Means(AddChan(g, c, n, peer, p), st.(channels := st.channels[n := PeerOf(peer)]))
  {
    var g' := AddChan(g, c, n, peer, p);
    PermsMeanSame(g, g', st);
    var channels := st.channels[n := PeerOf(peer)];
    forall k ensures k in channels <==> exists d :: d in g'.chans && ChanFor(g', d, k) {
      if k in st.channels {
        var d :| d in g.chans && ChanFor(g, d, k);
        assert ChanFor(g', d, k);
      }
      if k == n { assert ChanFor(g', c, k); }
      if d :| d in g'.chans && ChanFor(g', d, k) {
        if d != c { assert ChanFor(g, d, k); }
      }
    }
    forall d, k | d in g'.chans && ChanFor(g', d, k) ensures channels[k] == PeerOf(g'.chans[d].peer) {
      if d != c { assert ChanFor(g, d, k); }
    }
  }

  /** turn_channel_delete */
  function DropChan(g: Graph, c: ChInfo): Graph
    requires c in g.chans && g.chans[c].owner in g.perms
  {
    var r := g.chans[c];
    var p := r.owner;
    Graph(g.perms[p := g.perms[p].(chns := g.perms[p].chns - {r.port})],
          g.chans[c := BLANK_CHAN],
          g.timers - {r.timer})
  }

  lemma DropChanHangs(g: Graph, c: ChInfo)
    requires TablesPoint(g) && AllHang(g) && c in g.chans && g.chans[c].active
    ensures Hangs(g, c) && AllHang(DropChan(g, c))
  {
  }

  lemma DropChanPoints(g: Graph, c: ChInfo)
    requires Blanks(g) && TablesPoint(g) && c in g.chans && g.chans[c].active && Hangs(g, c)
    ensures Blanks(DropChan(g, c)) && TablesPoint(DropChan(g, c))
  {
  }

  lemma DropChanUnique(g: Graph, c: ChInfo)
    requires Unique(g) && c in g.chans && g.chans[c].owner in g.perms
    ensures Unique(DropChan(g, c))
  {
  }

  lemma DropChanTimers(g: Graph, c: ChInfo)
    requires TimersPoint(g) && TimersLive(g) && c in g.chans && g.chans[c].active && Hangs(g, c)
    ensures TimersPoint(DropChan(g, c)) && TimersLive(DropChan(g, c))
  {
    var g' := DropChan(g, c);
    forall q | q in g'.perms && g'.perms[q].timer != 0 ensures PermTimed(g', q) {
      assert PermTimed(g, q);
    }
    forall d | d in g'.chans && g'.chans[d].timer != 0 ensures ChanTimed(g', d) {
      assert ChanTimed(g, d);
    }
  }

  lemma DropChanKeeps(g: Graph, c: ChInfo)
    requires Core(g) && c in g.chans && g.chans[c].active
    ensures Hangs(g, c) && Core(DropChan(g, c))
  {
    hide Blanks, TablesPoint, AllHang, Unique, TimersPoint, TimersLive, DropChan;
    DropChanHangs(g, c);
    DropChanPoints(g, c);
    DropChanUnique(g, c);
    DropChanTimers(g, c);
  }

  lemma ActiveHangs(g: Graph, c: ChInfo)
    requires Linked(g) && c in g.chans && g.chans[c].active
    ensures Hangs(g, c)
  {
  }

  lemma NoPortZero(g: Graph, p: PermInfo)
    requires Linked(g) && p in g.perms
    ensures 0 !in g.perms[p].chns
  {
    forall port | port in g.perms[p].chns ensures port > 0 {
      assert Hangs(g, g.perms[p].chns[port]);
    }
  }

  lemma OnlyChan(g: Graph, c: ChInfo)
    requires Unique(g) && c in g.chans && g.chans[c].active
    ensures forall d :: d in g.chans && g.chans[d].active && g.chans[d].chnum == g.chans[c].chnum ==> d == c
  {
  }

  lemma DropChanMeans(g: Graph, c: ChInfo, st: State)
    requires Core(g) && Means(g, st) && c in g.chans && g.chans[c].active
    ensures Hangs(g, c) && g.chans[c].chnum in st.channels
    ensures Means(DropChan(g, c), Next(st, ChannelExpires(g.chans[c].chnum)))
  {
    hide Linked, Unique, TimersPoint, TimersLive;
    ActiveHangs(g, c);
    OnlyChan(g, c);
    var g', n := DropChan(g, c), g.chans[c].chnum;
    assert ChanFor(g, c, n);
    PermsMeanSame(g, g', st);
    forall k ensures k in st.channels - {n} <==> exists d :: d in g'.chans && ChanFor(g', d, k) {
      if k in st.channels && k != n {
        var d :| d in g.chans && ChanFor(g, d, k);
        assert ChanFor(g', d, k);
      }
      if d :| d in g'.chans && ChanFor(g', d, k) { assert ChanFor(g, d, k); }
    }
    forall d, k | d in g'.chans && ChanFor(g', d, k) ensures (st.channels - {n})[k] == PeerOf(g'.chans[d].peer) {
      assert ChanFor(g, d, k);
    }
  }

  // ---------- the end of a permission ----------

  ghost function TimerIds(g: Graph, ds: set<ChInfo>): set<nat>
    requires ds <= g.chans.Keys
  {
    set c | c in ds :: g.chans[c].timer
  }

  /** turn_permission_clean while it walks the port table: its own timer is gone, the channels ds are cleaned. */
  ghost function CleanSome(g: Graph, p: PermInfo, ds: set<ChInfo>): Graph
    requires p in g.perms && ds <= g.chans.Keys
  {
    Graph(g.perms[p := g.perms[p].(timer := 0)],
          map c | c in g.chans :: if c in ds then BLANK_CHAN else g.chans[c],
          g.timers - {g.perms[p].timer} - TimerIds(g, ds))
  }

  /** ... and when it is done. */
  ghost function CleanPerm(g: Graph, p: PermInfo): Graph
    requires p in g.perms && g.perms[p].chns.Values <= g.chans.Keys
  {
    CleanSome(g, p, g.perms[p].chns.Values).(perms := g.perms[p := BLANK_PERM])
  }

  lemma CleanSomeNone(g: Graph, p: PermInfo)
    requires p in g.perms
    ensures CleanSome(g, p, {}) ==
      g.(perms := g.perms[p := g.perms[p].(timer := 0)], timers := g.timers - {g.perms[p].timer})
  {
  }

  /** ch_info_clean for one more channel. */
  lemma CleanSomeOne(g: Graph, p: PermInfo, ds: set<ChInfo>, c: ChInfo)
    requires p in g.perms && ds <= g.chans.Keys && c in g.chans && 0 !in g.timers
    ensures var g' := CleanSome(g, p, ds);
      CleanSome(g, p, ds + {c}) == g'.(chans := g'.chans[c := BLANK_CHAN], timers := g'.timers - {g'.chans[c].timer})
  {
  }

  lemma CleanSomeKeys(g: Graph, p: PermInfo, ds: set<ChInfo>)
    requires p in g.perms && ds <= g.chans.Keys
    ensures var g' := CleanSome(g, p, ds);
      g'.chans.Keys == g.chans.Keys && g'.perms == g.perms[p := g.perms[p].(timer := 0)]
  {
  }

  lemma CleanSomeDone(g: Graph, p: PermInfo)
    requires p in g.perms && g.perms[p].chns.Values <= g.chans.Keys
    ensures var g' := CleanSome(g, p, g.perms[p].chns.Values);
      CleanPerm(g, p) == g'.(perms := g'.perms[p := BLANK_PERM])
  {
  }

  lemma CleanPermPerms(g: Graph, p: PermInfo)
    requires p in g.perms && g.perms[p].chns.Values <= g.chans.Keys
    ensures CleanPerm(g, p).perms == g.perms[p := BLANK_PERM]
  {
  }

  lemma NoZeroTimer(g: Graph)
    requires TimersPoint(g)
    ensures 0 !in g.timers
  {
  }

  /** The channels in the port table of a permission are those it owns. */
  lemma OwnedChannels(g: Graph, p: PermInfo)
    requires Linked(g) && p in g.perms
    ensures g.perms[p].chns.Values <= g.chans.Keys
    ensures forall c :: c in g.perms[p].chns.Values <==> c in g.chans && g.chans[c].active && g.chans[c].owner == p
  {
  }

  lemma CleanPermLinked(g: Graph, p: PermInfo)
    requires Linked(g) && p in g.perms
    ensures g.perms[p].chns.Values <= g.chans.Keys
    ensures Linked(CleanPerm(g, p))
  {
    OwnedChannels(g, p);
    var g' := CleanPerm(g, p);
    assert AllHang(g') by {
      forall c | c in g'.chans && g'.chans[c].active ensures Hangs(g', c) {
        assert Hangs(g, c);
      }
    }
    assert TablesPoint(g') by { hide AllHang, Hangs; }
  }

  lemma CleanPermUnique(g: Graph, p: PermInfo)
    requires Unique(g) && p in g.perms && g.perms[p].chns.Values <= g.chans.Keys
    ensures Unique(CleanPerm(g, p))
  {
  }

  lemma CleanPermTimers(g: Graph, p: PermInfo)
    requires TimersPoint(g) && TimersLive(g) && p in g.perms && g.perms[p].chns.Values <= g.chans.Keys
    ensures TimersPoint(CleanPerm(g, p)) && TimersLive(CleanPerm(g, p))
  {
    var g', ds := CleanPerm(g, p), g.perms[p].chns.Values;
    forall q | q in g'.perms && g'.perms[q].timer != 0 ensures PermTimed(g', q) {
      assert PermTimed(g, q);
      forall c | c in ds && g.chans[c].timer != 0 ensures g.chans[c].timer != g.perms[q].timer {
        assert ChanTimed(g, c);
      }
    }
    forall d | d in g'.chans && g'.chans[d].timer != 0 ensures ChanTimed(g', d) {
      assert ChanTimed(g, d);
      forall c | c in ds && g.chans[c].timer != 0 ensures g.chans[c].timer != g.chans[d].timer {
        assert ChanTimed(g, c);
      }
    }
    forall c | c in ds ensures g.chans[c].timer in TimerIds(g, ds) {}
  }

  lemma CleanPermKeeps(g: Graph, p: PermInfo)
    requires Core(g) && p in g.perms
    ensures g.perms[p].chns.Values <= g.chans.Keys
    ensures Core(CleanPerm(g, p))
  {
    hide Linked, Unique, TimersPoint, TimersLive, CleanPerm;
    CleanPermLinked(g, p);
    CleanPermUnique(g, p);
    CleanPermTimers(g, p);
  }

  /** When a permission ends, exactly its address is no longer permitted, and exactly the channels to that address
      are gone. */
  lemma CleanPermMeans(g: Graph, p: PermInfo, st: State)
    requires Linked(g) && Unique(g) && Means(g, st) && p in g.perms && g.perms[p].active
    ensures g.perms[p].chns.Values <= g.chans.Keys
    ensures g.perms[p].addr.Addr? ==>
      g.perms[p].addr.ip in st.permits && Means(CleanPerm(g, p), Next(st, PermitExpires(g.perms[p].addr.ip)))
    ensures g.perms[p].addr.NoAddr? ==> Means(CleanPerm(g, p), st)
  {
    hide Linked, Unique;
    OwnedChannels(g, p);
    var g' := CleanPerm(g, p);
    var addr := g.perms[p].addr;
    OwnedByAddress(g, p);
    if addr.Addr? {
      PermitOf(g, st, p);
      CleanPermPermits(g, p, st);
      CleanPermChannels(g, p, st);
    } else {
      CleanPermPermits(g, p, st);
      assert forall c :: c in g.chans ==> g'.chans[c] == g.chans[c];
      ChansMeanSame(g, g', st);
    }
  }

  /** The channels a permission owns are the channels to its address. */
  lemma OwnedByAddress(g: Graph, p: PermInfo)
    requires Linked(g) && Unique(g) && p in g.perms && g.perms[p].active
    ensures forall c :: c in g.chans && g.chans[c].active ==>
      g.chans[c].peer.Addr? && (g.chans[c].owner == p <==> AddrEqNoPort(g.chans[c].peer, g.perms[p].addr))
  {
  }

  lemma CleanPermPermits(g: Graph, p: PermInfo, st: State)
    requires Unique(g) && Means(g, st) && p in g.perms && g.perms[p].active && g.perms[p].chns.Values <= g.chans.Keys
    ensures var permits := if g.perms[p].addr.Addr? then st.permits - {g.perms[p].addr.ip} else st.permits;
      var g' := CleanPerm(g, p);
      forall ip :: ip in permits <==> exists q :: q in g'.perms && PermFor(g', q, ip)
  {
    var permits := if g.perms[p].addr.Addr? then st.permits - {g.perms[p].addr.ip} else st.permits;
    var g' := CleanPerm(g, p);
    forall ip ensures ip in permits <==> exists q :: q in g'.perms && PermFor(g', q, ip) {
      if ip in permits {
        var q :| q in g.perms && PermFor(g, q, ip);
        assert PermFor(g', q, ip);
      }
      if q :| q in g'.perms && PermFor(g', q, ip) { assert PermFor(g, q, ip); }
    }
  }

  lemma CleanPermChannels(g: Graph, p: PermInfo, st: State)
    requires Means(g, st) && p in g.perms && g.perms[p].active && g.perms[p].addr.Addr?
    requires Unique(g)
    requires forall c :: c in g.perms[p].chns.Values <==> c in g.chans && g.chans[c].active && g.chans[c].owner == p
    requires forall c :: c in g.chans && g.chans[c].active ==>
      g.chans[c].peer.Addr? && (g.chans[c].owner == p <==> AddrEqNoPort(g.chans[c].peer, g.perms[p].addr))
    ensures var channels := WithoutIp(st.channels, g.perms[p].addr.ip);
      var g' := CleanPerm(g, p);
      && (forall n :: n in channels <==> exists c :: c in g'.chans && ChanFor(g', c, n))
      && (forall c, n :: c in g'.chans && ChanFor(g', c, n) ==> channels[n] == PeerOf(g'.chans[c].peer))
  {
    var channels := WithoutIp(st.channels, g.perms[p].addr.ip);
    var g' := CleanPerm(g, p);
    forall c, n | c in g'.chans && ChanFor(g', c, n)
      ensures n in channels && channels[n] == PeerOf(g'.chans[c].peer)
    {
      assert ChanFor(g, c, n);
    }
    forall n | n in channels ensures exists c :: c in g'.chans && ChanFor(g', c, n) {
      var c :| c in g.chans && ChanFor(g, c, n);
      assert ChanFor(g', c, n);
    }
  }

  lemma CleanPermArmed(g: Graph, p: PermInfo)
    requires p in g.perms && g.perms[p].chns.Values <= g.chans.Keys
    ensures Armed(g) ==> Armed(CleanPerm(g, p))
  {
  }

  /** A graph of zeroed records. */
  lemma AllBlank(g: Graph)
    requires g.timers == map[]
    requires forall p :: p in g.perms ==> g.perms[p] == BLANK_PERM
    requires forall c :: c in g.chans ==> g.chans[c] == BLANK_CHAN
    ensures Core(g) && Means(g, EMPTY) && Armed(g)
  {
  }

  /** No permission left: no channel and no timer left either. */
  lemma NothingLeft(g: Graph, st: State)
    requires Core(g) && Means(g, st) && forall p :: p in g.perms ==> !g.perms[p].active
    ensures forall c :: c in g.chans ==> !g.chans[c].active
    ensures g.timers == map[] && st == EMPTY
  {
  }
}
