/** What an allocation means: which IP addresses the client may exchange data with, and which channel number stands
    for which peer. The data structures that keep this are in Allocation. */
module TurnSpec {
  import opened IoaAddr
  import opened StunDefs

  datatype Peer = Peer(ip: Ip, port: nat)

  datatype State = State(permits: set<Ip>, channels: map<nat, Peer>)

  datatype Event =
    | Bind(n: nat, peer: Peer)
    | Permit(ips: set<Ip>)
    | PermitExpires(ip: Ip)
    | ChannelExpires(n: nat)
    | Clear

  const EMPTY := State({}, map[])

  /** A number and a peer can be bound together if they are already, or if neither is bound. */
  ghost predicate Bindable(st: State, n: nat, peer: Peer) {
    if n in st.channels then st.channels[n] == peer else peer !in st.channels.Values
  }

  ghost predicate Enabled(st: State, e: Event) {
    match e
    case Bind(n, peer) => ValidChannel(n) && peer.port > 0 && Bindable(st, n, peer)
    case Permit(_) => true
    case PermitExpires(ip) => ip in st.permits
    case ChannelExpires(n) => n in st.channels
    case Clear => true
  }

  function WithoutIp(channels: map<nat, Peer>, ip: Ip): map<nat, Peer> {
    map n | n in channels && channels[n].ip != ip :: channels[n]
  }

  function Next(st: State, e: Event): State {
    match e
    case Bind(n, peer) => State(st.permits + {peer.ip}, st.channels[n := peer])
    case Permit(ips) => st.(permits := st.permits + ips)
    case PermitExpires(ip) => State(st.permits - {ip}, WithoutIp(st.channels, ip))
    case ChannelExpires(n) => st.(channels := st.channels - {n})
    case Clear => EMPTY
  }

  /** Client data for a channel number goes to this peer (write_to_peerchannel). */
  datatype Forward = ToPeer(peer: Peer) | NoChannel

  function ClientData(st: State, n: nat): Forward {
    if n in st.channels then ToPeer(st.channels[n]) else NoChannel
  }

  lemma ClientDataOf(st: State, n: nat)
    ensures n in st.channels ==> ClientData(st, n) == ToPeer(st.channels[n])
    ensures n !in st.channels ==> ClientData(st, n) == NoChannel
  {
  }

  /** Data from a peer reaches the client on a channel, as an indication, or not at all (peer_input_handler, with
      server_relay off). */
  datatype Backward = OnChannel(n: nat) | AsIndication | Refused

  ghost predicate PeerData(st: State, from: Peer, r: Backward) {
    match r
    case OnChannel(n) => from.ip in st.permits && n in st.channels && st.channels[n] == from
    case AsIndication => from.ip in st.permits && from !in st.channels.Values
    case Refused => from.ip !in st.permits
  }

  // ---------- what every run keeps ----------

  /** Channels only to permitted addresses, and no peer on two channels. */
  ghost predicate Safe(st: State) {
    && (forall n :: n in st.channels ==>
          ValidChannel(n) && st.channels[n].port > 0 && st.channels[n].ip in st.permits)
    && (forall n, k :: n in st.channels && k in st.channels && st.channels[n] == st.channels[k] ==> n == k)
  }

  lemma StepSafe(st: State, e: Event)
    requires Safe(st) && Enabled(st, e)
    ensures Safe(Next(st, e))
  {
  }

  /** The two directions agree: number n leads to a peer exactly if data from that peer arrives on n, and then on no
      other number and not as an indication. */
  lemma DirectionsAgree(st: State, n: nat, peer: Peer)
    requires Safe(st)
    ensures ClientData(st, n) == ToPeer(peer) <==> PeerData(st, peer, OnChannel(n))
    ensures ClientData(st, n) == ToPeer(peer) ==> forall r :: PeerData(st, peer, r) ==> r == OnChannel(n)
  {
  }

  ghost predicate IsRun(events: seq<Event>, states: seq<State>) {
    && |states| == |events| + 1 && states[0] == EMPTY
    && forall i :: 0 <= i < |events| ==> Enabled(states[i], events[i]) && states[i + 1] == Next(states[i], events[i])
  }

  lemma {:induction false} RunSafe(events: seq<Event>, states: seq<State>, i: nat)
    requires IsRun(events, states) && i < |states|
    ensures Safe(states[i])
  {
    if i == 0 {
    } else {
      RunSafe(events, states, i - 1);
      StepSafe(states[i - 1], events[i - 1]);
    }
  }

  /** Right after a binding both directions use it, and nothing else. */
  lemma JustBound(events: seq<Event>, states: seq<State>, n: nat, peer: Peer)
    requires IsRun(events, states) && events != [] && events[|events| - 1] == Bind(n, peer)
    ensures var st := states[|events|];
      && ClientData(st, n) == ToPeer(peer) && PeerData(st, peer, OnChannel(n))
      && forall r :: PeerData(st, peer, r) ==> r == OnChannel(n)
  {
    RunSafe(events, states, |events|);
    var last := |events| - 1;
    assert states[last + 1] == Next(states[last], events[last]);
    DirectionsAgree(states[|events|], n, peer);
  }

  // ---------- where permissions and channels come from ----------

  predicate Grants(e: Event, ip: Ip) {
    match e
    case Bind(_, peer) => peer.ip == ip
    case Permit(ips) => ip in ips
    case _ => false
  }

  predicate Revokes(e: Event, ip: Ip) {
    e == PermitExpires(ip) || e == Clear
  }

  /** Event j granted the address, and no later one up to i took it back. */
  ghost predicate HeldSince(events: seq<Event>, j: nat, i: nat, ip: Ip)
    requires i <= |events|
  {
    && j < i && Grants(events[j], ip)
    && forall k :: j < k < i ==> !Revokes(events[k], ip)
  }

  /** An address is permitted exactly while a grant of it stands. */
  lemma {:induction false} PermittedExactly(events: seq<Event>, states: seq<State>, i: nat, ip: Ip)
    requires IsRun(events, states) && i < |states|
    ensures ip in states[i].permits <==> exists j :: HeldSince(events, j, i, ip)
  {
    if i == 0 {
    } else {
      PermittedExactly(events, states, i - 1, ip);
      var before := i - 1;
      var e := events[before];
      if Grants(e, ip) {
        assert HeldSince(events, i - 1, i, ip);
      } else if Revokes(e, ip) {
        forall j: nat ensures !HeldSince(events, j, i, ip) {
          assert Revokes(events[i - 1], ip);
        }
      } else {
        if j: nat :| HeldSince(events, j, before, ip) { assert HeldSince(events, j, i, ip); }
        if j: nat :| HeldSince(events, j, i, ip) { assert HeldSince(events, j, before, ip); }
      }
    }
  }

  /** So peer data is relayed only after a grant for the peer's address that still stands. */
  lemma RelayedOnlyIfGranted(events: seq<Event>, states: seq<State>, i: nat, from: Peer, r: Backward)
    requires IsRun(events, states) && i < |states| && PeerData(states[i], from, r)
    ensures !r.Refused? <==> exists j :: HeldSince(events, j, i, from.ip)
  {
    PermittedExactly(events, states, i, from.ip);
  }

  ghost predicate BoundSince(events: seq<Event>, j: nat, i: nat, n: nat, peer: Peer)
    requires i <= |events|
  {
    && j < i && events[j] == Bind(n, peer)
    && forall k :: j < k < i ==> events[k] != ChannelExpires(n) && !Revokes(events[k], peer.ip)
  }

  /** A number stands for a peer exactly while a binding of the two stands: it ends when the channel or the permission
      of the peer's address does, and cannot be taken over by another peer before. */
  lemma {:induction false} ChannelExactly(events: seq<Event>, states: seq<State>, i: nat, n: nat, peer: Peer)
    requires IsRun(events, states) && i < |states|
    ensures ClientData(states[i], n) == ToPeer(peer) <==> exists j :: BoundSince(events, j, i, n, peer)
  {
    if i == 0 {
    } else {
      ChannelExactly(events, states, i - 1, n, peer);
      var before := i - 1;
      var e := events[before];
      if e == Bind(n, peer) {
        assert BoundSince(events, i - 1, i, n, peer);
      } else if e == ChannelExpires(n) || Revokes(e, peer.ip) {
        forall j: nat ensures !BoundSince(events, j, i, n, peer) {
          assert events[i - 1] == ChannelExpires(n) || Revokes(events[i - 1], peer.ip);
        }
      } else {
        if j: nat :| BoundSince(events, j, before, n, peer) { assert BoundSince(events, j, i, n, peer); }
        if j: nat :| BoundSince(events, j, i, n, peer) { assert BoundSince(events, j, before, n, peer); }
      }
    }
  }

  // ---------- allowed peers ----------

  /** What is bound or granted is allowed: a peer with its port, an IP address with some port. */
  ghost predicate GoodEvent(e: Event, goodPeer: IoaAddr -> bool) {
    match e
    case Bind(_, peer) => goodPeer(Addr(peer.ip, peer.port))
    case Permit(ips) => forall ip :: ip in ips ==> GoodIp(ip, goodPeer)
    case _ => true
  }

  ghost predicate GoodIp(ip: Ip, goodPeer: IoaAddr -> bool) {
    exists port: nat :: goodPeer(Addr(ip, port))
  }

  ghost predicate AllGood(events: seq<Event>, goodPeer: IoaAddr -> bool) {
    forall i :: 0 <= i < |events| ==> GoodEvent(events[i], goodPeer)
  }

  /** Whatever is permitted or bound was allowed when it was granted. */
  lemma GrantedWasGood(events: seq<Event>, states: seq<State>, i: nat, goodPeer: IoaAddr -> bool)
    requires IsRun(events, states) && i < |states| && AllGood(events, goodPeer)
    ensures forall ip :: ip in states[i].permits ==> GoodIp(ip, goodPeer)
    ensures forall n :: n in states[i].channels ==>
      goodPeer(Addr(states[i].channels[n].ip, states[i].channels[n].port))
  {
    forall ip | ip in states[i].permits ensures GoodIp(ip, goodPeer) {
      PermittedExactly(events, states, i, ip);
      var j: nat :| HeldSince(events, j, i, ip);
      assert GoodEvent(events[j], goodPeer);
    }
    forall n | n in states[i].channels
      ensures goodPeer(Addr(states[i].channels[n].ip, states[i].channels[n].port))
    {
      ChannelExactly(events, states, i, n, states[i].channels[n]);
      var j: nat :| BoundSince(events, j, i, n, states[i].channels[n]);
      assert GoodEvent(events[j], goodPeer);
    }
  }
}
