/** The TURN requests that change an allocation, its timers going off, and the two directions of relayed data. */
module TurnServer {
  import opened IoaAddr
  import opened StunDefs
  import opened TurnSpec
  import opened TurnGraph
  import Alloc = Allocation

  const MAX_NUMBER_OF_UNKNOWN_ATTRS := 128
  const DATA := 0x0013
  const DONT_FRAGMENT := 0x001A

  /** An attribute of a request as the handlers see it. A peer address that cannot be decoded is NoAddr. */
  datatype Attr = Skipped | ChannelNumber(n: nat) | PeerAddress(addr: IoaAddr) | Other(t: nat)

  /** The relay sockets an allocation has. */
  datatype Relays = Relays(four: bool, six: bool)

  /** get_relay_socket: every family but IPv6 is taken for IPv4. */
  predicate HasRelay(r: Relays, addr: IoaAddr) {
    if addr.Addr? && addr.ip.Ip6? then r.six else r.four
  }

  /** The kinds of requests; whether a server lets Send indications ask for no fragmentation is a setting of it. */
  datatype Kind = ForBind | ForPermit | ForSend(dontFragment: bool)

  /** Attributes the request must not have because the server does not know them. */
  predicate Unknown(a: Attr, kind: Kind) {
    (a.Other? && a.t <= 0x7FFF && !(kind.ForSend? && (a.t == DATA || (a.t == DONT_FRAGMENT && kind.dontFragment))))
    || (a.ChannelNumber? && !kind.ForBind?)
  }

  function TypeOf(a: Attr): nat {
    match a
    case Other(t) => t
    case ChannelNumber(_) => 0x000C
    case PeerAddress(_) => 0x0012
    case Skipped => 0x0006
  }

  /** The types of the unknown attributes, in order. */
  function UnknownTypes(attrs: seq<Attr>, kind: Kind): seq<nat> {
    if attrs == [] then []
    else UnknownTypes(attrs[..|attrs| - 1], kind)
         + if Unknown(attrs[|attrs| - 1], kind) then [TypeOf(attrs[|attrs| - 1])] else []
  }

  lemma {:induction false} UnknownTypesEmpty(attrs: seq<Attr>, kind: Kind)
    ensures UnknownTypes(attrs, kind) == [] <==> forall i :: 0 <= i < |attrs| ==> !Unknown(attrs[i], kind)
  {
    if attrs == [] {
    } else {
      UnknownTypesEmpty(attrs[..|attrs| - 1], kind);
    }
  }

  // ---------- ChannelBind requests ----------

  /** Attribute i makes a ChannelBind request a bad one. */
  ghost predicate BadBind(r: Relays, attrs: seq<Attr>, i: nat)
    requires i < |attrs|
  {
    match attrs[i]
    case ChannelNumber(n) => !ValidChannel(n) || exists k :: 0 <= k < i && attrs[k].ChannelNumber?
    case PeerAddress(addr) => !HasRelay(r, addr) || GetPort(addr) < 1
    case _ => false
  }

  function BindCode(a: Attr): int {
    if a.PeerAddress? && GetPort(a.addr) >= 1 then 443 else 400
  }

  ghost predicate LastPeer(attrs: seq<Attr>, k: int, peer: IoaAddr) {
    && 0 <= k < |attrs| && attrs[k] == PeerAddress(peer)
    && forall j :: k < j < |attrs| ==> !attrs[j].PeerAddress?
  }

  /** The request asks to bind a number to a peer: one channel number, a valid one; peer addresses with a port and a
      relay socket for their family, of which the last counts; nothing unknown. */
  ghost predicate BindRequest(r: Relays, attrs: seq<Attr>, n: nat, peer: IoaAddr) {
    && (forall i :: 0 <= i < |attrs| ==> !Unknown(attrs[i], ForBind) && !BadBind(r, attrs, i))
    && ChannelNumber(n) in attrs
    && exists k :: LastPeer(attrs, k, peer)
  }

  lemma BindRequestUnique(r: Relays, attrs: seq<Attr>, n: nat, peer: IoaAddr, n': nat, peer': IoaAddr)
    requires BindRequest(r, attrs, n, peer) && BindRequest(r, attrs, n', peer')
    ensures n == n' && peer == peer' && ValidChannel(n) && peer.Addr? && peer.port > 0
  {
  }

  /** What the loop over the attributes of a ChannelBind request finds. */
  ghost predicate BindRead(r: Relays, attrs: seq<Attr>, err: int, n: nat, peer: IoaAddr, found: bool) {
    && (err == 0 ==>
          && (forall i :: 0 <= i < |attrs| ==> !BadBind(r, attrs, i))
          && (n == 0 ==> forall i :: 0 <= i < |attrs| ==> !attrs[i].ChannelNumber?)
          && (n != 0 ==> ValidChannel(n) && ChannelNumber(n) in attrs)
          && (!found ==> peer == NoAddr && forall i :: 0 <= i < |attrs| ==> !attrs[i].PeerAddress?)
          && (found ==> GetPort(peer) >= 1 && exists k :: LastPeer(attrs, k, peer)))
    && (err != 0 ==>
          && |attrs| > 0 && BadBind(r, attrs, |attrs| - 1) && err == BindCode(attrs[|attrs| - 1])
          && (forall i :: 0 <= i < |attrs| - 1 ==> !BadBind(r, attrs, i)))
  }

  lemma BindReadMore(r: Relays, attrs: seq<Attr>, n: nat, peer: IoaAddr, found: bool, a: Attr,
      err: int, n': nat, peer': IoaAddr, found': bool)
    requires BindRead(r, attrs, 0, n, peer, found)
    requires match a
      case ChannelNumber(m) => peer' == peer && found' == found
        && if n != 0 || !ValidChannel(m) then err == 400 && n' == 0 else err == 0 && n' == m
      case PeerAddress(addr) => n' == n && peer' == addr
        && err == (if GetPort(addr) < 1 then 400 else if !HasRelay(r, addr) then 443 else 0)
        && found' == (found || GetPort(addr) >= 1)
      case _ => err == 0 && n' == n && peer' == peer && found' == found
    ensures BindRead(r, attrs + [a], err, n', peer', found')
  {
    var more := attrs + [a];
    forall i | 0 <= i < |attrs| ensures BadBind(r, more, i) <==> BadBind(r, attrs, i) {
      if attrs[i].ChannelNumber? {
        forall k | 0 <= k < i ensures more[k] == attrs[k] {}
      }
    }
    if a.ChannelNumber? && n != 0 {
      var k :| 0 <= k < |attrs| && attrs[k] == ChannelNumber(n);
      assert more[k].ChannelNumber?;
    }
    if a.PeerAddress? {
      assert LastPeer(more, |attrs|, a.addr);
    } else if found {
      var k :| LastPeer(attrs, k, peer);
      assert LastPeer(more, k, peer);
    }
    assert a.ChannelNumber? && n == 0 ==> more[|attrs|] == a;
  }

  method ReadBind(r: Relays, attrs: seq<Attr>)
    returns (err: int, n: nat, peer: IoaAddr, found: bool, unknown: seq<nat>, read: nat)
    ensures read <= |attrs| && BindRead(r, attrs[..read], err, n, peer, found)
    ensures unknown == UnknownTypes(attrs[..read], ForBind)
    ensures read == |attrs| || err != 0 || |unknown| == MAX_NUMBER_OF_UNKNOWN_ATTRS
  {
    err, n, peer, found, unknown, read := 0, 0, NoAddr, false, [], 0;
    while read < |attrs| && err == 0 && |unknown| < MAX_NUMBER_OF_UNKNOWN_ATTRS
      invariant read <= |attrs| && BindRead(r, attrs[..read], err, n, peer, found)
      invariant unknown == UnknownTypes(attrs[..read], ForBind) && |unknown| <= MAX_NUMBER_OF_UNKNOWN_ATTRS
    {
      ghost var n0, peer0, found0 := n, peer, found;
      var a := attrs[read];
      match a {
        case Skipped =>
        case ChannelNumber(m) =>
          if n != 0 {
            n, err := 0, 400;
          } else if !ValidChannel(m) {
            err := 400;
          } else {
            n := m;
          }
        case PeerAddress(addr) =>
          peer := addr;
          if !HasRelay(r, peer) {
            err := 443;
          }
          if GetPort(peer) < 1 {
            err := 400;
          } else {
            found := true;
          }
        case Other(t) =>
          if t <= 0x7FFF {
            unknown := unknown + [t];
          }
      }
      BindReadMore(r, attrs[..read], n0, peer0, found0, a, err, n, peer, found);
      assert attrs[..read + 1] == attrs[..read] + [a];
      read := read + 1;
    }
  }

  /** An unknown attribute comes before anything bad. */
  ghost predicate UnknownFirst(r: Relays, attrs: seq<Attr>) {
    exists i :: 0 <= i < |attrs| && Unknown(attrs[i], ForBind) && forall k :: 0 <= k < i ==> !BadBind(r, attrs, k)
  }

  ghost predicate FirstBad(r: Relays, attrs: seq<Attr>, j: int) {
    0 <= j < |attrs| && BadBind(r, attrs, j) && forall k :: 0 <= k < j ==> !BadBind(r, attrs, k)
  }

  function BindVerdict(st: State, n: nat, peer: IoaAddr, good: bool): int {
    if n in st.channels then
      if st.channels[n] == PeerOf(peer) then 0 else 400
    else if PeerOf(peer) in st.channels.Values then 400
    else if good then 0 else 403
  }

  /** The error code a ChannelBind request gets, 0 if it is accepted. */
  ghost predicate BindAnswer(r: Relays, attrs: seq<Attr>, st: State, goodPeer: IoaAddr -> bool, err: int) {
    && (UnknownFirst(r, attrs) ==> err == 420)
    && (!UnknownFirst(r, attrs) ==> forall j :: FirstBad(r, attrs, j) ==> err == BindCode(attrs[j]))
    && (!UnknownFirst(r, attrs) && (forall j :: !FirstBad(r, attrs, j)) ==>
          if exists n, peer :: BindRequest(r, attrs, n, peer)
          then forall n, peer :: BindRequest(r, attrs, n, peer) ==> err == BindVerdict(st, n, peer, goodPeer(peer))
          else err == 400)
  }

  lemma ReadUnknown(r: Relays, attrs: seq<Attr>, err: int, n: nat, peer: IoaAddr, found: bool, read: nat)
    requires read <= |attrs| && BindRead(r, attrs[..read], err, n, peer, found)
    requires UnknownTypes(attrs[..read], ForBind) != []
    ensures UnknownFirst(r, attrs)
  {
    BadInPrefix(r, attrs, read);
    UnknownTypesEmpty(attrs[..read], ForBind);
    var i :| 0 <= i < read && Unknown(attrs[i], ForBind);
    assert forall k :: 0 <= k < i ==> !BadBind(r, attrs, k);
  }

  lemma BadInPrefix(r: Relays, attrs: seq<Attr>, read: nat)
    requires read <= |attrs|
    ensures forall i :: 0 <= i < read ==> (BadBind(r, attrs[..read], i) <==> BadBind(r, attrs, i))
  {
  }

  lemma ReadBad(r: Relays, attrs: seq<Attr>, err: int, n: nat, peer: IoaAddr, found: bool, read: nat)
    requires read <= |attrs| && BindRead(r, attrs[..read], err, n, peer, found) && err != 0
    requires UnknownTypes(attrs[..read], ForBind) == []
    ensures !UnknownFirst(r, attrs) && read > 0 && FirstBad(r, attrs, read - 1)
    ensures forall j :: FirstBad(r, attrs, j) ==> err == BindCode(attrs[j])
  {
    BadInPrefix(r, attrs, read);
    UnknownTypesEmpty(attrs[..read], ForBind);
    forall i | 0 <= i < read ensures !Unknown(attrs[i], ForBind) {
      assert attrs[..read][i] == attrs[i];
    }
  }

  lemma ReadAll(r: Relays, attrs: seq<Attr>, n: nat, peer: IoaAddr, found: bool)
    requires BindRead(r, attrs, 0, n, peer, found) && UnknownTypes(attrs, ForBind) == []
    ensures !UnknownFirst(r, attrs) && forall j :: !FirstBad(r, attrs, j)
    ensures n != 0 && found ==> BindRequest(r, attrs, n, peer)
    ensures n == 0 || !found ==> forall m, p :: !BindRequest(r, attrs, m, p)
  {
    UnknownTypesEmpty(attrs, ForBind);
    forall m, p | BindRequest(r, attrs, m, p) ensures n != 0 && found {
      var k :| LastPeer(attrs, k, p);
      var j :| 0 <= j < |attrs| && attrs[j] == ChannelNumber(m);
    }
  }

  lemma ReadAnswer(r: Relays, attrs: seq<Attr>, st: State, goodPeer: IoaAddr -> bool, err: int, n: nat, peer: IoaAddr,
      found: bool, unknown: seq<nat>, read: nat)
    requires read <= |attrs| && BindRead(r, attrs[..read], err, n, peer, found)
    requires unknown == UnknownTypes(attrs[..read], ForBind)
    requires read == |attrs| || err != 0 || |unknown| == MAX_NUMBER_OF_UNKNOWN_ATTRS
    ensures unknown != [] ==> BindAnswer(r, attrs, st, goodPeer, 420)
    ensures unknown == [] && err != 0 ==> BindAnswer(r, attrs, st, goodPeer, err)
    ensures unknown == [] && err == 0 && (n == 0 || !found) ==> BindAnswer(r, attrs, st, goodPeer, 400)
    ensures unknown == [] && err == 0 && n != 0 && found ==>
      && ValidChannel(n) && peer.Addr? && peer.port > 0 && BindRequest(r, attrs, n, peer)
      && BindAnswer(r, attrs, st, goodPeer, BindVerdict(st, n, peer, goodPeer(peer)))
  {
    hide BadBind, BindRead, BindRequest;
    if unknown != [] {
      ReadUnknown(r, attrs, err, n, peer, found, read);
    } else if err != 0 {
      ReadBad(r, attrs, err, n, peer, found, read);
    } else {
      assert attrs[..read] == attrs;
      ReadAll(r, attrs, n, peer, found);
      if n != 0 && found {
        forall m, p | BindRequest(r, attrs, m, p) ensures m == n && p == peer {
          BindRequestUnique(r, attrs, n, peer, m, p);
        }
        BindRequestUnique(r, attrs, n, peer, n, peer);
      }
    }
  }

  lemma PeerHasRelay(r: Relays, attrs: seq<Attr>, n: nat, peer: IoaAddr)
    requires BindRequest(r, attrs, n, peer)
    ensures peer.Addr? && if peer.ip.Ip6? then r.six else r.four
  {
  }

  /** A ChannelBind request is accepted exactly if it asks to bind a number and a peer that can be bound together, and
      a new binding is to an address the server allows. */
  lemma BindAcceptedExactly(r: Relays, attrs: seq<Attr>, st: State, goodPeer: IoaAddr -> bool, err: int)
    requires BindAnswer(r, attrs, st, goodPeer, err)
    ensures err == 0 <==> exists n, peer | BindRequest(r, attrs, n, peer) ::
      Bindable(st, n, PeerOf(peer)) && (n in st.channels || goodPeer(peer))
  {
  }

  /** What is wrong with attribute j of a ChannelBind request, 0 if nothing: an error code. */
  ghost function BindFlaw(r: Relays, attrs: seq<Attr>, j: nat): int
    requires j < |attrs|
  {
    match attrs[j]
    case Skipped => 0
    case Other(t) => if t <= 0x7FFF then 420 else 0
    case ChannelNumber(n) =>
      if 0x4000 <= n <= 0x7FFF && forall k :: 0 <= k < j ==> !attrs[k].ChannelNumber? then 0 else 400
    case PeerAddress(NoAddr) => 400
    case PeerAddress(Addr(Ip4(_), port)) => if port == 0 then 400 else if r.four then 0 else 443
    case PeerAddress(Addr(Ip6(_), port)) => if port == 0 then 400 else if r.six then 0 else 443
  }

  ghost predicate Flawless(r: Relays, attrs: seq<Attr>, i: nat)
    requires i <= |attrs|
  {
    forall k :: 0 <= k < i ==> BindFlaw(r, attrs, k) == 0
  }

  lemma FlawIs(r: Relays, attrs: seq<Attr>, j: nat)
    requires j < |attrs|
    ensures BindFlaw(r, attrs, j) ==
      if Unknown(attrs[j], ForBind) then 420 else if BadBind(r, attrs, j) then BindCode(attrs[j]) else 0
    ensures !(Unknown(attrs[j], ForBind) && BadBind(r, attrs, j))
  {
  }

  /** The error code of a ChannelBind request in full: the first attribute with a flaw decides; without one, the number
      and the last peer address, and whether they can be bound together. */
  lemma BindErrorExactly(r: Relays, attrs: seq<Attr>, st: State, goodPeer: IoaAddr -> bool, err: int)
    requires BindAnswer(r, attrs, st, goodPeer, err)
    ensures forall j: nat | j < |attrs| && BindFlaw(r, attrs, j) != 0 && Flawless(r, attrs, j) ::
      err == BindFlaw(r, attrs, j)
    ensures Flawless(r, attrs, |attrs|) ==>
      if (exists n :: ChannelNumber(n) in attrs) && (exists x :: x in attrs && x.PeerAddress?)
      then forall n, k: nat, peer | ChannelNumber(n) in attrs && k < |attrs| && attrs[k] == PeerAddress(peer)
          && (forall j :: k < j < |attrs| ==> !attrs[j].PeerAddress?) ::
        peer.Addr? && err ==
          if n in st.channels then if st.channels[n] == Peer(peer.ip, peer.port) then 0 else 400
          else if Peer(peer.ip, peer.port) in st.channels.Values then 400
          else if goodPeer(peer) then 0 else 403
      else err == 400
  {
    forall j: nat | j < |attrs| ensures !(Unknown(attrs[j], ForBind) && BadBind(r, attrs, j))
      && BindFlaw(r, attrs, j) ==
        if Unknown(attrs[j], ForBind) then 420 else if BadBind(r, attrs, j) then BindCode(attrs[j]) else 0
    {
      FlawIs(r, attrs, j);
    }
    hide BindFlaw, Unknown, BadBind;
    forall j: nat | j < |attrs| && BindFlaw(r, attrs, j) != 0 && Flawless(r, attrs, j)
      ensures err == BindFlaw(r, attrs, j)
    {
      FirstFlaw(r, attrs, j);
    }
    if Flawless(r, attrs, |attrs|) {
      NoFlaw(r, attrs);
      forall n, k, peer | ChannelNumber(n) in attrs && LastPeer(attrs, k, peer)
        ensures err == BindVerdict(st, n, peer, goodPeer(peer))
      {
        assert BindRequest(r, attrs, n, peer);
      }
      forall k: nat, peer | k < |attrs| && attrs[k] == PeerAddress(peer)
          && (forall j :: k < j < |attrs| ==> !attrs[j].PeerAddress?)
        ensures LastPeer(attrs, k, peer)
      {
      }
      if x :| x in attrs && x.PeerAddress? {
        LastPeerThere(attrs);
      }
    }
  }

  lemma {:induction false} LastPeerThere(attrs: seq<Attr>)
    requires exists x :: x in attrs && x.PeerAddress?
    ensures exists k, peer :: LastPeer(attrs, k, peer)
  {
    var last := |attrs| - 1;
    if attrs[last].PeerAddress? {
      assert LastPeer(attrs, last, attrs[last].addr);
    } else {
      var front := attrs[..last];
      var x :| x in attrs && x.PeerAddress?;
      assert x in front;
      LastPeerThere(front);
      var k, peer :| LastPeer(front, k, peer);
      assert LastPeer(attrs, k, peer);
    }
  }

  lemma FirstFlaw(r: Relays, attrs: seq<Attr>, j: nat)
    requires j < |attrs| && BindFlaw(r, attrs, j) != 0 && Flawless(r, attrs, j)
    ensures if BindFlaw(r, attrs, j) == 420 then UnknownFirst(r, attrs)
      else !UnknownFirst(r, attrs) && FirstBad(r, attrs, j) && BindFlaw(r, attrs, j) == BindCode(attrs[j])
  {
    forall k: nat | k <= j ensures BindFlaw(r, attrs, k) ==
      if Unknown(attrs[k], ForBind) then 420 else if BadBind(r, attrs, k) then BindCode(attrs[k]) else 0
    {
      FlawIs(r, attrs, k);
    }
    FlawIs(r, attrs, j);
    hide BindFlaw, Unknown, BadBind;
    if BindFlaw(r, attrs, j) == 420 {
      assert Unknown(attrs[j], ForBind);
    }
  }

  lemma NoFlaw(r: Relays, attrs: seq<Attr>)
    requires Flawless(r, attrs, |attrs|)
    ensures !UnknownFirst(r, attrs) && forall j :: !FirstBad(r, attrs, j)
    ensures forall n, peer ::
      BindRequest(r, attrs, n, peer) <==> ChannelNumber(n) in attrs && exists k :: LastPeer(attrs, k, peer)
    ensures forall k, peer | LastPeer(attrs, k, peer) :: peer.Addr?
  {
    forall j: nat | j < |attrs| ensures !Unknown(attrs[j], ForBind) && !BadBind(r, attrs, j) {
      FlawIs(r, attrs, j);
    }
    forall k, peer | LastPeer(attrs, k, peer) ensures peer.Addr? {
      assert BindFlaw(r, attrs, k) == 0;
    }
    hide Unknown, BadBind, BindFlaw;
  }

  // ---------- CreatePermission requests ----------

  predicate BadPermit(r: Relays, goodPeer: IoaAddr -> bool, a: Attr) {
    a.PeerAddress? && (!HasRelay(r, a.addr) || !goodPeer(a.addr))
  }

  function PermitCode(r: Relays, a: Attr): int {
    if a.PeerAddress? && !HasRelay(r, a.addr) then 443 else 403
  }

  /** An attribute a CreatePermission request must not have. */
  predicate Stops(r: Relays, goodPeer: IoaAddr -> bool, a: Attr) {
    Unknown(a, ForPermit) || BadPermit(r, goodPeer, a)
  }

  ghost predicate FirstStop(r: Relays, goodPeer: IoaAddr -> bool, attrs: seq<Attr>, j: int) {
    0 <= j < |attrs| && Stops(r, goodPeer, attrs[j]) && forall k :: 0 <= k < j ==> !Stops(r, goodPeer, attrs[k])
  }

  /** The error code a CreatePermission request gets, 0 if it is accepted: the first attribute that is unknown or bad
      decides. */
  ghost predicate PermitAnswer(r: Relays, attrs: seq<Attr>, goodPeer: IoaAddr -> bool, err: int) {
    && ((forall i :: 0 <= i < |attrs| ==> !Stops(r, goodPeer, attrs[i])) ==>
          err == if exists i :: 0 <= i < |attrs| && attrs[i].PeerAddress? then 0 else 400)
    && (forall j :: FirstStop(r, goodPeer, attrs, j) ==>
          err == if Unknown(attrs[j], ForPermit) then 420 else PermitCode(r, attrs[j]))
  }

  /** What is wrong with an attribute of a CreatePermission request, 0 if nothing: an error code. An address that cannot
      be decoded counts as an IPv4 address. */
  function PermitFlaw(r: Relays, goodPeer: IoaAddr -> bool, a: Attr): int {
    match a
    case Skipped => 0
    case Other(t) => if t <= 0x7FFF then 420 else 0
    case ChannelNumber(_) => 420
    case PeerAddress(Addr(Ip6(v), port)) => if !r.six then 443 else if goodPeer(Addr(Ip6(v), port)) then 0 else 403
    case PeerAddress(addr) => if !r.four then 443 else if goodPeer(addr) then 0 else 403
  }

  lemma PermitFlawIs(r: Relays, goodPeer: IoaAddr -> bool, a: Attr)
    ensures PermitFlaw(r, goodPeer, a) ==
      if Unknown(a, ForPermit) then 420 else if BadPermit(r, goodPeer, a) then PermitCode(r, a) else 0
  {
  }

  /** The error code of a CreatePermission request in full: the first attribute with a flaw decides, and without one
      there must be an address. */
  lemma PermitErrorExactly(r: Relays, attrs: seq<Attr>, goodPeer: IoaAddr -> bool, err: int)
    requires PermitAnswer(r, attrs, goodPeer, err)
    ensures forall j | 0 <= j < |attrs| && PermitFlaw(r, goodPeer, attrs[j]) != 0 ::
      (forall k :: 0 <= k < j ==> PermitFlaw(r, goodPeer, attrs[k]) == 0) ==> err == PermitFlaw(r, goodPeer, attrs[j])
    ensures (forall k :: 0 <= k < |attrs| ==> PermitFlaw(r, goodPeer, attrs[k]) == 0) ==>
      err == if exists k :: 0 <= k < |attrs| && attrs[k].PeerAddress? then 0 else 400
    ensures err == 0 ==> forall k :: 0 <= k < |attrs| ==> PermitFlaw(r, goodPeer, attrs[k]) == 0
  {
    forall k | 0 <= k < |attrs| ensures PermitFlaw(r, goodPeer, attrs[k]) ==
      if Unknown(attrs[k], ForPermit) then 420
      else if BadPermit(r, goodPeer, attrs[k]) then PermitCode(r, attrs[k]) else 0
    {
      PermitFlawIs(r, goodPeer, attrs[k]);
    }
    hide PermitFlaw, Unknown, BadPermit;
    forall j | 0 <= j < |attrs| && PermitFlaw(r, goodPeer, attrs[j]) != 0
        && (forall k :: 0 <= k < j ==> PermitFlaw(r, goodPeer, attrs[k]) == 0)
      ensures err == PermitFlaw(r, goodPeer, attrs[j])
    {
      assert FirstStop(r, goodPeer, attrs, j);
    }
    if k :| 0 <= k < |attrs| && PermitFlaw(r, goodPeer, attrs[k]) != 0 {
      var j := FirstFlawed(r, goodPeer, attrs, k);
      assert FirstStop(r, goodPeer, attrs, j);
    }
  }

  lemma {:induction false} FirstFlawed(r: Relays, goodPeer: IoaAddr -> bool, attrs: seq<Attr>, k: nat) returns (j: nat)
    requires k < |attrs| && PermitFlaw(r, goodPeer, attrs[k]) != 0
    ensures j <= k && PermitFlaw(r, goodPeer, attrs[j]) != 0
    ensures forall i :: 0 <= i < j ==> PermitFlaw(r, goodPeer, attrs[i]) == 0
  {
    hide PermitFlaw;
    if i: nat :| i < k && PermitFlaw(r, goodPeer, attrs[i]) != 0 {
      j := FirstFlawed(r, goodPeer, attrs, i);
    } else {
      j := k;
    }
  }

  /** So each address of a request that is accepted is allowed and has a relay socket. */
  lemma PermitAccepted(r: Relays, attrs: seq<Attr>, goodPeer: IoaAddr -> bool)
    requires PermitAnswer(r, attrs, goodPeer, 0)
    ensures forall x | x in attrs && x.PeerAddress? ::
      goodPeer(x.addr) && if x.addr.Addr? && x.addr.ip.Ip6? then r.six else r.four
  {
    hide PermitAnswer, PermitFlaw;
    PermitErrorExactly(r, attrs, goodPeer, 0);
    forall x | x in attrs && x.PeerAddress?
      ensures goodPeer(x.addr) && if x.addr.Addr? && x.addr.ip.Ip6? then r.six else r.four
    {
      assert PermitFlaw(r, goodPeer, x) == 0;
      AddressFlawless(r, goodPeer, x);
    }
  }

  lemma AddressFlawless(r: Relays, goodPeer: IoaAddr -> bool, x: Attr)
    requires PermitFlaw(r, goodPeer, x) == 0 && x.PeerAddress?
    ensures goodPeer(x.addr) && if x.addr.Addr? && x.addr.ip.Ip6? then r.six else r.four
  {
  }

  /** The addresses a CreatePermission request grants: those that could be decoded. */
  function Granted(attrs: seq<Attr>): set<Ip> {
    set a | a in attrs && a.PeerAddress? && a.addr.Addr? :: a.addr.ip
  }

  /** An accepted request may still not permit every address it names: one that cannot be decoded passes as an IPv4
      address, and the permission made for it permits nothing. */
  lemma InertPermission(r: Relays, goodPeer: IoaAddr -> bool, st: State)
    requires r.four && goodPeer(NoAddr)
    ensures PermitAnswer(r, [PeerAddress(NoAddr)], goodPeer, 0)
    ensures Next(st, Permit(Granted([PeerAddress(NoAddr)]))) == st
  {
    var attrs := [PeerAddress(NoAddr)];
    assert attrs[0].PeerAddress?;
    assert st.permits + Granted(attrs) == st.permits;
  }

  /** The lookup of a permission finds every address the request names. */
  ghost predicate AllPermitted(g: Graph, attrs: seq<Attr>) {
    forall x :: x in attrs && x.PeerAddress? ==> !NoPermFor(g, x.addr)
  }

  /** Permissions in use for addresses that the request does not name are as they were. */
  ghost predicate SparedKept(perms: map<PermInfo, PermRec>, perms': map<PermInfo, PermRec>, attrs: seq<Attr>) {
    forall p | p in perms && perms[p].active ::
      (forall x :: x in attrs && x.PeerAddress? ==> !AddrEqNoPort(perms[p].addr, x.addr)) ==>
      p in perms' && perms'[p] == perms[p]
  }

  /** When what was granted is permitted, the lookup finds the addresses that could be decoded, and no others: every
      address is permitted exactly if all can be decoded. */
  lemma AllPermittedExactly(g: Graph, st: State, attrs: seq<Attr>)
    requires Means(g, st) && Granted(attrs) <= st.permits
    ensures forall x :: x in attrs && x.PeerAddress? ==> (!NoPermFor(g, x.addr) <==> x.addr.Addr?)
    ensures AllPermitted(g, attrs) <==> forall x :: x in attrs && x.PeerAddress? ==> x.addr.Addr?
  {
    forall x | x in attrs && x.PeerAddress? && x.addr.Addr? ensures !NoPermFor(g, x.addr) {
      assert x.addr.ip in Granted(attrs);
      var p :| p in g.perms && PermFor(g, p, x.addr.ip);
      assert AddrEqNoPort(g.perms[p].addr, x.addr);
    }
  }

  // ---------- Send indications ----------

  /** The peer address that counts: the last one. */
  function LastAddr(attrs: seq<Attr>): IoaAddr {
    if attrs == [] then NoAddr
    else
      var last := attrs[|attrs| - 1];
      if last.PeerAddress? then last.addr else LastAddr(attrs[..|attrs| - 1])
  }

  lemma {:induction false} LastAddrIs(attrs: seq<Attr>)
    ensures forall k, peer :: LastPeer(attrs, k, peer) ==> LastAddr(attrs) == peer
    ensures (forall k :: 0 <= k < |attrs| ==> !attrs[k].PeerAddress?) ==> LastAddr(attrs) == NoAddr
  {
    if attrs == [] {
    } else {
      var front := attrs[..|attrs| - 1];
      LastAddrIs(front);
      forall k, peer | LastPeer(attrs, k, peer) ensures LastAddr(attrs) == peer {
        assert k < |front| ==> LastPeer(front, k, peer);
      }
    }
  }

  /** A second DATA attribute, the first one of that kind that is met before too many attributes are unknown. */
  ghost predicate DataAgain(attrs: seq<Attr>, kind: Kind, j: int) {
    && 0 <= j < |attrs| && attrs[j] == Other(DATA) && Other(DATA) in attrs[..j]
    && |UnknownTypes(attrs[..j], kind)| < 128
  }

  /** The error code of a Send indication, 0 if there is none. */
  ghost predicate SendAnswer(attrs: seq<Attr>, kind: Kind, err: int) {
    if exists j :: DataAgain(attrs, kind, j) then err == 400
    else if exists i :: 0 <= i < |attrs| && Unknown(attrs[i], kind) then err == 420
    else err == if AddrAny(LastAddr(attrs)) || Other(DATA) !in attrs then 400 else 0
  }

  predicate OnlyData(attrs: seq<Attr>, i: int) {
    && 0 <= i < |attrs| && attrs[i] == Other(0x0013)
    && forall j :: 0 <= j < |attrs| && j != i ==> attrs[j] != Other(0x0013)
  }

  /** Nothing in a Send indication is unknown: DATA is known, and DONT-FRAGMENT where the server has it switched on. */
  predicate AllKnown(attrs: seq<Attr>, dontFragment: bool) {
    forall x :: x in attrs ==>
      match x
      case ChannelNumber(_) => false
      case Other(t) => t > 0x7FFF || t == 0x0013 || (t == 0x001A && dontFragment)
      case _ => true
  }

  lemma AllKnownIs(attrs: seq<Attr>, dontFragment: bool)
    ensures AllKnown(attrs, dontFragment)
      <==> forall i :: 0 <= i < |attrs| ==> !Unknown(attrs[i], ForSend(dontFragment))
  {
    forall i | 0 <= i < |attrs| ensures attrs[i] in attrs {}
  }

  /** A Send indication is not answered with an error exactly if nothing in it is unknown, it has one DATA attribute,
      and the last of its addresses could be decoded and is not all zero. How many addresses it has does not matter. */
  lemma SendAcceptedExactly(attrs: seq<Attr>, dontFragment: bool, err: int)
    requires SendAnswer(attrs, ForSend(dontFragment), err)
    ensures err == 0 <==>
      && AllKnown(attrs, dontFragment) && (exists i :: OnlyData(attrs, i))
      && LastAddr(attrs).Addr? && LastAddr(attrs) != Addr(Ip4([0, 0, 0, 0]), 0)
      && LastAddr(attrs) != Addr(Ip6([0, 0, 0, 0, 0, 0, 0, 0, 0, 0, 0, 0, 0, 0, 0, 0]), 0)
  {
    hide Unknown, AddrAny, LastAddr, AllKnown;
    var kind := ForSend(dontFragment);
    AllKnownIs(attrs, dontFragment);
    AddrAnyIs(LastAddr(attrs));
    if err == 0 {
      var i :| 0 <= i < |attrs| && attrs[i] == Other(DATA);
      forall j | 0 <= j < |attrs| && j != i ensures attrs[j] != Other(DATA) {
        if i < j {
          NotBoth(attrs, kind, i, j);
        } else {
          NotBoth(attrs, kind, j, i);
        }
      }
      assert OnlyData(attrs, i);
    } else if i :| OnlyData(attrs, i) {
      assert forall j :: !DataAgain(attrs, kind, j);
    }
  }

  lemma NotBoth(attrs: seq<Attr>, kind: Kind, i: nat, j: nat)
    requires i < j < |attrs| && !DataAgain(attrs, kind, j) && forall k :: 0 <= k < |attrs| ==> !Unknown(attrs[k], kind)
    ensures attrs[i] != Other(DATA) || attrs[j] != Other(DATA)
  {
    hide Unknown;
    UnknownTypesEmpty(attrs[..j], kind);
    assert attrs[..j][i] == attrs[i];
  }

  /** Otherwise it is 420 if something is unknown, and 400 if not; a second DATA attribute that is met before the 128th
      unknown one makes it 400 in any case. */
  lemma SendRefusedExactly(attrs: seq<Attr>, dontFragment: bool, err: int)
    requires SendAnswer(attrs, ForSend(dontFragment), err) && err != 0
    ensures err == if !AllKnown(attrs, dontFragment) && forall j :: !DataAgain(attrs, ForSend(dontFragment), j) then 420
      else 400
  {
    AllKnownIs(attrs, dontFragment);
    hide Unknown, AddrAny, LastAddr, AllKnown, DataAgain;
  }

  /** A second address takes the place of the first. */
  lemma SecondAddressTaken(first: IoaAddr, second: IoaAddr, dontFragment: bool)
    requires !AddrAny(second)
    ensures var attrs := [PeerAddress(first), PeerAddress(second), Other(DATA)];
      LastAddr(attrs) == second && SendAnswer(attrs, ForSend(dontFragment), 0)
  {
    var attrs := [PeerAddress(first), PeerAddress(second), Other(DATA)];
    LastAddrIs(attrs);
    assert LastPeer(attrs, 1, second);
    assert attrs[2] == Other(DATA);
    assert forall j :: !DataAgain(attrs, ForSend(dontFragment), j);
  }

  lemma {:induction false} UnknownGrows(attrs: seq<Attr>, kind: Kind, i: nat, j: nat)
    requires i <= j <= |attrs|
    ensures |UnknownTypes(attrs[..i], kind)| <= |UnknownTypes(attrs[..j], kind)|
  {
    if i == j {
    } else {
      UnknownGrows(attrs, kind, i, j - 1);
      assert attrs[..j][..j - 1] == attrs[..j - 1];
    }
  }

  lemma UnknownInPrefix(attrs: seq<Attr>, kind: Kind, read: nat)
    requires read <= |attrs| && UnknownTypes(attrs[..read], kind) != []
    ensures exists i :: 0 <= i < |attrs| && Unknown(attrs[i], kind)
  {
    UnknownTypesEmpty(attrs[..read], kind);
    var i :| 0 <= i < read && Unknown(attrs[..read][i], kind);
    assert attrs[i] == attrs[..read][i];
  }

  /** What was read decides the answer. */
  lemma SendReadAnswer(attrs: seq<Attr>, kind: Kind, err: int, data: bool, read: nat)
    requires read <= |attrs| && kind.ForSend?
    requires data <==> Other(DATA) in attrs[..read]
    requires err == 0 ==> forall j :: DataAgain(attrs, kind, j) ==> j >= read
    requires err != 0 ==> err == 400 && read > 0 && DataAgain(attrs, kind, read - 1)
    requires var unknown := |UnknownTypes(attrs[..read], kind)|;
      read == |attrs| || err != 0 || unknown == MAX_NUMBER_OF_UNKNOWN_ATTRS
    ensures SendAnswer(attrs, kind,
      if err != 0 then err
      else if UnknownTypes(attrs[..read], kind) != [] then 420
      else if AddrAny(LastAddr(attrs[..read])) || !data then 400 else 0)
    ensures err == 0 && UnknownTypes(attrs[..read], kind) == [] ==> attrs[..read] == attrs
  {
    hide Unknown, AddrAny, LastAddr;
    if err == 0 {
      forall j ensures !DataAgain(attrs, kind, j) {
        if DataAgain(attrs, kind, j) {
          UnknownGrows(attrs, kind, read, j);
        }
      }
      if UnknownTypes(attrs[..read], kind) != [] {
        UnknownInPrefix(attrs, kind, read);
      } else {
        assert attrs[..read] == attrs;
        UnknownTypesEmpty(attrs, kind);
      }
    }
  }

  /** The loop over the attributes of a Send indication. Its test for a second address never applies, as the number of
      addresses found is never counted. */
  method ReadSend(kind: Kind, attrs: seq<Attr>)
    returns (err: int, peer: IoaAddr, data: bool, unknown: seq<nat>, ghost read: nat)
    requires kind.ForSend?
    ensures read <= |attrs| && unknown == UnknownTypes(attrs[..read], kind) && peer == LastAddr(attrs[..read])
    ensures data <==> Other(DATA) in attrs[..read]
    ensures err == 0 ==> forall j :: DataAgain(attrs, kind, j) ==> j >= read
    ensures err != 0 ==> err == 400 && read > 0 && DataAgain(attrs, kind, read - 1)
    ensures read == |attrs| || err != 0 || |unknown| == MAX_NUMBER_OF_UNKNOWN_ATTRS
  {
    err, peer, data, unknown := 0, NoAddr, false, [];
    var i := 0;
    while i < |attrs| && err == 0 && |unknown| < MAX_NUMBER_OF_UNKNOWN_ATTRS
      invariant 0 <= i <= |attrs| && |unknown| <= MAX_NUMBER_OF_UNKNOWN_ATTRS
      invariant unknown == UnknownTypes(attrs[..i], kind) && peer == LastAddr(attrs[..i])
      invariant data <==> Other(DATA) in attrs[..i]
      invariant err == 0 ==> forall j :: DataAgain(attrs, kind, j) ==> j >= i
      invariant err != 0 ==> err == 400 && i > 0 && DataAgain(attrs, kind, i - 1)
    {
      assert attrs[..i + 1] == attrs[..i] + [attrs[i]] && attrs[..i + 1][..i] == attrs[..i];
      match attrs[i] {
        case Skipped =>
        case PeerAddress(addr) =>
          peer := addr;
        case ChannelNumber(_) =>
          unknown := unknown + [TypeOf(attrs[i])];
        case Other(t) =>
          if t == DATA {
            if data {
              err := 400;
            }
            data := true;
          } else if t == DONT_FRAGMENT {
            if !kind.dontFragment {
              unknown := unknown + [t];
            }
          } else if t <= 0x7FFF {
            unknown := unknown + [t];
          }
      }
      i := i + 1;
    }
    read := i;
  }

  lemma RunExtend(events: seq<Event>, states: seq<State>, e: Event)
    requires IsRun(events, states) && Enabled(states[|events|], e)
    ensures IsRun(events + [e], states + [Next(states[|events|], e)])
  {
  }

  /** A client session and its allocation, with the history of what has happened to it. */
  class Session {
    const a: Alloc.Allocation
    const goodPeer: IoaAddr -> bool   // good_peer_addr
    const serverRelay: bool
    var relays: Relays
    var isTcpRelay: bool
    var ctime: nat
    var permissionLifetime: nat
    var channelLifetime: nat
    ghost var events: seq<Event>
    ghost var states: seq<State>

    ghost predicate Valid()
      reads this, a, a.Repr
    {
      && a.Valid() && Armed(a.G()) && this !in a.Repr && IsRun(events, states) && states[|events|] == a.st
      && AllGood(events, goodPeer)
    }

    constructor (goodPeer: IoaAddr -> bool, serverRelay: bool, permissionLifetime: nat, channelLifetime: nat)
      ensures Valid() && events == [] && !a.isValid && fresh(a) && fresh(a.Repr)
      ensures this.goodPeer == goodPeer && this.serverRelay == serverRelay
    {
      a := new Alloc.Allocation();
      this.goodPeer, this.serverRelay := goodPeer, serverRelay;
      this.permissionLifetime, this.channelLifetime, ctime := permissionLifetime, channelLifetime, 0;
      relays, isTcpRelay := Relays(false, false), false;
      events, states := [], [EMPTY];
    }

    ghost method Log(e: Event)
      requires IsRun(events, states) && Enabled(states[|events|], e)
      requires AllGood(events, goodPeer) && GoodEvent(e, goodPeer)
      modifies this`events, this`states
      ensures IsRun(events, states) && events == old(events) + [e] && AllGood(events, goodPeer)
      ensures states[|events|] == Next(old(states)[|old(events)|], e)
    {
      RunExtend(events, states, e);
      states := states + [Next(states[|events|], e)];
      events := events + [e];
    }

    /** The channel and the permission of its peer got new timers since. */
    ghost predicate BothRenewed(n: nat, peer: Peer, since: nat)
      reads a
    {
      ChanRenewed(a.G(), n, since) && PermRenewed(a.perms, Addr(peer.ip, peer.port), since)
    }

    /** A permission for every address the request names, decoded or not, got a new timer since. */
    ghost predicate AllRenewed(attrs: seq<Attr>, since: nat)
      reads a
    {
      forall x :: x in attrs && x.PeerAddress? ==> PermRenewed(a.perms, x.addr, since)
    }

    /** The timers set since are to go off at this time. */
    ghost predicate NewTimersDue(since: nat, due: nat)
      reads a
    {
      forall id :: since < id <= a.lastTimer ==> id in a.dues && a.dues[id] == due
    }

    /** Every address that is permitted and every peer that is bound was allowed when that was granted. */
    lemma OnlyGood()
      requires Valid()
      ensures forall ip :: ip in a.st.permits ==> GoodIp(ip, goodPeer)
      ensures forall n :: n in a.st.channels ==> goodPeer(Addr(a.st.channels[n].ip, a.st.channels[n].port))
    {
      hide Alloc.Allocation.Valid, Armed, AllGood;
      GrantedWasGood(events, states, |events|, goodPeer);
    }

    /** handle_turn_channel_bind */
    method HandleChannelBind(attrs: seq<Attr>) returns (err: int, done: bool)
      requires Valid()
      modifies this`events, this`states, a, a.Repr
      ensures Valid() && fresh(a.Repr - old(a.Repr)) && a.isValid == old(a.isValid)
      ensures done <==> !isTcpRelay && a.isValid && err == 0
      ensures isTcpRelay ==> err == 403
      ensures !isTcpRelay && !a.isValid ==> err == 0
      ensures !isTcpRelay && a.isValid ==> BindAnswer(relays, attrs, old(a.st), goodPeer, err)
      ensures done ==> forall n, peer | BindRequest(relays, attrs, n, peer) ::
        events == old(events) + [Bind(n, PeerOf(peer))] && BothRenewed(n, PeerOf(peer), old(a.lastTimer))
        && if peer.Addr? && peer.ip.Ip6? then relays.six else relays.four
      ensures done ==> NewTimersDue(old(a.lastTimer), ctime + channelLifetime)
      ensures !done ==> a.st == old(a.st) && a.G() == old(a.G()) && events == old(events)
    {
      hide Alloc.Allocation.Valid, Armed, IsRun, BindAnswer, BindRead, BindRequest;
      err, done := 0, false;
      if isTcpRelay {
        err := 403;
      } else if a.isValid {
        var n, peer, found, unknown, read;
        err, n, peer, found, unknown, read := ReadBind(relays, attrs);
        ReadAnswer(relays, attrs, a.st, goodPeer, err, n, peer, found, unknown, read);
        if |unknown| > 0 {
          err := 420;
        } else if err != 0 {
        } else if n == 0 || AddrAny(peer) || !found {
          err := 400;
        } else if !ValidChannel(n) {
          err := 400;
        } else {
          err, done := BindChannel(n, peer);
          forall m, q | BindRequest(relays, attrs, m, q)
            ensures m == n && q == peer && if q.Addr? && q.ip.Ip6? then relays.six else relays.four
          {
            BindRequestUnique(relays, attrs, n, peer, m, q);
            PeerHasRelay(relays, attrs, m, q);
          }
        }
      }
    }

    /** The part of handle_turn_channel_bind that has a number and a peer. */
    method BindChannel(n: nat, peer: IoaAddr) returns (err: int, done: bool)
      requires Valid() && ValidChannel(n) && peer.Addr? && peer.port > 0
      modifies this`events, this`states, a, a.Repr
      ensures Valid() && fresh(a.Repr - old(a.Repr)) && a.isValid == old(a.isValid)
      ensures err == BindVerdict(old(a.st), n, peer, goodPeer(peer))
      ensures done <==> err == 0
      ensures done ==> events == old(events) + [Bind(n, PeerOf(peer))]
      ensures done ==> BothRenewed(n, PeerOf(peer), old(a.lastTimer))
      ensures done ==> NewTimersDue(old(a.lastTimer), ctime + channelLifetime)
      ensures !done ==> a.st == old(a.st) && a.G() == old(a.G()) && events == old(events)
    {
      hide Linked, Unique, TimersPoint, TimersLive, Means, Armed, ArmedBut, IsRun, ByPeer, ChanFor, PermitOwns, ChanRenewed, PermRenewed;
      hide AllGood, GoodIp;
      hide Alloc.Allocation.Owned, Alloc.Allocation.PermsShown, Alloc.Allocation.ChansShown, Alloc.Allocation.Placed;
      OnlyGood();
      err, done := 0, false;
      var c := a.GetChannel(n);
      a.NumberMeans(n, c);
      var p: PermInfo? := null;
      if c != null {
        if !AddrEq(peer, c.peerAddr) {
          err := 400;
        } else {
          p := c.owner;
          if p == null {
            err := 500;
          } else if !AddrEqNoPort(peer, p.addr) {
            err := 500;
          } else if c.port != GetPort(peer) {
            err := 500;
          }
        }
      } else {
        c := a.GetChannelByPeer(peer);
        a.PeerMeans(peer, c);
        if c != null {
          err := 400;
        } else if !goodPeer(peer) {
          err := 403;
        } else {
          c := a.NewChannel(n, peer);
          a.NumberMeans(n, c);
          p := c.owner;
          if p == null {
            err := 500;
          }
        }
      }
      if err == 0 && c != null && p != null {
        BindNext(old(a.st), a.st, n, peer);
        FinishBind(c, n, peer);
        done := true;
        Log(Bind(n, PeerOf(peer)));
      }
    }

    /** update_channel_lifetime for the channel that was found or made. */
    method FinishBind(c: ChInfo, n: nat, peer: IoaAddr)
      requires a.Valid() && this !in a.Repr && c in a.chans && ChanFor(a.G(), c, n) && peer.Addr?
      requires ArmedBut(a.G(), a.chans[c].owner, c) && PermitOwns(a.G(), c, peer.ip)
      modifies a`timers, a`lastTimer, a`dues, a`perms, a`chans, a.Repr
      ensures a.Valid() && Armed(a.G()) && BothRenewed(n, PeerOf(peer), old(a.lastTimer))
      ensures NewTimersDue(old(a.lastTimer), ctime + channelLifetime)
      ensures a.Repr == old(a.Repr) && a.isValid == old(a.isValid) && a.st == old(a.st)
    {
      hide Linked, Unique, TimersPoint, TimersLive, Means, Armed, ArmedBut;
      hide Alloc.Allocation.Owned, Alloc.Allocation.PermsShown, Alloc.Allocation.ChansShown, Alloc.Allocation.Placed;
      ghost var g := a.G();
      a.UpdateChannelLifetime(c, ctime + channelLifetime);
      ChannelRenewed(g, c, n, peer, a.lastTimer);
    }

    /** handle_turn_create_permission: a first pass that only checks, a second one that grants. */
    method HandleCreatePermission(attrs: seq<Attr>) returns (err: int, done: bool)
      requires Valid()
      modifies this`events, this`states, a, a.Repr
      ensures Valid() && fresh(a.Repr - old(a.Repr)) && a.isValid == old(a.isValid)
      ensures done <==> a.isValid && err == 0
      ensures a.isValid ==> PermitAnswer(relays, attrs, goodPeer, err)
      ensures !a.isValid ==> err == 0
      ensures done ==> events == old(events) + [Permit(Granted(attrs))]
      ensures done ==> AllRenewed(attrs, old(a.lastTimer)) && SparedKept(old(a.perms), a.perms, attrs)
      ensures done ==> forall x :: x in attrs && x.PeerAddress? ==> (!NoPermFor(a.G(), x.addr) <==> x.addr.Addr?)
      ensures done ==> NewTimersDue(old(a.lastTimer), ctime + permissionLifetime)
      ensures done ==> forall x | x in attrs && x.PeerAddress? ::
        goodPeer(x.addr) && if x.addr.Addr? && x.addr.ip.Ip6? then relays.six else relays.four
      ensures !done ==> a.st == old(a.st) && a.G() == old(a.G()) && events == old(events)
    {
      hide Alloc.Allocation.Valid, Armed, IsRun;
      err, done := 0, false;
      if a.isValid {
        var found, unknown;
        err, found, unknown := ReadPermit(relays, goodPeer, attrs);
        if |unknown| > 0 {
          err := 420;
        } else if err != 0 {
        } else if found == 0 {
          err := 400;
        } else {
          PermitAccepted(relays, attrs, goodPeer);
          GrantAll(attrs);
          a.ValidMeans();
          AllPermittedExactly(a.G(), a.st, attrs);
          done := true;
        }
      }
    }

    /** The second pass of handle_turn_create_permission. */
    method GrantAll(attrs: seq<Attr>)
      requires Valid() && forall x :: x in attrs && x.PeerAddress? ==> goodPeer(x.addr)
      modifies this`events, this`states, a, a.Repr
      ensures Valid() && fresh(a.Repr - old(a.Repr)) && a.isValid == old(a.isValid)
      ensures events == old(events) + [Permit(Granted(attrs))]
      ensures AllRenewed(attrs, old(a.lastTimer)) && SparedKept(old(a.perms), a.perms, attrs)
      ensures Granted(attrs) <= a.st.permits && NewTimersDue(old(a.lastTimer), ctime + permissionLifetime)
    {
      hide Alloc.Allocation.Valid, Armed, IsRun, AllGood, GoodEvent, Younger, OthersKept, PermRenewed;
      var i := 0;
      while i < |attrs|
        invariant 0 <= i <= |attrs| && fresh(a.Repr - old(a.Repr)) && a.isValid == old(a.isValid)
        invariant a.Valid() && Armed(a.G()) && this !in a.Repr && events == old(events) && states == old(states)
        invariant a.st == Next(old(a.st), Permit(Granted(attrs[..i]))) && a.lastTimer >= old(a.lastTimer)
        invariant AllRenewed(attrs[..i], old(a.lastTimer)) && SparedKept(old(a.perms), a.perms, attrs[..i])
        invariant NewTimersDue(old(a.lastTimer), ctime + permissionLifetime)
      {
        if attrs[i].PeerAddress? {
          ghost var perms, last := a.perms, a.lastTimer;
          a.UpdatePermission(SetPort(attrs[i].addr, 0), ctime + permissionLifetime, ctime + channelLifetime);
          StaysRenewed(perms, a.perms, last, old(a.lastTimer));
          RenewedLonger(a.perms, attrs[i].addr, last, old(a.lastTimer));
          SparedMore(old(a.perms), perms, a.perms, attrs, i);
        }
        GrantedMore(attrs, i);
        i := i + 1;
      }
      assert attrs[..i] == attrs;
      GrantedGood(attrs, goodPeer);
      Log(Permit(Granted(attrs)));
    }

    /** client_ss_perm_timeout_handler and client_ss_channel_timeout_handler */
    method OnTimer(id: nat)
      requires Valid() && id in a.timers
      modifies this`events, this`states, a, a.Repr
      ensures Valid() && a.Repr == old(a.Repr) && a.isValid == old(a.isValid)
      ensures id !in a.timers
      ensures TimersPoint(old(a.G())) && events == old(events) + Expiry(old(a.G()), id)
    {
      hide IsRun, Armed, Alloc.Allocation.Owned, Alloc.Allocation.PermsShown, Alloc.Allocation.ChansShown;
      hide Alloc.Allocation.Placed, Means, Linked, Unique, TimersLive, TimersPoint;
      TimerTarget(a.G(), id);
      match a.timers[id] {
        case PermTarget(p) =>
          a.ShowsPerm(p);
          if p.active {
            ghost var addr := a.perms[p].addr;
            a.CleanPermission(p);
            if addr.Addr? {
              Log(PermitExpires(addr.ip));
            }
          }
        case ChanTarget(c) =>
          ghost var n := a.chans[c].chnum;
          a.DeleteChannel(c);
          Log(ChannelExpires(n));
      }
    }

    /** write_to_peerchannel: where data goes that the client sends on a channel. */
    method WriteToPeerChannel(n: nat) returns (r: Forward)
      requires Valid()
      ensures r == if a.isValid then ClientData(a.st, n) else NoChannel
      ensures a.isValid ==> forall peer ::
        r == ToPeer(peer) <==> exists j :: BoundSince(events, j, |events|, n, peer)
      ensures r.ToPeer? ==> goodPeer(Addr(r.peer.ip, r.peer.port))
    {
      OnlyGood();
      BoundExactly(events, states, n);
      hide Alloc.Allocation.Owned, Alloc.Allocation.PermsShown, Alloc.Allocation.ChansShown, ClientData, BoundSince;
      hide IsRun, Armed, Means, Linked, Unique, TimersLive, TimersPoint, Alloc.Allocation.Placed, ChanFor;
      r := NoChannel;
      if a.isValid {
        var c := a.GetChannel(n);
        a.NumberMeans(n, c);
        ClientDataOf(a.st, n);
        if c != null {
          r := ToPeer(PeerOf(c.peerAddr));
        }
      }
    }

    /** handle_turn_send: the error code, and where the data goes; ttl is that of the packet. */
    method SendIndication(attrs: seq<Attr>, dontFragment: bool, ttl: nat) returns (err: int, to: IoaAddr)
      requires Valid()
      ensures isTcpRelay ==> err == 403
      ensures !isTcpRelay && (!a.isValid || ttl == 0) ==> err == 0
      ensures !isTcpRelay && a.isValid && ttl != 0 ==> SendAnswer(attrs, ForSend(dontFragment), err)
      ensures to == if !isTcpRelay && a.isValid && ttl != 0 && err == 0
                      && (serverRelay || LastAddr(attrs).ip in a.st.permits) then LastAddr(attrs) else NoAddr
      ensures to.Addr? && !serverRelay ==> GoodIp(to.ip, goodPeer)
    {
      hide IsRun, AllGood, GoodIp, SendAnswer, Armed, Means, Linked, Unique, TimersLive, TimersPoint;
      OnlyGood();
      err, to := 0, NoAddr;
      if isTcpRelay {
        err := 403;
      } else if a.isValid && ttl != 0 {
        var peer, data, unknown;
        ghost var read;
        err, peer, data, unknown, read := ReadSend(ForSend(dontFragment), attrs);
        SendReadAnswer(attrs, ForSend(dontFragment), err, data, read);
        if err != 0 {
        } else if |unknown| > 0 {
          err := 420;
        } else if !AddrAny(peer) && data {
          var p: PermInfo? := null;
          if !serverRelay {
            p := a.GetPermission(peer);
            a.PermissionMeans(peer, p);
          }
          if p != null || serverRelay {
            to := peer;
          }
        } else {
          err := 400;
        }
      }
    }

    /** peer_input_handler: how data from a peer reaches the client. */
    method PeerInput(from: IoaAddr) returns (r: Backward)
      requires Valid() && from.Addr?
      ensures a.isValid && !serverRelay ==> PeerData(a.st, PeerOf(from), r)
      ensures a.isValid && serverRelay ==>
        if exists n :: PeerData(a.st, PeerOf(from), OnChannel(n)) then PeerData(a.st, PeerOf(from), r)
        else r == AsIndication
      ensures !a.isValid ==> r == Refused
      ensures !serverRelay && !r.Refused? ==> exists j :: HeldSince(events, j, |events|, from.ip)
      ensures !serverRelay && !r.Refused? ==> GoodIp(from.ip, goodPeer)
    {
      hide Armed, Means, Linked, Unique, TimersLive, TimersPoint;
      OnlyGood();
      r := Refused;
      if a.isValid {
        var p := a.GetPermission(from);
        a.PermissionMeans(from, p);
        var n := 0;
        if p != null {
          n := a.ChannelNumberOf(p, from);
        } else if !serverRelay {
          return;
        }
        r := if n != 0 then OnChannel(n) else AsIndication;
        if !serverRelay {
          RelayedOnlyIfGranted(events, states, |events|, PeerOf(from), r);
        }
      }
    }

    lemma Apart()
      requires Valid()
      ensures this !in a.Repr
    {
    }

    lemma HasJustBound(n: nat, peer: Peer)
      requires Valid() && events != [] && events[|events| - 1] == Bind(n, peer)
      ensures ClientData(a.st, n) == ToPeer(peer) && PeerData(a.st, peer, OnChannel(n))
      ensures forall r :: PeerData(a.st, peer, r) ==> r == OnChannel(n)
    {
      hide Alloc.Allocation.Valid, IsRun, Armed;
      JustBound(events, states, n, peer);
    }

    /** What the client sends on channel n goes to a peer exactly if what that peer sends arrives on channel n; and this
        is so exactly if the lookup of the number and the lookup of the peer lead to one record. */
    lemma BothDirections(n: nat, from: IoaAddr, forward: Forward, backward: Backward)
      requires Valid() && from.Addr?
      requires forward == ClientData(a.st, n) && PeerData(a.st, PeerOf(from), backward)
      ensures forward == ToPeer(PeerOf(from)) <==> backward == OnChannel(n)
      ensures backward == OnChannel(n)
        <==> exists c :: c in a.chans && ChanFor(a.G(), c, n) && ByPeer(a.G(), from, c)
    {
      hide IsRun, Armed, Means, Linked, Unique, TimersLive, TimersPoint, ByPeer, ChanFor;
      MeansSafe(a.G(), a.st);
      DirectionsAgree(a.st, n, PeerOf(from));
      OneRecord(a.G(), a.st, n, from);
    }

    /** The relay sockets are there (handle_turn_allocate, its last step). */
    method Allocate(relays: Relays)
      requires Valid()
      modifies this`relays, a`isValid
      ensures Valid() && a.isValid && this.relays == relays && events == old(events) && a.G() == old(a.G())
    {
      this.relays := relays;
      a.isValid := true;
    }

    /** The session ends: clear_allocation. */
    method Clear()
      requires Valid()
      modifies this`events, this`states, a, a.Repr
      ensures Valid() && !a.isValid && a.timers == map[] && events == old(events) + [TurnSpec.Clear]
    {
      hide IsRun, Armed, Means, Linked, Unique, TimersLive, TimersPoint;
      a.Clear();
      Log(TurnSpec.Clear);
    }
  }

  lemma BoundExactly(events: seq<Event>, states: seq<State>, n: nat)
    requires IsRun(events, states)
    ensures forall peer ::
      ClientData(states[|events|], n) == ToPeer(peer) <==> exists j :: BoundSince(events, j, |events|, n, peer)
  {
    forall peer
      ensures ClientData(states[|events|], n) == ToPeer(peer) <==> exists j :: BoundSince(events, j, |events|, n, peer)
    {
      ChannelExactly(events, states, |events|, n, peer);
    }
  }

  lemma RenewedLonger(perms: map<PermInfo, PermRec>, addr: IoaAddr, since: nat, before: nat)
    requires before <= since && PermRenewed(perms, SetPort(addr, 0), since)
    ensures PermRenewed(perms, addr, before)
  {
    var p :| p in perms && RenewedBy(perms, p, SetPort(addr, 0), since);
    assert RenewedBy(perms, p, addr, before);
  }

  lemma SparedMore(perms: map<PermInfo, PermRec>, perms1: map<PermInfo, PermRec>, perms2: map<PermInfo, PermRec>,
      attrs: seq<Attr>, i: nat)
    requires i < |attrs| && attrs[i].PeerAddress?
    requires SparedKept(perms, perms1, attrs[..i]) && OthersKept(perms1, perms2, SetPort(attrs[i].addr, 0))
    ensures SparedKept(perms, perms2, attrs[..i + 1])
  {
    assert attrs[i] in attrs[..i + 1];
    assert forall x :: x in attrs[..i] ==> x in attrs[..i + 1];
  }

  lemma GrantedGood(attrs: seq<Attr>, goodPeer: IoaAddr -> bool)
    requires forall x :: x in attrs && x.PeerAddress? ==> goodPeer(x.addr)
    ensures GoodEvent(Permit(Granted(attrs)), goodPeer)
  {
    forall ip | ip in Granted(attrs) ensures GoodIp(ip, goodPeer) {
      var x :| x in attrs && x.PeerAddress? && x.addr.Addr? && x.addr.ip == ip;
      assert goodPeer(Addr(ip, x.addr.port));
    }
  }

  lemma GrantedMore(attrs: seq<Attr>, i: nat)
    requires i < |attrs|
    ensures Granted(attrs[..i + 1]) ==
      Granted(attrs[..i]) + if attrs[i].PeerAddress? && attrs[i].addr.Addr? then {attrs[i].addr.ip} else {}
  {
  }

  /** The first pass of handle_turn_create_permission. */
  method ReadPermit(r: Relays, goodPeer: IoaAddr -> bool, attrs: seq<Attr>)
    returns (err: int, found: nat, unknown: seq<nat>)
    ensures PermitAnswer(r, attrs, goodPeer,
      if |unknown| > 0 then 420 else if err != 0 then err else if found == 0 then 400 else 0)
  {
    err, found, unknown := 0, 0, [];
    var i := 0;
    ghost var stop := -1;
    while i < |attrs| && err == 0 && |unknown| < MAX_NUMBER_OF_UNKNOWN_ATTRS
      invariant 0 <= i <= |attrs| && |unknown| <= MAX_NUMBER_OF_UNKNOWN_ATTRS
      invariant stop == -1 ==> |unknown| == 0 && err == 0
      invariant stop == -1 ==> forall k :: 0 <= k < i ==> !Stops(r, goodPeer, attrs[k])
      invariant stop == -1 ==> (found == 0 <==> forall k :: 0 <= k < i ==> !attrs[k].PeerAddress?)
      invariant stop != -1 ==> FirstStop(r, goodPeer, attrs, stop)
      invariant stop != -1 ==> if Unknown(attrs[stop], ForPermit) then |unknown| > 0
                               else |unknown| == 0 && err == PermitCode(r, attrs[stop])
    {
      if stop == -1 && Stops(r, goodPeer, attrs[i]) {
        stop := i;
      }
      match attrs[i] {
        case Skipped =>
        case PeerAddress(addr) =>
          if !HasRelay(r, addr) {
            err := 443;
          } else if !goodPeer(addr) {
            err := 403;
          } else {
            found := found + 1;
          }
        case ChannelNumber(_) =>
          unknown := unknown + [TypeOf(attrs[i])];
        case Other(t) =>
          if t <= 0x7FFF {
            unknown := unknown + [t];
          }
      }
      i := i + 1;
    }
    assert forall j :: FirstStop(r, goodPeer, attrs, j) ==> stop == j;
  }

  lemma ChannelRenewed(g: Graph, c: ChInfo, n: nat, peer: IoaAddr, last: nat)
    requires c in g.chans && ChanFor(g, c, n) && peer.Addr? && PermitOwns(g, c, peer.ip) && last > 1
    ensures var g' := SetChanTimer(SetPermTimer(g, g.chans[c].owner, last - 1), c, last);
      ChanRenewed(g', n, last - 2) && PermRenewed(g'.perms, peer, last - 2)
  {
    var p := g.chans[c].owner;
    var g' := SetChanTimer(SetPermTimer(g, p, last - 1), c, last);
    assert RenewedBy(g'.perms, p, peer, last - 2);
    assert ChanFor(g', c, n);
  }

  lemma BindNext(st: State, st': State, n: nat, peer: IoaAddr)
    requires ValidChannel(n) && peer.Addr? && peer.port > 0
    requires if n in st.channels
      then st' == st && st.channels[n] == PeerOf(peer) && peer.ip in st.permits
      else st' == Next(st, Bind(n, PeerOf(peer))) && PeerOf(peer) !in st.channels.Values
    ensures Enabled(st, Bind(n, PeerOf(peer))) && st' == Next(st, Bind(n, PeerOf(peer)))
  {
  }
}
