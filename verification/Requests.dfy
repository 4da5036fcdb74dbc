/** From the bytes of a request to what the handlers of the server see of it. */
module Requests {
  import opened Bytes
  import opened StunDefs
  import opened IoaAddr
  import opened AddrMapping
  import opened StunMsg
  import opened StunBuild
  import opened StunAuth
  import opened StunHeader
  import opened StunAddr
  import opened TurnSpec
  import opened TurnGraph
  import Server = TurnServer

  const CHANNEL_NUMBER := 0x000C
  const METHOD_CHANNEL_BIND: bv16 := 0x0009

  /** SKIP_ATTRIBUTES: PRIORITY, OAUTH-ACCESS-TOKEN, FINGERPRINT, MESSAGE-INTEGRITY, USERNAME, REALM, NONCE, ORIGIN */
  const SKIPPED: set<nat> := {0x0024, 0x001B, 0x8028, 0x0008, 0x0006, 0x0014, 0x0015, 0x802F}

  /** stun_attr_get_channel_number, before the test for a valid one. */
  function NumberIn(value: Data): nat {
    if |value| >= 2 then U16(value[0], value[1]) else 0
  }

  function AddrIn(value: Data, tid: Data, pub: seq<IoaAddr>, priv: seq<IoaAddr>): IoaAddr
    requires |tid| == 12 && |pub| == |priv|
  {
    var o := DecodeAddr(value, true, tid);
    if o.None? then NoAddr else Mapped(pub, priv, o.value)
  }

  /** The switch over the attribute type in the handlers. */
  function SeenAs(a: Attr, tid: Data, pub: seq<IoaAddr>, priv: seq<IoaAddr>): Server.Attr
    requires |tid| == 12 && |pub| == |priv|
  {
    if a.t in SKIPPED then Server.Skipped
    else if a.t == CHANNEL_NUMBER then Server.ChannelNumber(NumberIn(a.value))
    else if a.t == XOR_PEER_ADDRESS then Server.PeerAddress(AddrIn(a.value, tid, pub, priv))
    else Server.Other(a.t)
  }

  function AllSeen(attrs: seq<Attr>, tid: Data, pub: seq<IoaAddr>, priv: seq<IoaAddr>): (r: seq<Server.Attr>)
    requires |tid| == 12 && |pub| == |priv|
    ensures |r| == |attrs|
  {
    seq(|attrs|, i requires 0 <= i < |attrs| => SeenAs(attrs[i], tid, pub, priv))
  }

  function Request(b: Data, pub: seq<IoaAddr>, priv: seq<IoaAddr>): seq<Server.Attr>
    requires |pub| == |priv| && |b| >= STUN_HEADER_LENGTH
  {
    AllSeen(Attrs(b), Tid(b), pub, priv)
  }

  /** The attributes stun_set_channel_bind_request_str adds, and others the server skips (for authentication). */
  function BindAttrs(tid: Data, n: nat, peer: IoaAddr, others: seq<Attr>): seq<Attr>
    requires |tid| == 12 && ValidChannel(n) && Is16(GetPort(peer))
  {
    [Attr(CHANNEL_NUMBER, [Hi(n), Lo(n), 0, 0]), Attr(XOR_PEER_ADDRESS, EncodeAddr(peer, true, tid))] + others
  }

  /** A message put together from a fresh header and a list of attributes, read back. */
  lemma MessageRead(messageType: bv16, tid: Data, attrs: seq<Attr>)
    requires |tid| == 12 && Legal(attrs) && TotalLen(attrs) < MAX_STUN_MESSAGE_SIZE
    ensures var m := Build(InitCommand(messageType, tid), attrs);
      && Attrs(m) == attrs && Tid(m) == tid && |m| >= STUN_HEADER_LENGTH
      && TypeField(m[0], m[1]) == messageType & 0x3FFF
  {
    hide InitCommand, Build, TotalLen, CommandLen, IsCommand, Attrs, Tiled, Legal, TypeField;
    FreshHeader(messageType, tid);
    BuildAttrs(InitCommand(messageType, tid), attrs);
    BuiltHeader(InitCommand(messageType, tid), attrs);
    HeaderKept(InitCommand(messageType, tid), Build(InitCommand(messageType, tid), attrs));
  }

  /** A ChannelBind request has these first two bytes. */
  lemma BindType(hi: bv8, lo: bv8)
    requires TypeField(hi, lo) == MakeType(METHOD_CHANNEL_BIND) & 0x3FFF
    ensures hi == 0x00 && lo == 0x09
  {
  }

  /** What the handlers make of an attribute, by its number. */
  lemma SeenByNumber(a: Attr, tid: Data, pub: seq<IoaAddr>, priv: seq<IoaAddr>)
    requires |tid| == 12 && |pub| == |priv|
    ensures var seen := SeenAs(a, tid, pub, priv);
      if a.t == 0x000C then
        seen == Server.ChannelNumber(if |a.value| >= 2 then 256 * Val(a.value[0]) + Val(a.value[1]) else 0)
      else if a.t == 0x0012 then seen == Server.PeerAddress(AddrIn(a.value, tid, pub, priv))
      else if a.t == 0x0006 || a.t == 0x0008 || a.t == 0x0014 || a.t == 0x0015 || a.t == 0x001B || a.t == 0x0024
        || a.t == 0x8028 || a.t == 0x802F then seen == Server.Skipped
      else seen == Server.Other(a.t)
    ensures SeenAs(a, tid, pub, priv) != Server.Skipped ==> Server.TypeOf(SeenAs(a, tid, pub, priv)) == a.t
  {
    hide AddrIn;
  }

  lemma NumberSeen(n: nat, tid: Data, pub: seq<IoaAddr>, priv: seq<IoaAddr>)
    requires |tid| == 12 && |pub| == |priv| && Is16(n)
    ensures SeenAs(Attr(CHANNEL_NUMBER, [Hi(n), Lo(n), 0, 0]), tid, pub, priv) == Server.ChannelNumber(n)
  {
    hide Hi, Lo, U16;
    U16Back(n);
  }

  lemma AddrSeen(peer: IoaAddr, tid: Data, pub: seq<IoaAddr>, priv: seq<IoaAddr>)
    requires |tid| == 12 && |pub| == |priv| && peer.Addr? && Is16(peer.port)
    ensures SeenAs(Attr(XOR_PEER_ADDRESS, EncodeAddr(peer, true, tid)), tid, pub, priv)
      == Server.PeerAddress(Mapped(pub, priv, peer))
  {
    hide EncodeAddr, DecodeAddr, Mapped;
    DecodeEncode(peer, true, tid);
  }

  lemma BindAttrsSeen(tid: Data, n: nat, peer: IoaAddr, others: seq<Attr>, pub: seq<IoaAddr>, priv: seq<IoaAddr>)
    requires |tid| == 12 && |pub| == |priv| && ValidChannel(n) && peer.Addr? && Is16(peer.port)
    requires forall i :: 0 <= i < |others| ==> others[i].t in SKIPPED
    ensures var attrs := BindAttrs(tid, n, peer, others);
      var seen := AllSeen(attrs, tid, pub, priv);
      && Legal(attrs) && |seen| >= 2
      && seen[0] == Server.ChannelNumber(n) && seen[1] == Server.PeerAddress(Mapped(pub, priv, peer))
      && forall i :: 2 <= i < |seen| ==> seen[i] == Server.Skipped
  {
    hide Mapped, EncodeAddr, SeenAs, SKIPPED;
    NumberSeen(n, tid, pub, priv);
    AddrSeen(peer, tid, pub, priv);
    BindAttrsList(tid, n, peer, others);
    forall i | 0 <= i < |others| ensures SeenAs(others[i], tid, pub, priv) == Server.Skipped {
      SkippedSeen(others[i], tid, pub, priv);
    }
  }

  lemma SkippedSeen(a: Attr, tid: Data, pub: seq<IoaAddr>, priv: seq<IoaAddr>)
    requires |tid| == 12 && |pub| == |priv| && a.t in SKIPPED
    ensures SeenAs(a, tid, pub, priv) == Server.Skipped && Is16(a.t)
  {
  }

  lemma BindAttrsList(tid: Data, n: nat, peer: IoaAddr, others: seq<Attr>)
    requires |tid| == 12 && ValidChannel(n) && Is16(GetPort(peer))
    requires forall i :: 0 <= i < |others| ==> others[i].t in SKIPPED
    ensures var attrs := BindAttrs(tid, n, peer, others);
      && Legal(attrs) && |attrs| == 2 + |others|
      && attrs[0] == Attr(CHANNEL_NUMBER, [Hi(n), Lo(n), 0, 0])
      && attrs[1] == Attr(XOR_PEER_ADDRESS, EncodeAddr(peer, true, tid))
      && forall i {:trigger attrs[i]} :: 2 <= i < |attrs| ==> attrs[i] == others[i - 2]
  {
    hide EncodeAddr, Hi, Lo;
    forall i | 0 <= i < |others| ensures Is16(others[i].t) {
      SkippedSeen(others[i], tid, [], []);
    }
  }

  /** A ChannelBind request as a client builds it, with the peer as its own lists of addresses show it, is for the
      server a request to bind that number to the peer as the lists of the server show that. */
  lemma BindMessageSeen(tid: Data, n: nat, peer: IoaAddr, others: seq<Attr>, r: Server.Relays,
      clientPub: seq<IoaAddr>, clientPriv: seq<IoaAddr>, pub: seq<IoaAddr>, priv: seq<IoaAddr>)
    requires |tid| == 12 && |clientPub| == |clientPriv| && |pub| == |priv|
    requires ValidChannel(n) && peer.Addr? && 0 < peer.port && Is16(peer.port)
    requires forall i :: 0 <= i < |others| ==> others[i].t in SKIPPED
    requires var sent := Mapped(clientPriv, clientPub, peer);
      && sent.Addr? && Mapped(pub, priv, sent).Addr? && Server.HasRelay(r, Mapped(pub, priv, sent))
      && TotalLen(BindAttrs(tid, n, sent, others)) < MAX_STUN_MESSAGE_SIZE
    ensures var sent := Mapped(clientPriv, clientPub, peer);
      && Legal(BindAttrs(tid, n, sent, others))
      && var m := Build(InitCommand(MakeType(METHOD_CHANNEL_BIND), tid), BindAttrs(tid, n, sent, others));
      m[0] == 0x00 && m[1] == 0x09 && Server.BindRequest(r, Request(m, pub, priv), n, Mapped(pub, priv, sent))
  {
    MappedPort(clientPriv, clientPub, peer);
    SentMessageSeen(tid, n, Mapped(clientPriv, clientPub, peer), others, r, pub, priv);
  }

  lemma SentMessageSeen(tid: Data, n: nat, peer: IoaAddr, others: seq<Attr>, r: Server.Relays,
      pub: seq<IoaAddr>, priv: seq<IoaAddr>)
    requires |tid| == 12 && |pub| == |priv| && ValidChannel(n) && peer.Addr? && 0 < peer.port && Is16(peer.port)
    requires forall i :: 0 <= i < |others| ==> others[i].t in SKIPPED
    requires TotalLen(BindAttrs(tid, n, peer, others)) < MAX_STUN_MESSAGE_SIZE
    requires Mapped(pub, priv, peer).Addr? && Server.HasRelay(r, Mapped(pub, priv, peer))
    ensures Legal(BindAttrs(tid, n, peer, others))
    ensures var m := Build(InitCommand(MakeType(METHOD_CHANNEL_BIND), tid), BindAttrs(tid, n, peer, others));
      m[0] == 0x00 && m[1] == 0x09 && Server.BindRequest(r, Request(m, pub, priv), n, Mapped(pub, priv, peer))
  {
    BindAttrsSeen(tid, n, peer, others, pub, priv);
    MappedPort(pub, priv, peer);
    hide InitCommand, MakeType, Build, TotalLen, Attrs, Mapped, BindAttrs, AllSeen, Tid, Legal, Server.BindRequest;
    hide TypeField;
    MessageRead(MakeType(METHOD_CHANNEL_BIND), tid, BindAttrs(tid, n, peer, others));
    var m := Build(InitCommand(MakeType(METHOD_CHANNEL_BIND), tid), BindAttrs(tid, n, peer, others));
    BindType(m[0], m[1]);
    BindSeen(AllSeen(BindAttrs(tid, n, peer, others), tid, pub, priv), r, n, Mapped(pub, priv, peer));
  }

  lemma MappedPort(from: seq<IoaAddr>, to: seq<IoaAddr>, a: IoaAddr)
    requires |from| == |to| && Mapped(from, to, a).Addr? && a.Addr?
    ensures Mapped(from, to, a).port == a.port
  {
  }

  lemma BindSeen(seen: seq<Server.Attr>, r: Server.Relays, n: nat, peer: IoaAddr)
    requires |seen| >= 2 && seen[0] == Server.ChannelNumber(n) && seen[1] == Server.PeerAddress(peer)
    requires forall i :: 2 <= i < |seen| ==> seen[i] == Server.Skipped
    requires ValidChannel(n) && peer.Addr? && peer.port > 0 && Server.HasRelay(r, peer)
    ensures Server.BindRequest(r, seen, n, peer)
  {
    assert Server.LastPeer(seen, 1, peer);
  }

  // ---------- which addresses of a CreatePermission request are permitted ----------

  /** A field of the form of an IPv4 or IPv6 address. */
  predicate AddrField(f: Data) {
    |f| >= 8 && f[0] == 0 && ((f[1] == 1 && |f| == 8) || (f[1] == 2 && |f| == 20))
  }

  predicate NamesPeer(b: Data, i: int)
    requires |b| >= STUN_HEADER_LENGTH
  {
    0 <= i < |Attrs(b)| && Attrs(b)[i].t == XOR_PEER_ADDRESS
  }

  lemma SeenAddr(a: Attr, tid: Data, pub: seq<IoaAddr>, priv: seq<IoaAddr>)
    requires |tid| == 12 && |pub| == |priv| && forall k :: 0 <= k < |priv| ==> priv[k].Addr?
    ensures SeenAs(a, tid, pub, priv).PeerAddress? <==> a.t == XOR_PEER_ADDRESS
    ensures a.t == XOR_PEER_ADDRESS ==> SeenAs(a, tid, pub, priv) == Server.PeerAddress(AddrIn(a.value, tid, pub, priv))
    ensures AddrIn(a.value, tid, pub, priv).Addr? <==> AddrField(a.value)
  {
    hide XorBytes, Mask;
  }

  /** When a request was granted, the addresses it names are permitted exactly as far as the fields in its bytes have
      the form of an address; the handler does not look whether they have. */
  lemma FieldsPermittedExactly(b: Data, pub: seq<IoaAddr>, priv: seq<IoaAddr>, g: Graph, st: State)
    requires |b| >= STUN_HEADER_LENGTH && |pub| == |priv| && forall k :: 0 <= k < |priv| ==> priv[k].Addr?
    requires Means(g, st) && Server.Granted(Request(b, pub, priv)) <= st.permits
    ensures forall i | NamesPeer(b, i) :: var value := Attrs(b)[i].value;
      !NoPermFor(g, AddrIn(value, Tid(b), pub, priv)) <==> AddrField(value)
    ensures Server.AllPermitted(g, Request(b, pub, priv))
      <==> forall i :: NamesPeer(b, i) ==> AddrField(Attrs(b)[i].value)
  {
    hide Attrs, Tid, Means, SKIPPED, NoPermFor, AddrField, AddrIn, SeenAs;
    var attrs, seen := Attrs(b), Request(b, pub, priv);
    Server.AllPermittedExactly(g, st, seen);
    forall i | 0 <= i < |attrs|
      ensures seen[i].PeerAddress? <==> NamesPeer(b, i)
      ensures NamesPeer(b, i) ==> seen[i].addr == AddrIn(attrs[i].value, Tid(b), pub, priv)
      ensures NamesPeer(b, i) ==> (!NoPermFor(g, seen[i].addr) <==> AddrField(attrs[i].value))
    {
      SeenAddr(attrs[i], Tid(b), pub, priv);
      assert seen[i] in seen;
    }
  }
}
