/** A client binds a channel and exchanges data with the peer: codec, framing, request handler and data path
    together. */
module EndToEnd {
  import opened Bytes
  import opened Options
  import opened StunDefs
  import opened IoaAddr
  import opened AddrMapping
  import opened StunMsg
  import opened StunBuild
  import opened StunHeader
  import opened Framing
  import opened Http
  import opened TurnSpec
  import opened TurnGraph
  import opened Requests
  import Server = TurnServer

  /** The address lists of the client and of the server. */
  datatype Lists = Lists(clientPub: seq<IoaAddr>, clientPriv: seq<IoaAddr>, pub: seq<IoaAddr>, priv: seq<IoaAddr>)

  predicate Paired(lists: Lists) {
    |lists.clientPub| == |lists.clientPriv| && |lists.pub| == |lists.priv|
  }

  /** The peer as the client writes it, and as the server reads it. */
  function Sent(lists: Lists, peer: IoaAddr): IoaAddr
    requires Paired(lists)
  {
    Mapped(lists.clientPriv, lists.clientPub, peer)
  }

  function Seen(lists: Lists, peer: IoaAddr): IoaAddr
    requires Paired(lists)
  {
    Mapped(lists.pub, lists.priv, Sent(lists, peer))
  }

  /** What a client needs for a ChannelBind request. */
  ghost predicate Bindings(r: Server.Relays, tid: Data, n: nat, peer: IoaAddr, others: seq<Attr>, lists: Lists) {
    && |tid| == 12 && Paired(lists) && ValidChannel(n) && peer.Addr? && 0 < peer.port && Is16(peer.port)
    && (forall i :: 0 <= i < |others| ==> others[i].t in SKIPPED)
    && Sent(lists, peer).Addr? && Seen(lists, peer).Addr? && Server.HasRelay(r, Seen(lists, peer))
    && Is16(GetPort(Sent(lists, peer)))
    && TotalLen(BindAttrs(tid, n, Sent(lists, peer), others)) < MAX_STUN_MESSAGE_SIZE
  }

  lemma BindingsLegal(r: Server.Relays, tid: Data, n: nat, peer: IoaAddr, others: seq<Attr>, lists: Lists)
    requires Bindings(r, tid, n, peer, others, lists)
    ensures Legal(BindAttrs(tid, n, Sent(lists, peer), others))
  {
    hide TotalLen, Mapped;
    BindAttrsList(tid, n, Sent(lists, peer), others);
  }

  function BindMessage(tid: Data, n: nat, sent: IoaAddr, others: seq<Attr>): (m: Data)
    requires |tid| == 12 && ValidChannel(n) && Is16(GetPort(sent)) && Legal(BindAttrs(tid, n, sent, others))
    requires TotalLen(BindAttrs(tid, n, sent, others)) < MAX_STUN_MESSAGE_SIZE
    ensures |m| >= STUN_HEADER_LENGTH
  {
    Build(InitCommand(MakeType(METHOD_CHANNEL_BIND), tid), BindAttrs(tid, n, sent, others))
  }

  /** The answer to a request for this number and peer, in terms of the state. */
  lemma AnswerIs(r: Server.Relays, attrs: seq<Server.Attr>, st: State, goodPeer: IoaAddr -> bool, err: int, n: nat,
      peer: IoaAddr)
    requires Server.BindAnswer(r, attrs, st, goodPeer, err) && Server.BindRequest(r, attrs, n, peer)
    ensures err == 0 <==> Bindable(st, n, PeerOf(peer)) && (n in st.channels || goodPeer(peer))
  {
    hide Server.BindAnswer, Server.BindRequest, Bindable;
    Server.BindAcceptedExactly(r, attrs, st, goodPeer, err);
    forall m, q | Server.BindRequest(r, attrs, m, q) ensures m == n && q == peer {
      Server.BindRequestUnique(r, attrs, n, peer, m, q);
    }
  }

  /** socket_input_worker and read_client_connection on a stream, for ChannelData: cut off the first message, drop its
      padding, read the number, send the data on. */
  method FromClient(s: Server.Session, stream: Data) returns (forward: Forward, data: Data)
    requires s.Valid() && s.a.isValid
    ensures var l := MessageLen(stream, true);
      if s.isTcpRelay || l.Incomplete? || l.len == 0 then forward == NoChannel
      else
        l.appLen <= |stream| &&
        var d := IsChannelMessage(stream[..l.appLen], true);
        if d.Some? then 4 <= d.value.len <= |stream| && forward == ClientData(s.a.st, d.value.n)
          && data == stream[4..d.value.len]
        else forward == NoChannel
  {
    hide Server.Session.Valid, IsChannelMessage, MessageLen;
    forward, data := NoChannel, [];
    var l := MessageLen(stream, true);
    if l.Length? && l.len > 0 {
      AppLenInside(stream);
      var d := IsChannelMessage(stream[..l.appLen], true);
      if d.Some? && !s.isTcpRelay {
        ChannelInside(stream[..l.appLen], true);
        data := stream[4..d.value.len];
        forward := s.WriteToPeerChannel(d.value.n);
      }
    }
  }

  lemma AppLenInside(b: Data)
    requires MessageLen(b, true).Length? && MessageLen(b, true).len > 0
    ensures MessageLen(b, true).appLen <= MessageLen(b, true).len <= |b|
  {
    hide HttpLength, StunStart, U16;
  }

  lemma ChannelInside(b: Data, padding: bool)
    requires IsChannelMessage(b, padding).Some?
    ensures 4 <= IsChannelMessage(b, padding).value.len <= |b|
  {
  }

  /** peer_input_handler for a peer with a channel: the data that stands behind the room for the header goes to the
      client as a frame. The client finds it at the front of its stream, unless it makes a request there, and reads the
      channel and the data. */
  method Forwarded(buf: array<bv8>, n: nat, length: nat, padding: bool) returns (ok: bool, len: nat)
    requires ValidChannel(n) && 4 + (if padding then Rounded(length) else length) <= buf.Length
    modifies buf
    ensures ok <==> 4 + length <= MAX_STUN_MESSAGE_SIZE
    ensures ok ==> len <= buf.Length && buf[4..4 + length] == old(buf[4..4 + length])
    ensures ok ==> IsChannelMessage(buf[..len], padding) == Some(ChannelData(n, 4 + length))
    ensures ok ==> forall tail: Data :: !TakenForHttp(buf[..len] + tail) ==>
      MessageLen(buf[..len] + tail, padding) == Length(len, 4 + length)
  {
    hide ChannelHeader, Patch, IsChannelMessage, MessageLen, TakenForHttp, Rounded;
    ok, len := InitChannelMessage(buf, n, length, padding);
    if ok {
      HeaderInFront(old(buf[..]), n, length);
      assert buf[..][..4] == buf[..4] && buf[..][4..4 + length] == buf[4..4 + length];
      assert buf[..len] == buf[..4] + buf[4..4 + length] + buf[4 + length..len];
      FrameRead(Channel(n, buf[4..4 + length], buf[4 + length..len]), padding);
    }
  }

  lemma FrameRead(f: Frame, padding: bool)
    requires Wire(f, padding) && f.Channel?
    ensures IsChannelMessage(Encode(f, padding), padding) == Some(ChannelData(f.n, 4 + |f.data|))
    ensures forall tail: Data | !TakenForHttp(Encode(f, padding) + tail) ::
      MessageLen(Encode(f, padding) + tail, padding) == Length(|Encode(f, padding)|, 4 + |f.data|)
  {
    hide ChannelHeader, IsChannelMessage, MessageLen, TakenForHttp, HttpLength, Rounded;
    ChannelDecoded(f, padding);
    forall tail: Data | !TakenForHttp(Encode(f, padding) + tail)
      ensures MessageLen(Encode(f, padding) + tail, padding) == Length(|Encode(f, padding)|, 4 + |f.data|)
    {
      FrameFoundExactly(f, padding, tail);
    }
  }

  lemma HeaderInFront(b: Data, n: nat, length: nat)
    requires Is16(n) && Is16(length) && 4 + length <= |b|
    ensures var b' := Patch(b, 0, ChannelHeader(n, length));
      b'[..4] == ChannelHeader(n, length) && b'[4..4 + length] == b[4..4 + length]
  {
    hide ChannelHeader;
  }

  /** Over a stream: the bytes of a ChannelBind request reach the server, which accepts it exactly if number and peer
      can be bound together and a new binding is to an address it allows. Then the data in a frame of the client goes to
      this peer, unless the frame makes a request, and data of the peer arrives in a frame with this number. */
  method BindAndExchange(s: Server.Session, tid: Data, n: nat, peer: IoaAddr, others: seq<Attr>, lists: Lists, f: Frame,
      tail: Data, buf: array<bv8>, length: nat)
    returns (done: bool, forward: Forward, data: Data, backward: Backward, len: nat)
    requires s.Valid() && s.a.isValid && !s.isTcpRelay && Bindings(s.relays, tid, n, peer, others, lists)
    requires Wire(f, true) && f.Channel? && f.n == n && !TakenForHttp(Encode(f, true) + tail)
    requires buf !in s.a.Repr && 4 + length <= MAX_STUN_MESSAGE_SIZE && 4 + Rounded(length) <= buf.Length
    modifies s`events, s`states, s.a, s.a.Repr, buf
    ensures s.Valid()
    ensures var seen := Seen(lists, peer);
      && (done <==> Bindable(old(s.a.st), n, PeerOf(seen)) && (n in old(s.a.st).channels || s.goodPeer(seen)))
      && (done ==> forward == ToPeer(PeerOf(seen)) && data == f.data && backward == OnChannel(n))
    ensures done ==> len <= buf.Length && IsChannelMessage(buf[..len], true) == Some(ChannelData(n, 4 + length))
    ensures done ==> buf[4..4 + length] == old(buf[4..4 + length])
    ensures !done ==> s.events == old(s.events) && buf[..] == old(buf[..])
  {
    hide Server.Session.Valid, Server.BindAnswer, Server.BindRequest, Bindable, TotalLen, Build, BindAttrs, Mapped, Legal;
    hide Requests.Request, Wire, IsChannelMessage, Encode, InitCommand, MakeType, MessageLen, TakenForHttp, Rounded;
    var sent, seen := Sent(lists, peer), Seen(lists, peer);
    BindingsLegal(s.relays, tid, n, peer, others, lists);
    var attrs := Requests.Request(BindMessage(tid, n, sent, others), lists.pub, lists.priv);
    BindMessageSeen(tid, n, peer, others, s.relays, lists.clientPub, lists.clientPriv, lists.pub, lists.priv);
    s.Apart();
    var err;
    err, done := s.HandleChannelBind(attrs);
    AnswerIs(s.relays, attrs, old(s.a.st), s.goodPeer, err, n, seen);
    forward, data, backward, len := NoChannel, [], Refused, 0;
    if done {
      s.HasJustBound(n, PeerOf(seen));
      FrontDecoded(f, tail);
      forward, data := FromClient(s, Encode(f, true) + tail);
      backward := s.PeerInput(seen);
      var ok;
      ok, len := Forwarded(buf, backward.n, length, true);
    }
  }

  lemma FrontDecoded(f: Frame, tail: Data)
    requires Wire(f, true) && f.Channel? && !TakenForHttp(Encode(f, true) + tail)
    ensures var b, whole := Encode(f, true) + tail, 4 + |f.data|;
      && whole <= |Encode(f, true)| && MessageLen(b, true) == Length(|Encode(f, true)|, whole)
      && IsChannelMessage(b[..whole], true) == Some(ChannelData(f.n, whole)) && b[4..whole] == f.data
  {
    hide MessageLen, TakenForHttp, HttpLength, IsChannelMessage, Rounded, ChannelHeader;
    var e, whole := Encode(f, true), 4 + |f.data|;
    FrameFoundExactly(f, true, tail);
    assert (e + tail)[..whole] == ChannelHeader(f.n, |f.data|) + f.data;
    ExactDecoded(f.n, f.data);
    assert (e + tail)[4..whole] == f.data;
  }

  lemma ExactDecoded(n: nat, data: Data)
    requires ValidChannel(n) && 4 + |data| <= MAX_STUN_MESSAGE_SIZE
    ensures IsChannelMessage(ChannelHeader(n, |data|) + data, true) == Some(ChannelData(n, 4 + |data|))
  {
    hide ChannelHeader, U16, IsChannelMessage;
    var b := ChannelHeader(n, |data|) + data;
    HeaderRead(n, |data|, b);
    ChannelAcceptedExactly(b, true);
    ChannelTaken(b);
  }
}
