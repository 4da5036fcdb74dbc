/** Addresses in attributes, plain and XORed (sections 15.1 and 15.2 of RFC 5389). */
module StunAddr {
  import opened Bytes
  import opened Options
  import opened IoaAddr
  import opened AddrMapping
  import opened StunMsg
  import opened StunBuild
  import opened StunAuth

  const XOR_PEER_ADDRESS := 0x0012
  const XOR_RELAYED_ADDRESS := 0x0016
  const XOR_MAPPED_ADDRESS := 0x0020

  predicate Xored(t: nat) {
    t == XOR_MAPPED_ADDRESS || t == XOR_PEER_ADDRESS || t == XOR_RELAYED_ADDRESS
  }

  function XorBytes(a: Data, mask: Data): (r: Data)
    requires |a| <= |mask|
    ensures |r| == |a|
  {
    seq(|a|, i requires 0 <= i < |a| => a[i] ^ mask[i])
  }

  lemma XorTwice(a: Data, mask: Data)
    requires |a| <= |mask|
    ensures XorBytes(XorBytes(a, mask), mask) == a
  {
  }

  /** What address bytes are combined with: cookie and transaction id, or nothing. */
  function Mask(xored: bool, tid: Data): (m: Data)
    requires |tid| == 12
    ensures |m| == 16
  {
    if xored then STUN_MAGIC_COOKIE + tid else Zeros(16)
  }

  function FamilyByte(ip: Ip): bv8 {
    if ip.Ip4? then 1 else 2
  }

  /** The field stun_addr_encode fills; an address without a family goes as 0.0.0.0, port 0. */
  function EncodeAddr(a: IoaAddr, xored: bool, tid: Data): Data
    requires |tid| == 12 && Is16(GetPort(a))
  {
    var ip := if a.Addr? then a.ip else Ip4([0, 0, 0, 0]);
    var mask := Mask(xored, tid);
    [0, FamilyByte(ip)] + XorBytes([Hi(GetPort(a)), Lo(GetPort(a))], mask) + XorBytes(IpBytes(ip), mask)
  }

  /** What stun_addr_decode makes of a field: of the right form and length, or nothing. */
  function DecodeAddr(f: Data, xored: bool, tid: Data): Option<IoaAddr>
    requires |tid| == 12
  {
    if |f| < 8 || f[0] != 0 then None
    else
      var mask := Mask(xored, tid);
      var port := XorBytes(f[2..4], mask);
      if f[1] == 1 && |f| == 8 then Some(Addr(Ip4(XorBytes(f[4..8], mask)), U16(port[0], port[1])))
      else if f[1] == 2 && |f| == 20 then Some(Addr(Ip6(XorBytes(f[4..20], mask)), U16(port[0], port[1])))
      else None
  }

  function Normal(a: IoaAddr): IoaAddr {
    if a.Addr? then a else Addr(Ip4([0, 0, 0, 0]), 0)
  }

  lemma DecodeEncode(a: IoaAddr, xored: bool, tid: Data)
    requires |tid| == 12 && Is16(GetPort(a))
    ensures DecodeAddr(EncodeAddr(a, xored, tid), xored, tid) == Some(Normal(a))
  {
    hide Hi, Lo, U16, Mask, XorBytes;
    var n := Normal(a);
    var port, mask := [Hi(n.port), Lo(n.port)], Mask(xored, tid);
    var f := EncodeAddr(a, xored, tid);
    XorTwice(port, mask);
    XorTwice(IpBytes(n.ip), mask);
    U16Back(n.port);
    assert f[2..4] == XorBytes(port, mask);
    assert f[4..] == XorBytes(IpBytes(n.ip), mask);
    assert XorBytes(f[2..4], mask) == port;
    assert f[4..|f|] == f[4..];
  }

  /** ... and every field that decodes is the encoding of its address. */
  lemma EncodeDecode(f: Data, xored: bool, tid: Data)
    requires |tid| == 12 && DecodeAddr(f, xored, tid).Some?
    ensures var a := DecodeAddr(f, xored, tid).value;
      a.Addr? && Is16(a.port) && EncodeAddr(a, xored, tid) == f
  {
    hide Hi, Lo, U16, Mask, XorBytes;
    var mask := Mask(xored, tid);
    var port := XorBytes(f[2..4], mask);
    var a := DecodeAddr(f, xored, tid).value;
    XorTwice(f[2..4], mask);
    XorTwice(f[4..], mask);
    HiBack(port[0], port[1]);
    LoBack(port[0], port[1]);
    assert [port[0], port[1]] == port;
    assert f[4..|f|] == f[4..];
    assert f == f[..2] + f[2..4] + f[4..];
    assert f[..2] == [0, FamilyByte(a.ip)];
  }

  /** The field byte by byte: family, port, address; XORed with the cookie, and for IPv6 with the transaction id after
      it, in XOR-PEER-ADDRESS, XOR-RELAYED-ADDRESS and XOR-MAPPED-ADDRESS, and plain in all other attributes. */
  lemma FieldBytes(a: IoaAddr, t: nat, tid: Data)
    requires |tid| == 12 && Is16(GetPort(a))
    ensures var f, hi, lo := EncodeAddr(a, Xored(t), tid), Hi(GetPort(a)), Lo(GetPort(a));
      if t != 0x0012 && t != 0x0016 && t != 0x0020 then
        match a
        case Addr(Ip4(v), _) => f == [0, 1, hi, lo] + v
        case Addr(Ip6(v), _) => f == [0, 2, hi, lo] + v
        case NoAddr => f == [0, 1, 0, 0, 0, 0, 0, 0]
      else
        match a
        case Addr(Ip4(v), _) =>
          f == [0, 1, hi ^ 0x21, lo ^ 0x12, v[0] ^ 0x21, v[1] ^ 0x12, v[2] ^ 0xA4, v[3] ^ 0x42]
        case Addr(Ip6(v), _) =>
          && f[..8] == [0, 2, hi ^ 0x21, lo ^ 0x12, v[0] ^ 0x21, v[1] ^ 0x12, v[2] ^ 0xA4, v[3] ^ 0x42]
          && |f| == 20 && forall i :: 0 <= i < 12 ==> f[8 + i] == v[4 + i] ^ tid[i]
        case NoAddr => f == [0, 1, 0x21, 0x12, 0x21, 0x12, 0xA4, 0x42]
  {
    hide Hi, Lo, XorBytes, Mask, EncodeAddr;
    ZeroPort();
    if Xored(t) {
      match a
      case Addr(Ip4(v), port) => XoredField4(a, v, tid);
      case Addr(Ip6(v), port) => XoredField6(a, v, tid);
      case NoAddr => XoredField4(a, [0, 0, 0, 0], tid);
    } else {
      PlainField(a, tid);
    }
  }

  lemma PlainField(a: IoaAddr, tid: Data)
    requires |tid| == 12 && Is16(GetPort(a))
    ensures EncodeAddr(a, false, tid) == [0, if a.Addr? && a.ip.Ip6? then 2 else 1, Hi(GetPort(a)), Lo(GetPort(a))]
      + if a.Addr? then IpBytes(a.ip) else [0, 0, 0, 0]
  {
    hide Hi, Lo, XorBytes, Zeros;
    XorNothing([Hi(GetPort(a)), Lo(GetPort(a))]);
    XorNothing(if a.Addr? then IpBytes(a.ip) else [0, 0, 0, 0]);
  }

  lemma CookieMask(tid: Data)
    requires |tid| == 12
    ensures var mask := Mask(true, tid);
      && mask[0] == 0x21 && mask[1] == 0x12 && mask[2] == 0xA4 && mask[3] == 0x42
      && forall i :: 0 <= i < 12 ==> mask[4 + i] == tid[i]
  {
  }

  lemma XoredField4(a: IoaAddr, v: Bytes4, tid: Data)
    requires |tid| == 12 && Is16(GetPort(a)) && a == if a.Addr? then Addr(Ip4(v), a.port) else NoAddr
    requires a.NoAddr? ==> v == [0, 0, 0, 0]
    ensures var hi, lo := Hi(GetPort(a)), Lo(GetPort(a));
      EncodeAddr(a, true, tid) == [0, 1, hi ^ 0x21, lo ^ 0x12, v[0] ^ 0x21, v[1] ^ 0x12, v[2] ^ 0xA4, v[3] ^ 0x42]
  {
    hide Hi, Lo, Mask, XorBytes;
    XoredBytes([Hi(GetPort(a)), Lo(GetPort(a))], v, tid);
    assert XorBytes(v, Mask(true, tid))[..4] == XorBytes(v, Mask(true, tid));
  }

  lemma XoredField6(a: IoaAddr, v: Bytes16, tid: Data)
    requires |tid| == 12 && Is16(GetPort(a)) && a.Addr? && a.ip == Ip6(v)
    ensures var f, hi, lo := EncodeAddr(a, true, tid), Hi(GetPort(a)), Lo(GetPort(a));
      && f[..8] == [0, 2, hi ^ 0x21, lo ^ 0x12, v[0] ^ 0x21, v[1] ^ 0x12, v[2] ^ 0xA4, v[3] ^ 0x42]
      && |f| == 20 && forall i :: 0 <= i < 12 ==> f[8 + i] == v[4 + i] ^ tid[i]
  {
    hide Hi, Lo, Mask, XorBytes;
    var f, mask := EncodeAddr(a, true, tid), Mask(true, tid);
    var x := XorBytes(v, mask);
    XoredBytes([Hi(a.port), Lo(a.port)], v, tid);
    assert f == [0, 2] + XorBytes([Hi(a.port), Lo(a.port)], mask) + x;
    assert f[..8] == [0, 2] + XorBytes([Hi(a.port), Lo(a.port)], mask) + x[..4];
    forall i | 0 <= i < 12 ensures f[8 + i] == v[4 + i] ^ tid[i] {
      assert f[8 + i] == x[4 + i];
    }
  }

  lemma XoredBytes(port: Data, v: Data, tid: Data)
    requires |port| == 2 && |tid| == 12 && 4 <= |v| <= 16
    ensures var mask := Mask(true, tid);
      && XorBytes(port, mask) == [port[0] ^ 0x21, port[1] ^ 0x12]
      && XorBytes(v, mask)[..4] == [v[0] ^ 0x21, v[1] ^ 0x12, v[2] ^ 0xA4, v[3] ^ 0x42]
      && forall i :: 0 <= i < |v| - 4 ==> XorBytes(v, mask)[4 + i] == v[4 + i] ^ tid[i]
  {
    hide Mask;
    CookieMask(tid);
  }

  lemma ZeroPort()
    ensures Hi(0) == 0 && Lo(0) == 0
  {
  }

  lemma XorNothing(src: Data)
    requires |src| <= 16
    ensures XorBytes(src, Zeros(16)) == src
  {
  }

  // ---------- the C functions ----------

  /** dst[i] = src[i] ^ mask[i], for part of a field. */
  method XorLoop(dst: array<bv8>, at: nat, src: Data, mask: Data)
    requires |src| <= |mask| && at + |src| <= dst.Length
    modifies dst
    ensures dst[..] == Patch(old(dst[..]), at, XorBytes(src, mask))
  {
    var i := 0;
    while i < |src|
      invariant 0 <= i <= |src|
      invariant forall k :: 0 <= k < dst.Length ==>
        dst[k] == if at <= k < at + i then src[k - at] ^ mask[k - at] else old(dst[k])
    {
      dst[at + i] := src[i] ^ mask[i];
      i := i + 1;
    }
  }

  /** stun_addr_encode into a field of 64 bytes; returns clen */
  method StunAddrEncode(a: IoaAddr, cfield: array<bv8>, xored: bool, tid: Data) returns (clen: nat)
    requires |tid| == 12 && Is16(GetPort(a)) && cfield.Length == 64
    modifies cfield
    ensures clen <= cfield.Length && cfield[..clen] == EncodeAddr(a, xored, tid)
  {
    hide Hi, Lo, XorBytes, Mask;
    var port := [Hi(GetPort(a)), Lo(GetPort(a))];
    var ip := if a.Addr? then a.ip else Ip4([0, 0, 0, 0]);
    var mask := Mask(xored, tid);
    cfield[0] := 0;
    cfield[1] := FamilyByte(ip);
    XorLoop(cfield, 2, port, mask);
    XorLoop(cfield, 4, IpBytes(ip), mask);
    clen := 4 + |IpBytes(ip)|;
    assert cfield[..clen] == cfield[..2] + cfield[2..4] + cfield[4..clen];
    assert cfield[..2] == [0, FamilyByte(ip)];
  }

  /** stun_tid_from_message_str */
  function Tid(b: Data): (tid: Data)
    requires |b| >= STUN_HEADER_LENGTH
    ensures |tid| == 12
  {
    b[8..20]
  }

  /** stun_attr_add_addr_str */
  method AddAddr(buf: array<bv8>, len: nat, t: nat, a: IoaAddr, map_: Mapping) returns (ok: bool, newLen: nat)
    requires len <= buf.Length && MAX_STUN_MESSAGE_SIZE <= buf.Length && Is16(t) && Is16(GetPort(a))
    requires CommandLen(buf[..len]) >= 0 && |map_.publicAddrs| == |map_.privateAddrs|
    modifies buf
    ensures var m := old(buf[..CommandLen(buf[..len])]);
      var shown := Mapped(map_.privateAddrs, map_.publicAddrs, a);
      && Is16(GetPort(shown))
      && var value := EncodeAddr(shown, Xored(t), Tid(m));
      && (ok <==> Fits(|m|, |value|))
      && (ok ==> newLen == NewLen(|m|, |value|) && newLen <= buf.Length && buf[..newLen] == Added(m, t, value))
    ensures !ok ==> newLen == len && buf[..] == old(buf[..])
  {
    hide CommandLen, EncodeAddr, Added, NewLen, Rounded;
    ghost var m := buf[..CommandLen(buf[..len])];
    var tid := buf[8..20];
    assert tid == Tid(m);
    var shown := map_.ToPublic(a);
    var cfield := new bv8[64];
    var clen := StunAddrEncode(shown, cfield, Xored(t), tid);
    ok, newLen := AddAttr(buf, len, t, cfield[..clen]);
  }

  /** stun_addr_decode */
  method StunAddrDecode(cfield: Data, xored: bool, tid: Data) returns (r: Option<IoaAddr>)
    requires |tid| == 12
    ensures r == DecodeAddr(cfield, xored, tid)
  {
    hide U16, XorBytes, Mask;
    if |cfield| < 8 || cfield[0] != 0 {
      return None;
    }
    var mask := Mask(xored, tid);
    var port := new bv8[2];
    XorLoop(port, 0, cfield[2..4], mask);
    assert port[..] == XorBytes(cfield[2..4], mask);
    if cfield[1] == 1 {
      if |cfield| != 8 {
        return None;
      }
      var ip := new bv8[4];
      XorLoop(ip, 0, cfield[4..8], mask);
      assert ip[..] == XorBytes(cfield[4..8], mask);
      return Some(Addr(Ip4(ip[..]), U16(port[..][0], port[..][1])));
    }
    if cfield[1] == 2 {
      if |cfield| != 20 {
        return None;
      }
      var ip := new bv8[16];
      XorLoop(ip, 0, cfield[4..20], mask);
      assert ip[..] == XorBytes(cfield[4..20], mask);
      return Some(Addr(Ip6(ip[..]), U16(port[..][0], port[..][1])));
    }
    return None;
  }

  /** addr_any_no_port */
  predicate AnyNoPort(a: IoaAddr) {
    a.NoAddr? || AllZero(IpBytes(a.ip))
  }

  /** The addresses without a family or with an all-zero IP, whatever the port. */
  lemma AnyNoPortIs(a: IoaAddr)
    ensures AnyNoPort(a) <==> AddrAny(SetPort(a, 0))
    ensures AnyNoPort(a) <==>
      || a.NoAddr? || a.ip == Ip4([0, 0, 0, 0])
      || a.ip == Ip6([0, 0, 0, 0, 0, 0, 0, 0, 0, 0, 0, 0, 0, 0, 0, 0])
  {
    AddrAnyIs(SetPort(a, 0));
  }

  /** What stun_attr_get_addr_str reads from the attribute at p; NoAddr if it cannot be decoded. A default address
      stands in for an all-zero IP. */
  function ReadAddr(b: Data, p: nat, pub: seq<IoaAddr>, priv: seq<IoaAddr>, standIn: IoaAddr): IoaAddr
    requires Inside(b, p) && |pub| == |priv|
  {
    var o := DecodeAddr(At(b, p).value, Xored(AttrType(b, p)), Tid(b));
    if o.None? then NoAddr
    else
      var ca := Mapped(pub, priv, o.value);
      if AnyNoPort(ca) && !AnyNoPort(standIn) then SetPort(standIn, GetPort(ca)) else ca
  }

  /** stun_attr_get_addr_str */
  method GetAddr(b: Data, p: nat, map_: Mapping, standIn: IoaAddr) returns (ok: bool, ca: IoaAddr)
    requires Inside(b, p) && |map_.publicAddrs| == |map_.privateAddrs|
    ensures ca == ReadAddr(b, p, map_.publicAddrs, map_.privateAddrs, standIn)
    ensures ok <==> DecodeAddr(At(b, p).value, Xored(AttrType(b, p)), Tid(b)).Some?
  {
    hide DecodeAddr, Mapped;
    ca := NoAddr;
    var o := StunAddrDecode(At(b, p).value, Xored(AttrType(b, p)), Tid(b));
    if o.None? {
      return false, ca;
    }
    ca := map_.ToPrivate(o.value);
    if AnyNoPort(ca) && !AnyNoPort(standIn) {
      ca := SetPort(standIn, GetPort(ca));
    }
    return true, ca;
  }

  /** The default stands in, with the port that was read, exactly if the address that was read has an all-zero IP and
      the default has not. */
  lemma StandInExactly(b: Data, p: nat, standIn: IoaAddr)
    requires Inside(b, p) && DecodeAddr(At(b, p).value, Xored(AttrType(b, p)), Tid(b)).Some?
    ensures var a := DecodeAddr(At(b, p).value, Xored(AttrType(b, p)), Tid(b)).value;
      var zero := a.ip == Ip4([0, 0, 0, 0]) || a.ip == Ip6([0, 0, 0, 0, 0, 0, 0, 0, 0, 0, 0, 0, 0, 0, 0, 0]);
      ReadAddr(b, p, [], [], standIn) ==
        if zero && standIn.Addr? && standIn.ip != Ip4([0, 0, 0, 0])
           && standIn.ip != Ip6([0, 0, 0, 0, 0, 0, 0, 0, 0, 0, 0, 0, 0, 0, 0, 0])
        then Addr(standIn.ip, a.port) else a
  {
    AnyNoPortIs(standIn);
    AnyNoPortIs(DecodeAddr(At(b, p).value, Xored(AttrType(b, p)), Tid(b)).value);
    hide AnyNoPort, At, Xored, Tid, Inside, AttrType, XorBytes, Mask, U16;
  }

  // ---------- there and back ----------

  lemma LastAt(m: Data, m': Data, t: nat, value: Data)
    requires |m| >= STUN_HEADER_LENGTH && Extends(m, m', t, value)
    ensures Inside(m', |m|) && At(m', |m|) == Attr(t, value) && Tid(m') == Tid(m)
  {
    hide U16, Rounded;
  }

  lemma ReadBack(m: Data, m': Data, t: nat, shown: IoaAddr, pub: seq<IoaAddr>, priv: seq<IoaAddr>)
    requires |m| >= STUN_HEADER_LENGTH && Is16(GetPort(shown)) && |pub| == |priv|
    requires Extends(m, m', t, EncodeAddr(shown, Xored(t), Tid(m)))
    ensures Inside(m', |m|) && ReadAddr(m', |m|, pub, priv, NoAddr) == Mapped(pub, priv, Normal(shown))
  {
    hide EncodeAddr, DecodeAddr, Mapped, CommandLen, Extends, Inside, AnyNoPort, Normal, AttrLen, AttrType, Tid, Xored;
    LastAt(m, m', t, EncodeAddr(shown, Xored(t), Tid(m)));
    DecodeEncode(shown, Xored(t), Tid(m));
    NoStandIn();
  }

  lemma NoStandIn()
    ensures AnyNoPort(NoAddr)
  {
  }

  /** Adding an address to a message and reading it back gives the same family, IP and port exactly if the mapping of
      public to private addresses takes it back; all kinds of address attribute, plain or XORed. */
  lemma AddressRoundTripExactly(m: Data, t: nat, a: IoaAddr, pub: seq<IoaAddr>, priv: seq<IoaAddr>)
    requires Tiled(m) && Is16(t) && a.Addr? && Is16(a.port)
    requires |pub| == |priv| && forall i :: 0 <= i < |pub| ==> pub[i].Addr? && priv[i].Addr?
    requires Fits(|m|, 20)
    ensures var shown := Mapped(priv, pub, a);
      && Is16(GetPort(shown))
      && var value := EncodeAddr(shown, Xored(t), Tid(m));
      && Fits(|m|, |value|)
      && var m' := Added(m, t, value);
      && Inside(m', |m|)
      && (ReadAddr(m', |m|, pub, priv, NoAddr) == a <==> ComesBack(pub, priv, a))
  {
    var shown := Mapped(priv, pub, a);
    assert shown.Addr? && shown.port == a.port;
    EncodedSize(shown, Xored(t), Tid(m));
    hide EncodeAddr, Added, ReadAddr, ComesBack, Mapped, Extends, Inside, TiledFrom, CommandLen;
    var value := EncodeAddr(shown, Xored(t), Tid(m));
    FitsSmaller(|m|, |value|);
    AddedExtends(m, t, value);
    ReadBack(m, Added(m, t, value), t, shown, pub, priv);
    MappedBackExactly(pub, priv, a);
  }

  lemma EncodedSize(a: IoaAddr, xored: bool, tid: Data)
    requires |tid| == 12 && Is16(GetPort(a))
    ensures |EncodeAddr(a, xored, tid)| == 8 || |EncodeAddr(a, xored, tid)| == 20
  {
  }

  lemma FitsSmaller(clen: nat, alen: nat)
    requires Fits(clen, 20) && alen <= 20
    ensures Fits(clen, alen)
  {
  }
}
