/** The table of public and private addresses of a server behind a NAT (ns_turn_ioaddr.c). */
module AddrMapping {
  import opened IoaAddr

  /** The first address with the same IP, or the number of addresses. */
  function FirstIp(addrs: seq<IoaAddr>, a: IoaAddr): (i: nat)
    ensures i <= |addrs| && (i < |addrs| ==> AddrEqNoPort(a, addrs[i]))
    ensures forall j :: 0 <= j < i ==> !AddrEqNoPort(a, addrs[j])
  {
    if addrs == [] || AddrEqNoPort(a, addrs[0]) then 0 else 1 + FirstIp(addrs[1..], a)
  }

  /** An address with its IP looked up in one list and replaced from the other. */
  function Mapped(from: seq<IoaAddr>, to: seq<IoaAddr>, a: IoaAddr): IoaAddr
    requires |from| == |to|
  {
    var i := FirstIp(from, a);
    if i < |from| then SetPort(to[i], GetPort(a)) else a
  }

  class Mapping {
    var publicAddrs: seq<IoaAddr>
    var privateAddrs: seq<IoaAddr>

    constructor ()
      ensures publicAddrs == [] && privateAddrs == []
    {
      publicAddrs, privateAddrs := [], [];
    }

    /** ioa_addr_add_mapping */
    method Add(pub: IoaAddr, priv: IoaAddr)
      modifies this
      ensures publicAddrs == old(publicAddrs) + [pub] && privateAddrs == old(privateAddrs) + [priv]
    {
      publicAddrs, privateAddrs := publicAddrs + [pub], privateAddrs + [priv];
    }

    /** map_addr_from_public_to_private */
    method ToPrivate(a: IoaAddr) returns (r: IoaAddr)
      requires |publicAddrs| == |privateAddrs|
      ensures r == Mapped(publicAddrs, privateAddrs, a)
    {
      r := Lookup(publicAddrs, privateAddrs, a);
    }

    /** map_addr_from_private_to_public */
    method ToPublic(a: IoaAddr) returns (r: IoaAddr)
      requires |publicAddrs| == |privateAddrs|
      ensures r == Mapped(privateAddrs, publicAddrs, a)
    {
      r := Lookup(privateAddrs, publicAddrs, a);
    }
  }

  /** The loop of both map functions. */
  method Lookup(from: seq<IoaAddr>, to: seq<IoaAddr>, a: IoaAddr) returns (r: IoaAddr)
    requires |from| == |to|
    ensures r == Mapped(from, to, a)
  {
    var i := 0;
    while i < |from|
      invariant 0 <= i <= |from| && forall j :: 0 <= j < i ==> !AddrEqNoPort(a, from[j])
    {
      if AddrEqNoPort(a, from[i]) {
        return SetPort(to[i], GetPort(a));
      }
      i := i + 1;
    }
    return a;
  }

  /** A private address comes back from the public one it is shown as exactly if it is listed, and the first entry with
      its public IP has its own IP; or if it is not listed at all. */
  ghost predicate ComesBack(pub: seq<IoaAddr>, priv: seq<IoaAddr>, a: IoaAddr)
    requires |pub| == |priv|
  {
    var i := FirstIp(priv, a);
    if i < |priv| then
      var j := FirstIp(pub, pub[i]);
      j < |pub| && AddrEqNoPort(priv[j], a)
    else FirstIp(pub, a) == |pub|
  }

  lemma MappedBackExactly(pub: seq<IoaAddr>, priv: seq<IoaAddr>, a: IoaAddr)
    requires |pub| == |priv|
    ensures Mapped(pub, priv, Mapped(priv, pub, a)) == a <==> ComesBack(pub, priv, a)
  {
  }

  /** Two private addresses behind one public address: the second comes back as the first. */
  lemma SecondLost(p: Ip, q: Ip, shown: Ip, port: nat)
    requires p != q
    ensures var pub, priv := [Addr(shown, 0), Addr(shown, 0)], [Addr(p, 0), Addr(q, 0)];
      Mapped(pub, priv, Mapped(priv, pub, Addr(q, port))) == Addr(p, port)
  {
    var pub, priv := [Addr(shown, 0), Addr(shown, 0)], [Addr(p, 0), Addr(q, 0)];
    assert priv[1..] == [Addr(q, 0)];
    assert FirstIp(priv, Addr(q, port)) == 1;
  }

  /** With a one-to-one list, only an unlisted address that is the public address of another is lost. */
  lemma OneToOneMapping(pub: seq<IoaAddr>, priv: seq<IoaAddr>, a: IoaAddr)
    requires |pub| == |priv| && forall i :: 0 <= i < |pub| ==> pub[i].Addr?
    requires forall i, j :: 0 <= i < j < |pub| ==> !AddrEqNoPort(pub[i], pub[j])
    ensures Mapped(pub, priv, Mapped(priv, pub, a)) == a
      <==> FirstIp(priv, a) < |priv| || FirstIp(pub, a) == |pub|
  {
  }
}
