/** ioa_addr: transport addresses, their comparisons, and the hash the permission table is keyed by. */
module IoaAddr {
  import opened Bytes
  import opened RoundUp

  const WORD64 := 0x1_0000_0000_0000_0000

  type Bytes4 = b: Data | |b| == 4 witness [0, 0, 0, 0]
  type Bytes16 = b: Data | |b| == 16 witness [0, 0, 0, 0, 0, 0, 0, 0, 0, 0, 0, 0, 0, 0, 0, 0]

  /** IP addresses without a port, as they are stored, in network order. */
  datatype Ip = Ip4(v4: Bytes4) | Ip6(v6: Bytes16)

  /** An all-zero address (family 0, what addr_set_any leaves), or an IPv4 or IPv6 address with a port. */
  datatype IoaAddr = NoAddr | Addr(ip: Ip, port: nat)

  function IpBytes(ip: Ip): Data {
    match ip
    case Ip4(b) => b
    case Ip6(b) => b
  }

  /** addr_eq: never true of two addresses without a family. */
  predicate AddrEq(a: IoaAddr, b: IoaAddr) {
    a.Addr? && b.Addr? && a.ip == b.ip && a.port == b.port
  }

  /** addr_eq_no_port */
  predicate AddrEqNoPort(a: IoaAddr, b: IoaAddr) {
    a.Addr? && b.Addr? && a.ip == b.ip
  }

  predicate AllZero(b: Data) {
    forall i :: 0 <= i < |b| ==> b[i] == 0
  }

  /** addr_any */
  predicate AddrAny(a: IoaAddr) {
    a.NoAddr? || (AllZero(IpBytes(a.ip)) && a.port == 0)
  }

  /** The address and port that are all zero, in either family, and the address without a family. */
  lemma AddrAnyIs(a: IoaAddr)
    ensures AddrAny(a) <==>
      || a.NoAddr? || a == Addr(Ip4([0, 0, 0, 0]), 0)
      || a == Addr(Ip6([0, 0, 0, 0, 0, 0, 0, 0, 0, 0, 0, 0, 0, 0, 0, 0]), 0)
  {
    if a.Addr? && AllZero(IpBytes(a.ip)) {
      match a.ip
      case Ip4(b) => assert b == [0, 0, 0, 0];
      case Ip6(b) => assert b == [0, 0, 0, 0, 0, 0, 0, 0, 0, 0, 0, 0, 0, 0, 0, 0];
    }
  }

  function GetPort(a: IoaAddr): nat {
    if a.Addr? then a.port else 0
  }

  function SetPort(a: IoaAddr, port: nat): IoaAddr {
    if a.Addr? then a.(port := port) else a
  }

  /** The same address but for the port, or both none. */
  predicate SameAddr(a: IoaAddr, b: IoaAddr) {
    AddrEqNoPort(a, b) || (a.NoAddr? && b.NoAddr?)
  }

  function HashInt32(a: nat): nat {
    var b := Xor(a, Shr(a, 4));
    var c := (Xor(b, 0xdead_beef) + b * 32) % WORD;
    Xor(c, Shr(c, 11))
  }

  function HashInt64(a: nat): nat {
    var b := Xor(a, Shr(a, 4));
    var c := (Xor(b, 0xdead_beef_dead_beef) + b * 32) % WORD64;
    Xor(c, Shr(c, 11))
  }

  /** The number a host reads that stores the lowest byte first. */
  function Num(b: Data): nat {
    if b == [] then 0 else Val(b[0]) + 256 * Num(b[1..])
  }

  /** addr_hash_no_port */
  function HashNoPort(a: IoaAddr): nat {
    match a
    case Addr(Ip4(b), _) => HashInt32(Num(b))
    case Addr(Ip6(b), _) => (HashInt64(Num(b[..8])) * 8 + HashInt64(Num(b[8..]))) % WORD
    case NoAddr => (HashInt64(0) * 8 + HashInt64(0)) % WORD
  }

  const TURN_PERMISSION_HASHTABLE_SIZE := 8

  /** The bucket of the permission table an address belongs to; the port plays no part. */
  function PermIndex(a: IoaAddr): (i: nat)
    ensures i < TURN_PERMISSION_HASHTABLE_SIZE
  {
    HashNoPort(a) % TURN_PERMISSION_HASHTABLE_SIZE
  }

  lemma SameIpSameIndex(a: IoaAddr, b: IoaAddr)
    requires AddrEqNoPort(a, b)
    ensures PermIndex(a) == PermIndex(b)
  {
    hide HashInt32, HashInt64;
  }
}
