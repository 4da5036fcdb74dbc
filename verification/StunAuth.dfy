/** MESSAGE-INTEGRITY and FINGERPRINT (sections 15.4 and 15.5 of RFC 5389). The hash function is a parameter. */
module StunAuth {
  import opened Bytes
  import opened Options
  import opened StunDefs
  import opened StunMsg
  import opened StunBuild
  import Crc

  const MESSAGE_INTEGRITY := 0x0008
  const FINGERPRINT := 0x8028
  const FINGERPRINT_XOR: bv32 := 0x5354_554E
  const METHOD_BINDING: bv16 := 0x0001

  datatype Sha = Sha1 | Sha256 | Sha384 | Sha512

  function ShaSize(sha: Sha): (n: nat)
    ensures n % 4 == 0 && n <= 64
  {
    match sha
    case Sha1 => 20
    case Sha256 => 32
    case Sha384 => 48
    case Sha512 => 64
  }

  /** Kind of hash, key, text. */
  type Hmac = (Sha, Data, Data) -> Data

  ghost predicate Sized(hmac: Hmac) {
    forall sha, key, text :: |hmac(sha, key, text)| == ShaSize(sha)
  }

  // ---------- overwriting the value of the last attribute ----------

  lemma OverwriteLast(m: Data, t: nat, v: Data, v': Data)
    requires |m| >= STUN_HEADER_LENGTH && |m| % 4 == 0 && Is16(t) && Fits(|m|, |v|) && |v'| == |v| && |v| % 4 == 0
    ensures var m' := Added(m, t, v);
      |m'| == |m| + 4 + |v| && Patch(m', |m| + 4, v') == Added(m, t, v') && m'[..|m|] == SetLen(m, |m'|)
  {
    hide SetLen, AttrHeader, Zeros;
    RoundedLast(|m|, |v|);
  }

  // ---------- MESSAGE-INTEGRITY ----------

  /** A message with its hash added: over all that comes before, the length already counting the new attribute. */
  function WithIntegrity(m: Data, hmac: Hmac, sha: Sha, key: Data): Data
    requires |m| >= STUN_HEADER_LENGTH && Sized(hmac) && Fits(|m|, ShaSize(sha))
  {
    Added(m, MESSAGE_INTEGRITY, hmac(sha, key, SetLen(m, NewLen(|m|, ShaSize(sha)))))
  }

  /** The hash over all that comes before the attribute goes to the very end of the message. */
  function HashPut(a: Data, hmac: Hmac, sha: Sha, key: Data): (r: Data)
    requires |a| >= 4 + ShaSize(sha) && Sized(hmac)
    ensures |r| == |a|
  {
    Patch(a, |a| - ShaSize(sha), hmac(sha, key, a[..|a| - 4 - ShaSize(sha)]))
  }

  /** stun_attr_add_integrity_str; junk is what the uninitialised buffer for the hash holds. */
  method AddIntegrity(buf: array<bv8>, len: nat, hmac: Hmac, sha: Sha, key: Data, junk: Data)
    returns (ok: bool, newLen: nat)
    requires len <= buf.Length && MAX_STUN_MESSAGE_SIZE <= buf.Length && Sized(hmac) && |junk| == ShaSize(sha)
    requires CommandLen(buf[..len]) >= 0
    modifies buf
    ensures var m := old(buf[..CommandLen(buf[..len])]);
      && (ok <==> Fits(|m|, ShaSize(sha)))
      && (ok ==>
            newLen <= buf.Length && buf[..newLen] == HashPut(Added(m, MESSAGE_INTEGRITY, junk), hmac, sha, key))
      && (ok && |m| % 4 == 0 ==> buf[..newLen] == WithIntegrity(m, hmac, sha, key))
    ensures !ok ==> newLen == len && buf[..] == old(buf[..])
  {
    ghost var m := buf[..CommandLen(buf[..len])];
    hide CommandLen, Added, WithIntegrity, HashPut, NewLen, ShaSize, Rounded, Sized;
    ok, newLen := AddAttr(buf, len, MESSAGE_INTEGRITY, junk);
    if ok {
      NewLenRoom(|m|, ShaSize(sha));
      PutDigest(buf, newLen, hmac, sha, key);
      if |m| % 4 == 0 {
        HashInPlace(m, hmac, sha, key, junk);
      }
    }
  }

  lemma NewLenRoom(clen: nat, alen: nat)
    ensures NewLen(clen, alen) >= clen + 4 + alen
  {
  }

  /** The hash goes to the end of the message. */
  method PutDigest(buf: array<bv8>, newLen: nat, hmac: Hmac, sha: Sha, key: Data)
    requires 4 + ShaSize(sha) <= newLen <= buf.Length && Sized(hmac)
    modifies buf
    ensures buf[..newLen] == HashPut(old(buf[..newLen]), hmac, sha, key)
  {
    hide Patch, ShaSize;
    var size := ShaSize(sha);
    ghost var before := buf[..];
    var digest := hmac(sha, key, buf[..newLen - 4 - size]);
    assert buf[..newLen - 4 - size] == before[..newLen][..newLen - 4 - size];
    Write(buf, newLen - size, digest);
    PatchPrefix(before, newLen, newLen - size, digest);
    assert buf[..newLen] == buf[..][..newLen] && buf[..][..newLen] == Patch(before, newLen - size, digest)[..newLen];
  }

  lemma HashInPlace(m: Data, hmac: Hmac, sha: Sha, key: Data, junk: Data)
    requires |m| >= STUN_HEADER_LENGTH && |m| % 4 == 0 && Sized(hmac) && |junk| == ShaSize(sha) && Fits(|m|, |junk|)
    ensures NewLen(|m|, |junk|) >= 4 + ShaSize(sha)
    ensures HashPut(Added(m, MESSAGE_INTEGRITY, junk), hmac, sha, key) == WithIntegrity(m, hmac, sha, key)
  {
    hide Added, Patch, SetLen, ShaSize;
    var a := Added(m, MESSAGE_INTEGRITY, junk);
    RoundedLast(|m|, ShaSize(sha));
    OverwriteLast(m, MESSAGE_INTEGRITY, junk, hmac(sha, key, a[..|m|]));
  }

  lemma PatchPrefix(b: Data, n: nat, at: nat, data: Data)
    requires at + |data| <= n <= |b|
    ensures Patch(b, at, data)[..n] == Patch(b[..n], at, data)
  {
  }

  /** What stun_check_message_integrity_by_key_str answers: -1 without a hash of the right kind, else whether the hash
      is right. */
  function IntegrityResult(b: Data, hmac: Hmac, sha: Sha, key: Data): int {
    var o := FindType(b, Positions(b), MESSAGE_INTEGRITY);
    if o.None? then -1 else ResultAt(b, o.value, hmac, sha, key)
  }

  function ResultAt(b: Data, p: nat, hmac: Hmac, sha: Sha, key: Data): int
    requires Inside(b, p)
  {
    var newLen := p + 4 + ShaSize(sha);
    if AttrLen(b, p) != ShaSize(sha) then -1
    else if b[p + 4..newLen] == hmac(sha, key, SetLen(b, newLen)[..p]) then 1 else 0
  }

  /** stun_check_message_integrity_by_key_str: rewrites the length field and puts it back. */
  method CheckIntegrity(buf: array<bv8>, len: nat, hmac: Hmac, sha: Sha, key: Data) returns (res: int)
    requires len <= buf.Length && Sized(hmac)
    modifies buf
    ensures res == IntegrityResult(old(buf[..len]), hmac, sha, key)
    ensures buf[..] == old(buf[..])
  {
    hide Sized, Walk, Positions, SetLen, CommandLen, AttrLen, AttrType;
    var o := GetFirstByType(buf[..len], MESSAGE_INTEGRITY);
    if o.None? {
      return -1;
    }
    var p := o.value;
    if AttrLen(buf[..len], p) != ShaSize(sha) {
      return -1;
    }
    var origLen := CommandLen(buf[..len]);
    var newLen := p + 4 + ShaSize(sha);
    if origLen < 0 || newLen > origLen {
      return -1;
    }
    var digest := DigestBefore(buf, len, p, newLen, hmac, sha, key);
    ghost var all := buf[..];
    assert buf[p + 4..newLen] == all[p + 4..newLen] && buf[..len] == all[..len];
    FrontSlice(all, len, p + 4, newLen);
    res := if buf[p + 4..newLen] != digest then 0 else 1;
  }

  lemma FrontSlice(b: Data, n: nat, i: nat, j: nat)
    requires i <= j <= n <= |b|
    ensures b[..n][i..j] == b[i..j]
  {
  }

  /** The hash over the message up to p, as if it ended at newLen. */
  method DigestBefore(buf: array<bv8>, len: nat, p: nat, newLen: nat, hmac: Hmac, sha: Sha, key: Data)
    returns (digest: Data)
    requires len <= buf.Length && STUN_HEADER_LENGTH <= p <= newLen <= CommandLen(buf[..len])
    modifies buf
    ensures Is16(newLen - STUN_HEADER_LENGTH)
    ensures digest == hmac(sha, key, SetLen(old(buf[..len]), newLen)[..p])
    ensures buf[..] == old(buf[..])
  {
    hide SetLen, CommandLen;
    ghost var all := buf[..];
    var origLen := CommandLen(buf[..len]);
    assert all[..len] == buf[..len];
    SetLenAndBack(all, len, newLen, p);
    WriteLen(buf, newLen);
    assert buf[..p] == buf[..][..p];
    digest := hmac(sha, key, buf[..p]);
    WriteLen(buf, origLen);
  }

  lemma SetLenAndBack(all: Data, len: nat, n: nat, p: nat)
    requires len <= |all| && STUN_HEADER_LENGTH <= p <= n <= CommandLen(all[..len])
    ensures Is16(n - STUN_HEADER_LENGTH)
    ensures var orig := CommandLen(all[..len]);
      && Is16(orig - STUN_HEADER_LENGTH) && SetLen(SetLen(all, n), orig) == all
      && SetLen(all, n)[..p] == SetLen(all[..len], n)[..p]
  {
    hide U16, Hi, Lo;
    HiBack(all[2], all[3]);
    LoBack(all[2], all[3]);
    var orig := CommandLen(all[..len]);
    assert orig == U16(all[2], all[3]) + STUN_HEADER_LENGTH;
  }

  // ---------- what is added is found ----------

  lemma FindTypeAppend(m: Data, m': Data, ps: seq<nat>, q: nat, t: nat)
    requires InOrder(m, ps) && InOrder(m', ps + [q])
    requires forall i :: 0 <= i < |ps| ==> ps[i] + 4 <= |m'| && AttrType(m', ps[i]) == AttrType(m, ps[i])
    ensures q + 4 <= |m'|
    ensures FindType(m', ps + [q], t) ==
      if FindType(m, ps, t).Some? then FindType(m, ps, t) else if AttrType(m', q) == t then Some(q) else None
  {
    hide AttrType, FindType, InOrder;
    AppendBefore(m, m', ps, q);
  }

  lemma AppendBefore(m: Data, m': Data, ps: seq<nat>, q: nat)
    requires InOrder(m, ps) && InOrder(m', ps + [q])
    requires forall i :: 0 <= i < |ps| ==> ps[i] + 4 <= |m'| && AttrType(m', ps[i]) == AttrType(m, ps[i])
    ensures q + 4 <= |m'| && forall p :: p in ps + [q] <==> p in ps || p == q
    ensures forall p | p in ps ::
      p < q && p + 4 <= |m| && p + 4 <= |m'| && AttrType(m', p) == AttrType(m, p)
  {
    hide AttrType, U16, AttrLen, CommandLen;
    var all := ps + [q];
    assert all[|ps|] == q && Inside(m', q);
    forall p | p in ps ensures p < q && p + 4 <= |m| && p + 4 <= |m'| && AttrType(m', p) == AttrType(m, p) {
      var i :| 0 <= i < |ps| && ps[i] == p;
      assert all[i] == p && After(m', all[i]) <= all[|ps|];
      assert Inside(m, ps[i]);
    }
  }

  lemma AddedFind(m: Data, t: nat, value: Data, t': nat)
    requires Tiled(m) && Is16(t) && Fits(|m|, |value|)
    ensures var m', o := Added(m, t, value), FindType(m, Positions(m), t');
      FindType(m', Positions(m'), t') == if o.Some? then o else if t == t' then Some(|m|) else None
  {
    var m' := Added(m, t, value);
    AddedAttrs(m, t, value);
    AddedExtends(m, t, value);
    hide Added, Tiled, Positions, U16, FindType, After, CommandLen;
    var ps := Positions(m);
    forall i | 0 <= i < |ps| ensures ps[i] + 4 <= |m'| && AttrType(m', ps[i]) == AttrType(m, ps[i]) {
      SameHead(m, m', t, value, ps[i]);
    }
    FindTypeAppend(m, m', Positions(m), |m|, t');
  }

  // ---------- what is signed is accepted ----------

  /** The text that is signed does not depend on what comes after it. */
  lemma SignedText(m: Data, m': Data, p: nat, n: nat)
    requires STUN_HEADER_LENGTH <= p <= n && p <= |m| <= |m'| && Is16(n - STUN_HEADER_LENGTH)
    requires forall i :: 0 <= i < p && i != 2 && i != 3 ==> m'[i] == m[i]
    ensures SetLen(m', n)[..p] == SetLen(m, n)[..p]
  {
  }

  /** Whether a hash is accepted does not depend on attributes added later. */
  lemma LaterAttrs(m: Data, t: nat, value: Data, hmac: Hmac, sha: Sha, key: Data)
    requires Tiled(m) && Is16(t) && Fits(|m|, |value|)
    requires FindType(m, Positions(m), MESSAGE_INTEGRITY).Some?
    ensures IntegrityResult(Added(m, t, value), hmac, sha, key) == IntegrityResult(m, hmac, sha, key)
  {
    var m' := Added(m, t, value);
    AddedFind(m, t, value, MESSAGE_INTEGRITY);
    AddedLength(m, t, value);
    AddedExtends(m, t, value);
    hide Added, Tiled, Positions, U16, FindType, ResultAt, Extends;
    var p := FindType(m, Positions(m), MESSAGE_INTEGRITY).value;
    SameResultAt(m, m', p, hmac, sha, key);
  }

  lemma SameResultAt(m: Data, m': Data, p: nat, hmac: Hmac, sha: Sha, key: Data)
    requires Inside(m, p) && Inside(m', p) && CommandLen(m) == |m| <= |m'|
    requires forall i :: 0 <= i < |m| && i != 2 && i != 3 ==> m'[i] == m[i]
    ensures ResultAt(m', p, hmac, sha, key) == ResultAt(m, p, hmac, sha, key)
  {
    hide U16, SetLen;
    assert AttrLen(m', p) == AttrLen(m, p);
    if AttrLen(m, p) == ShaSize(sha) {
      var n := p + 4 + ShaSize(sha);
      SameSlice(m, m', p + 4, n);
      SignedText(m, m', p, n);
    }
  }

  /** The check of a message that has just been signed compares the hash under the key of the check with the hash
      under the key of the signature; under the same key it succeeds. */
  lemma IntegrityExactly(m: Data, hmac: Hmac, sha: Sha, key: Data, key': Data)
    requires Tiled(m) && Sized(hmac) && Fits(|m|, ShaSize(sha))
    requires FindType(m, Positions(m), MESSAGE_INTEGRITY).None?
    ensures var text := SetLen(m, NewLen(|m|, ShaSize(sha)));
      IntegrityResult(WithIntegrity(m, hmac, sha, key), hmac, sha, key')
        == if hmac(sha, key, text) == hmac(sha, key', text) then 1 else 0
  {
    hide Added, Tiled, Positions, U16, FindType, SetLen, NewLen, ResultAt, Extends, CommandLen, After, Rounded, ShaSize;
    TiledLength(m);
    NewLenFits(|m|, ShaSize(sha));
    var text := SetLen(m, NewLen(|m|, ShaSize(sha)));
    var digest := hmac(sha, key, text);
    AddedFind(m, MESSAGE_INTEGRITY, digest, MESSAGE_INTEGRITY);
    AddedExtends(m, MESSAGE_INTEGRITY, digest);
    AddedText(m, MESSAGE_INTEGRITY, digest);
    ExtendsLast(m, Added(m, MESSAGE_INTEGRITY, digest), MESSAGE_INTEGRITY, digest);
    ResultOf(Added(m, MESSAGE_INTEGRITY, digest), |m|, hmac, sha, key', digest, text);
  }

  lemma NewLenFits(clen: nat, alen: nat)
    requires clen >= STUN_HEADER_LENGTH && Fits(clen, alen)
    ensures NewLen(clen, alen) >= clen + 4 && Is16(NewLen(clen, alen) - STUN_HEADER_LENGTH)
  {
  }

  lemma TiledLength(m: Data)
    requires Tiled(m)
    ensures CommandLen(m) == |m| && |m| % 4 == 0 && |m| >= STUN_HEADER_LENGTH
  {
  }

  lemma ExtendsLast(m: Data, m': Data, t: nat, value: Data)
    requires Extends(m, m', t, value)
    ensures Inside(m', |m|) && AttrLen(m', |m|) == |value| && m'[|m| + 4..|m| + 4 + |value|] == value
  {
  }

  lemma ResultOf(b: Data, p: nat, hmac: Hmac, sha: Sha, key: Data, digest: Data, text: Data)
    requires Inside(b, p) && AttrLen(b, p) == ShaSize(sha)
    requires b[p + 4..p + 4 + ShaSize(sha)] == digest && SetLen(b, p + 4 + ShaSize(sha))[..p] == text
    ensures ResultAt(b, p, hmac, sha, key) == if digest == hmac(sha, key, text) then 1 else 0
  {
  }

  lemma AddedText(m: Data, t: nat, value: Data)
    requires |m| >= STUN_HEADER_LENGTH && |m| % 4 == 0 && |value| % 4 == 0 && Is16(t) && Fits(|m|, |value|)
    ensures var m', n := Added(m, t, value), NewLen(|m|, |value|);
      n == |m| + 4 + |value| && SetLen(m', n)[..|m|] == SetLen(m, n)
  {
    var n := NewLen(|m|, |value|);
    RoundedLast(|m|, |value|);
    AddedLength(m, t, value);
    SignedText(m, Added(m, t, value), |m|, n);
    hide Added, SetLen;
    assert SetLen(m, n)[..|m|] == SetLen(m, n);
  }

  /** ... also with a fingerprint, or anything else, added behind. */
  lemma SignedAccepted(m: Data, hmac: Hmac, sha: Sha, key: Data, later: seq<Attr>)
    requires Tiled(m) && Sized(hmac) && Fits(|m|, ShaSize(sha)) && Legal(later)
    requires FindType(m, Positions(m), MESSAGE_INTEGRITY).None?
    requires ExtraLen(WithIntegrity(m, hmac, sha, key), later) < MAX_STUN_MESSAGE_SIZE
    ensures IntegrityResult(Extra(WithIntegrity(m, hmac, sha, key), later), hmac, sha, key) == 1
  {
    var signed := WithIntegrity(m, hmac, sha, key);
    var digest := hmac(sha, key, SetLen(m, NewLen(|m|, ShaSize(sha))));
    AddedAttrs(m, MESSAGE_INTEGRITY, digest);
    AddedFind(m, MESSAGE_INTEGRITY, digest, MESSAGE_INTEGRITY);
    IntegrityExactly(m, hmac, sha, key, key);
    ExtraAccepted(signed, hmac, sha, key, later);
  }

  function ExtraLen(m: Data, later: seq<Attr>): (n: nat)
    ensures n >= |m|
  {
    if later == [] then |m|
    else NewLen(ExtraLen(m, later[..|later| - 1]), |later[|later| - 1].value|)
  }

  /** More attributes, one after the other. */
  function Extra(m: Data, later: seq<Attr>): (r: Data)
    requires |m| >= STUN_HEADER_LENGTH && Legal(later) && ExtraLen(m, later) < MAX_STUN_MESSAGE_SIZE
    ensures |r| == ExtraLen(m, later)
  {
    if later == [] then m
    else
      var last := later[|later| - 1];
      Added(Extra(m, later[..|later| - 1]), last.t, last.value)
  }

  lemma {:induction false} ExtraAccepted(m: Data, hmac: Hmac, sha: Sha, key: Data, later: seq<Attr>)
    requires Tiled(m) && Legal(later) && ExtraLen(m, later) < MAX_STUN_MESSAGE_SIZE
    requires FindType(m, Positions(m), MESSAGE_INTEGRITY).Some?
    ensures var m' := Extra(m, later);
      && Tiled(m') && FindType(m', Positions(m'), MESSAGE_INTEGRITY).Some?
      && IntegrityResult(m', hmac, sha, key) == IntegrityResult(m, hmac, sha, key)
  {
    if later == [] {
    } else {
      hide Added, Tiled, Positions, FindType, IntegrityResult, Rounded;
      var front, last := later[..|later| - 1], later[|later| - 1];
      ExtraAccepted(m, hmac, sha, key, front);
      AddedAttrs(Extra(m, front), last.t, last.value);
      AddedFind(Extra(m, front), last.t, last.value, MESSAGE_INTEGRITY);
      LaterAttrs(Extra(m, front), last.t, last.value, hmac, sha, key);
    }
  }

  // ---------- FINGERPRINT ----------

  /** nswap32 and store: four bytes, the highest first. */
  function Word(x: bv32): (w: Data)
    ensures |w| == 4
  {
    [((x >> 24) & 0xFF) as bv8, ((x >> 16) & 0xFF) as bv8, ((x >> 8) & 0xFF) as bv8, (x & 0xFF) as bv8]
  }

  function PrintWord(crc: bv32): (w: Data)
    ensures |w| == 4
  {
    Word(crc ^ FINGERPRINT_XOR)
  }

  function PrintOf(text: Data): (w: Data)
    ensures |w| == 4
  {
    PrintWord(Crc.Crc32(text))
  }

  /** A message with its fingerprint added, over all that comes before, the length already counting it. */
  function WithFingerprint(m: Data): Data
    requires |m| >= STUN_HEADER_LENGTH && Fits(|m|, 4)
  {
    Added(m, FINGERPRINT, PrintOf(SetLen(m, NewLen(|m|, 4))))
  }

  /** The fingerprint of all but the last eight bytes goes to the very end of the message. */
  function PrintPut(a: Data): (r: Data)
    requires |a| >= 8
    ensures |r| == |a|
  {
    Patch(a, |a| - 4, PrintOf(a[..|a| - 8]))
  }

  /** stun_attr_add_fingerprint_str */
  method AddFingerprint(buf: array<bv8>, len: nat) returns (ok: bool, newLen: nat)
    requires len <= buf.Length && MAX_STUN_MESSAGE_SIZE <= buf.Length
    requires CommandLen(buf[..len]) >= 0
    modifies buf
    ensures var m := old(buf[..CommandLen(buf[..len])]);
      && (ok <==> Fits(|m|, 4))
      && (ok ==> newLen <= buf.Length && buf[..newLen] == PrintPut(Added(m, FINGERPRINT, Zeros(4))))
      && (ok && |m| % 4 == 0 ==> buf[..newLen] == WithFingerprint(m))
    ensures !ok ==> newLen == len && buf[..] == old(buf[..])
  {
    ghost var m := buf[..CommandLen(buf[..len])];
    hide CommandLen, Added, WithFingerprint, PrintPut, NewLen, Rounded;
    ok, newLen := AddAttr(buf, len, FINGERPRINT, Zeros(4));
    if ok {
      NewLenRoom(|m|, 4);
      PutPrint(buf, newLen);
      if |m| % 4 == 0 {
        PrintInPlace(m);
      }
    }
  }

  method PutPrint(buf: array<bv8>, newLen: nat)
    requires 8 <= newLen <= buf.Length
    modifies buf
    ensures buf[..newLen] == PrintPut(old(buf[..newLen]))
  {
    hide Patch, PrintWord, Crc.Crc32;
    ghost var before := buf[..];
    var crc32 := Crc.NsCrc32(buf, newLen - 8);
    assert buf[..newLen - 8] == before[..newLen][..newLen - 8];
    Write(buf, newLen - 4, PrintWord(crc32));
    PatchPrefix(before, newLen, newLen - 4, PrintWord(crc32));
    assert buf[..newLen] == buf[..][..newLen];
  }

  lemma PrintInPlace(m: Data)
    requires |m| >= STUN_HEADER_LENGTH && |m| % 4 == 0 && Fits(|m|, 4)
    ensures NewLen(|m|, 4) >= 8 && PrintPut(Added(m, FINGERPRINT, Zeros(4))) == WithFingerprint(m)
  {
    hide Added, Patch, SetLen, PrintWord, Crc.Crc32;
    var a := Added(m, FINGERPRINT, Zeros(4));
    RoundedLast(|m|, 4);
    OverwriteLast(m, FINGERPRINT, Zeros(4), PrintOf(a[..|m|]));
  }

  // ---------- the bytes of both attributes ----------

  /** The message with the length field set to claim n bytes more than the header. */
  function Claiming(m: Data, n: nat): Data
    requires |m| >= STUN_HEADER_LENGTH && Is16(n)
  {
    m[..2] + [Hi(n), Lo(n)] + m[4..]
  }

  /** A signed message byte by byte: number and length of the attribute, and the hash of all before it, where the length
      field already counts it. */
  lemma IntegrityBytes(m: Data, hmac: Hmac, sha: Sha, key: Data)
    requires |m| >= STUN_HEADER_LENGTH && |m| % 4 == 0 && Sized(hmac) && Fits(|m|, ShaSize(sha))
    ensures var size: bv8 := match sha case Sha1 => 20 case Sha256 => 32 case Sha384 => 48 case Sha512 => 64;
      var n := |m| - 20 + 4 + Val(size);
      && Is16(n) && var text := Claiming(m, n);
      WithIntegrity(m, hmac, sha, key) == text + [0x00, 0x08, 0x00, size] + hmac(sha, key, text)
  {
    hide AttrHeader, Hi, Lo, SetLen;
    RoundedLast(|m|, ShaSize(sha));
    AttrHeaderIs(0x00, 0x08, match sha case Sha1 => 20 case Sha256 => 32 case Sha384 => 48 case Sha512 => 64);
    ClaimingIs(m, NewLen(|m|, ShaSize(sha)));
  }

  lemma AttrHeaderIs(hi: bv8, lo: bv8, size: bv8)
    ensures AttrHeader(U16(hi, lo), Val(size)) == [hi, lo, 0x00, size]
    ensures U16(hi, lo) == 256 * Val(hi) + Val(lo)
  {
    HiBack(hi, lo);
    LoBack(hi, lo);
    HiBack(0, size);
    LoBack(0, size);
    hide Hi, Lo;
  }

  lemma ClaimingIs(m: Data, n: nat)
    requires |m| >= STUN_HEADER_LENGTH && n >= STUN_HEADER_LENGTH && Is16(n - STUN_HEADER_LENGTH)
    ensures SetLen(m, n) == Claiming(m, n - STUN_HEADER_LENGTH)
  {
    hide Hi, Lo;
  }

  /** A message with a fingerprint byte by byte: number and length of the attribute, and the CRC-32 of all before it,
      XORed with the letters STUN. */
  lemma FingerprintBytes(m: Data)
    requires |m| >= STUN_HEADER_LENGTH && |m| % 4 == 0 && Fits(|m|, 4)
    ensures var n := |m| - 20 + 8;
      && Is16(n) && var text := Claiming(m, n);
      var crc := Crc.Crc32(text);
      WithFingerprint(m) == text + [0x80, 0x28, 0x00, 0x04]
        + [((crc >> 24) & 0xFF) as bv8 ^ 0x53, ((crc >> 16) & 0xFF) as bv8 ^ 0x54,
           ((crc >> 8) & 0xFF) as bv8 ^ 0x55, (crc & 0xFF) as bv8 ^ 0x4E]
  {
    hide Claiming, PrintWord, Crc.Crc32, WithFingerprint;
    FingerprintText(m);
    PrintBytes(Crc.Crc32(Claiming(m, |m| - 12)));
  }

  lemma FingerprintText(m: Data)
    requires |m| >= STUN_HEADER_LENGTH && |m| % 4 == 0 && Fits(|m|, 4)
    ensures Is16(|m| - 12)
    ensures WithFingerprint(m) == Claiming(m, |m| - 12) + [0x80, 0x28, 0x00, 0x04] + PrintOf(Claiming(m, |m| - 12))
  {
    hide AttrHeader, Hi, Lo, SetLen, PrintOf;
    RoundedLast(|m|, 4);
    AttrHeaderIs(0x80, 0x28, 4);
    ClaimingIs(m, NewLen(|m|, 4));
  }

  lemma PrintBytes(crc: bv32)
    ensures PrintWord(crc) == [((crc >> 24) & 0xFF) as bv8 ^ 0x53, ((crc >> 16) & 0xFF) as bv8 ^ 0x54,
      ((crc >> 8) & 0xFF) as bv8 ^ 0x55, (crc & 0xFF) as bv8 ^ 0x4E]
  {
  }

  // ---------- the full check ----------

  const STUN_MAGIC_COOKIE: Data := [0x21, 0x12, 0xA4, 0x42]

  /** stun_is_command_message_str */
  predicate IsCommand(b: Data) {
    && |b| >= STUN_HEADER_LENGTH
    && !ValidChannel(U16(b[0], b[1]))
    && b[0] & 0xC0 == 0
    && b[4..8] == STUN_MAGIC_COOKIE
    && U16(b[2], b[3]) % 4 == 0
    && U16(b[2], b[3]) + STUN_HEADER_LENGTH == |b|
  }

  function MethodOf(hi: bv8, lo: bv8): bv16 {
    var tt := ((hi as bv16) << 8) | (lo as bv16);
    (tt & 0x000F) | ((tt & 0x00E0) >> 1) | ((tt & 0x0E00) >> 2) | ((tt & 0x3000) >> 2)
  }

  /** What stun_is_command_message_full_check_str answers. */
  predicate Accepted(b: Data, must: bool) {
    IsCommand(b) &&
    var o := FindType(b, Positions(b), FINGERPRINT);
    if o.None? then MethodOf(b[0], b[1]) == METHOD_BINDING || !must else PrintRight(b, o.value)
  }

  predicate PrintRight(b: Data, p: nat)
    requires Inside(b, p)
  {
    AttrLen(b, p) == 4 && b[p + 4..p + 8] == PrintOf(b[..p])
  }

  /** stun_is_command_message_full_check_str; present is what it leaves in fingerprint_present. */
  method FullCheck(buf: array<bv8>, blen: nat, must: bool, before: bool) returns (ok: bool, present: bool)
    requires blen <= buf.Length
    ensures ok == Accepted(buf[..blen], must)
    ensures IsCommand(buf[..blen]) ==>
      present == if FindType(buf[..blen], Positions(buf[..blen]), FINGERPRINT).None? then false else before || ok
    ensures !IsCommand(buf[..blen]) ==> present == before
  {
    hide U16, Positions, Walk, AttrLen, AttrType, PrintWord, Crc.Crc32, CommandLen;
    present := before;
    var b := buf[..blen];
    if !IsCommand(b) {
      return false, present;
    }
    var sar := GetFirstByType(b, FINGERPRINT);
    if sar.None? {
      return MethodOf(b[0], b[1]) == METHOD_BINDING || !must, false;
    }
    var p := sar.value;
    if AttrLen(b, p) != 4 {
      return false, present;
    }
    var crc32 := Crc.NsCrc32(buf, p);
    assert buf[..p] == b[..p];
    ok := b[p + 4..p + 8] == PrintWord(crc32);
    present := present || ok;
  }

  /** What is accepted is a STUN message by its first eight bytes: two zero bits, a length that is right and a multiple
      of four, the cookie. */
  lemma AcceptedForm(b: Data, must: bool)
    requires Accepted(b, must)
    ensures |b| >= 20 && b[0] < 0x40 && |b| == 256 * Val(b[2]) + Val(b[3]) + 20 && |b| % 4 == 0
    ensures b[4] == 0x21 && b[5] == 0x12 && b[6] == 0xA4 && b[7] == 0x42
  {
    hide FindType, Positions, PrintRight, MethodOf, IsCommand, Val;
    CommandLength(b);
    CommandCookie(b);
  }

  lemma CommandLength(b: Data)
    requires IsCommand(b)
    ensures |b| >= 20 && b[0] < 0x40 && |b| == 256 * Val(b[2]) + Val(b[3]) + 20 && |b| % 4 == 0
  {
    hide Val;
    HighBitsClear(b[0]);
    MultipleOfFour(5, U16(b[2], b[3]));
  }

  lemma CommandCookie(b: Data)
    requires IsCommand(b)
    ensures b[4] == 0x21 && b[5] == 0x12 && b[6] == 0xA4 && b[7] == 0x42
  {
    hide U16;
    assert b[4] == b[4..8][0] && b[5] == b[4..8][1] && b[6] == b[4..8][2] && b[7] == b[4..8][3];
  }

  lemma HighBitsClear(x: bv8)
    ensures x & 0xC0 == 0 <==> x < 0x40
  {
  }

  // ---------- what gets a fingerprint is accepted ----------

  lemma AddedCommand(m: Data, t: nat, value: Data)
    requires Tiled(m) && IsCommand(m) && Is16(t) && Fits(|m|, |value|)
    ensures IsCommand(Added(m, t, value))
  {
    hide Added, IsCommand, TiledFrom, CommandLen;
    AddedLength(m, t, value);
    StillCommand(m, Added(m, t, value));
  }

  lemma StillCommand(m: Data, m': Data)
    requires IsCommand(m) && CommandLen(m') == |m'| >= |m| && |m'| % 4 == 0
    requires forall i :: 0 <= i < |m| && i != 2 && i != 3 ==> m'[i] == m[i]
    ensures IsCommand(m')
  {
    hide U16;
    assert m'[4..8] == m[4..8];
  }

  /** The full check accepts every well-formed message that was given a fingerprint, and its attributes are the old
      ones and the fingerprint. */
  lemma PrintedAccepted(m: Data, must: bool)
    requires Tiled(m) && IsCommand(m) && Fits(|m|, 4) && FindType(m, Positions(m), FINGERPRINT).None?
    ensures var m' := WithFingerprint(m);
      && Accepted(m', must) && Tiled(m') && FindType(m', Positions(m'), FINGERPRINT) == Some(|m|)
      && Attrs(m') == Attrs(m) + [Attr(FINGERPRINT, PrintOf(m'[..|m|]))]
  {
    hide Added, Tiled, Positions, Attrs, U16, FindType, SetLen, NewLen, PrintRight, Extends, CommandLen, After, Rounded;
    hide IsCommand, PrintOf;
    TiledLength(m);
    NewLenFits(|m|, 4);
    var text := SetLen(m, NewLen(|m|, 4));
    var seal := PrintOf(text);
    AddedCommand(m, FINGERPRINT, seal);
    AddedAttrs(m, FINGERPRINT, seal);
    AddedFind(m, FINGERPRINT, seal, FINGERPRINT);
    AddedExtends(m, FINGERPRINT, seal);
    ExtendsLast(m, Added(m, FINGERPRINT, seal), FINGERPRINT, seal);
    OverwriteLast(m, FINGERPRINT, seal, seal);
    RightPrint(Added(m, FINGERPRINT, seal), |m|, text);
  }

  lemma RightPrint(b: Data, p: nat, text: Data)
    requires Inside(b, p) && AttrLen(b, p) == 4 && b[p + 4..p + 8] == PrintOf(text) && b[..p] == text
    ensures PrintRight(b, p)
  {
  }

  /** Integrity, then fingerprint: both checks succeed. */
  lemma SignedAndPrinted(m: Data, hmac: Hmac, sha: Sha, key: Data, must: bool)
    requires Tiled(m) && IsCommand(m) && Sized(hmac) && Fits(|m|, ShaSize(sha))
    requires FindType(m, Positions(m), MESSAGE_INTEGRITY).None? && FindType(m, Positions(m), FINGERPRINT).None?
    requires Fits(NewLen(|m|, ShaSize(sha)), 4)
    ensures var m' := WithFingerprint(WithIntegrity(m, hmac, sha, key));
      IntegrityResult(m', hmac, sha, key) == 1 && Accepted(m', must)
  {
    hide Added, Tiled, Positions, FindType, SetLen, NewLen, IsCommand, IntegrityResult, PrintOf, Rounded, ShaSize, Accepted;
    TiledLength(m);
    NewLenFits(|m|, ShaSize(sha));
    var digest := hmac(sha, key, SetLen(m, NewLen(|m|, ShaSize(sha))));
    var signed := WithIntegrity(m, hmac, sha, key);
    AddedAttrs(m, MESSAGE_INTEGRITY, digest);
    AddedFind(m, MESSAGE_INTEGRITY, digest, FINGERPRINT);
    AddedFind(m, MESSAGE_INTEGRITY, digest, MESSAGE_INTEGRITY);
    AddedCommand(m, MESSAGE_INTEGRITY, digest);
    IntegrityExactly(m, hmac, sha, key, key);
    NewLenFits(|signed|, 4);
    LaterAttrs(signed, FINGERPRINT, PrintOf(SetLen(signed, NewLen(|signed|, 4))), hmac, sha, key);
    PrintedAccepted(signed, must);
  }

  /** Byte i is in no attribute header that the walk meets. */
  ghost predicate OffHeaders(ps: seq<nat>, i: nat) {
    forall q :: q in ps ==> i < q || q + 4 <= i
  }

  lemma LenSame(b: Data, i: nat, c: bv8, q: nat)
    requires i < |b| && q + 4 <= |b| && (i < q || q + 4 <= i)
    ensures AttrType(b[i := c], q) == AttrType(b, q) && After(b[i := c], q) == After(b, q)
    ensures AttrLen(b[i := c], q) == AttrLen(b, q)
  {
    hide U16;
  }

  lemma HeaderSame(b: Data, i: nat, c: bv8, q: nat)
    requires i < |b| && CommandLen(b[i := c]) == CommandLen(b) && Inside(b, q) && (i < q || q + 4 <= i)
    requires i < q || (GetNext(b, q).Some? && (i < After(b, q) || After(b, q) + 4 <= i))
    ensures Inside(b[i := c], q) && GetNext(b[i := c], q) == GetNext(b, q)
  {
    LenSame(b, i, c, q);
    if After(b, q) + 4 <= |b| {
      LenSame(b, i, c, After(b, q));
    }
    hide U16, CommandLen;
  }

  /** The walk is the same if byte i lies before the attribute at p, which the walk meets, and in no header. */
  lemma {:induction false} WalkSame(b: Data, p: nat, i: nat, c: bv8, o: Option<nat>)
    requires i < p < |b| && CommandLen(b[i := c]) == CommandLen(b) && o.Some? && Inside(b, o.value)
    requires OffHeaders(Walk(b, o), i) && (i < o.value || p in Walk(b, o))
    ensures Inside(b[i := c], o.value) && Walk(b[i := c], o) == Walk(b, o)
    decreases |b| - o.value
  {
    hide U16, After, Inside, GetNext, AttrType, AttrLen, CommandLen, Walk, InOrder;
    var q := o.value;
    var next := GetNext(b, q);
    assert o == Some(q);
    WalkStep(b, q);
    assert q in Walk(b, o);
    HeaderSame(b, i, c, q);
    if next.Some? {
      assert forall r :: r in Walk(b, next) ==> r in Walk(b, o);
      WalkSame(b, p, i, c, next);
    }
    WalkStep(b[i := c], q);
  }

  lemma WalkStep(b: Data, q: nat)
    requires Inside(b, q)
    ensures var next, ps := GetNext(b, q), Walk(b, Some(q));
      && (next.Some? ==> Inside(b, next.value) && next.value == After(b, q) && next.value in ps)
      && ps == [q] + (if next.Some? then Walk(b, next) else [])
  {
    WalkInside(b);
    if GetNext(b, q).Some? {
      assert Walk(b, Some(q))[1] == Walk(b, GetNext(b, q))[0];
    }
  }

  lemma FindSame(b: Data, i: nat, c: bv8, ps: seq<nat>, t: nat)
    requires i < |b| && InOrder(b, ps) && InOrder(b[i := c], ps) && OffHeaders(ps, i)
    ensures FindType(b[i := c], ps, t) == FindType(b, ps, t)
  {
    hide FindType, AttrType, InOrder;
    TypesSame(b, i, c, ps);
  }

  lemma TypesSame(b: Data, i: nat, c: bv8, ps: seq<nat>)
    requires i < |b| && InOrder(b, ps) && OffHeaders(ps, i)
    ensures forall q | q in ps :: q + 4 <= |b| && AttrType(b[i := c], q) == AttrType(b, q)
  {
    hide AttrType, U16, CommandLen, After;
    forall q | q in ps ensures q + 4 <= |b| && AttrType(b[i := c], q) == AttrType(b, q) {
      var k :| 0 <= k < |ps| && ps[k] == q;
      assert Inside(b, ps[k]);
      LenSame(b, i, c, q);
    }
  }

  lemma SameCommandLen(b: Data, i: nat, c: bv8)
    requires IsCommand(b) && i < |b| && c != b[i] && IsCommand(b[i := c])
    ensures i != 2 && i != 3 && CommandLen(b[i := c]) == CommandLen(b)
  {
    hide U16, Hi, Lo;
    HiBack(b[2], b[3]);
    LoBack(b[2], b[3]);
    HiBack(b[i := c][2], b[i := c][3]);
    LoBack(b[i := c][2], b[i := c][3]);
  }

  lemma FirstSame(b: Data, i: nat, c: bv8)
    requires i < |b| && CommandLen(b[i := c]) == CommandLen(b) && i != 2 && i != 3
    requires Positions(b) != [] && OffHeaders(Positions(b), i)
    ensures GetFirst(b).Some? && GetFirst(b[i := c]) == GetFirst(b)
  {
    WalkInside(b);
    assert STUN_HEADER_LENGTH in Positions(b);
    LenSame(b, i, c, STUN_HEADER_LENGTH);
    hide U16, AttrLen, CommandLen;
  }

  /** Change any byte before the fingerprint that is not in the header of an attribute: in the header of the message,
      in the transaction, in a value or in padding. The message is refused. */
  lemma OneByteRefused(b: Data, p: nat, i: nat, c: bv8, must: bool)
    requires Accepted(b, must) && FindType(b, Positions(b), FINGERPRINT) == Some(p)
    requires i < p && c != b[i] && OffHeaders(Positions(b), i)
    ensures !Accepted(b[i := c], must)
  {
    hide U16, Walk, FindType, IsCommand, PrintRight, CommandLen;
    var b' := b[i := c];
    if IsCommand(b') {
      SameCommandLen(b, i, c);
      WalkInside(b);
      FirstSame(b, i, c);
      WalkSame(b, p, i, c, GetFirst(b));
      FindSame(b, i, c, Positions(b), FINGERPRINT);
      SealBroken(b, p, i, c, must);
    }
  }

  lemma SealBroken(b: Data, p: nat, i: nat, c: bv8, must: bool)
    requires Accepted(b, must) && FindType(b, Positions(b), FINGERPRINT) == Some(p)
    requires i < p && c != b[i]
    requires FindType(b[i := c], Positions(b[i := c]), FINGERPRINT) == Some(p)
    ensures !Accepted(b[i := c], must)
  {
    hide Positions, FindType, IsCommand, Word, Crc.Crc32;
    var b' := b[i := c];
    assert b'[..p] == b[..p][i := c];
    assert b'[p + 4..p + 8] == b[p + 4..p + 8];
    Crc.CrcDetects(b[..p], i, c);
    PrintInjective(b[..p], b'[..p]);
  }

  lemma TransactionSame(b: Data, i: nat, c: bv8)
    requires STUN_HEADER_LENGTH <= i < |b| && IsCommand(b)
    ensures IsCommand(b[i := c]) && b[i := c][0] == b[0] && b[i := c][1] == b[1]
  {
    hide U16;
    assert b[i := c][4..8] == b[4..8];
  }

  /** The exact condition under which a message is still accepted after a change of one byte before its fingerprint: the
      byte is in the header of an attribute, and no fingerprint is found any more where none is asked for, or another
      attribute is found and is right. */
  lemma OneByteAcceptedExactly(b: Data, p: nat, i: nat, c: bv8, must: bool)
    requires Accepted(b, must) && FindType(b, Positions(b), FINGERPRINT) == Some(p) && i < p && c != b[i]
    ensures var b' := b[i := c];
      var o := FindType(b', Positions(b'), FINGERPRINT);
      Accepted(b', must) <==>
        && i >= STUN_HEADER_LENGTH && !OffHeaders(Positions(b), i)
        && if o.None? then MethodOf(b[0], b[1]) == METHOD_BINDING || !must else o.value != p && PrintRight(b', o.value)
  {
    hide Positions, FindType, IsCommand, PrintRight, MethodOf;
    if OffHeaders(Positions(b), i) {
      OneByteRefused(b, p, i, c, must);
    } else {
      var q :| q in Positions(b) && q <= i < q + 4;
      InPositions(b, q);
      TransactionSame(b, i, c);
      if FindType(b[i := c], Positions(b[i := c]), FINGERPRINT) == Some(p) {
        SealBroken(b, p, i, c, must);
      }
    }
  }

  lemma InPositions(b: Data, q: nat)
    requires q in Positions(b)
    ensures Inside(b, q)
  {
    hide Inside, Walk;
    var k :| 0 <= k < |Positions(b)| && Positions(b)[k] == q;
    assert Inside(b, Positions(b)[k]);
  }

  /** A Binding indication with one empty attribute (SOFTWARE). */
  const SMALL: Data := [0x00, 0x11, 0x00, 0x04] + STUN_MAGIC_COOKIE + Zeros(12) + [0x80, 0x22, 0x00, 0x00]

  lemma SmallFound()
    ensures |SMALL| == 24 && CommandLen(SMALL) == 24 && IsCommand(SMALL)
    ensures Inside(SMALL, 20) && After(SMALL, 20) == 24 && AttrType(SMALL, 20) == 0x8022
  {
    assert SMALL[20] == 0x80 && SMALL[21] == 0x22 && SMALL[22] == 0 && SMALL[23] == 0;
    assert SMALL[0] == 0 && SMALL[1] == 0x11 && SMALL[2] == 0 && SMALL[3] == 4;
    assert SMALL[4..8] == STUN_MAGIC_COOKIE;
  }

  /** A message that is one attribute. */
  lemma OneAttr(b: Data, t: nat)
    requires Inside(b, 20) && After(b, 20) == CommandLen(b) == |b| && |b| % 4 == 0 && AttrType(b, 20) != t
    ensures Tiled(b) && FindType(b, Positions(b), t).None?
  {
    hide U16, AttrType;
    assert TiledFrom(b, |b|);
    assert GetNext(b, 20).None?;
    assert Walk(b, None) == [];
    assert Walk(b, Some(20)) == [20] + Walk(b, None);
    assert GetFirst(b) == Some(20);
    assert Positions(b) == [20];
  }

  lemma LongerAttr(b: Data, must: bool)
    requires |b| == CommandLen(b) == 32 && IsCommand(b)
    requires b[..2] == [0x00, 0x11] && b[20..24] == [0x80, 0x22, 0x00, 0x00]
    ensures b[23] == 0 && Accepted(b[23 := 8], must)
  {
    var b' := b[23 := 8];
    assert b'[..8] == b[..8] && b'[4..8] == b[..8][4..];
    assert b[20] == b[20..24][0] && b[21] == b[20..24][1] && b[22] == b[20..24][2] && b[23] == b[20..24][3];
    assert b[0] == b[..2][0] && b[1] == b[..2][1];
    assert b'[0] == b[..8][0] && b'[1] == b[..8][1] && b'[2] == b[..8][2] && b'[3] == b[..8][3];
    assert MethodOf(0x00, 0x11) == METHOD_BINDING;
    assert IsCommand(b') && CommandLen(b') == 32 by {
      hide U16, MethodOf;
    }
    assert AttrType(b', 20) == 0x8022 && After(b', 20) == 32;
    OneAttr(b', FINGERPRINT);
    hide U16, MethodOf, Positions, FindType, PrintRight;
  }

  /** In the header of an attribute a change can pass: with another length the attribute takes in the fingerprint. */
  lemma HeaderByteAccepted(must: bool)
    ensures Fits(|SMALL|, 4)
    ensures var b := WithFingerprint(SMALL);
      |b| == 32 && b[23] != 8 && Accepted(b, must) && Accepted(b[23 := 8], must)
  {
    hide Accepted, Walk, Positions, FindType, IsCommand, TiledFrom, CommandLen, Inside, After, U16, PrintOf;
    SmallFound();
    OneAttr(SMALL, FINGERPRINT);
    PrintedAccepted(SMALL, must);
    var b := WithFingerprint(SMALL);
    AddedCommand(SMALL, FINGERPRINT, PrintOf(SetLen(SMALL, NewLen(|SMALL|, 4))));
    AddedLength(SMALL, FINGERPRINT, PrintOf(SetLen(SMALL, NewLen(|SMALL|, 4))));
    assert b[..2] == SMALL[..2] && b[20..24] == SMALL[20..24];
    LongerAttr(b, must);
  }

  lemma PrintInjective(text: Data, text': Data)
    requires Crc.Crc32(text) != Crc.Crc32(text')
    ensures PrintOf(text) != PrintOf(text')
  {
  }
}
