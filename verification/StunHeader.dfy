/** The header of a STUN message: method and class in one type field, cookie, transaction id. */
module StunHeader {
  import opened Bytes
  import opened StunMsg
  import opened StunBuild
  import opened StunAuth

  /** stun_make_type: the bits of the method, spread around the two class bits. */
  function MakeType(number: bv16): bv16 {
    var m := number & 0x0FFF;
    (m & 0x000F) | ((m & 0x0070) << 1) | ((m & 0x0380) << 2) | ((m & 0x0C00) << 2)
  }

  const CLASS_BITS: bv16 := 0x0110

  function HiByte(t: bv16): bv8 {
    ((t >> 8) & 0xFF) as bv8
  }

  function LoByte(t: bv16): bv8 {
    (t & 0xFF) as bv8
  }

  /** stun_get_method_str gets back any twelve-bit method, whatever the class ... */
  lemma MethodBack(number: bv16, classBits: bv16)
    requires classBits & !CLASS_BITS == 0
    ensures var t := MakeType(number) | classBits;
      MethodOf(HiByte(t), LoByte(t)) == number & 0x0FFF && t & CLASS_BITS == classBits && t & 0xC000 == 0
  {
  }

  /** ... and method and class are all there is in a type. */
  lemma TypeSplits(t: bv16)
    requires t & 0xC000 == 0
    ensures MakeType(MethodOf(HiByte(t), LoByte(t))) | (t & CLASS_BITS) == t
  {
  }

  /** stun_init_command_str, with the transaction id it draws. */
  function InitCommand(messageType: bv16, tid: Data): (h: Data)
    requires |tid| == 12
    ensures |h| == STUN_HEADER_LENGTH
  {
    var t := messageType & 0x3FFF;
    [HiByte(t), LoByte(t), 0, 0] + STUN_MAGIC_COOKIE + tid
  }

  /** The type field, the highest byte first. */
  function TypeField(hi: bv8, lo: bv8): bv16 {
    ((hi as bv16) << 8) | (lo as bv16)
  }

  lemma TypeStored(t: bv16)
    ensures TypeField(HiByte(t), LoByte(t)) == t
  {
  }

  /** The header byte by byte: the lower fourteen bits of the type, length 0, the cookie, the transaction id. */
  lemma FreshHeader(messageType: bv16, tid: Data)
    requires |tid| == 12
    ensures var h := InitCommand(messageType, tid);
      && CommandLen(h) == STUN_HEADER_LENGTH && IsCommand(h)
      && TypeField(h[0], h[1]) == messageType & 0x3FFF && h[2] == 0 && h[3] == 0
      && h[4] == 0x21 && h[5] == 0x12 && h[6] == 0xA4 && h[7] == 0x42 && h[8..] == tid
  {
    TypeStored(messageType & 0x3FFF);
    StoredCommand(messageType, tid);
    hide HiByte, LoByte, TypeField;
  }

  lemma StoredCommand(messageType: bv16, tid: Data)
    requires |tid| == 12
    ensures var h := InitCommand(messageType, tid);
      CommandLen(h) == STUN_HEADER_LENGTH && IsCommand(h)
  {
  }

  /** The method goes to the bits left by the two class bits: four below the first, three between, five above. */
  lemma TypeBits(number: bv16)
    ensures var t := MakeType(number);
      && t & 0x000F == number & 0x000F && (t >> 5) & 0x0007 == (number >> 4) & 0x0007
      && (t >> 9) & 0x001F == (number >> 7) & 0x001F && t & 0xC110 == 0
  {
  }

  /** Adding attributes leaves the type, the cookie and the transaction id in place. */
  ghost predicate SameHeader(m: Data, m': Data) {
    |m| >= STUN_HEADER_LENGTH && |m'| >= STUN_HEADER_LENGTH && m'[..2] == m[..2] && m'[4..20] == m[4..20]
  }

  lemma AddedHeader(m: Data, t: nat, value: Data)
    requires |m| >= STUN_HEADER_LENGTH && Is16(t) && Fits(|m|, |value|)
    ensures SameHeader(m, Added(m, t, value))
  {
    hide Added, CommandLen;
    AddedLength(m, t, value);
    SameSlice(m, Added(m, t, value), 0, 2);
    SameSlice(m, Added(m, t, value), 4, 20);
  }

  lemma {:induction false} BuiltHeader(header: Data, attrs: seq<Attr>)
    requires |header| == STUN_HEADER_LENGTH && Legal(attrs) && TotalLen(attrs) < MAX_STUN_MESSAGE_SIZE
    ensures SameHeader(header, Build(header, attrs))
  {
    hide Added, Rounded;
    if attrs == [] {
    } else {
      var front, last := attrs[..|attrs| - 1], attrs[|attrs| - 1];
      BuiltHeader(header, front);
      RoundedLast(TotalLen(front), |last.value|);
      AddedHeader(Build(header, front), last.t, last.value);
    }
  }

  // ---------- a whole message ----------

  lemma FindInAttrs(m: Data, t: nat)
    requires forall a :: a in Attrs(m) ==> a.t != t
    ensures FindType(m, Positions(m), t).None?
  {
    hide FindType, Positions, AttrType;
    forall i | 0 <= i < |Positions(m)| ensures AttrType(m, Positions(m)[i]) != t {
      assert Attrs(m)[i] in Attrs(m);
    }
    FoundIsThere(m, Positions(m), t);
  }

  lemma FoundIsThere(b: Data, ps: seq<nat>, t: nat)
    requires InOrder(b, ps) && forall i :: 0 <= i < |ps| ==> AttrType(b, ps[i]) != t
    ensures FindType(b, ps, t).None?
  {
  }

  lemma {:induction false} BuiltCommand(header: Data, attrs: seq<Attr>)
    requires |header| == STUN_HEADER_LENGTH && CommandLen(header) == STUN_HEADER_LENGTH && IsCommand(header)
    requires Legal(attrs) && TotalLen(attrs) < MAX_STUN_MESSAGE_SIZE
    ensures IsCommand(Build(header, attrs))
  {
    hide Added, IsCommand, Tiled, CommandLen, Rounded;
    if attrs == [] {
    } else {
      var front, last := attrs[..|attrs| - 1], attrs[|attrs| - 1];
      BuiltCommand(header, front);
      BuildAttrs(header, front);
      RoundedLast(TotalLen(front), |last.value|);
      AddedCommand(Build(header, front), last.t, last.value);
    }
  }

  /** A message from header to fingerprint: for every method, class, transaction id and list of attributes that fits, the
      receiver who knows the key accepts it and reads the same list, then the two attributes that were added. */
  lemma MessageRoundTrip(messageType: bv16, tid: Data, attrs: seq<Attr>, hmac: Hmac, sha: Sha, key: Data, must: bool)
    requires |tid| == 12 && Legal(attrs) && Sized(hmac)
    requires forall a :: a in attrs ==> a.t != MESSAGE_INTEGRITY && a.t != FINGERPRINT
    requires TotalLen(attrs) + 4 + ShaSize(sha) + 8 < MAX_STUN_MESSAGE_SIZE
    ensures var m := Build(InitCommand(messageType, tid), attrs);
      && Fits(|m|, ShaSize(sha)) && Fits(|WithIntegrity(m, hmac, sha, key)|, 4)
      && var sent := WithFingerprint(WithIntegrity(m, hmac, sha, key));
      && IntegrityResult(sent, hmac, sha, key) == 1
      && Accepted(sent, must)
      && |Attrs(sent)| == |attrs| + 2 && Attrs(sent)[..|attrs|] == attrs
      && Attrs(sent)[|attrs|].t == 0x0008 && Attrs(sent)[|attrs| + 1].t == 0x8028
      && TypeField(sent[0], sent[1]) == messageType & 0x3FFF && sent[4..8] == [0x21, 0x12, 0xA4, 0x42]
      && sent[8..20] == tid
  {
    hide Added, Tiled, Positions, Attrs, FindType, SetLen, IsCommand, IntegrityResult, PrintOf, Rounded, ShaSize, Accepted;
    hide CommandLen, U16, InitCommand, Build, Legal, TotalLen;
    var h := InitCommand(messageType, tid);
    FreshHeader(messageType, tid);
    BuildAttrs(h, attrs);
    BuiltCommand(h, attrs);
    var m := Build(h, attrs);
    TiledLength(m);
    RoundedLast(|m|, ShaSize(sha));
    RoundedSame(ShaSize(sha));
    FindInAttrs(m, MESSAGE_INTEGRITY);
    FindInAttrs(m, FINGERPRINT);
    var digest := hmac(sha, key, SetLen(m, NewLen(|m|, ShaSize(sha))));
    var signed := WithIntegrity(m, hmac, sha, key);
    AddedAttrs(m, MESSAGE_INTEGRITY, digest);
    AddedFind(m, MESSAGE_INTEGRITY, digest, FINGERPRINT);
    AddedCommand(m, MESSAGE_INTEGRITY, digest);
    TiledLength(signed);
    RoundedLast(|signed|, 4);
    RoundedSame(4);
    SignedAndPrinted(m, hmac, sha, key, must);
    PrintedAccepted(signed, must);
    BuiltHeader(h, attrs);
    AddedHeader(m, MESSAGE_INTEGRITY, digest);
    AddedHeader(signed, FINGERPRINT, PrintOf(SetLen(signed, NewLen(|signed|, 4))));
    HeaderKept(h, WithFingerprint(signed));
  }

  lemma HeaderKept(h: Data, m: Data)
    requires SameHeader(h, m) && |h| == STUN_HEADER_LENGTH
    ensures m[0] == h[0] && m[1] == h[1] && m[4..8] == [h[4], h[5], h[6], h[7]] && m[8..20] == h[8..]
  {
    assert m[0] == m[..2][0] && m[1] == m[..2][1] && h[0] == h[..2][0] && h[1] == h[..2][1];
    assert m[4..8] == m[4..20][..4] && m[8..20] == m[4..20][4..] && h[8..] == h[4..20][4..];
  }

  /** So the receiver reads the method and the class of the sender. */
  lemma MethodRead(number: bv16, classBits: bv16, hi: bv8, lo: bv8)
    requires classBits & !CLASS_BITS == 0 && TypeField(hi, lo) == (MakeType(number) | classBits) & 0x3FFF
    ensures MethodOf(hi, lo) == number & 0x0FFF && TypeField(hi, lo) & 0x0110 == classBits
  {
    hide MakeType, MethodOf, TypeField, HiByte, LoByte;
    MethodBack(number, classBits);
    FieldBytesBack(hi, lo, MakeType(number) | classBits);
  }

  lemma FieldBytesBack(hi: bv8, lo: bv8, t: bv16)
    requires TypeField(hi, lo) == t & 0x3FFF && t & 0xC000 == 0
    ensures hi == HiByte(t) && lo == LoByte(t) && TypeField(hi, lo) == t
  {
  }

  /** A message that was not signed, or was signed with a hash of another size, is told from one with a wrong hash. */
  lemma NotSigned(messageType: bv16, tid: Data, attrs: seq<Attr>, hmac: Hmac, sha: Sha, sha': Sha, key: Data)
    requires |tid| == 12 && Legal(attrs) && Sized(hmac) && ShaSize(sha) != ShaSize(sha')
    requires forall a :: a in attrs ==> a.t != 0x0008
    requires TotalLen(attrs) + 4 + ShaSize(sha) < MAX_STUN_MESSAGE_SIZE
    ensures var m := Build(InitCommand(messageType, tid), attrs);
      && IntegrityResult(m, hmac, sha, key) == -1
      && Fits(|m|, ShaSize(sha)) && IntegrityResult(WithIntegrity(m, hmac, sha, key), hmac, sha', key) == -1
  {
    hide Added, Tiled, Positions, Attrs, FindType, SetLen, Rounded, ShaSize, CommandLen, U16, InitCommand, Build, Legal;
    hide TotalLen, IsCommand, AttrLen, AttrType, Extends, Inside, TypeField;
    var h := InitCommand(messageType, tid);
    FreshHeader(messageType, tid);
    BuildAttrs(h, attrs);
    var m := Build(h, attrs);
    TiledLength(m);
    RoundedLast(|m|, ShaSize(sha));
    RoundedSame(ShaSize(sha));
    FindInAttrs(m, MESSAGE_INTEGRITY);
    var digest := hmac(sha, key, SetLen(m, NewLen(|m|, ShaSize(sha))));
    AddedFind(m, MESSAGE_INTEGRITY, digest, MESSAGE_INTEGRITY);
    AddedExtends(m, MESSAGE_INTEGRITY, digest);
    ExtendsLast(m, Added(m, MESSAGE_INTEGRITY, digest), MESSAGE_INTEGRITY, digest);
  }

  lemma RoundedSame(n: nat)
    requires n % 4 == 0
    ensures Rounded(n) == n
  {
  }
}
