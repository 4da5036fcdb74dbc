/** ChannelData messages, and cutting a byte stream into STUN and ChannelData messages (sections 11.4 and 11.5 of
    RFC 5766). */
module Framing {
  import opened Bytes
  import opened Options
  import opened StunDefs
  import opened Http
  import opened StunMsg
  import opened StunBuild
  import opened StunAuth

  const WORD16 := 0x1_0000

  // ---------- ChannelData ----------

  function ChannelHeader(n: nat, length: nat): (h: Data)
    requires Is16(n) && Is16(length)
    ensures |h| == 4
  {
    [Hi(n), Lo(n), Hi(length), Lo(length)]
  }

  /** Both places that pad compute in sixteen bits. */
  function Padded(len: nat, padding: bool): nat {
    if padding && len % 4 != 0 then (len / 4 + 1) * 4 % WORD16 else len
  }

  lemma PaddedIs(n: nat, padding: bool)
    requires n <= MAX_STUN_MESSAGE_SIZE
    ensures Padded(n % WORD16, padding) == if padding then Rounded(n) else n
  {
  }

  /** stun_init_channel_message_str: the header goes in front of the data. Padding bytes are counted, not written. */
  method InitChannelMessage(buf: array<bv8>, n: nat, length: int, padding: bool) returns (ok: bool, len: nat)
    requires Is16(n) && buf.Length >= 4
    modifies buf
    ensures ok <==> 0 <= length && 4 + length <= 65507
    ensures ok ==> buf[..] == Patch(old(buf[..]), 0, ChannelHeader(n, length))
    ensures ok ==> len == 4 + if padding then Rounded(length) else length
    ensures !ok ==> buf[..] == old(buf[..])
  {
    hide Patch, ChannelHeader, Padded, Rounded;
    len := 0;
    if length < 0 || MAX_STUN_MESSAGE_SIZE < 4 + length {
      return false, len;
    }
    Write(buf, 0, ChannelHeader(n, length));
    PaddedIs(length, padding);
    return true, 4 + Padded(length % WORD16, padding);
  }

  datatype ChannelData = ChannelData(n: nat, len: nat)

  /** stun_is_channel_message_str: the channel number, and the length without padding. */
  function IsChannelMessage(b: Data, mandatoryPadding: bool): Option<ChannelData> {
    if |b| < 4 || !ValidChannel(U16(b[0], b[1])) then None
    else
      var blen := if |b| > WORD16 - 1 then WORD16 - 1 else |b|;
      var actual := blen - 4;
      var header := U16(b[2], b[3]);
      if header > actual then None
      else if header != actual && actual % 4 != 0 && (mandatoryPadding || header == 0 || actual - header > 3) then None
      else Some(ChannelData(U16(b[0], b[1]), header + 4))
  }

  // ---------- the length of the message at the front ----------

  /** A STUN message seems to start here. */
  predicate StunStart(b: Data) {
    |b| >= STUN_HEADER_LENGTH && !ValidChannel(U16(b[0], b[1])) && b[0] & 0xC0 == 0 && b[4..8] == STUN_MAGIC_COOKIE
      && U16(b[2], b[3]) % 4 == 0
  }

  /** Its length, kept in sixteen bits. */
  function StunLen(b: Data): nat
    requires StunStart(b)
  {
    (U16(b[2], b[3]) + STUN_HEADER_LENGTH) % WORD16
  }

  /** A complete HTTP request seems to be here. */
  predicate TakenForHttp(b: Data) {
    0 < HttpLength(b) <= |b|
  }

  /** stun_get_message_len_str, and what it leaves in app_len. */
  datatype Length = Incomplete | Length(len: nat, appLen: nat)

  function MessageLen(b: Data, padding: bool): Length {
    if StunStart(b) && StunLen(b) <= |b| then Length(StunLen(b), StunLen(b))
    else if TakenForHttp(b) then Length(HttpLength(b), HttpLength(b))
    else if |b| >= 4 && ValidChannel(U16(b[0], b[1])) then
      var bret := (4 + U16(b[2], b[3])) % WORD16;
      if Padded(bret, padding) <= |b| then Length(Padded(bret, padding), bret) else Incomplete
    else Incomplete
  }

  /** The first byte decides. Below 0x40 only STUN messages are found, by their cookie and a length that is a multiple
      of four; from 0x40 to 0x7F, HTTP requests and ChannelData; above, nothing. */
  lemma FirstByteDecides(b: Data, padding: bool)
    requires MessageLen(b, padding).Length?
    ensures var l := MessageLen(b, padding);
      && |b| >= 4 && l.len <= |b| && b[0] < 0x80
      && (b[0] < 0x40 ==>
            && |b| >= 20 && b[4] == 0x21 && b[5] == 0x12 && b[6] == 0xA4 && b[7] == 0x42 && U16(b[2], b[3]) % 4 == 0
            && l.len == l.appLen == (U16(b[2], b[3]) + 20) % 0x1_0000)
      && (b[0] >= 0x40 && HttpLength(b) == 0 ==>
            && l.appLen == (4 + U16(b[2], b[3])) % 0x1_0000
            && l.len == if padding then (l.appLen + 3) / 4 * 4 % 0x1_0000 else l.appLen)
  {
    hide U16, HttpLength, Padded;
    if |b| >= 4 {
      FirstByte(b[0], b[1]);
      PaddedForm((4 + U16(b[2], b[3])) % WORD16);
    }
    if HttpLength(b) > 0 {
      MethodByte(b);
    }
    if StunStart(b) {
      CookieBytes(b);
    }
  }

  lemma PaddedForm(n: nat)
    requires n < 0x1_0000
    ensures Padded(n, true) == (n + 3) / 4 * 4 % 0x1_0000 && Padded(n, false) == n
  {
  }

  lemma FirstByte(hi: bv8, lo: bv8)
    ensures ValidChannel(U16(hi, lo)) <==> 0x40 <= hi <= 0x7F
    ensures hi & 0xC0 == 0 <==> hi < 0x40
  {
    HighBitsClear(hi);
  }

  lemma CookieBytes(b: Data)
    requires |b| >= 8 && b[4..8] == STUN_MAGIC_COOKIE
    ensures b[4] == 0x21 && b[5] == 0x12 && b[6] == 0xA4 && b[7] == 0x42
  {
    assert b[4] == b[4..8][0] && b[5] == b[4..8][1] && b[6] == b[4..8][2] && b[7] == b[4..8][3];
  }

  // ---------- frames ----------

  datatype Frame = Stun(bytes: Data) | Channel(n: nat, data: Data, pad: Data)

  predicate Wire(f: Frame, padding: bool) {
    match f
    case Stun(bytes) => IsCommand(bytes) && |bytes| < WORD16
    case Channel(n, data, pad) =>
      && ValidChannel(n) && 4 + |data| <= MAX_STUN_MESSAGE_SIZE
      && |pad| == (if padding then Rounded(|data|) - |data| else 0)
  }

  function Encode(f: Frame, padding: bool): (b: Data)
    requires Wire(f, padding)
    ensures |b| >= 4
  {
    match f
    case Stun(bytes) => bytes
    case Channel(n, data, pad) => ChannelHeader(n, |data|) + data + pad
  }

  function AppLen(f: Frame): nat {
    match f
    case Stun(bytes) => |bytes|
    case Channel(_, data, _) => 4 + |data|
  }

  lemma LowByte(hi: bv8, lo: bv8)
    requires hi & 0xC0 == 0
    ensures !ValidChannel(U16(hi, lo)) && hi != 0x47 && hi != 0x50 && hi != 0x44
  {
  }

  lemma StunFound(bytes: Data, b: Data, padding: bool)
    requires IsCommand(bytes) && |bytes| < WORD16 && bytes <= b
    ensures MessageLen(b, padding) == Length(|bytes|, |bytes|)
  {
    hide U16, HttpLength;
    assert b[0] == bytes[0] && b[1] == bytes[1] && b[2] == bytes[2] && b[3] == bytes[3];
    assert b[4..8] == bytes[4..8];
    LowByte(bytes[0], bytes[1]);
    NoWrap(bytes);
  }

  /** The header of a ChannelData message, wherever it stands. */
  lemma HeaderRead(n: nat, length: nat, b: Data)
    requires Is16(n) && Is16(length) && ChannelHeader(n, length) <= b
    ensures U16(b[0], b[1]) == n && U16(b[2], b[3]) == length
  {
    hide Hi, Lo, U16;
    var h := ChannelHeader(n, length);
    assert h == b[..4];
    assert b[0] == h[0] && b[1] == h[1] && b[2] == h[2] && b[3] == h[3];
    U16Back(n);
    U16Back(length);
  }

  lemma ChannelFound(n: nat, length: nat, b: Data, padding: bool)
    requires ValidChannel(n) && 4 + length <= MAX_STUN_MESSAGE_SIZE
    requires ChannelHeader(n, length) <= b && !TakenForHttp(b)
    ensures var whole := 4 + if padding then Rounded(length) else length;
      MessageLen(b, padding) == if whole <= |b| then Length(whole, 4 + length) else Incomplete
  {
    hide ChannelHeader, U16, Padded, TakenForHttp, Rounded;
    HeaderRead(n, length, b);
    PaddedIs(4 + length, padding);
    FourMore(length);
  }

  lemma FourMore(length: nat)
    requires 4 + length <= MAX_STUN_MESSAGE_SIZE
    ensures (4 + length) % WORD16 == 4 + length && Rounded(4 + length) == 4 + Rounded(length)
  {
  }

  /** A frame at the front of a stream: its length is found, however the stream goes on, exactly if the bytes do not
      make a complete HTTP request, or one that ends where the frame ends and this has no padding. */
  lemma FrameFoundExactly(f: Frame, padding: bool, tail: Data)
    requires Wire(f, padding)
    ensures var e := Encode(f, padding);
      var b := e + tail;
      var l := MessageLen(b, padding);
      && (l == Length(|e|, AppLen(f)) <==> f.Stun? || !TakenForHttp(b) || HttpLength(b) == |e| == AppLen(f))
      && (l.Length? && l.len == |e| <==> f.Stun? || !TakenForHttp(b) || HttpLength(b) == |e|)
  {
    hide TakenForHttp, HttpLength, IsCommand, ChannelHeader, StunStart;
    var e := Encode(f, padding);
    var b := e + tail;
    match f
    case Stun(bytes) =>
      StunFound(bytes, b, padding);
    case Channel(n, data, pad) =>
      assert b == ChannelHeader(n, |data|) + (data + pad + tail);
      if TakenForHttp(b) {
        NotStunStart(n, |data|, b);
      } else {
        ChannelFound(n, |data|, b, padding);
      }
  }

  lemma NotStunStart(n: nat, length: nat, b: Data)
    requires ValidChannel(n) && Is16(length) && ChannelHeader(n, length) <= b
    ensures !StunStart(b)
  {
    hide ChannelHeader, U16;
    HeaderRead(n, length, b);
  }

  lemma SpelledGet()
    ensures ChannelHeader(0x4745, 0x5420) == HTTP_GET
  {
    HiBack(0x47, 0x45);
    LoBack(0x47, 0x45);
    HiBack(0x54, 0x20);
    LoBack(0x54, 0x20);
    hide Hi, Lo;
  }

  lemma RequestCut(b: Data, padding: bool)
    requires HTTP_GET + HTTP_VERSION + BLANK_LINE <= b
    ensures MessageLen(b, padding) == Length(14, 14)
  {
    hide HttpLength, ChannelHeader, StunStart;
    assert HTTP_GET <= b;
    SpelledGet();
    NotStunStart(0x4745, 0x5420, b);
    ShortRequest(b);
  }

  /** Channel data that starts with a version and a blank line, on the channel whose number and length spell a method:
      of these 21540 bytes the first fourteen are cut off as a request. */
  lemma ChannelCutWrongly(data: Data, padding: bool)
    requires |data| == 0x5420 && HTTP_VERSION + BLANK_LINE <= data
    ensures Wire(Channel(0x4745, data, []), padding)
    ensures MessageLen(Encode(Channel(0x4745, data, []), padding), padding) == Length(14, 14)
  {
    hide MessageLen, ChannelHeader;
    SpelledGet();
    var request := HTTP_VERSION + BLANK_LINE;
    assert Encode(Channel(0x4745, data, []), padding) == HTTP_GET + request + data[|request|..];
    RequestCut(HTTP_GET + request + data[|request|..], padding);
  }

  lemma StunStub(bytes: Data, k: nat, padding: bool)
    requires IsCommand(bytes) && |bytes| < WORD16 && k < |bytes|
    ensures MessageLen(bytes[..k], padding) == Incomplete
  {
    hide U16, HttpLength, IsCommand, StunStart, Padded;
    var b := bytes[..k];
    StubNotTaken(bytes, k);
    if k >= 4 {
      StubHeader(bytes, k);
    } else {
      ShortStart(b);
    }
  }

  lemma ShortStart(b: Data)
    requires |b| < STUN_HEADER_LENGTH
    ensures !StunStart(b)
  {
  }

  lemma StubNotTaken(bytes: Data, k: nat)
    requires IsCommand(bytes) && k < |bytes|
    ensures !TakenForHttp(bytes[..k])
  {
    hide U16, HttpLength;
    LowByte(bytes[0], bytes[1]);
    if TakenForHttp(bytes[..k]) {
      MethodByte(bytes[..k]);
    }
  }

  lemma StubHeader(bytes: Data, k: nat)
    requires IsCommand(bytes) && |bytes| < WORD16 && 4 <= k < |bytes|
    ensures var b := bytes[..k];
      !ValidChannel(U16(b[0], b[1])) && (StunStart(b) ==> StunLen(b) == |bytes|)
  {
    LowByte(bytes[0], bytes[1]);
    NoWrap(bytes);
    hide U16, IsCommand;
    var b := bytes[..k];
    assert b[0] == bytes[0] && b[1] == bytes[1] && b[2] == bytes[2] && b[3] == bytes[3];
  }

  lemma NoWrap(bytes: Data)
    requires IsCommand(bytes) && |bytes| < WORD16
    ensures (U16(bytes[2], bytes[3]) + STUN_HEADER_LENGTH) % WORD16 == |bytes|
  {
  }

  /** What has not arrived completely is not taken for a message, unless it already makes a complete HTTP request. */
  lemma PrefixIncomplete(f: Frame, padding: bool, k: nat)
    requires Wire(f, padding) && k < |Encode(f, padding)|
    ensures var b := Encode(f, padding)[..k];
      MessageLen(b, padding) == Incomplete <==> f.Stun? || !TakenForHttp(b)
  {
    hide TakenForHttp, IsCommand, ChannelHeader;
    var b := Encode(f, padding)[..k];
    match f
    case Stun(bytes) =>
      StunStub(bytes, k, padding);
    case Channel(n, data, pad) =>
      if k >= 4 && !TakenForHttp(b) {
        assert b == ChannelHeader(n, |data|) + (data + pad)[..k - 4];
        ChannelFound(n, |data|, b, padding);
      }
  }

  /** A header that claims 65516 bytes or more gets a length that has wrapped around, down to 0. */
  lemma StunLenExactly(b: Data)
    requires StunStart(b)
    ensures StunLen(b) == U16(b[2], b[3]) + STUN_HEADER_LENGTH <==> U16(b[2], b[3]) < 65516
    ensures U16(b[2], b[3]) == 65516 ==> forall padding :: MessageLen(b, padding) == Length(0, 0)
  {
  }

  // ---------- decoding what was cut ----------

  lemma ChannelDecoded(f: Frame, padding: bool)
    requires Wire(f, padding) && f.Channel?
    ensures IsChannelMessage(Encode(f, padding), padding) == Some(ChannelData(f.n, 4 + |f.data|))
    ensures Encode(f, padding)[4..4 + |f.data|] == f.data
  {
    hide Hi, Lo, U16;
    U16Back(f.n);
    U16Back(|f.data|);
  }

  /** Where padding is mandatory, a padded message is still taken for that message with anything behind it whose length
      is a multiple of four, as long as there are fewer than 65535 bytes in all; and with nothing else behind it. */
  lemma FollowedAcceptedExactly(f: Frame, behind: Data)
    requires Wire(f, true) && f.Channel?
    ensures var b := Encode(f, true) + behind;
      && (IsChannelMessage(b, true).Some? <==> |behind| % 4 == 0 && |b| < WORD16 - 1)
      && (IsChannelMessage(b, true).Some? ==> IsChannelMessage(b, true) == Some(ChannelData(f.n, 4 + |f.data|)))
  {
    hide ChannelHeader, U16, Rounded, IsChannelMessage;
    var b := Encode(f, true) + behind;
    var length := |f.data|;
    assert b == ChannelHeader(f.n, length) + (f.data + f.pad + behind);
    HeaderRead(f.n, length, b);
    ChannelAcceptedExactly(b, true);
    SeenLength(length, |behind|);
    if IsChannelMessage(b, true).Some? {
      ChannelTaken(b);
    }
  }

  lemma SeenLength(length: nat, behind: nat)
    requires 4 + length <= MAX_STUN_MESSAGE_SIZE
    ensures var total := 4 + Rounded(length) + behind;
      var seen := if total < WORD16 then total else WORD16 - 1;
      4 + length <= seen && (4 + length == seen || seen % 4 == 0) <==> behind % 4 == 0 && total < WORD16 - 1
  {
    var k := Rounded(length) / 4 + 1;
    assert 4 * k == 4 + Rounded(length);
    FourBehind(k, behind);
  }

  lemma ChannelTaken(b: Data)
    requires IsChannelMessage(b, true).Some?
    ensures |b| >= 4 && IsChannelMessage(b, true) == Some(ChannelData(U16(b[0], b[1]), U16(b[2], b[3]) + 4))
  {
    hide U16;
  }

  lemma FourBehind(k: nat, n: nat)
    ensures (4 * k + n) % 4 == n % 4
  {
  }

  /** What stun_is_channel_message_str takes for a ChannelData message: with padding mandatory, anything whose length,
      counted up to 65535, is exact or a multiple of four, however much follows the data. */
  lemma ChannelAcceptedExactly(b: Data, mandatoryPadding: bool)
    ensures IsChannelMessage(b, mandatoryPadding).Some? <==>
      && |b| >= 4 && ValidChannel(U16(b[0], b[1]))
      && var whole, seen := 4 + U16(b[2], b[3]), if |b| < WORD16 then |b| else WORD16 - 1;
      && whole <= seen
      && (whole == seen || seen % 4 == 0 || (!mandatoryPadding && 4 < whole && seen <= whole + 3))
    ensures IsChannelMessage(b, true).Some? ==> IsChannelMessage(b, false) == IsChannelMessage(b, true)
  {
    hide U16;
  }

  // ---------- streams ----------

  /** Cut messages off the front as long as they are complete. */
  function Cut(b: Data, padding: bool): (seq<Data>, Data) {
    var l := MessageLen(b, padding);
    if l.Incomplete? || l.len == 0 || l.len > |b| then ([], b)
    else
      var (frames, rest) := Cut(b[l.len..], padding);
      ([b[..l.len]] + frames, rest)
  }

  ghost predicate AllWire(frames: seq<Frame>, padding: bool) {
    forall i :: 0 <= i < |frames| ==> Wire(frames[i], padding)
  }

  ghost function Stream(frames: seq<Frame>, padding: bool): Data
    requires AllWire(frames, padding)
  {
    if frames == [] then [] else Encode(frames[0], padding) + Stream(frames[1..], padding)
  }

  ghost function Pieces(frames: seq<Frame>, padding: bool): seq<Data>
    requires AllWire(frames, padding)
  {
    if frames == [] then [] else [Encode(frames[0], padding)] + Pieces(frames[1..], padding)
  }

  /** At the start of each message the bytes from there on make no complete HTTP request, or one that ends where the
      message ends; nor do those of the part at the end. STUN messages are found in any case. */
  ghost predicate NoRequests(frames: seq<Frame>, last: Frame, part: Data, padding: bool)
    requires AllWire(frames, padding)
  {
    if frames == [] then last.Stun? || !TakenForHttp(part)
    else
      var b := Stream(frames, padding) + part;
      && (frames[0].Stun? || !TakenForHttp(b) || HttpLength(b) == |Encode(frames[0], padding)|)
      && NoRequests(frames[1..], last, part, padding)
  }

  /** Of a message that has arrived in part nothing is cut off exactly if the part does not make a request. */
  lemma PartKept(last: Frame, k: nat, padding: bool)
    requires Wire(last, padding) && k < |Encode(last, padding)|
    ensures var part := Encode(last, padding)[..k];
      Cut(part, padding) == ([], part) <==> last.Stun? || !TakenForHttp(part)
  {
    var part := Encode(last, padding)[..k];
    PrefixIncomplete(last, padding, k);
    if TakenForHttp(part) && last.Channel? {
      RequestTaken(last, k, padding);
    }
    hide TakenForHttp, HttpLength, MessageLen, Encode;
  }

  lemma RequestTaken(f: Frame, k: nat, padding: bool)
    requires Wire(f, padding) && f.Channel? && k < |Encode(f, padding)| && TakenForHttp(Encode(f, padding)[..k])
    ensures var b := Encode(f, padding)[..k];
      MessageLen(b, padding) == Length(HttpLength(b), HttpLength(b)) && 0 < HttpLength(b) <= |b|
  {
    hide HttpLength, ChannelHeader, StunStart, Rounded;
    var b := Encode(f, padding)[..k];
    MethodByte(b);
    assert b == ChannelHeader(f.n, |f.data|) + (f.data + f.pad)[..k - 4];
    NotStunStart(f.n, |f.data|, b);
  }

  lemma CutFirst(e: Data, tail: Data, padding: bool, pieces: seq<Data>, rest: Data)
    requires |e| > 0
    ensures var l := MessageLen(e + tail, padding);
      Cut(e + tail, padding) == ([e] + pieces, rest)
      <==> l.Length? && l.len == |e| && Cut(tail, padding) == (pieces, rest)
  {
    hide MessageLen;
    var b := e + tail;
    var l := MessageLen(b, padding);
    assert b[..|e|] == e && b[|e|..] == tail;
    if l.Length? && 0 < l.len <= |b| {
      var (frames, rest') := Cut(b[l.len..], padding);
      assert Cut(b, padding) == ([b[..l.len]] + frames, rest');
      assert ([b[..l.len]] + frames)[0] == b[..l.len] && ([b[..l.len]] + frames)[1..] == frames;
      assert ([e] + pieces)[0] == e && ([e] + pieces)[1..] == pieces;
    } else {
      assert Cut(b, padding).0 == [] != [e] + pieces;
    }
  }

  /** Cutting a stream of messages, of which the last may have arrived in part, gives back exactly these messages and
      leaves the part, if and only if no requests get in the way. */
  lemma {:induction false} CutStreamExactly(frames: seq<Frame>, last: Frame, k: nat, padding: bool)
    requires AllWire(frames, padding) && Wire(last, padding) && k < |Encode(last, padding)|
    ensures var part := Encode(last, padding)[..k];
      Cut(Stream(frames, padding) + part, padding) == (Pieces(frames, padding), part)
      <==> NoRequests(frames, last, part, padding)
  {
    hide Encode, MessageLen, TakenForHttp, HttpLength, Wire, Cut;
    var part := Encode(last, padding)[..k];
    if frames == [] {
      assert Stream(frames, padding) + part == part;
      PartKept(last, k, padding);
    } else {
      var e, tail := Encode(frames[0], padding), Stream(frames[1..], padding) + part;
      assert Stream(frames, padding) + part == e + tail;
      FrameFoundExactly(frames[0], padding, tail);
      CutFirst(e, tail, padding, Pieces(frames[1..], padding), part);
      CutStreamExactly(frames[1..], last, k, padding);
    }
  }

  // ---------- messages that are never in doubt ----------

  /** The first four bytes are the start of an HTTP method. */
  predicate SpellsHttp(b: Data)
    requires |b| >= 4
  {
    b[..4] == HTTP_GET || b[..4] == HTTP_POST[..4] || b[..4] == HTTP_DELETE[..4] || b[..4] == HTTP_PUT
  }

  ghost predicate Sendable(f: Frame, padding: bool) {
    Wire(f, padding) && (f.Channel? ==> !SpellsHttp(ChannelHeader(f.n, |f.data|)))
  }

  ghost predicate AllSendable(frames: seq<Frame>, padding: bool) {
    forall i :: 0 <= i < |frames| ==> Sendable(frames[i], padding)
  }

  lemma MethodStart(b: Data)
    requires |b| >= 4 && HttpLength(b) > 0
    ensures SpellsHttp(b[..4])
  {
    hide First;
  }

  lemma SendableNotHttp(f: Frame, padding: bool, b: Data)
    requires Sendable(f, padding)
    requires b <= Encode(f, padding) || Encode(f, padding) <= b
    ensures !TakenForHttp(b)
  {
    hide ChannelHeader;
    match f
    case Stun(bytes) =>
      LowByte(bytes[0], bytes[1]);
      if HttpLength(b) > 0 {
        MethodByte(b);
      }
    case Channel(n, data, pad) =>
      if |b| >= 4 {
        assert Encode(f, padding)[..4] == ChannelHeader(n, |data|);
        assert b[..4] == ChannelHeader(n, |data|);
        if HttpLength(b) > 0 {
          MethodStart(b);
        }
      }
  }

  lemma {:induction false} SendableNoRequests(frames: seq<Frame>, last: Frame, k: nat, padding: bool)
    requires AllSendable(frames, padding) && Sendable(last, padding) && k < |Encode(last, padding)|
    ensures AllWire(frames, padding) && NoRequests(frames, last, Encode(last, padding)[..k], padding)
  {
    hide Encode, TakenForHttp, HttpLength, Wire;
    var part := Encode(last, padding)[..k];
    if frames == [] {
      SendableNotHttp(last, padding, part);
    } else {
      var e := Encode(frames[0], padding);
      SendableNoRequests(frames[1..], last, k, padding);
      assert Stream(frames, padding) + part == e + (Stream(frames[1..], padding) + part);
      SendableNotHttp(frames[0], padding, Stream(frames, padding) + part);
    }
  }

  /** So any stream is cut where it should be if no ChannelData header in it spells the start of a method. */
  lemma CutStream(frames: seq<Frame>, last: Frame, k: nat, padding: bool)
    requires AllSendable(frames, padding)
    requires Sendable(last, padding) && k < |Encode(last, padding)|
    ensures AllWire(frames, padding)
    ensures Cut(Stream(frames, padding) + Encode(last, padding)[..k], padding)
      == (Pieces(frames, padding), Encode(last, padding)[..k])
  {
    hide Encode, Cut, Stream, Pieces, NoRequests;
    SendableNoRequests(frames, last, k, padding);
    CutStreamExactly(frames, last, k, padding);
  }
}
