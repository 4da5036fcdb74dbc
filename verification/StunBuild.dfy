/** Adding attributes to a STUN message, and reading them back. */
module StunBuild {
  import opened Bytes
  import opened Options
  import opened StunMsg

  // ---------- what stun_attr_add_str makes of a message ----------

  function Zeros(n: nat): (z: Data)
    ensures |z| == n
  {
    seq(n, _ => 0)
  }

  /** The message length after adding a value of alen bytes. */
  function NewLen(clen: nat, alen: nat): nat {
    Rounded(clen + 4 + alen)
  }

  predicate Fits(clen: nat, alen: nat) {
    NewLen(clen, alen) < MAX_STUN_MESSAGE_SIZE
  }

  function AttrHeader(t: nat, alen: nat): (r: Data)
    requires Is16(t) && Is16(alen)
    ensures |r| == 4
  {
    [Hi(t), Lo(t), Hi(alen), Lo(alen)]
  }

  /** Message, new attribute, padding. */
  function Added(m: Data, t: nat, value: Data): (r: Data)
    requires |m| >= STUN_HEADER_LENGTH && Is16(t) && Fits(|m|, |value|)
    ensures |r| == NewLen(|m|, |value|)
  {
    var n := NewLen(|m|, |value|);
    SetLen(m, n) + AttrHeader(t, |value|) + value + Zeros(n - |m| - 4 - |value|)
  }

  function Patch(b: Data, at: nat, data: Data): (r: Data)
    requires at + |data| <= |b|
    ensures |r| == |b|
  {
    b[..at] + data + b[at + |data|..]
  }

  /** memcpy and memset into the buffer. */
  method Write(buf: array<bv8>, at: nat, data: Data)
    requires at + |data| <= buf.Length
    modifies buf
    ensures buf[..] == Patch(old(buf[..]), at, data)
  {
    forall i | 0 <= i < |data| {
      buf[at + i] := data[i];
    }
    assert buf[at..at + |data|] == data;
    assert buf[..] == buf[..at] + buf[at..at + |data|] + buf[at + |data|..];
  }

  /** stun_set_command_message_len_str */
  method WriteLen(buf: array<bv8>, n: nat)
    requires buf.Length >= 4 && n >= STUN_HEADER_LENGTH && Is16(n - STUN_HEADER_LENGTH)
    modifies buf
    ensures buf[..] == SetLen(old(buf[..]), n)
  {
    hide Hi, Lo;
    buf[2], buf[3] := Hi(n - STUN_HEADER_LENGTH), Lo(n - STUN_HEADER_LENGTH);
  }

  /** stun_attr_add_str: in a buffer big enough for any message. An attribute that does not fit changes nothing. */
  method AddAttr(buf: array<bv8>, len: nat, t: nat, value: Data) returns (ok: bool, newLen: nat)
    requires len <= buf.Length && MAX_STUN_MESSAGE_SIZE <= buf.Length && Is16(t)
    requires CommandLen(buf[..len]) >= 0
    modifies buf
    ensures var m := old(buf[..CommandLen(buf[..len])]);
      && (ok <==> Fits(|m|, |value|)) && (ok <==> Rounded(|m| + 4 + |value|) < 65507)
      && (ok ==> newLen == NewLen(|m|, |value|) && newLen <= buf.Length && buf[..newLen] == Added(m, t, value))
    ensures ok ==> buf[newLen..] == old(buf[newLen..])
    ensures !ok ==> newLen == len && buf[..] == old(buf[..])
  {
    hide Hi, Lo, U16, AttrHeader, SetLen, Patch, Added, Zeros;
    var clen := CommandLen(buf[..len]);
    var n := clen + 4 + |value|;
    var padding := 0;
    if n % 4 != 0 {
      padding := 4 - n % 4;
      n := n + padding;
    }
    if n >= MAX_STUN_MESSAGE_SIZE {
      return false, len;
    }
    ghost var all := buf[..];
    WriteLen(buf, n);
    Write(buf, clen, AttrHeader(t, |value|));
    Write(buf, clen + 4, value);
    Write(buf, clen + 4 + |value|, Zeros(padding));
    AddedInPlace(all, clen, t, value);
    assert buf[..] == InPlace(all, clen, t, value);
    return true, n;
  }

  /** The buffer after the four writes of stun_attr_add_str. */
  function InPlace(all: Data, clen: nat, t: nat, value: Data): (r: Data)
    requires STUN_HEADER_LENGTH <= clen && Is16(t) && Fits(clen, |value|) && NewLen(clen, |value|) <= |all|
    ensures |r| == |all|
  {
    var n := NewLen(clen, |value|);
    var b := Patch(Patch(SetLen(all, n), clen, AttrHeader(t, |value|)), clen + 4, value);
    Patch(b, clen + 4 + |value|, Zeros(n - clen - 4 - |value|))
  }

  lemma PatchFront(b: Data, at: nat, data: Data)
    requires at + |data| <= |b|
    ensures Patch(b, at, data)[..at + |data|] == b[..at] + data
    ensures forall n :: at + |data| <= n <= |b| ==> Patch(b, at, data)[n..] == b[n..]
  {
  }

  lemma SetLenFront(all: Data, clen: nat, n: nat)
    requires STUN_HEADER_LENGTH <= clen <= |all| && n >= STUN_HEADER_LENGTH && Is16(n - STUN_HEADER_LENGTH)
    ensures SetLen(all, n)[..clen] == SetLen(all[..clen], n)
    ensures forall k :: clen <= k <= |all| ==> SetLen(all, n)[k..] == all[k..]
  {
  }

  lemma AddedInPlace(all: Data, clen: nat, t: nat, value: Data)
    requires STUN_HEADER_LENGTH <= clen && Is16(t) && Fits(clen, |value|) && NewLen(clen, |value|) <= |all|
    ensures var n, b := NewLen(clen, |value|), InPlace(all, clen, t, value);
      b[..n] == Added(all[..clen], t, value) && b[n..] == all[n..]
  {
    var n := NewLen(clen, |value|);
    hide AttrHeader, Zeros, Patch, SetLen, NewLen;
    var b0 := SetLen(all, n);
    SetLenFront(all, clen, n);
    PatchFront(b0, clen, AttrHeader(t, |value|));
    var b1 := Patch(b0, clen, AttrHeader(t, |value|));
    PatchFront(b1, clen + 4, value);
    var b2 := Patch(b1, clen + 4, value);
    PatchFront(b2, clen + 4 + |value|, Zeros(n - clen - 4 - |value|));
  }

  // ---------- messages that are a header and attributes, without gaps ----------

  predicate TiledFrom(m: Data, p: nat)
    requires p <= |m|
    decreases |m| - p
  {
    p == |m| || (p + 4 <= |m| && After(m, p) <= |m| && TiledFrom(m, After(m, p)))
  }

  /** Well-formed: the length is right, and the attributes fill the message. */
  predicate Tiled(m: Data) {
    CommandLen(m) == |m| && |m| % 4 == 0 && TiledFrom(m, STUN_HEADER_LENGTH)
  }

  lemma AddedLength(m: Data, t: nat, value: Data)
    requires |m| >= STUN_HEADER_LENGTH && Is16(t) && Fits(|m|, |value|)
    ensures var m' := Added(m, t, value);
      && CommandLen(m') == |m'|
      && (forall i :: 0 <= i < |m| && i != 2 && i != 3 ==> m'[i] == m[i])
  {
    hide U16, Hi, Lo;
    var n := NewLen(|m|, |value|);
    U16Back(n - STUN_HEADER_LENGTH);
    var m' := Added(m, t, value);
    assert m'[2] == Hi(n - STUN_HEADER_LENGTH) && m'[3] == Lo(n - STUN_HEADER_LENGTH);
  }

  lemma AddedLast(m: Data, t: nat, value: Data)
    requires |m| >= STUN_HEADER_LENGTH && |m| % 4 == 0 && Is16(t) && Fits(|m|, |value|)
    ensures var m' := Added(m, t, value);
      AttrType(m', |m|) == t && AttrLen(m', |m|) == |value| && After(m', |m|) == |m'|
      && m'[|m| + 4..|m| + 4 + |value|] == value
  {
    hide U16, Hi, Lo;
    var m' := Added(m, t, value);
    assert m'[|m|..|m| + 4] == AttrHeader(t, |value|);
    assert m'[|m|] == Hi(t) && m'[|m| + 1] == Lo(t) && m'[|m| + 2] == Hi(|value|) && m'[|m| + 3] == Lo(|value|);
    U16Back(t);
    U16Back(|value|);
  }

  // ---------- reading back ----------

  /** The attribute that would start at p, if the message goes on there. */
  function Head(m: Data, p: nat): Option<nat>
    requires p <= |m|
  {
    CheckValid(m, p, |m| - p)
  }

  lemma HeadNext(m: Data, p: nat)
    requires CommandLen(m) == |m| && STUN_HEADER_LENGTH <= p <= |m| && TiledFrom(m, p)
    ensures p == |m| ==> Head(m, p) == None
    ensures p < |m| ==> Inside(m, p) && Head(m, p) == Some(p) && GetNext(m, p) == Head(m, After(m, p))
  {
  }

  /** m' is m with one attribute more at the end. */
  ghost predicate Extends(m: Data, m': Data, t: nat, value: Data) {
    && CommandLen(m) == |m| && CommandLen(m') == |m'| && |m| + 4 <= |m'|
    && (forall i :: 4 <= i < |m| ==> m'[i] == m[i])
    && AttrType(m', |m|) == t && AttrLen(m', |m|) == |value| && After(m', |m|) == |m'|
    && m'[|m| + 4..|m| + 4 + |value|] == value
  }

  lemma AddedExtends(m: Data, t: nat, value: Data)
    requires CommandLen(m) == |m| && |m| % 4 == 0 && Is16(t) && Fits(|m|, |value|)
    ensures Extends(m, Added(m, t, value), t, value)
  {
    hide U16, SetLen, AttrHeader;
    AddedLength(m, t, value);
    AddedLast(m, t, value);
  }

  lemma SameHead(m: Data, m': Data, t: nat, value: Data, p: nat)
    requires Extends(m, m', t, value) && STUN_HEADER_LENGTH <= p && p + 4 <= |m|
    ensures AttrType(m', p) == AttrType(m, p) && AttrLen(m', p) == AttrLen(m, p) && After(m', p) == After(m, p)
  {
    hide U16, CommandLen;
  }

  lemma SameAt(m: Data, m': Data, t: nat, value: Data, p: nat)
    requires Extends(m, m', t, value) && Inside(m, p) && Inside(m', p)
    ensures At(m', p) == At(m, p)
  {
    hide Extends, AttrType, AttrLen, After, Inside, CommandLen;
    InsideEnds(m, p);
    SameHead(m, m', t, value, p);
    SameValue(m, m', t, value, p + 4, p + 4 + AttrLen(m, p));
  }

  lemma SameValue(m: Data, m': Data, t: nat, value: Data, i: nat, j: nat)
    requires Extends(m, m', t, value) && 4 <= i <= j <= |m|
    ensures m'[i..j] == m[i..j]
  {
    hide AttrType, AttrLen, After, CommandLen;
    SameSlice(m, m', i, j);
  }

  lemma InsideEnds(m: Data, p: nat)
    requires Inside(m, p)
    ensures STUN_HEADER_LENGTH <= p && p + 4 + AttrLen(m, p) <= |m|
  {
  }

  lemma SameSlice(m: Data, m': Data, i: nat, j: nat)
    requires i <= j <= |m| <= |m'| && forall k :: i <= k < j ==> m'[k] == m[k]
    ensures m'[i..j] == m[i..j]
  {
  }

  /** The walk over the longer message meets the same attributes, then the new one. */
  lemma {:induction false} WalkExtends(m: Data, m': Data, t: nat, value: Data, p: nat)
    requires Extends(m, m', t, value) && STUN_HEADER_LENGTH <= p <= |m| && TiledFrom(m, p)
    ensures TiledFrom(m', p)
    ensures (Head(m, p).Some? ==> Inside(m, p)) && (Head(m', p).Some? ==> Inside(m', p))
    ensures Walk(m', Head(m', p)) == Walk(m, Head(m, p)) + [|m|]
    decreases |m| - p
  {
    hide Head, Inside, GetNext, CommandLen, AttrType, AttrLen;
    if p == |m| {
      assert TiledFrom(m', |m'|);
      HeadNext(m, p);
      HeadNext(m', p);
      HeadNext(m', |m'|);
    } else {
      WalkExtends(m, m', t, value, After(m, p));
      SameHead(m, m', t, value, p);
      HeadNext(m, p);
      HeadNext(m', p);
    }
  }

  lemma FirstIsHead(m: Data)
    requires Tiled(m)
    ensures GetFirst(m) == Head(m, STUN_HEADER_LENGTH)
    ensures Head(m, STUN_HEADER_LENGTH).Some? ==> Inside(m, STUN_HEADER_LENGTH)
    ensures Positions(m) == Walk(m, Head(m, STUN_HEADER_LENGTH))
  {
  }

  lemma ExtendsAttrs(m: Data, m': Data, t: nat, value: Data)
    requires Tiled(m) && Extends(m, m', t, value) && |m'| % 4 == 0
    ensures Tiled(m') && Positions(m') == Positions(m) + [|m|]
    ensures Attrs(m') == Attrs(m) + [Attr(t, value)]
  {
    hide Head, After, CommandLen, Walk, Inside;
    WalkExtends(m, m', t, value, STUN_HEADER_LENGTH);
    FirstIsHead(m);
    FirstIsHead(m');
    var ps := Positions(m);
    assert Positions(m')[|ps|] == |m|;
    assert At(m', |m|) == Attr(t, value);
    forall i | 0 <= i < |ps| ensures Attrs(m')[i] == Attrs(m)[i] {
      assert Positions(m')[i] == ps[i];
      SameAt(m, m', t, value, ps[i]);
    }
  }

  /** An attribute that is added to a well-formed message is the last one, and the others are as before. */
  lemma AddedAttrs(m: Data, t: nat, value: Data)
    requires Tiled(m) && Is16(t) && Fits(|m|, |value|)
    ensures var m' := Added(m, t, value);
      && Tiled(m') && Positions(m') == Positions(m) + [|m|]
      && Attrs(m') == Attrs(m) + [Attr(t, value)]
  {
    hide Added, Extends, Positions, Attrs, TiledFrom, CommandLen;
    AddedExtends(m, t, value);
    ExtendsAttrs(m, Added(m, t, value), t, value);
  }

  // ---------- whole lists ----------

  predicate Legal(attrs: seq<Attr>) {
    forall a :: a in attrs ==> Is16(a.t)
  }

  lemma RoundedLast(clen: nat, alen: nat)
    requires clen % 4 == 0
    ensures NewLen(clen, alen) == clen + 4 + Rounded(alen)
  {
    MultipleOfFour(clen / 4 + 1, alen);
  }

  lemma MultipleOfFour(k: nat, a: nat)
    ensures (4 * k + a) % 4 == a % 4
  {
  }

  function TotalLen(attrs: seq<Attr>): (n: nat)
    ensures n >= STUN_HEADER_LENGTH && n % 4 == 0
  {
    if attrs == [] then STUN_HEADER_LENGTH
    else TotalLen(attrs[..|attrs| - 1]) + 4 + Rounded(|attrs[|attrs| - 1].value|)
  }

  /** A header, then one stun_attr_add_str after the other. */
  function Build(header: Data, attrs: seq<Attr>): (m: Data)
    requires |header| == STUN_HEADER_LENGTH && Legal(attrs) && TotalLen(attrs) < MAX_STUN_MESSAGE_SIZE
    ensures |m| == TotalLen(attrs)
  {
    if attrs == [] then header
    else
      hide Rounded, Added;
      var last := attrs[|attrs| - 1];
      RoundedLast(TotalLen(attrs[..|attrs| - 1]), |last.value|);
      Added(Build(header, attrs[..|attrs| - 1]), last.t, last.value)
  }

  lemma NoAttrs(header: Data)
    requires |header| == STUN_HEADER_LENGTH && CommandLen(header) == STUN_HEADER_LENGTH
    ensures Tiled(header) && Attrs(header) == []
  {
  }

  /** Whatever list of attributes is put into a fresh header, the walk returns exactly that list. */
  lemma {:induction false} BuildAttrs(header: Data, attrs: seq<Attr>)
    requires |header| == STUN_HEADER_LENGTH && CommandLen(header) == STUN_HEADER_LENGTH
    requires Legal(attrs) && TotalLen(attrs) < MAX_STUN_MESSAGE_SIZE
    ensures Tiled(Build(header, attrs)) && Attrs(Build(header, attrs)) == attrs
  {
    hide U16, Added, Positions, Attrs;
    if attrs == [] {
      NoAttrs(header);
    } else {
      var front, last := attrs[..|attrs| - 1], attrs[|attrs| - 1];
      BuildAttrs(header, front);
      RoundedLast(TotalLen(front), |last.value|);
      AddedAttrs(Build(header, front), last.t, last.value);
      assert attrs == front + [last];
    }
  }
}
