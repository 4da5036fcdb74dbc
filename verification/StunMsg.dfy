/** STUN messages as byte strings: the header, and the list of attributes behind it. */
module StunMsg {
  import opened Bytes
  import opened Options

  const STUN_HEADER_LENGTH := 20
  const MAX_STUN_MESSAGE_SIZE := 65507

  datatype Attr = Attr(t: nat, value: Data)

  // ---------- the length field ----------

  /** stun_get_command_message_len_str: how much of the buffer the message says it fills, -1 if that is too much. */
  function CommandLen(b: Data): (r: int)
    ensures r == -1 || STUN_HEADER_LENGTH <= r <= |b|
  {
    if |b| < STUN_HEADER_LENGTH then -1
    else
      var n := U16(b[2], b[3]) + STUN_HEADER_LENGTH;
      if n > |b| then -1 else n
  }

  /** stun_set_command_message_len_str */
  function SetLen(b: Data, n: nat): Data
    requires |b| >= 4 && n >= STUN_HEADER_LENGTH && Is16(n - STUN_HEADER_LENGTH)
  {
    b[2 := Hi(n - STUN_HEADER_LENGTH)][3 := Lo(n - STUN_HEADER_LENGTH)]
  }

  // ---------- walking over the attributes ----------

  /** Lengths are rounded up to a multiple of four. */
  function Rounded(n: nat): (r: nat)
    ensures n <= r < n + 4 && r % 4 == 0
  {
    if n % 4 == 0 then n else n + 4 - n % 4
  }

  function AttrType(b: Data, p: nat): nat
    requires p + 4 <= |b|
  {
    U16(b[p], b[p + 1])
  }

  function AttrLen(b: Data, p: nat): nat
    requires p + 4 <= |b|
  {
    U16(b[p + 2], b[p + 3])
  }

  /** Where the attribute after the one at p would start. */
  function After(b: Data, p: nat): (r: nat)
    requires p + 4 <= |b|
    ensures r >= p + 4
  {
    p + 4 + Rounded(AttrLen(b, p))
  }

  /** stun_attr_check_valid */
  function CheckValid(b: Data, p: nat, remaining: int): Option<nat>
    requires remaining >= 4 ==> p + 4 <= |b|
  {
    if remaining >= 4 && Rounded(AttrLen(b, p)) <= remaining - 4 then Some(p) else None
  }

  /** stun_attr_get_first_str */
  function GetFirst(b: Data): Option<nat> {
    if CommandLen(b) > STUN_HEADER_LENGTH
    then CheckValid(b, STUN_HEADER_LENGTH, CommandLen(b) - STUN_HEADER_LENGTH) else None
  }

  /** The attribute at p lies wholly between the header and the end of the message. */
  predicate Inside(b: Data, p: nat) {
    STUN_HEADER_LENGTH <= p && p + 4 <= CommandLen(b) && After(b, p) <= CommandLen(b)
  }

  /** stun_attr_get_next_str */
  function GetNext(b: Data, p: nat): Option<nat>
    requires Inside(b, p)
  {
    var end := CommandLen(b);
    if Rounded(AttrLen(b, p)) < end - p - 4 then CheckValid(b, After(b, p), end - After(b, p)) else None
  }

  /** Over any bytes at all: the walk only meets attributes inside the message, each behind the one before. */
  lemma WalkInside(b: Data)
    ensures GetFirst(b).Some? ==> GetFirst(b).value == STUN_HEADER_LENGTH && Inside(b, STUN_HEADER_LENGTH)
    ensures forall p :: Inside(b, p) && GetNext(b, p).Some? ==>
      GetNext(b, p).value == After(b, p) && Inside(b, After(b, p))
  {
  }

  /** Attributes of the message that do not overlap, in order. */
  ghost predicate InOrder(b: Data, ps: seq<nat>) {
    && (forall i :: 0 <= i < |ps| ==> Inside(b, ps[i]))
    && (forall i, j :: 0 <= i < j < |ps| ==> After(b, ps[i]) <= ps[j])
  }

  /** The attributes from one on, in the order of the walk. */
  function Walk(b: Data, o: Option<nat>): (ps: seq<nat>)
    requires o.Some? ==> Inside(b, o.value)
    ensures InOrder(b, ps) && (o.Some? ==> ps != [] && ps[0] == o.value)
    decreases if o.Some? then |b| - o.value else -1
  {
    if o.None? then []
    else
      WalkInside(b);
      hide After;
      [o.value] + Walk(b, GetNext(b, o.value))
  }

  function Positions(b: Data): (ps: seq<nat>)
    ensures InOrder(b, ps)
  {
    WalkInside(b);
    Walk(b, GetFirst(b))
  }

  function At(b: Data, p: nat): Attr
    requires Inside(b, p)
  {
    Attr(AttrType(b, p), b[p + 4..p + 4 + AttrLen(b, p)])
  }

  /** The attributes of a message. */
  function Attrs(b: Data): (r: seq<Attr>)
    ensures |r| == |Positions(b)|
  {
    var ps := Positions(b);
    seq(|ps|, i requires 0 <= i < |ps| => At(b, ps[i]))
  }

  /** The first position with the type. */
  function FindType(b: Data, ps: seq<nat>, t: nat): (r: Option<nat>)
    requires InOrder(b, ps)
    ensures r.None? ==> forall p :: p in ps ==> AttrType(b, p) != t
    ensures r.Some? ==> r.value in ps && AttrType(b, r.value) == t
    ensures r.Some? ==> forall p :: p in ps && p < r.value ==> AttrType(b, p) != t
  {
    if ps == [] then None
    else if AttrType(b, ps[0]) == t then Some(ps[0])
    else
      assert InOrder(b, ps[1..]);
      FindType(b, ps[1..], t)
  }

  /** stun_attr_get_first_by_type_str */
  method GetFirstByType(b: Data, t: nat) returns (r: Option<nat>)
    ensures r == FindType(b, Positions(b), t)
  {
    WalkInside(b);
    hide After, CommandLen, AttrType;
    r := GetFirst(b);
    while r.Some?
      invariant r.Some? ==> Inside(b, r.value)
      invariant FindType(b, Positions(b), t) == FindType(b, Walk(b, r), t)
      decreases if r.Some? then |b| - r.value else -1
    {
      if AttrType(b, r.value) == t {
        return;
      }
      assert Walk(b, r)[1..] == Walk(b, GetNext(b, r.value));
      r := GetNext(b, r.value);
    }
  }
}
