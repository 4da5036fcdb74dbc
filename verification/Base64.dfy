/** base64_encode and base64_decode (section 4 of RFC 4648). Characters are ASCII codes. */
module Base64 {
  import opened Bytes
  import opened Options

  const PAD: bv8 := 0x3D   // '='

  /** encoding_table: A to Z, a to z, 0 to 9, plus, slash. */
  function EncodingTable(x: bv8): bv8
    requires x < 64
  {
    if x < 26 then 0x41 + x
    else if x < 52 then 0x61 + (x - 26)
    else if x < 62 then 0x30 + (x - 52)
    else if x == 62 then 0x2B else 0x2F
  }

  /** What build_base64_decoding_table makes: 0 for what is not in the alphabet. */
  function DecodingTable(c: bv8): bv8 {
    if 0x41 <= c <= 0x5A then c - 0x41
    else if 0x61 <= c <= 0x7A then c - 0x61 + 26
    else if 0x30 <= c <= 0x39 then c - 0x30 + 52
    else if c == 0x2B then 62 else if c == 0x2F then 63 else 0
  }

  /** The alphabet: A and the letters after it, a and the letters after it, 0 and the digits after it, plus, slash. */
  lemma AlphabetIs(x: bv8)
    requires x < 63
    ensures EncodingTable(0) == 0x41 && EncodingTable(26) == 0x61 && EncodingTable(52) == 0x30
    ensures EncodingTable(62) == 0x2B && EncodingTable(63) == 0x2F
    ensures x != 25 && x != 51 && x != 61 && x != 62 ==> EncodingTable(x + 1) == EncodingTable(x) + 1
  {
  }

  /** What is not in the alphabet is read as 0. */
  lemma OthersAreZero(c: bv8)
    ensures (exists x: bv8 :: x < 64 && EncodingTable(x) == c) || DecodingTable(c) == 0
  {
    var x := DecodingTable(c);
    assert c == EncodingTable(x) || x == 0;
  }

  lemma TablesInverse(x: bv8)
    requires x < 64
    ensures DecodingTable(EncodingTable(x)) == x && EncodingTable(x) != PAD
  {
  }

  // ---------- what the encoding is ----------

  function Triple(a: bv8, b: bv8, c: bv8): bv32 {
    ((a as bv32) << 16) + ((b as bv32) << 8) + (c as bv32)
  }

  function Sextet(triple: bv32, shift: bv32): (x: bv8)
    requires shift <= 18
    ensures x < 64
  {
    ((triple >> shift) & 0x3F) as bv8
  }

  function Quad(triple: bv32): (q: Data)
    ensures |q| == 4
  {
    [EncodingTable(Sextet(triple, 18)), EncodingTable(Sextet(triple, 12)), EncodingTable(Sextet(triple, 6)),
     EncodingTable(Sextet(triple, 0))]
  }

  /** Three octets give four characters; one or two at the end give two or three, and padding. */
  function Encoded(data: Data): (s: Data)
    ensures |s| % 4 == 0
  {
    if |data| == 0 then []
    else if |data| == 1 then Quad(Triple(data[0], 0, 0))[..2] + [PAD, PAD]
    else if |data| == 2 then Quad(Triple(data[0], data[1], 0))[..3] + [PAD]
    else
      hide Quad;
      Quad(Triple(data[0], data[1], data[2])) + Encoded(data[3..])
  }

  // ---------- what decoding is ----------

  function Value(c: bv8): (x: bv8)
    ensures x < 64
  {
    if c == PAD then 0 else DecodingTable(c)
  }

  function TripleOf(q: Data): bv32
    requires |q| == 4
  {
    ((Value(q[0]) as bv32) << 18) + ((Value(q[1]) as bv32) << 12) + ((Value(q[2]) as bv32) << 6) + (Value(q[3]) as bv32)
  }

  function Octets(triple: bv32): (o: Data)
    ensures |o| == 3
  {
    [((triple >> 16) & 0xFF) as bv8, ((triple >> 8) & 0xFF) as bv8, (triple & 0xFF) as bv8]
  }

  /** Every quad, padding read as zeros. */
  function RawDecoded(s: Data): (o: Data)
    requires |s| % 4 == 0
    ensures |o| == |s| / 4 * 3
  {
    if |s| == 0 then [] else Octets(TripleOf(s[..4])) + RawDecoded(s[4..])
  }

  function OutputLength(s: Data): (n: nat)
    requires |s| % 4 == 0 && |s| > 0
    ensures n <= |s| / 4 * 3
  {
    |s| / 4 * 3 - (if s[|s| - 1] == PAD then 1 else 0) - (if s[|s| - 2] == PAD then 1 else 0)
  }

  // ---------- there and back ----------

  lemma SextetsMake(t: bv32)
    requires t <= 0xFF_FFFF
    ensures ((Sextet(t, 18) as bv32) << 18) + ((Sextet(t, 12) as bv32) << 12) + ((Sextet(t, 6) as bv32) << 6)
      + (Sextet(t, 0) as bv32) == t
  {
  }

  lemma TripleOctets(a: bv8, b: bv8, c: bv8)
    ensures Triple(a, b, c) <= 0xFF_FFFF && Octets(Triple(a, b, c)) == [a, b, c]
  {
  }

  lemma QuadBack(t: bv32)
    requires t <= 0xFF_FFFF
    ensures TripleOf(Quad(t)) == t
  {
    hide EncodingTable, DecodingTable, Sextet;
    TablesInverse(Sextet(t, 0));
    TablesInverse(Sextet(t, 6));
    TablesInverse(Sextet(t, 12));
    TablesInverse(Sextet(t, 18));
    SextetsMake(t);
  }

  lemma ShortTriples(a: bv8, b: bv8)
    ensures Sextet(Triple(a, 0, 0), 6) == 0 && Sextet(Triple(a, 0, 0), 0) == 0 && Sextet(Triple(a, b, 0), 0) == 0
  {
  }

  lemma LastQuad(a: bv8)
    ensures TripleOf(Quad(Triple(a, 0, 0))[..2] + [PAD, PAD]) == Triple(a, 0, 0)
  {
  }

  lemma LastQuads(a: bv8, b: bv8)
    ensures TripleOf(Quad(Triple(a, b, 0))[..3] + [PAD]) == Triple(a, b, 0)
  {
    TripleOctets(a, b, 0);
    QuadBack(Triple(a, b, 0));
    ShortTriples(a, b);
    TablesInverse(0);
    hide EncodingTable, DecodingTable, Sextet, Triple;
  }

  lemma NoPad(t: bv32)
    ensures PAD !in Quad(t)
  {
  }

  lemma OneQuad(q: Data)
    requires |q| == 4
    ensures RawDecoded(q) == Octets(TripleOf(q))
    ensures OutputLength(q) == 3 - (if q[3] == PAD then 1 else 0) - (if q[2] == PAD then 1 else 0)
  {
  }

  lemma MoreQuads(q: Data, s: Data)
    requires |q| == 4 && |s| % 4 == 0
    ensures RawDecoded(q + s) == Octets(TripleOf(q)) + RawDecoded(s)
    ensures |s| > 0 ==> OutputLength(q + s) == 3 + OutputLength(s)
  {
  }

  /** Decoding an encoding gives back the same octets, whatever the padding. */
  lemma {:induction false} RoundTrip(data: Data)
    requires |data| > 0
    ensures var s := Encoded(data);
      |s| > 0 && OutputLength(s) == |data| && RawDecoded(s)[..|data|] == data
  {
    hide Quad, Triple, Octets, TripleOf, RawDecoded, OutputLength;
    var s := Encoded(data);
    if |data| == 1 {
      LastQuad(data[0]);
      TripleOctets(data[0], 0, 0);
      OneQuad(s);
    } else if |data| == 2 {
      LastQuads(data[0], data[1]);
      TripleOctets(data[0], data[1], 0);
      NoPad(Triple(data[0], data[1], 0));
      OneQuad(s);
    } else {
      var t, rest := Triple(data[0], data[1], data[2]), data[3..];
      TripleOctets(data[0], data[1], data[2]);
      QuadBack(t);
      MoreQuads(Quad(t), Encoded(rest));
      assert data == [data[0], data[1], data[2]] + rest;
      if rest == [] {
        NoPad(t);
        assert Quad(t) + [] == Quad(t);
        OneQuad(Quad(t));
      } else {
        RoundTrip(rest);
      }
    }
  }

  // ---------- base64_encode ----------

  function OrZero(data: Data, i: nat): bv8 {
    if i < |data| then data[i] else 0
  }

  /** Quads only, the missing octets taken as zeros: what the first loop writes. */
  function RawEncoded(data: Data): (s: Data)
    ensures |s| % 4 == 0
    decreases |data|
  {
    if data == [] then []
    else
      hide Quad;
      Quad(Triple(data[0], OrZero(data, 1), OrZero(data, 2))) + RawEncoded(if |data| >= 3 then data[3..] else [])
  }

  /** mod_table */
  function ModTable(r: nat): nat
    requires r < 3
  {
    if r == 0 then 0 else if r == 1 then 2 else 1
  }

  lemma {:induction false} RawLength(data: Data)
    ensures |RawEncoded(data)| == 4 * ((|data| + 2) / 3)
  {
    hide Quad;
    if |data| >= 3 {
      RawLength(data[3..]);
    }
  }

  /** The encoding is the quads with the last characters replaced by padding. */
  lemma {:induction false} PaddedEncoding(data: Data)
    ensures |Encoded(data)| == |RawEncoded(data)| == 4 * ((|data| + 2) / 3) && ModTable(|data| % 3) <= |RawEncoded(data)|
    ensures var n, pads := |RawEncoded(data)|, ModTable(|data| % 3);
      forall i :: 0 <= i < n ==> Encoded(data)[i] == if i < n - pads then RawEncoded(data)[i] else PAD
  {
    hide Quad;
    RawLength(data);
    if |data| >= 3 {
      PaddedEncoding(data[3..]);
    }
  }

  /** base64_encode */
  method Encode(data: Data) returns (encoded: array<bv8>, outputLength: nat)
    ensures fresh(encoded) && encoded.Length == outputLength + 1 && encoded[outputLength] == 0
    ensures encoded[..outputLength] == Encoded(data)
  {
    hide Encoded;
    outputLength := 4 * ((|data| + 2) / 3);
    encoded := new bv8[outputLength + 1];
    PaddedEncoding(data);
    QuadLoop(data, encoded, outputLength);
    var i := 0;
    while i < ModTable(|data| % 3)
      invariant 0 <= i <= ModTable(|data| % 3)
      invariant forall k :: 0 <= k < outputLength - i ==> encoded[k] == RawEncoded(data)[k]
      invariant forall k :: outputLength - i <= k < outputLength ==> encoded[k] == PAD
    {
      encoded[outputLength - 1 - i] := PAD;
      i := i + 1;
    }
    encoded[outputLength] := 0;
  }

  /** The first loop of base64_encode. */
  method QuadLoop(data: Data, encoded: array<bv8>, outputLength: nat)
    requires outputLength == |RawEncoded(data)| && outputLength <= encoded.Length
    modifies encoded
    ensures encoded[..outputLength] == RawEncoded(data)
  {
    hide Quad, Triple, RawEncoded;
    var i, j := 0, 0;
    assert data[0..] == data;
    while i < |data|
      invariant 0 <= i <= |data| && 0 <= j <= outputLength
      invariant encoded[..j] + RawEncoded(data[i..]) == RawEncoded(data)
    {
      var next := if i + 3 <= |data| then i + 3 else |data|;
      var quad := Quad(Triple(data[i], OrZero(data, i + 1), OrZero(data, i + 2)));
      NextQuad(data, i, next);
      ghost var done, rest := encoded[..j], RawEncoded(data[next..]);
      Room(done, quad, rest, outputLength, RawEncoded(data));
      PutFour(encoded, j, quad);
      i, j := next, j + 4;
    }
    assert data[i..] == [];
    NoQuads();
  }

  lemma NoQuads()
    ensures RawEncoded([]) == []
  {
  }

  lemma Room(done: Data, quad: Data, rest: Data, n: nat, all: Data)
    requires done + (quad + rest) == all && |quad| == 4 && n == |all|
    ensures |done| + 4 <= n && (done + quad) + rest == all
  {
  }

  method PutFour(d: array<bv8>, j: nat, quad: Data)
    requires |quad| == 4 && j + 4 <= d.Length
    modifies d
    ensures d[..j + 4] == old(d[..j]) + quad
  {
    d[j], d[j + 1], d[j + 2], d[j + 3] := quad[0], quad[1], quad[2], quad[3];
  }

  lemma NextQuad(data: Data, i: nat, next: nat)
    requires i < |data| && next == if i + 3 <= |data| then i + 3 else |data|
    ensures RawEncoded(data[i..]) ==
      Quad(Triple(data[i], OrZero(data, i + 1), OrZero(data, i + 2))) + RawEncoded(data[next..])
  {
  }

  // ---------- base64_decode ----------

  /** base64_decode. The source looks at the last two characters first, so there must be some. */
  method Decode(s: Data) returns (decoded: Option<array<bv8>>)
    requires |s| > 0
    ensures |s| % 4 != 0 ==> decoded.None?
    ensures |s| % 4 == 0 ==> decoded.Some? && fresh(decoded.value)
    ensures |s| % 4 == 0 ==> decoded.value[..] == RawDecoded(s)[..OutputLength(s)]
  {
    hide Octets, TripleOf, RawDecoded;
    if |s| % 4 != 0 {
      return None;
    }
    var outputLength := OutputLength(s);
    var d := new bv8[outputLength];
    ghost var raw, q := RawDecoded(s), 0;
    var i, j := 0, 0;
    while i < |s|
      invariant 0 <= i <= |s| && i == 4 * q
      invariant j == if 3 * q <= outputLength then 3 * q else outputLength
      invariant d[..j] == raw[..j]
    {
      RawAt(s, q);
      MoreRaw(raw, q, j, outputLength, Octets(TripleOf(s[i..i + 4])));
      j := PutThree(d, j, Octets(TripleOf(s[i..i + 4])));
      i := i + 4;
      q := q + 1;
    }
    return Some(d);
  }

  lemma MoreRaw(raw: Data, q: nat, j: nat, limit: nat, octets: Data)
    requires |octets| == 3 && 3 * q + 3 <= |raw| && limit <= |raw| && raw[3 * q..3 * q + 3] == octets
    requires j == if 3 * q <= limit then 3 * q else limit
    ensures var j' := if j + 3 <= limit then j + 3 else limit;
      raw[..j] + octets[..j' - j] == raw[..j']
  {
  }

  /** Store three octets, or as many as there is room for. */
  method PutThree(d: array<bv8>, j: nat, octets: Data) returns (j': nat)
    requires |octets| == 3 && j <= d.Length
    modifies d
    ensures j' == if j + 3 <= d.Length then j + 3 else d.Length
    ensures d[..j'] == old(d[..j]) + octets[..j' - j]
  {
    j' := j;
    if j' < d.Length {
      d[j'] := octets[0];
      j' := j' + 1;
    }
    if j' < d.Length {
      d[j'] := octets[1];
      j' := j' + 1;
    }
    if j' < d.Length {
      d[j'] := octets[2];
      j' := j' + 1;
    }
  }

  lemma {:induction false} RawAt(s: Data, q: nat)
    requires |s| % 4 == 0 && 4 * q < |s|
    ensures 4 * q + 4 <= |s| && 3 * q + 3 <= |RawDecoded(s)|
    ensures RawDecoded(s)[3 * q..3 * q + 3] == Octets(TripleOf(s[4 * q..4 * q + 4]))
  {
    hide Octets, TripleOf;
    if q > 0 {
      RawAt(s[4..], q - 1);
      SameQuad(s, q);
      assert RawDecoded(s)[3..] == RawDecoded(s[4..]);
      var o := RawDecoded(s);
      assert o[3..][3 * (q - 1)..3 * (q - 1) + 3] == o[3 * q..3 * q + 3];
    }
  }

  lemma SameQuad(s: Data, q: nat)
    requires q > 0 && 4 * q + 4 <= |s|
    ensures s[4..][4 * (q - 1)..4 * (q - 1) + 4] == s[4 * q..4 * q + 4]
  {
  }

  /** Test vectors of section 10 of RFC 4648: foobar gives Zm9vYmFy, f gives Zg and two pads, fo gives Zm8 and one. */
  lemma Vectors()
    ensures Encoded([0x66, 0x6F, 0x6F, 0x62, 0x61, 0x72]) == [0x5A, 0x6D, 0x39, 0x76, 0x59, 0x6D, 0x46, 0x79]
    ensures Encoded([0x66]) == [0x5A, 0x67, 0x3D, 0x3D] && Encoded([0x66, 0x6F]) == [0x5A, 0x6D, 0x38, 0x3D]
    ensures Encoded([]) == []
  {
    hide Quad;
    var data: Data := [0x66, 0x6F, 0x6F, 0x62, 0x61, 0x72];
    assert data[3..] == [0x62, 0x61, 0x72];
    assert data[3..][3..] == [];
    LiteralQuads();
  }

  lemma LiteralQuads()
    ensures Quad(Triple(0x66, 0x6F, 0x6F)) == [0x5A, 0x6D, 0x39, 0x76]
    ensures Quad(Triple(0x62, 0x61, 0x72)) == [0x59, 0x6D, 0x46, 0x79]
    ensures Quad(Triple(0x66, 0, 0)) == [0x5A, 0x67, 0x41, 0x41]
    ensures Quad(Triple(0x66, 0x6F, 0)) == [0x5A, 0x6D, 0x38, 0x41]
  {
  }
}
