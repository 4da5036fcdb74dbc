/** is_http: the length of the HTTP request at the front of a byte stream. */
module Http {
  import opened Bytes
  import opened Options

  const HTTP_GET: Data := [0x47, 0x45, 0x54, 0x20]
  const HTTP_POST: Data := [0x50, 0x4F, 0x53, 0x54, 0x20]
  const HTTP_DELETE: Data := [0x44, 0x45, 0x4C, 0x45, 0x54, 0x45, 0x20]
  const HTTP_PUT: Data := [0x50, 0x55, 0x54, 0x20]
  /** A blank, HTTP, and a slash. */
  const HTTP_VERSION: Data := [0x20, 0x48, 0x54, 0x54, 0x50, 0x2F]
  const BLANK_LINE: Data := [0x0D, 0x0A, 0x0D, 0x0A]
  /** content-length, a colon and a blank. */
  const CONTENT_LENGTH: Data :=
    [0x63, 0x6F, 0x6E, 0x74, 0x65, 0x6E, 0x74, 0x2D, 0x6C, 0x65, 0x6E, 0x67, 0x74, 0x68, 0x3A, 0x20]
  const ULONG_MAX := 0xFFFF_FFFF_FFFF_FFFF
  const MAX_CONTENT := 0x0FFF_FFFF

  // ---------- searching ----------

  function ToLower(c: bv8): bv8 {
    if 0x41 <= c <= 0x5A then c + 0x20 else c
  }

  predicate SameChar(c: bv8, d: bv8, ignoreCase: bool) {
    c == d || (ignoreCase && ToLower(c) == ToLower(d))
  }

  /** Upper and lower case of the 26 letters are the same when case is ignored, and nothing else is. */
  lemma SameLetters(c: bv8, d: bv8)
    ensures SameChar(c, d, false) <==> c == d
    ensures SameChar(c, d, true) <==>
      || c == d || (0x41 <= c <= 0x5A && d == c + 0x20) || (0x41 <= d <= 0x5A && c == d + 0x20)
  {
  }

  predicate HeadAt(needle: Data, hay: Data, at: nat, ignoreCase: bool) {
    at + |needle| <= |hay| && forall k :: 0 <= k < |needle| ==> SameChar(needle[k], hay[at + k], ignoreCase)
  }

  /** The first place, from i on, at which the needle stands. */
  function FirstFrom(hay: Data, needle: Data, ignoreCase: bool, i: nat): (r: Option<nat>)
    ensures r.Some? ==> i <= r.value && HeadAt(needle, hay, r.value, ignoreCase)
    ensures r.Some? ==> forall j :: i <= j < r.value ==> !HeadAt(needle, hay, j, ignoreCase)
    ensures r.None? ==> forall j :: i <= j ==> !HeadAt(needle, hay, j, ignoreCase)
    decreases |hay| - i
  {
    if i + |needle| > |hay| then None
    else if HeadAt(needle, hay, i, ignoreCase) then Some(i)
    else FirstFrom(hay, needle, ignoreCase, i + 1)
  }

  function First(hay: Data, needle: Data, ignoreCase: bool): (r: Option<nat>)
    ensures r.Some? ==> r.value + |needle| <= |hay|
  {
    FirstFrom(hay, needle, ignoreCase, 0)
  }

  /** sheadof */
  method IsHeadOf(head: Data, full: Data, at: nat, ignoreCase: bool) returns (r: bool)
    requires at + |head| <= |full|
    ensures r <==> HeadAt(head, full, at, ignoreCase)
  {
    var k := 0;
    while k < |head|
      invariant k <= |head| && forall j :: 0 <= j < k ==> SameChar(head[j], full[at + j], ignoreCase)
    {
      if head[k] != full[at + k] && !(ignoreCase && ToLower(head[k]) == ToLower(full[at + k])) {
        return false;
      }
      k := k + 1;
    }
    return true;
  }

  /** findstr */
  method FindStr(hay: Data, needle: Data, ignoreCase: bool) returns (r: Option<nat>)
    requires needle != []
    ensures r == First(hay, needle, ignoreCase)
  {
    r := None;
    if |hay| != 0 && |needle| <= |hay| {
      var max := |hay| - |needle| + 1;
      var i := 0;
      while i < max
        invariant i <= max && First(hay, needle, ignoreCase) == FirstFrom(hay, needle, ignoreCase, i)
      {
        var here := IsHeadOf(needle, hay, i, ignoreCase);
        if here {
          return Some(i);
        }
        i := i + 1;
      }
    }
  }

  // ---------- strtoul with base 10 ----------

  predicate IsSpace(c: bv8) {
    c == 0x20 || 0x09 <= c <= 0x0D
  }

  predicate IsDigit(c: bv8) {
    0x30 <= c <= 0x39
  }

  function SkipSpaces(b: Data, i: nat): (j: nat)
    requires i <= |b|
    ensures i <= j <= |b|
    decreases |b| - i
  {
    if i < |b| && IsSpace(b[i]) then SkipSpaces(b, i + 1) else i
  }

  /** Take in the digits from i on. */
  function TakeDigits(b: Data, i: nat, sofar: nat): nat
    decreases |b| - i
  {
    if i < |b| && IsDigit(b[i]) then TakeDigits(b, i + 1, 10 * sofar + Val(b[i] - 0x30)) else sofar
  }

  /** strtoul of the text from i on; the end of b ends the number. */
  function Strtoul(b: Data, i: nat): nat
    requires i <= |b|
  {
    var j := SkipSpaces(b, i);
    var minus, plus := j < |b| && b[j] == 0x2D, j < |b| && b[j] == 0x2B;
    var n := TakeDigits(b, if minus || plus then j + 1 else j, 0);
    if n > ULONG_MAX then ULONG_MAX else if minus && n > 0 then ULONG_MAX + 1 - n else n
  }

  // ---------- is_http ----------

  predicate IsMethod(b: Data) {
    HTTP_GET <= b || HTTP_POST <= b || HTTP_DELETE <= b || HTTP_PUT <= b
  }

  /** The methods: GET, POST, DELETE and PUT, each with the blank behind it. */
  lemma MethodIs(b: Data)
    ensures IsMethod(b) <==>
      || (|b| >= 4 && (b[..4] == [0x47, 0x45, 0x54, 0x20] || b[..4] == [0x50, 0x55, 0x54, 0x20]))
      || (|b| >= 5 && b[..5] == [0x50, 0x4F, 0x53, 0x54, 0x20])
      || (|b| >= 7 && b[..7] == [0x44, 0x45, 0x4C, 0x45, 0x54, 0x45, 0x20])
  {
  }

  /** The length that the header announces for the content, where it counts. */
  function ContentLength(b: Data, end: nat): nat
    requires end <= |b|
  {
    match First(b[..end], CONTENT_LENGTH, true)
    case None => 0
    case Some(at) =>
      var n := Strtoul(b, at + |CONTENT_LENGTH|);
      if n < MAX_CONTENT then n else 0
  }

  /** The length of the request at the front, 0 for none. */
  function HttpLength(b: Data): nat {
    if |b| < 12 || !IsMethod(b) then 0
    else
      match First(b[4..], HTTP_VERSION, false)
      case None => 0
      case Some(v) =>
        var rest := v + 4 + |HTTP_VERSION|;
        match First(b[rest..], BLANK_LINE, false)
        case None => 0
        case Some(e) => rest + e + |BLANK_LINE| + ContentLength(b, rest + e)
  }

  /** is_http */
  method IsHttp(b: Data) returns (len: nat)
    ensures len == HttpLength(b)
  {
    hide First, IsMethod, Strtoul;
    len := 0;
    if |b| >= 12 && IsMethod(b) {
      var v := FindStr(b[4..], HTTP_VERSION, false);
      if v.Some? {
        var rest := v.value + 4 + |HTTP_VERSION|;
        if rest + 4 <= |b| {
          var e := FindStr(b[rest..], BLANK_LINE, false);
          if e.Some? {
            len := rest + e.value + 4;
            var cl := FindStr(b[..rest + e.value], CONTENT_LENGTH, true);
            if cl.Some? {
              var clen := Strtoul(b, cl.value + |CONTENT_LENGTH|);
              if 0 < clen < MAX_CONTENT {
                len := len + clen;
              }
            }
          }
        }
      }
    }
  }

  /** A blank line at e behind a version at v, both behind the method. */
  predicate Request(b: Data, v: nat, e: nat) {
    |b| >= 12 && IsMethod(b) && 4 <= v && v + |HTTP_VERSION| <= e
      && HeadAt(HTTP_VERSION, b, v, false) && HeadAt(BLANK_LINE, b, e, false)
  }

  lemma HeadAtShift(needle: Data, b: Data, from: nat, at: nat, ignoreCase: bool)
    requires from <= |b|
    ensures HeadAt(needle, b[from..], at, ignoreCase) <==> HeadAt(needle, b, from + at, ignoreCase)
  {
    if from + at + |needle| <= |b| {
      assert b[from + at..] == b[from..][at..];
    }
  }

  /** What is taken for an HTTP request: the bytes of a method, of a version and of a blank line, in this order; then
      the length is at least 14. */
  lemma HttpExactly(b: Data)
    ensures HttpLength(b) > 0 <==> exists v: nat, e: nat :: Request(b, v, e)
    ensures HttpLength(b) > 0 ==> HttpLength(b) >= 14
  {
    hide HeadAt, FirstFrom, IsMethod;
    if HttpLength(b) > 0 {
      var v := First(b[4..], HTTP_VERSION, false).value;
      var rest := v + 4 + |HTTP_VERSION|;
      var e := First(b[rest..], BLANK_LINE, false).value;
      HeadAtShift(HTTP_VERSION, b, 4, v, false);
      HeadAtShift(BLANK_LINE, b, rest, e, false);
      assert Request(b, v + 4, rest + e);
    }
    if v: nat, e: nat :| Request(b, v, e) {
      HeadAtShift(HTTP_VERSION, b, 4, v - 4, false);
      var w := First(b[4..], HTTP_VERSION, false).value;
      var rest := w + 4 + |HTTP_VERSION|;
      HeadAtShift(BLANK_LINE, b, rest, e - rest, false);
    }
  }

  // ---------- the length of a request ----------

  /** A number in decimal digits. */
  function Decimal(n: nat): (d: Data)
    ensures |d| > 0
  {
    if n < 10 then [Byte(0x30 + n)] else Decimal(n / 10) + [Byte(0x30 + n % 10)]
  }

  lemma DigitByte(k: nat)
    requires k < 10
    ensures IsDigit(Byte(0x30 + k)) && Val(Byte(0x30 + k) - 0x30) == k
  {
  }

  function Shifted(n: nat, sofar: nat): nat {
    if n < 10 then 10 * sofar + n else 10 * Shifted(n / 10, sofar) + n % 10
  }

  lemma {:induction false} NothingShifted(n: nat)
    ensures Shifted(n, 0) == n
  {
    if n < 10 {
    } else {
      NothingShifted(n / 10);
    }
  }

  lemma {:induction false} DigitsTaken(b: Data, i: nat, n: nat, sofar: nat)
    requires i + |Decimal(n)| <= |b| && b[i..i + |Decimal(n)|] == Decimal(n)
    ensures TakeDigits(b, i, sofar) == TakeDigits(b, i + |Decimal(n)|, Shifted(n, sofar))
  {
    hide Byte, TakeDigits, Val, IsDigit;
    var d := Decimal(n);
    DigitByte(n % 10);
    if n < 10 {
      assert b[i] == b[i..i + |d|][0];
      OneDigit(b, i, sofar);
    } else {
      var front := Decimal(n / 10);
      assert b[i..i + |front|] == b[i..i + |d|][..|front|];
      DigitsTaken(b, i, n / 10, sofar);
      assert b[i + |front|] == b[i..i + |d|][|front|];
      OneDigit(b, i + |front|, Shifted(n / 10, sofar));
    }
  }

  lemma OneDigit(b: Data, i: nat, sofar: nat)
    requires i < |b| && IsDigit(b[i])
    ensures TakeDigits(b, i, sofar) == TakeDigits(b, i + 1, 10 * sofar + Val(b[i] - 0x30))
  {
  }

  /** strtoul reads a decimal number, whatever blanks come before and whatever but a digit comes after it. */
  lemma NumberRead(b: Data, i: nat, n: nat)
    requires i + |Decimal(n)| <= |b| && b[i..i + |Decimal(n)|] == Decimal(n) && n <= 0xFFFF_FFFF_FFFF_FFFF
    requires i + |Decimal(n)| < |b| ==> !(0x30 <= b[i + |Decimal(n)|] <= 0x39)
    ensures Strtoul(b, i) == n
    ensures i > 0 && (0x09 <= b[i - 1] <= 0x0D || b[i - 1] == 0x20 || b[i - 1] == 0x2B) ==> Strtoul(b, i - 1) == n
    ensures i > 0 && b[i - 1] == 0x2D ==> Strtoul(b, i - 1) == (0x1_0000_0000_0000_0000 - n) % 0x1_0000_0000_0000_0000
  {
    DigitsTaken(b, i, n, 0);
    NothingShifted(n);
    FirstDigit(n);
    assert b[i] == b[i..i + |Decimal(n)|][0];
    assert TakeDigits(b, i + |Decimal(n)|, n) == n;
    hide Decimal, TakeDigits, Strtoul, IsDigit;
    PlainRead(b, i, n);
    if i > 0 {
      SignRead(b, i, n);
    }
  }

  lemma PlainRead(b: Data, i: nat, n: nat)
    requires i < |b| && IsDigit(b[i]) && TakeDigits(b, i, 0) == n <= ULONG_MAX
    ensures SkipSpaces(b, i) == i && Strtoul(b, i) == n
  {
    hide TakeDigits;
  }

  lemma SignRead(b: Data, i: nat, n: nat)
    requires 0 < i < |b| && IsDigit(b[i]) && TakeDigits(b, i, 0) == n <= ULONG_MAX
    ensures IsSpace(b[i - 1]) || b[i - 1] == 0x2B ==> Strtoul(b, i - 1) == n
    ensures b[i - 1] == 0x2D ==> Strtoul(b, i - 1) == (ULONG_MAX + 1 - n) % (ULONG_MAX + 1)
  {
    hide TakeDigits;
    PlainRead(b, i, n);
  }

  lemma {:induction false} FirstDigit(n: nat)
    ensures IsDigit(Decimal(n)[0])
  {
    hide Byte;
    DigitByte(n % 10);
    if n < 10 {
    } else {
      FirstDigit(n / 10);
    }
  }

  /** The first version behind the method, and the first blank line behind that. */
  ghost predicate FirstRequest(b: Data, v: nat, e: nat) {
    && Request(b, v, e)
    && (forall j :: 4 <= j < v ==> !HeadAt(HTTP_VERSION, b, j, false))
    && (forall j :: v + |HTTP_VERSION| <= j < e ==> !HeadAt(BLANK_LINE, b, j, false))
  }

  /** The first content-length header before the end of the header. */
  ghost predicate FirstContent(b: Data, at: nat, e: nat) {
    && at + |CONTENT_LENGTH| <= e && HeadAt(CONTENT_LENGTH, b, at, true)
    && forall j :: 0 <= j < at ==> !HeadAt(CONTENT_LENGTH, b, j, true)
  }

  /** A decimal number stands at i, and no digit behind it. */
  ghost predicate NumberAt(b: Data, i: nat, n: nat) {
    && i + |Decimal(n)| <= |b| && b[i..i + |Decimal(n)|] == Decimal(n) && n <= 0xFFFF_FFFF_FFFF_FFFF
    && (i + |Decimal(n)| < |b| ==> !(0x30 <= b[i + |Decimal(n)|] <= 0x39))
  }

  /** The length of a request whose header does not announce a content. */
  lemma RequestWithoutContent(b: Data, v: nat, e: nat)
    requires FirstRequest(b, v, e) && forall at :: !FirstContent(b, at, e)
    ensures HttpLength(b) == e + 4
  {
    hide HttpLength, First, Strtoul, HeadAt, IsMethod, FirstContent;
    FirstPlaces(b, v, e);
    ContentIs(b, e);
  }

  /** The length of a request with a content-length header: the header with its blank line, and the number there, if
      that is below 0x0FFFFFFF. */
  lemma RequestWithContent(b: Data, v: nat, e: nat, at: nat, n: nat)
    requires FirstRequest(b, v, e) && FirstContent(b, at, e) && NumberAt(b, at + 16, n)
    ensures HttpLength(b) == e + 4 + if n < 0x0FFF_FFFF then n else 0
  {
    hide HttpLength, First, Strtoul, HeadAt, IsMethod, Decimal, FirstContent, ContentLength;
    FirstPlaces(b, v, e);
    ContentIs(b, e);
    NumberRead(b, at + 16, n);
  }

  lemma FirstPlaces(b: Data, v: nat, e: nat)
    requires FirstRequest(b, v, e)
    ensures e + |BLANK_LINE| <= |b| && HttpLength(b) == e + |BLANK_LINE| + ContentLength(b, e)
  {
    hide HeadAt, IsMethod, ContentLength;
    HeadsIn(b);
    FirstIs(b[4..], HTTP_VERSION, v - 4);
    var rest := v + |HTTP_VERSION|;
    FirstIs(b[rest..], BLANK_LINE, e - rest);
    HeadAtInside(BLANK_LINE, b, e, false);
  }

  lemma HeadAtInside(needle: Data, b: Data, at: nat, ignoreCase: bool)
    requires HeadAt(needle, b, at, ignoreCase)
    ensures at + |needle| <= |b|
  {
  }

  lemma HeadsIn(b: Data)
    ensures forall needle, from: nat, at: nat | from <= |b| ::
      HeadAt(needle, b[from..], at, false) <==> HeadAt(needle, b, from + at, false)
  {
    forall needle, from: nat, at: nat | from <= |b|
      ensures HeadAt(needle, b[from..], at, false) <==> HeadAt(needle, b, from + at, false)
    {
      HeadAtShift(needle, b, from, at, false);
    }
  }

  lemma FirstIs(hay: Data, needle: Data, at: nat)
    requires HeadAt(needle, hay, at, false) && forall j :: 0 <= j < at ==> !HeadAt(needle, hay, j, false)
    ensures First(hay, needle, false) == Some(at)
  {
    hide HeadAt, FirstFrom;
  }

  lemma ContentIs(b: Data, e: nat)
    requires e <= |b|
    ensures (forall at :: !FirstContent(b, at, e)) ==> ContentLength(b, e) == 0
    ensures forall at: nat | FirstContent(b, at, e) ::
      at + |CONTENT_LENGTH| <= |b|
      && var n := Strtoul(b, at + |CONTENT_LENGTH|);
      ContentLength(b, e) == if n < MAX_CONTENT then n else 0
  {
    forall at: nat ensures HeadAt(CONTENT_LENGTH, b[..e], at, true)
      <==> at + |CONTENT_LENGTH| <= e && HeadAt(CONTENT_LENGTH, b, at, true)
    {
    }
    hide HeadAt, FirstFrom, Strtoul;
    var o := First(b[..e], CONTENT_LENGTH, true);
    if o.Some? {
      assert FirstContent(b, o.value, e);
    }
  }

  /** A method, and a version and a blank line right behind it, are a request of fourteen bytes. */
  lemma ShortRequest(b: Data)
    requires HTTP_GET + HTTP_VERSION + BLANK_LINE <= b
    ensures HttpLength(b) == 14
  {
    hide FirstFrom;
    assert b[..14] == HTTP_GET + HTTP_VERSION + BLANK_LINE;
    StandsAt(HTTP_VERSION, b, 4);
    HeadAtShift(HTTP_VERSION, b, 4, 0, false);
    assert First(b[4..], HTTP_VERSION, false) == Some(0) by { AtOnce(b[4..], HTTP_VERSION); }
    StandsAt(BLANK_LINE, b, 10);
    HeadAtShift(BLANK_LINE, b, 10, 0, false);
    assert First(b[10..], BLANK_LINE, false) == Some(0) by { AtOnce(b[10..], BLANK_LINE); }
    assert HTTP_GET <= b;
    assert First(b[..10], CONTENT_LENGTH, true).None?;
  }

  lemma StandsAt(needle: Data, b: Data, at: nat)
    requires at + |needle| <= |b| && b[at..at + |needle|] == needle
    ensures HeadAt(needle, b, at, false)
  {
    forall k {:trigger needle[k]} | 0 <= k < |needle|
      ensures needle[k] == b[at + k]
    {
      assert b[at + k] == b[at..at + |needle|][k];
    }
  }

  lemma AtOnce(hay: Data, needle: Data)
    requires HeadAt(needle, hay, 0, false)
    ensures First(hay, needle, false) == Some(0)
  {
  }

  lemma MethodByte(b: Data)
    requires HttpLength(b) > 0
    ensures |b| >= 12 && (b[0] == 0x47 || b[0] == 0x50 || b[0] == 0x44)
  {
    hide First;
  }
}
