/** The khash flag words: two bits a bucket ("is empty", "is deleted"), sixteen buckets a word. */
module KhashFlags {

  datatype Flag = Live | Deleted | Empty

  function Code(f: Flag): bv32 {
    match f
    case Live => 0
    case Deleted => 1
    case Empty => 2
  }

  /** (i & 0xf) << 1 */
  function Shift(i: nat): (s: bv6)
    ensures s < 31
  {
    match i % 16
    case 0 => 0 case 1 => 2 case 2 => 4 case 3 => 6
    case 4 => 8 case 5 => 10 case 6 => 12 case 7 => 14
    case 8 => 16 case 9 => 18 case 10 => 20 case 11 => 22
    case 12 => 24 case 13 => 26 case 14 => 28
    case _ => 30
  }

  /** The two bits at shift s of a word. */
  function Field(w: bv32, s: bv6): bv32
    requires s < 31
  {
    (w >> s) & 3
  }

  /** __ac_set_isboth_false, __ac_set_isempty_false and __ac_set_isdel_true, on the bucket's word. */
  function BothFalse(w: bv32, s: bv6): bv32
    requires s < 31
  {
    w & !(3 << s)
  }

  function EmptyFalse(w: bv32, s: bv6): bv32
    requires s < 31
  {
    w & !(2 << s)
  }

  function DelTrue(w: bv32, s: bv6): bv32
    requires s < 31
  {
    w | (1 << s)
  }

  /** Number of words for m buckets. */
  function FlagWords(m: nat): nat {
    if m < 16 then 1 else m / 16
  }

  // ---------- setting the bits of one bucket leaves the other fifteen alone ----------

  ghost predicate IsShift(s: bv6) {
    || s == 0 || s == 2 || s == 4 || s == 6 || s == 8 || s == 10 || s == 12 || s == 14
    || s == 16 || s == 18 || s == 20 || s == 22 || s == 24 || s == 26 || s == 28 || s == 30
  }

  /** v is w with the field at shift s set to c and every other field as it was. */
  ghost predicate FieldSet(w: bv32, v: bv32, s: bv6, c: bv32)
    requires s < 31
  {
    && Field(v, s) == c
    && forall t: bv6 :: IsShift(t) && t != s ==> Field(v, t) == Field(w, t)
  }

  lemma Shifts(i: nat, j: nat)
    ensures IsShift(Shift(i))
    ensures Shift(i) == Shift(j) <==> i % 16 == j % 16
  {
  }

  lemma MasksApart(m: bv32, s: bv6, t: bv6)
    requires IsShift(s) && IsShift(t) && s != t && m <= 3
    ensures (m << s) & (3 << t) == 0
  {
  }

  lemma OutsideMask(w: bv32, a: bv32, t: bv6)
    requires IsShift(t) && a & (3 << t) == 0
    ensures Field(w & !a, t) == Field(w, t)
    ensures Field(w | a, t) == Field(w, t)
  {
  }

  lemma BothFalseOwn(w: bv32, t: bv6)
    requires IsShift(t)
    ensures Field(BothFalse(w, t), t) == 0
  {
  }

  lemma EmptyFalseOwn(w: bv32, t: bv6)
    requires IsShift(t)
    ensures Field(EmptyFalse(w, t), t) == Field(w, t) & 1
  {
    ShiftNot(w, 2, t);
    TwoBits(w >> t);
  }

  lemma ShiftNot(w: bv32, m: bv32, t: bv6)
    requires IsShift(t) && m <= 3
    ensures ((w & !(m << t)) >> t) & 3 == (w >> t) & 3 & !m
  {
  }

  lemma TwoBits(x: bv32)
    ensures x & 3 & !2 == x & 3 & 1
  {
  }

  lemma DelTrueOwn(w: bv32, t: bv6)
    requires IsShift(t)
    ensures Field(DelTrue(w, t), t) == Field(w, t) | 1
  {
  }

  lemma BothFalseOthers(w: bv32, s: bv6, t: bv6)
    requires IsShift(s) && IsShift(t) && s != t
    ensures Field(BothFalse(w, s), t) == Field(w, t)
  {
    hide Field;
    MasksApart(3, s, t);
    OutsideMask(w, 3 << s, t);
  }

  lemma EmptyFalseOthers(w: bv32, s: bv6, t: bv6)
    requires IsShift(s) && IsShift(t) && s != t
    ensures Field(EmptyFalse(w, s), t) == Field(w, t)
  {
    hide Field;
    MasksApart(2, s, t);
    OutsideMask(w, 2 << s, t);
  }

  lemma DelTrueOthers(w: bv32, s: bv6, t: bv6)
    requires IsShift(s) && IsShift(t) && s != t
    ensures Field(DelTrue(w, s), t) == Field(w, t)
  {
    hide Field;
    MasksApart(1, s, t);
    OutsideMask(w, 1 << s, t);
  }

  lemma BothFalseSets(w: bv32, s: bv6)
    requires IsShift(s)
    ensures FieldSet(w, BothFalse(w, s), s, Code(Live))
  {
    hide Field, BothFalse, EmptyFalse, DelTrue;
    BothFalseOwn(w, s);
    forall t: bv6 | IsShift(t) && t != s ensures Field(BothFalse(w, s), t) == Field(w, t) {
      BothFalseOthers(w, s, t);
    }
  }

  lemma EmptyFalseSets(w: bv32, s: bv6)
    requires IsShift(s)
    ensures FieldSet(w, EmptyFalse(w, s), s, Field(w, s) & 1)
  {
    hide Field, BothFalse, EmptyFalse, DelTrue;
    EmptyFalseOwn(w, s);
    forall t: bv6 | IsShift(t) && t != s ensures Field(EmptyFalse(w, s), t) == Field(w, t) {
      EmptyFalseOthers(w, s, t);
    }
  }

  lemma DelTrueSets(w: bv32, s: bv6)
    requires IsShift(s)
    ensures FieldSet(w, DelTrue(w, s), s, Field(w, s) | 1)
  {
    hide Field, BothFalse, EmptyFalse, DelTrue;
    DelTrueOwn(w, s);
    forall t: bv6 | IsShift(t) && t != s ensures Field(DelTrue(w, s), t) == Field(w, t) {
      DelTrueOthers(w, s, t);
    }
  }

  /** memset(..., 0xaa, ...): every field of the word says "empty". */
  lemma AllEmptyWord(i: nat)
    ensures Field(0xAAAA_AAAA, Shift(i)) == 2
  {
  }

  // ---------- the flag words of one table ----------

  /** The words of a table; st says what they mean, a bucket at a time. */
  class Flags {
    const words: array<bv32>
    ghost var st: seq<Flag>

    ghost predicate Valid()
      reads this, words
    {
      && |st| == 16 * words.Length
      && forall i {:trigger Field(words[i / 16], Shift(i))} :: 0 <= i < |st| ==> Field(words[i / 16], Shift(i)) == Code(st[i])
    }

    /** All buckets empty. */
    constructor (buckets: nat)
      requires buckets < 16 || buckets % 16 == 0
      ensures Valid() && fresh(words) && |st| >= buckets
      ensures forall i :: 0 <= i < |st| ==> st[i] == Empty
    {
      words := new bv32[FlagWords(buckets)](_ => 0xAAAA_AAAA);
      st := seq(16 * FlagWords(buckets), _ => Empty);
      new;
      forall i | 0 <= i < |st| ensures Field(words[i / 16], Shift(i)) == Code(st[i]) {
        AllEmptyWord(i);
      }
    }

    method IsEmpty(i: nat) returns (b: bool)
      requires Valid() && i < |st|
      ensures b == st[i].Empty?
    {
      assert Field(words[i / 16], Shift(i)) == Code(st[i]);
      b := (words[i / 16] >> Shift(i)) & 2 != 0;
    }

    method IsDel(i: nat) returns (b: bool)
      requires Valid() && i < |st|
      ensures b == st[i].Deleted?
    {
      assert Field(words[i / 16], Shift(i)) == Code(st[i]);
      b := (words[i / 16] >> Shift(i)) & 1 != 0;
    }

    method IsEither(i: nat) returns (b: bool)
      requires Valid() && i < |st|
      ensures b == !st[i].Live?
    {
      assert Field(words[i / 16], Shift(i)) == Code(st[i]);
      b := (words[i / 16] >> Shift(i)) & 3 != 0;
    }

    method SetIsBothFalse(i: nat)
      requires Valid() && i < |st|
      modifies this, words
      ensures Valid() && st == old(st)[i := Live]
    {
      hide Field, BothFalse, EmptyFalse, DelTrue;
      Shifts(i, i);
      BothFalseSets(words[i / 16], Shift(i));
      Store(i, BothFalse(words[i / 16], Shift(i)), Live);
    }

    method SetIsEmptyFalse(i: nat)
      requires Valid() && i < |st|
      modifies this, words
      ensures Valid() && st == old(st)[i := if old(st)[i].Empty? then Live else old(st)[i]]
    {
      hide Field, BothFalse, EmptyFalse, DelTrue;
      assert Field(words[i / 16], Shift(i)) == Code(st[i]);
      Shifts(i, i);
      EmptyFalseSets(words[i / 16], Shift(i));
      Store(i, EmptyFalse(words[i / 16], Shift(i)), if st[i].Empty? then Live else st[i]);
    }

    method SetIsDelTrue(i: nat)
      requires Valid() && i < |st| && !st[i].Empty?
      modifies this, words
      ensures Valid() && st == old(st)[i := Deleted]
    {
      hide Field, BothFalse, EmptyFalse, DelTrue;
      assert Field(words[i / 16], Shift(i)) == Code(st[i]);
      Shifts(i, i);
      DelTrueSets(words[i / 16], Shift(i));
      Store(i, DelTrue(words[i / 16], Shift(i)), Deleted);
    }

    /** Store a word that differs from the present one in the two bits of bucket i only. */
    method Store(i: nat, w: bv32, ghost f: Flag)
      requires Valid() && i < |st|
      requires FieldSet(words[i / 16], w, Shift(i), Code(f))
      modifies this, words
      ensures Valid() && st == old(st)[i := f]
    {
      hide Field;
      forall j | 0 <= j < |st| && j / 16 == i / 16 && j != i
        ensures Field(w, Shift(j)) == Code(st[j])
      {
        Shifts(i, j);
        Shifts(j, i);
        assert Field(words[j / 16], Shift(j)) == Code(st[j]);
      }
      assert forall j :: 0 <= j < |st| && j / 16 != i / 16 ==> Field(words[j / 16], Shift(j)) == Code(st[j]);
      words[i / 16] := w;
      st := st[i := f];
    }

    /** memset(flags, 0xaa, ...) of kh_clear. */
    method SetAllEmpty()
      requires Valid()
      modifies this, words
      ensures Valid() && |st| == old(|st|) && forall i :: 0 <= i < |st| ==> st[i] == Empty
    {
      var k := 0;
      while k < words.Length
        invariant 0 <= k <= words.Length && st == old(st)
        invariant forall j :: 0 <= j < k ==> words[j] == 0xAAAA_AAAA
      {
        words[k] := 0xAAAA_AAAA;
        k := k + 1;
      }
      st := seq(|st|, _ => Empty);
      assert |st| == 16 * words.Length;
      forall i | 0 <= i < |st| ensures Field(words[i / 16], Shift(i)) == Code(st[i]) {
        AllEmptyWord(i);
      }
    }
  }
}
