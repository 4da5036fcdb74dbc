/** Bytes on the wire, big-endian. */
module Bytes {
  type Data = seq<bv8>

  function Val(b: bv8): (n: nat)
    ensures n < 256
  {
    b as int
  }

  /** The lower bits of a byte, for a number less than twice the weight. */
  function Byte1(n: nat): bv8 { if n >= 1 then 1 else 0 }
  function Byte2(n: nat): bv8 { if n >= 2 then 2 | Byte1(n - 2) else Byte1(n) }
  function Byte4(n: nat): bv8 { if n >= 4 then 4 | Byte2(n - 4) else Byte2(n) }
  function Byte8(n: nat): bv8 { if n >= 8 then 8 | Byte4(n - 8) else Byte4(n) }
  function Byte16(n: nat): bv8 { if n >= 16 then 16 | Byte8(n - 16) else Byte8(n) }
  function Byte32(n: nat): bv8 { if n >= 32 then 32 | Byte16(n - 32) else Byte16(n) }
  function Byte64(n: nat): bv8 { if n >= 64 then 64 | Byte32(n - 64) else Byte32(n) }

  /** The byte that stands for a number. */
  function Byte(n: nat): bv8
    requires n < 256
  {
    if n >= 128 then 128 | Byte64(n - 128) else Byte64(n)
  }

  lemma Low1(n: nat)
    requires n < 2
    ensures Byte1(n) < 2 && Val(Byte1(n)) == n
  {
  }

  lemma Low2(n: nat)
    requires n < 4
    ensures Byte2(n) < 4 && Val(Byte2(n)) == n
  {
    Low1(if n >= 2 then n - 2 else n);
  }

  lemma Low4(n: nat)
    requires n < 8
    ensures Byte4(n) < 8 && Val(Byte4(n)) == n
  {
    Low2(if n >= 4 then n - 4 else n);
  }

  lemma Low8(n: nat)
    requires n < 16
    ensures Byte8(n) < 16 && Val(Byte8(n)) == n
  {
    Low4(if n >= 8 then n - 8 else n);
  }

  lemma Low16(n: nat)
    requires n < 32
    ensures Byte16(n) < 32 && Val(Byte16(n)) == n
  {
    Low8(if n >= 16 then n - 16 else n);
  }

  lemma Low32(n: nat)
    requires n < 64
    ensures Byte32(n) < 64 && Val(Byte32(n)) == n
  {
    Low16(if n >= 32 then n - 32 else n);
  }

  lemma Low64(n: nat)
    requires n < 128
    ensures Byte64(n) < 128 && Val(Byte64(n)) == n
  {
    Low32(if n >= 64 then n - 64 else n);
  }

  lemma ByteVal(n: nat)
    requires n < 256
    ensures Val(Byte(n)) == n
  {
    Low64(if n >= 128 then n - 128 else n);
  }

  lemma ValByte(b: bv8)
    ensures Byte(Val(b)) == b
  {
  }

  predicate Is16(n: int) {
    0 <= n < 0x1_0000
  }

  function U16(hi: bv8, lo: bv8): (n: nat)
    ensures Is16(n)
  {
    Val(hi) * 256 + Val(lo)
  }

  function Hi(n: nat): bv8
    requires Is16(n)
  {
    Byte(n / 256)
  }

  function Lo(n: nat): bv8
    requires Is16(n)
  {
    Byte(n % 256)
  }

  lemma U16Back(n: nat)
    requires Is16(n)
    ensures U16(Hi(n), Lo(n)) == n
  {
    hide Val, Byte;
    ByteVal(n / 256);
    ByteVal(n % 256);
  }

  lemma Digits(h: nat, l: nat)
    requires h < 256 && l < 256
    ensures Is16(h * 256 + l) && (h * 256 + l) / 256 == h && (h * 256 + l) % 256 == l
  {
  }

  lemma HiBack(hi: bv8, lo: bv8)
    ensures Hi(U16(hi, lo)) == hi
  {
    hide Val, Byte;
    ValByte(hi);
    Digits(Val(hi), Val(lo));
  }

  lemma LoBack(hi: bv8, lo: bv8)
    ensures Lo(U16(hi, lo)) == lo
  {
    hide Val, Byte;
    ValByte(lo);
    Digits(Val(hi), Val(lo));
  }
}
