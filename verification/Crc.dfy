/** ns_crc32, by table, and the CRC-32 of section 15.5 of RFC 5389 (reflected, polynomial 0xEDB88320), bit by bit. */
module Crc {
  import opened Bytes

  /** Entry j of a row of sixteen. */
  function Pick(j: bv8, a0: bv32, a1: bv32, a2: bv32, a3: bv32, a4: bv32, a5: bv32, a6: bv32, a7: bv32,
      a8: bv32, a9: bv32, a10: bv32, a11: bv32, a12: bv32, a13: bv32, a14: bv32, a15: bv32): bv32
    requires j < 16
  {
    if j == 0 then a0 else if j == 1 then a1 else if j == 2 then a2 else if j == 3 then a3
    else if j == 4 then a4 else if j == 5 then a5 else if j == 6 then a6 else if j == 7 then a7
    else if j == 8 then a8 else if j == 9 then a9 else if j == 10 then a10 else if j == 11 then a11
    else if j == 12 then a12 else if j == 13 then a13 else if j == 14 then a14 else a15
  }

  /** crctable, in rows of sixteen. */
  function Crctable(i: bv8): bv32 {
    var j := i & 15;
    match i >> 4
    case 0 =>
      Pick(j, 0x00000000, 0x77073096, 0xee0e612c, 0x990951ba, 0x076dc419, 0x706af48f, 0xe963a535, 0x9e6495a3,
           0x0edb8832, 0x79dcb8a4, 0xe0d5e91e, 0x97d2d988, 0x09b64c2b, 0x7eb17cbd, 0xe7b82d07, 0x90bf1d91)
    case 1 =>
      Pick(j, 0x1db71064, 0x6ab020f2, 0xf3b97148, 0x84be41de, 0x1adad47d, 0x6ddde4eb, 0xf4d4b551, 0x83d385c7,
           0x136c9856, 0x646ba8c0, 0xfd62f97a, 0x8a65c9ec, 0x14015c4f, 0x63066cd9, 0xfa0f3d63, 0x8d080df5)
    case 2 =>
      Pick(j, 0x3b6e20c8, 0x4c69105e, 0xd56041e4, 0xa2677172, 0x3c03e4d1, 0x4b04d447, 0xd20d85fd, 0xa50ab56b,
           0x35b5a8fa, 0x42b2986c, 0xdbbbc9d6, 0xacbcf940, 0x32d86ce3, 0x45df5c75, 0xdcd60dcf, 0xabd13d59)
    case 3 =>
      Pick(j, 0x26d930ac, 0x51de003a, 0xc8d75180, 0xbfd06116, 0x21b4f4b5, 0x56b3c423, 0xcfba9599, 0xb8bda50f,
           0x2802b89e, 0x5f058808, 0xc60cd9b2, 0xb10be924, 0x2f6f7c87, 0x58684c11, 0xc1611dab, 0xb6662d3d)
    case 4 =>
      Pick(j, 0x76dc4190, 0x01db7106, 0x98d220bc, 0xefd5102a, 0x71b18589, 0x06b6b51f, 0x9fbfe4a5, 0xe8b8d433,
           0x7807c9a2, 0x0f00f934, 0x9609a88e, 0xe10e9818, 0x7f6a0dbb, 0x086d3d2d, 0x91646c97, 0xe6635c01)
    case 5 =>
      Pick(j, 0x6b6b51f4, 0x1c6c6162, 0x856530d8, 0xf262004e, 0x6c0695ed, 0x1b01a57b, 0x8208f4c1, 0xf50fc457,
           0x65b0d9c6, 0x12b7e950, 0x8bbeb8ea, 0xfcb9887c, 0x62dd1ddf, 0x15da2d49, 0x8cd37cf3, 0xfbd44c65)
    case 6 =>
      Pick(j, 0x4db26158, 0x3ab551ce, 0xa3bc0074, 0xd4bb30e2, 0x4adfa541, 0x3dd895d7, 0xa4d1c46d, 0xd3d6f4fb,
           0x4369e96a, 0x346ed9fc, 0xad678846, 0xda60b8d0, 0x44042d73, 0x33031de5, 0xaa0a4c5f, 0xdd0d7cc9)
    case 7 =>
      Pick(j, 0x5005713c, 0x270241aa, 0xbe0b1010, 0xc90c2086, 0x5768b525, 0x206f85b3, 0xb966d409, 0xce61e49f,
           0x5edef90e, 0x29d9c998, 0xb0d09822, 0xc7d7a8b4, 0x59b33d17, 0x2eb40d81, 0xb7bd5c3b, 0xc0ba6cad)
    case 8 =>
      Pick(j, 0xedb88320, 0x9abfb3b6, 0x03b6e20c, 0x74b1d29a, 0xead54739, 0x9dd277af, 0x04db2615, 0x73dc1683,
           0xe3630b12, 0x94643b84, 0x0d6d6a3e, 0x7a6a5aa8, 0xe40ecf0b, 0x9309ff9d, 0x0a00ae27, 0x7d079eb1)
    case 9 =>
      Pick(j, 0xf00f9344, 0x8708a3d2, 0x1e01f268, 0x6906c2fe, 0xf762575d, 0x806567cb, 0x196c3671, 0x6e6b06e7,
           0xfed41b76, 0x89d32be0, 0x10da7a5a, 0x67dd4acc, 0xf9b9df6f, 0x8ebeeff9, 0x17b7be43, 0x60b08ed5)
    case 10 =>
      Pick(j, 0xd6d6a3e8, 0xa1d1937e, 0x38d8c2c4, 0x4fdff252, 0xd1bb67f1, 0xa6bc5767, 0x3fb506dd, 0x48b2364b,
           0xd80d2bda, 0xaf0a1b4c, 0x36034af6, 0x41047a60, 0xdf60efc3, 0xa867df55, 0x316e8eef, 0x4669be79)
    case 11 =>
      Pick(j, 0xcb61b38c, 0xbc66831a, 0x256fd2a0, 0x5268e236, 0xcc0c7795, 0xbb0b4703, 0x220216b9, 0x5505262f,
           0xc5ba3bbe, 0xb2bd0b28, 0x2bb45a92, 0x5cb36a04, 0xc2d7ffa7, 0xb5d0cf31, 0x2cd99e8b, 0x5bdeae1d)
    case 12 =>
      Pick(j, 0x9b64c2b0, 0xec63f226, 0x756aa39c, 0x026d930a, 0x9c0906a9, 0xeb0e363f, 0x72076785, 0x05005713,
           0x95bf4a82, 0xe2b87a14, 0x7bb12bae, 0x0cb61b38, 0x92d28e9b, 0xe5d5be0d, 0x7cdcefb7, 0x0bdbdf21)
    case 13 =>
      Pick(j, 0x86d3d2d4, 0xf1d4e242, 0x68ddb3f8, 0x1fda836e, 0x81be16cd, 0xf6b9265b, 0x6fb077e1, 0x18b74777,
           0x88085ae6, 0xff0f6a70, 0x66063bca, 0x11010b5c, 0x8f659eff, 0xf862ae69, 0x616bffd3, 0x166ccf45)
    case 14 =>
      Pick(j, 0xa00ae278, 0xd70dd2ee, 0x4e048354, 0x3903b3c2, 0xa7672661, 0xd06016f7, 0x4969474d, 0x3e6e77db,
           0xaed16a4a, 0xd9d65adc, 0x40df0b66, 0x37d83bf0, 0xa9bcae53, 0xdebb9ec5, 0x47b2cf7f, 0x30b5ffe9)
    case _ =>
      Pick(j, 0xbdbdf21c, 0xcabac28a, 0x53b39330, 0x24b4a3a6, 0xbad03605, 0xcdd70693, 0x54de5729, 0x23d967bf,
           0xb3667a2e, 0xc4614ab8, 0x5d681b02, 0x2a6f2b94, 0xb40bbe37, 0xc30c8ea1, 0x5a05df1b, 0x2d02ef8d)
  }

  // ---------- bit by bit ----------

  const POLY: bv32 := 0xEDB8_8320

  function Step(x: bv32): bv32 {
    if x & 1 == 1 then (x >> 1) ^ POLY else x >> 1
  }

  function Plus(a: bv32, b: bv32): bv32 {
    a ^ b
  }

  function BitOf(c: bv8, k: bv32): bv32
    requires k < 8
  {
    ((c as bv32) >> k) & 1
  }

  /** Take in the first k bits of a byte, the lowest bit first. */
  function FeedBits(crc: bv32, c: bv8, k: bv32): bv32
    requires k <= 8
  {
    if k == 0 then crc else Step(Plus(FeedBits(crc, c, k - 1), BitOf(c, k - 1)))
  }

  function Feed(crc: bv32, message: Data): bv32 {
    if message == [] then crc
    else FeedBits(Feed(crc, message[..|message| - 1]), message[|message| - 1], 8)
  }

  /** CRC-32 of a message. */
  function Crc32(message: Data): bv32 {
    !Feed(0xFFFF_FFFF, message)
  }

  // ---------- eight steps at a time ----------

  function Steps(x: bv32, k: bv32): bv32 {
    if k == 0 then x else Step(Steps(x, k - 1))
  }

  function Shift(y: bv32, k: bv32): bv32
    requires k <= 8
  {
    y >> k
  }

  /** The last k bits are zero. */
  predicate EvenFor(y: bv32, k: bv32)
    requires k <= 8
  {
    y & ((1 << k) - 1) == 0
  }

  lemma StepXor(x: bv32, y: bv32)
    requires y & 1 == 0
    ensures Step(x ^ y) == Step(x) ^ (y >> 1)
  {
    XorParts(x, y);
    if x & 1 == 1 {
      XorSwap(x >> 1, y >> 1, POLY);
    }
  }

  lemma XorParts(x: bv32, y: bv32)
    ensures (x ^ y) >> 1 == (x >> 1) ^ (y >> 1)
    ensures y & 1 == 0 ==> (x ^ y) & 1 == x & 1
  {
  }

  lemma XorSwap(a: bv32, b: bv32, c: bv32)
    ensures (a ^ b) ^ c == (a ^ c) ^ b
  {
  }

  lemma StepLinear(x: bv32, y: bv32, half: bv32)
    requires y & 1 == 0 && half == y >> 1
    ensures Step(Plus(x, y)) == Plus(Step(x), half)
  {
    hide Step;
    StepXor(x, y);
  }

  lemma EvenStep(y: bv32, k: bv32)
    requires 0 < k <= 8 && EvenFor(y, k)
    ensures EvenFor(y, k - 1) && Shift(y, k - 1) & 1 == 0 && Shift(y, k - 1) >> 1 == Shift(y, k)
  {
  }

  /** As long as only zero bits of y are shifted out, they have no effect on the rest. */
  lemma {:induction false} StepsLinear(x: bv32, y: bv32, k: bv32)
    requires k <= 8 && EvenFor(y, k)
    ensures Steps(Plus(x, y), k) == Plus(Steps(x, k), Shift(y, k))
  {
    if k == 0 {
    } else {
      hide Step, Shift, EvenFor, Plus;
      EvenStep(y, k);
      StepsLinear(x, y, k - 1);
      StepLinear(Steps(x, k - 1), Shift(y, k - 1), Shift(y, k));
    }
  }

  /** Bit k of a byte, in its place. */
  function InPlace(c: bv8, k: bv32): bv32
    requires k < 8
  {
    (c as bv32) & (1 << k)
  }

  function LowBits(c: bv8, k: bv32): bv32
    requires k <= 8
  {
    (c as bv32) & ((1 << k) - 1)
  }

  lemma InPlaceFalls(c: bv8, k: bv32)
    requires k < 8
    ensures EvenFor(InPlace(c, k), k) && Shift(InPlace(c, k), k) == BitOf(c, k)
    ensures LowBits(c, k + 1) == Plus(LowBits(c, k), InPlace(c, k))
  {
  }

  lemma PlusAssociates(a: bv32, b: bv32, c: bv32)
    ensures Plus(Plus(a, b), c) == Plus(a, Plus(b, c))
  {
  }

  lemma {:induction false} FeedBitsSteps(crc: bv32, c: bv8, k: bv32)
    requires k <= 8
    ensures FeedBits(crc, c, k) == Steps(Plus(crc, LowBits(c, k)), k)
  {
    if k == 0 {
    } else {
      hide Step, Plus, InPlace, LowBits, BitOf, Shift, EvenFor;
      FeedBitsSteps(crc, c, k - 1);
      InPlaceFalls(c, k - 1);
      StepsLinear(Plus(crc, LowBits(c, k - 1)), InPlace(c, k - 1), k - 1);
      PlusAssociates(crc, LowBits(c, k - 1), InPlace(c, k - 1));
    }
  }

  // ---------- the table ----------

  function Eight(x: bv32): bv32 {
    Step(Step(Step(Step(Step(Step(Step(Step(x))))))))
  }

  lemma EightSteps(x: bv32)
    ensures Steps(x, 8) == Eight(x)
  {
    hide Step;
    assert Steps(x, 1) == Step(x);
    assert Steps(x, 2) == Step(Steps(x, 1));
    assert Steps(x, 3) == Step(Steps(x, 2));
    assert Steps(x, 4) == Step(Steps(x, 3));
    assert Steps(x, 5) == Step(Steps(x, 4));
    assert Steps(x, 6) == Step(Steps(x, 5));
    assert Steps(x, 7) == Step(Steps(x, 6));
  }

  lemma Row0(i: bv8)
    requires i >> 4 == 0
    ensures Crctable(i) == Eight(i as bv32)
  {
    var j := i & 15;
    assert i == 0x00 | j;
    if j == 0 {} else if j == 1 {} else if j == 2 {} else if j == 3 {} else if j == 4 {} else if j == 5 {}
    else if j == 6 {} else if j == 7 {} else if j == 8 {} else if j == 9 {} else if j == 10 {}
    else if j == 11 {} else if j == 12 {} else if j == 13 {} else if j == 14 {} else {}
  }

  lemma Row1(i: bv8)
    requires i >> 4 == 1
    ensures Crctable(i) == Eight(i as bv32)
  {
    var j := i & 15;
    assert i == 0x10 | j;
    if j == 0 {} else if j == 1 {} else if j == 2 {} else if j == 3 {} else if j == 4 {} else if j == 5 {}
    else if j == 6 {} else if j == 7 {} else if j == 8 {} else if j == 9 {} else if j == 10 {}
    else if j == 11 {} else if j == 12 {} else if j == 13 {} else if j == 14 {} else {}
  }

  lemma Row2(i: bv8)
    requires i >> 4 == 2
    ensures Crctable(i) == Eight(i as bv32)
  {
    var j := i & 15;
    assert i == 0x20 | j;
    if j == 0 {} else if j == 1 {} else if j == 2 {} else if j == 3 {} else if j == 4 {} else if j == 5 {}
    else if j == 6 {} else if j == 7 {} else if j == 8 {} else if j == 9 {} else if j == 10 {}
    else if j == 11 {} else if j == 12 {} else if j == 13 {} else if j == 14 {} else {}
  }

  lemma Row3(i: bv8)
    requires i >> 4 == 3
    ensures Crctable(i) == Eight(i as bv32)
  {
    var j := i & 15;
    assert i == 0x30 | j;
    if j == 0 {} else if j == 1 {} else if j == 2 {} else if j == 3 {} else if j == 4 {} else if j == 5 {}
    else if j == 6 {} else if j == 7 {} else if j == 8 {} else if j == 9 {} else if j == 10 {}
    else if j == 11 {} else if j == 12 {} else if j == 13 {} else if j == 14 {} else {}
  }

  lemma Row4(i: bv8)
    requires i >> 4 == 4
    ensures Crctable(i) == Eight(i as bv32)
  {
    var j := i & 15;
    assert i == 0x40 | j;
    if j == 0 {} else if j == 1 {} else if j == 2 {} else if j == 3 {} else if j == 4 {} else if j == 5 {}
    else if j == 6 {} else if j == 7 {} else if j == 8 {} else if j == 9 {} else if j == 10 {}
    else if j == 11 {} else if j == 12 {} else if j == 13 {} else if j == 14 {} else {}
  }

  lemma Row5(i: bv8)
    requires i >> 4 == 5
    ensures Crctable(i) == Eight(i as bv32)
  {
    var j := i & 15;
    assert i == 0x50 | j;
    if j == 0 {} else if j == 1 {} else if j == 2 {} else if j == 3 {} else if j == 4 {} else if j == 5 {}
    else if j == 6 {} else if j == 7 {} else if j == 8 {} else if j == 9 {} else if j == 10 {}
    else if j == 11 {} else if j == 12 {} else if j == 13 {} else if j == 14 {} else {}
  }

  lemma Row6(i: bv8)
    requires i >> 4 == 6
    ensures Crctable(i) == Eight(i as bv32)
  {
    var j := i & 15;
    assert i == 0x60 | j;
    if j == 0 {} else if j == 1 {} else if j == 2 {} else if j == 3 {} else if j == 4 {} else if j == 5 {}
    else if j == 6 {} else if j == 7 {} else if j == 8 {} else if j == 9 {} else if j == 10 {}
    else if j == 11 {} else if j == 12 {} else if j == 13 {} else if j == 14 {} else {}
  }

  lemma Row7(i: bv8)
    requires i >> 4 == 7
    ensures Crctable(i) == Eight(i as bv32)
  {
    var j := i & 15;
    assert i == 0x70 | j;
    if j == 0 {} else if j == 1 {} else if j == 2 {} else if j == 3 {} else if j == 4 {} else if j == 5 {}
    else if j == 6 {} else if j == 7 {} else if j == 8 {} else if j == 9 {} else if j == 10 {}
    else if j == 11 {} else if j == 12 {} else if j == 13 {} else if j == 14 {} else {}
  }

  lemma Row8(i: bv8)
    requires i >> 4 == 8
    ensures Crctable(i) == Eight(i as bv32)
  {
    var j := i & 15;
    assert i == 0x80 | j;
    if j == 0 {} else if j == 1 {} else if j == 2 {} else if j == 3 {} else if j == 4 {} else if j == 5 {}
    else if j == 6 {} else if j == 7 {} else if j == 8 {} else if j == 9 {} else if j == 10 {}
    else if j == 11 {} else if j == 12 {} else if j == 13 {} else if j == 14 {} else {}
  }

  lemma Row9(i: bv8)
    requires i >> 4 == 9
    ensures Crctable(i) == Eight(i as bv32)
  {
    var j := i & 15;
    assert i == 0x90 | j;
    if j == 0 {} else if j == 1 {} else if j == 2 {} else if j == 3 {} else if j == 4 {} else if j == 5 {}
    else if j == 6 {} else if j == 7 {} else if j == 8 {} else if j == 9 {} else if j == 10 {}
    else if j == 11 {} else if j == 12 {} else if j == 13 {} else if j == 14 {} else {}
  }

  lemma RowA(i: bv8)
    requires i >> 4 == 10
    ensures Crctable(i) == Eight(i as bv32)
  {
    var j := i & 15;
    assert i == 0xA0 | j;
    if j == 0 {} else if j == 1 {} else if j == 2 {} else if j == 3 {} else if j == 4 {} else if j == 5 {}
    else if j == 6 {} else if j == 7 {} else if j == 8 {} else if j == 9 {} else if j == 10 {}
    else if j == 11 {} else if j == 12 {} else if j == 13 {} else if j == 14 {} else {}
  }

  lemma RowB(i: bv8)
    requires i >> 4 == 11
    ensures Crctable(i) == Eight(i as bv32)
  {
    var j := i & 15;
    assert i == 0xB0 | j;
    if j == 0 {} else if j == 1 {} else if j == 2 {} else if j == 3 {} else if j == 4 {} else if j == 5 {}
    else if j == 6 {} else if j == 7 {} else if j == 8 {} else if j == 9 {} else if j == 10 {}
    else if j == 11 {} else if j == 12 {} else if j == 13 {} else if j == 14 {} else {}
  }

  lemma RowC(i: bv8)
    requires i >> 4 == 12
    ensures Crctable(i) == Eight(i as bv32)
  {
    var j := i & 15;
    assert i == 0xC0 | j;
    if j == 0 {} else if j == 1 {} else if j == 2 {} else if j == 3 {} else if j == 4 {} else if j == 5 {}
    else if j == 6 {} else if j == 7 {} else if j == 8 {} else if j == 9 {} else if j == 10 {}
    else if j == 11 {} else if j == 12 {} else if j == 13 {} else if j == 14 {} else {}
  }

  lemma RowD(i: bv8)
    requires i >> 4 == 13
    ensures Crctable(i) == Eight(i as bv32)
  {
    var j := i & 15;
    assert i == 0xD0 | j;
    if j == 0 {} else if j == 1 {} else if j == 2 {} else if j == 3 {} else if j == 4 {} else if j == 5 {}
    else if j == 6 {} else if j == 7 {} else if j == 8 {} else if j == 9 {} else if j == 10 {}
    else if j == 11 {} else if j == 12 {} else if j == 13 {} else if j == 14 {} else {}
  }

  lemma RowE(i: bv8)
    requires i >> 4 == 14
    ensures Crctable(i) == Eight(i as bv32)
  {
    var j := i & 15;
    assert i == 0xE0 | j;
    if j == 0 {} else if j == 1 {} else if j == 2 {} else if j == 3 {} else if j == 4 {} else if j == 5 {}
    else if j == 6 {} else if j == 7 {} else if j == 8 {} else if j == 9 {} else if j == 10 {}
    else if j == 11 {} else if j == 12 {} else if j == 13 {} else if j == 14 {} else {}
  }

  lemma RowF(i: bv8)
    requires i >> 4 == 15
    ensures Crctable(i) == Eight(i as bv32)
  {
    var j := i & 15;
    assert i == 0xF0 | j;
    if j == 0 {} else if j == 1 {} else if j == 2 {} else if j == 3 {} else if j == 4 {} else if j == 5 {}
    else if j == 6 {} else if j == 7 {} else if j == 8 {} else if j == 9 {} else if j == 10 {}
    else if j == 11 {} else if j == 12 {} else if j == 13 {} else if j == 14 {} else {}
  }

  /** Every entry of the table is what eight steps make of its index. */
  lemma TableIsEight(i: bv8)
    ensures Crctable(i) == Eight(i as bv32)
  {
    hide Crctable, Eight;
    var r := i >> 4;
    if r == 0 { Row0(i); } else if r == 1 { Row1(i); } else if r == 2 { Row2(i); } else if r == 3 { Row3(i); }
    else if r == 4 { Row4(i); } else if r == 5 { Row5(i); } else if r == 6 { Row6(i); } else if r == 7 { Row7(i); }
    else if r == 8 { Row8(i); } else if r == 9 { Row9(i); } else if r == 10 { RowA(i); } else if r == 11 { RowB(i); }
    else if r == 12 { RowC(i); } else if r == 13 { RowD(i); } else if r == 14 { RowE(i); } else { RowF(i); }
  }

  // ---------- ns_crc32 ----------

  /** UPDATE_CRC */
  function Update(crc: bv32, c: bv8): bv32 {
    Plus(Crctable(LowByte(crc, c)), crc >> 8)
  }

  function LowByte(crc: bv32, c: bv8): bv8 {
    ((crc & 0xFF) as bv8) ^ c
  }

  function HighBytes(crc: bv32): bv32 {
    crc & 0xFFFF_FF00
  }

  lemma ByteParts(crc: bv32, c: bv8)
    ensures Plus(crc, LowBits(c, 8)) == Plus(LowByte(crc, c) as bv32, HighBytes(crc))
    ensures EvenFor(HighBytes(crc), 8) && Shift(HighBytes(crc), 8) == crc >> 8
  {
  }

  /** One table lookup takes in the eight bits of a byte. */
  lemma UpdateFeeds(crc: bv32, c: bv8)
    ensures Update(crc, c) == FeedBits(crc, c, 8)
  {
    hide Steps, FeedBits, Crctable, LowBits, EvenFor, Shift, LowByte, HighBytes, Plus, Eight;
    ByteParts(crc, c);
    FeedBitsSteps(crc, c, 8);
    StepsLinear(LowByte(crc, c) as bv32, HighBytes(crc), 8);
    TableIsEight(LowByte(crc, c));
    EightSteps(LowByte(crc, c) as bv32);
  }

  /** ns_crc32 */
  method NsCrc32(buffer: array<bv8>, len: nat) returns (r: bv32)
    requires len <= buffer.Length
    ensures r == Crc32(buffer[..len])
  {
    hide Update, FeedBits;
    var crc: bv32 := 0xFFFF_FFFF;
    var i := 0;
    while i < len
      invariant i <= len && crc == Feed(0xFFFF_FFFF, buffer[..i])
    {
      UpdateFeeds(crc, buffer[i]);
      assert buffer[..i + 1][..i] == buffer[..i];
      crc := Update(crc, buffer[i]);
      i := i + 1;
    }
    r := !crc;
  }

  // ---------- what the check sum is good for ----------

  lemma StepInjective(x: bv32, y: bv32)
    requires Step(x) == Step(y)
    ensures x == y
  {
  }

  lemma {:induction false} StepsInjective(x: bv32, y: bv32, k: bv32)
    requires Steps(x, k) == Steps(y, k)
    ensures x == y
  {
    hide Step;
    if k == 0 {
    } else {
      StepInjective(Steps(x, k - 1), Steps(y, k - 1));
      StepsInjective(x, y, k - 1);
    }
  }

  lemma XorCancel(x: bv32, y: bv32, z: bv32)
    requires Plus(x, z) == Plus(y, z) || Plus(z, x) == Plus(z, y)
    ensures x == y
  {
  }

  lemma LowBitsInjective(c: bv8, d: bv8)
    requires LowBits(c, 8) == LowBits(d, 8)
    ensures c == d
  {
  }

  lemma PlusInjective(x: bv32, y: bv32, c: bv8, d: bv8)
    requires Plus(x, LowBits(c, 8)) == Plus(y, LowBits(d, 8))
    ensures c == d <==> x == y
  {
    hide Plus, LowBits;
    if c == d {
      XorCancel(x, y, LowBits(c, 8));
    } else if x == y {
      XorCancel(LowBits(c, 8), LowBits(d, 8), x);
      LowBitsInjective(c, d);
    }
  }

  lemma ByteCounts(x: bv32, y: bv32, c: bv8, d: bv8)
    requires FeedBits(x, c, 8) == FeedBits(y, d, 8)
    ensures c == d <==> x == y
  {
    hide FeedBits, Steps, Plus, LowBits;
    FeedBitsSteps(x, c, 8);
    FeedBitsSteps(y, d, 8);
    StepsInjective(Plus(x, LowBits(c, 8)), Plus(y, LowBits(d, 8)), 8);
    PlusInjective(x, y, c, d);
  }

  /** Two messages that differ in exactly one byte never have the same check sum. */
  lemma {:induction false} OneByteChanged(crc: bv32, a: Data, i: nat, c: bv8)
    requires i < |a| && c != a[i]
    ensures Feed(crc, a[i := c]) != Feed(crc, a)
  {
    hide FeedBits;
    var last := |a| - 1;
    if i == last {
      assert a[i := c][..last] == a[..last];
      if Feed(crc, a[i := c]) == Feed(crc, a) {
        ByteCounts(Feed(crc, a[..last]), Feed(crc, a[..last]), c, a[i]);
      }
    } else {
      assert a[i := c][..last] == a[..last][i := c];
      OneByteChanged(crc, a[..last], i, c);
      if Feed(crc, a[i := c]) == Feed(crc, a) {
        ByteCounts(Feed(crc, a[..last][i := c]), Feed(crc, a[..last]), a[last], a[last]);
      }
    }
  }

  lemma CrcDetects(a: Data, i: nat, c: bv8)
    requires i < |a| && c != a[i]
    ensures Crc32(a[i := c]) != Crc32(a)
  {
    hide Feed;
    OneByteChanged(0xFFFF_FFFF, a, i, c);
    NotInjective(Feed(0xFFFF_FFFF, a[i := c]), Feed(0xFFFF_FFFF, a));
  }

  lemma NotInjective(x: bv32, y: bv32)
    ensures !x == !y ==> x == y
  {
  }

  // ---------- how it is known from outside ----------

  lemma FeedMore(crc: bv32, m: Data, c: bv8)
    ensures Feed(crc, m + [c]) == Update(Feed(crc, m), c)
  {
    hide Update, FeedBits;
    assert (m + [c])[..|m|] == m;
    UpdateFeeds(Feed(crc, m), c);
  }

  /** The check sum as four bytes, the lowest first. */
  function LowFirst(crc: bv32): (r: Data)
    ensures |r| == 4
  {
    [(crc & 0xFF) as bv8, ((crc >> 8) & 0xFF) as bv8, ((crc >> 16) & 0xFF) as bv8, ((crc >> 24) & 0xFF) as bv8]
  }

  lemma FirstOwn(r: bv32)
    ensures Update(r, (!r & 0xFF) as bv8) == 0x2D02_EF8D ^ (r >> 8)
  {
    assert LowByte(r, (!r & 0xFF) as bv8) == 0xFF;
    assert Crctable(0xFF) == 0x2D02_EF8D;
    hide Crctable, LowByte;
  }

  lemma SecondOwn(r: bv32)
    ensures Update(0x2D02_EF8D ^ (r >> 8), ((!r >> 8) & 0xFF) as bv8) == 0xBE26_12FF ^ (r >> 16)
  {
    assert LowByte(0x2D02_EF8D ^ (r >> 8), ((!r >> 8) & 0xFF) as bv8) == 0x72;
    assert Crctable(0x72) == 0xBE0B_1010;
    hide Crctable, LowByte;
  }

  lemma ThirdOwn(r: bv32)
    ensures Update(0xBE26_12FF ^ (r >> 16), ((!r >> 16) & 0xFF) as bv8) == 0x00BE_2612 ^ (r >> 24)
  {
    assert LowByte(0xBE26_12FF ^ (r >> 16), ((!r >> 16) & 0xFF) as bv8) == 0x00;
    assert Crctable(0x00) == 0;
    hide Crctable, LowByte;
  }

  lemma FourthOwn(r: bv32)
    ensures Update(0x00BE_2612 ^ (r >> 24), ((!r >> 24) & 0xFF) as bv8) == 0xDEBB_20E3
  {
    assert LowByte(0x00BE_2612 ^ (r >> 24), ((!r >> 24) & 0xFF) as bv8) == 0xED;
    assert Crctable(0xED) == 0xDEBB_9EC5;
    hide Crctable, LowByte;
  }

  /** Any message with its own check sum behind it, lowest byte first, leaves one and the same remainder. */
  lemma Residue(m: Data)
    ensures Feed(0xFFFF_FFFF, m + LowFirst(Crc32(m))) == 0xDEBB_20E3
  {
    hide Feed, Update;
    var r := Feed(0xFFFF_FFFF, m);
    var b := LowFirst(Crc32(m));
    FeedMore(0xFFFF_FFFF, m, b[0]);
    FeedMore(0xFFFF_FFFF, m + [b[0]], b[1]);
    FeedMore(0xFFFF_FFFF, m + [b[0]] + [b[1]], b[2]);
    FeedMore(0xFFFF_FFFF, m + [b[0]] + [b[1]] + [b[2]], b[3]);
    assert m + [b[0]] + [b[1]] + [b[2]] + [b[3]] == m + b;
    FirstOwn(r);
    SecondOwn(r);
    ThirdOwn(r);
    FourthOwn(r);
  }

  /** The check sums of no byte and of one zero byte. */
  lemma SmallSums()
    ensures Crc32([]) == 0 && Crc32([0]) == 0xD202_EF8D
  {
    FeedMore(0xFFFF_FFFF, [], 0);
    assert [] + [0 as bv8] == [0];
    ZeroByte();
    hide Update, FeedBits;
    assert Feed(0xFFFF_FFFF, []) == 0xFFFF_FFFF;
  }

  lemma ZeroByte()
    ensures Update(0xFFFF_FFFF, 0) == 0x2DFD_1072
  {
    assert LowByte(0xFFFF_FFFF, 0) == 0xFF;
    assert Crctable(0xFF) == 0x2D02_EF8D;
    hide Crctable, LowByte;
  }
}
