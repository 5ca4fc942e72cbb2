/** The CRC-32 of kernel/crypto/util.cc: a byte-at-a-time loop over a 256-entry table.

    The reference is the shift register of the reflected polynomial 0xEDB88320 fed one
    message bit at a time, least significant bit of each byte first.  The table-driven
    method is proved equal to it, and the register is proved to tell apart any two
    messages that differ inside one window of at most 32 bits. */
module Crc32 {

  import opened Bytes

  // ---------------------------------------------------------- register algebra

  function Xor(a: bv32, b: bv32): bv32 { a ^ b }

  function Half(a: bv32): bv32 { a >> 1 }

  function Lowest(a: bv32): bv32 { a & 1 }

  predicate IsOdd(a: bv32) { a & 1 == 1 }

  // ---------------------------------------------------------------- reference

  /** One shift of the register of the reflected polynomial. */
  function Shift(x: bv32): bv32 {
    if IsOdd(x) then Xor(Half(x), 0xEDB88320) else Half(x)
  }

  /** The message bit meets the lowest bit of the register. */
  function Flip(c: bv32, bit: bool): bv32 {
    if bit then Xor(c, 1) else c
  }

  /** One message bit enters the register. */
  function Feed(c: bv32, bit: bool): bv32 {
    Shift(Flip(c, bit))
  }

  /** A whole bit string enters the register, first bit first. */
  function Register(c: bv32, bits: seq<bool>): bv32
    decreases |bits|
  {
    if bits == [] then c else Register(Feed(c, bits[0]), bits[1..])
  }

  /** The n low bits of w, lowest first. */
  function LowBits(n: nat, w: bv32): (bits: seq<bool>)
    ensures |bits| == n
  {
    if n == 0 then [] else [IsOdd(w)] + LowBits(n - 1, Half(w))
  }

  function BitsOfByte(b: byte): seq<bool> {
    LowBits(8, b as bv32)
  }

  function BitsOf(s: seq<byte>): seq<bool> {
    if s == [] then [] else BitsOfByte(s[0]) + BitsOf(s[1..])
  }

  /** CRC-32 bit by bit: register preset to ones, message, complement. */
  function Reference(s: seq<byte>): bv32 {
    Register(0xFFFFFFFF, BitsOf(s)) ^ 0xFFFFFFFF
  }

  // ------------------------------------------------- the table and the method

  function Row0(i: byte): bv32 {
    match i
    case 0 => 0x00000000 case 1 => 0x77073096 case 2 => 0xee0e612c case 3 => 0x990951ba
    case 4 => 0x076dc419 case 5 => 0x706af48f case 6 => 0xe963a535 case 7 => 0x9e6495a3
    case 8 => 0x0edb8832 case 9 => 0x79dcb8a4 case 10 => 0xe0d5e91e case 11 => 0x97d2d988
    case 12 => 0x09b64c2b case 13 => 0x7eb17cbd case 14 => 0xe7b82d07 case _ => 0x90bf1d91
  }

  function Row1(i: byte): bv32 {
    match i
    case 0 => 0x1db71064 case 1 => 0x6ab020f2 case 2 => 0xf3b97148 case 3 => 0x84be41de
    case 4 => 0x1adad47d case 5 => 0x6ddde4eb case 6 => 0xf4d4b551 case 7 => 0x83d385c7
    case 8 => 0x136c9856 case 9 => 0x646ba8c0 case 10 => 0xfd62f97a case 11 => 0x8a65c9ec
    case 12 => 0x14015c4f case 13 => 0x63066cd9 case 14 => 0xfa0f3d63 case _ => 0x8d080df5
  }

  function Row2(i: byte): bv32 {
    match i
    case 0 => 0x3b6e20c8 case 1 => 0x4c69105e case 2 => 0xd56041e4 case 3 => 0xa2677172
    case 4 => 0x3c03e4d1 case 5 => 0x4b04d447 case 6 => 0xd20d85fd case 7 => 0xa50ab56b
    case 8 => 0x35b5a8fa case 9 => 0x42b2986c case 10 => 0xdbbbc9d6 case 11 => 0xacbcf940
    case 12 => 0x32d86ce3 case 13 => 0x45df5c75 case 14 => 0xdcd60dcf case _ => 0xabd13d59
  }

  function Row3(i: byte): bv32 {
    match i
    case 0 => 0x26d930ac case 1 => 0x51de003a case 2 => 0xc8d75180 case 3 => 0xbfd06116
    case 4 => 0x21b4f4b5 case 5 => 0x56b3c423 case 6 => 0xcfba9599 case 7 => 0xb8bda50f
    case 8 => 0x2802b89e case 9 => 0x5f058808 case 10 => 0xc60cd9b2 case 11 => 0xb10be924
    case 12 => 0x2f6f7c87 case 13 => 0x58684c11 case 14 => 0xc1611dab case _ => 0xb6662d3d
  }

  function Row4(i: byte): bv32 {
    match i
    case 0 => 0x76dc4190 case 1 => 0x01db7106 case 2 => 0x98d220bc case 3 => 0xefd5102a
    case 4 => 0x71b18589 case 5 => 0x06b6b51f case 6 => 0x9fbfe4a5 case 7 => 0xe8b8d433
    case 8 => 0x7807c9a2 case 9 => 0x0f00f934 case 10 => 0x9609a88e case 11 => 0xe10e9818
    case 12 => 0x7f6a0dbb case 13 => 0x086d3d2d case 14 => 0x91646c97 case _ => 0xe6635c01
  }

  function Row5(i: byte): bv32 {
    match i
    case 0 => 0x6b6b51f4 case 1 => 0x1c6c6162 case 2 => 0x856530d8 case 3 => 0xf262004e
    case 4 => 0x6c0695ed case 5 => 0x1b01a57b case 6 => 0x8208f4c1 case 7 => 0xf50fc457
    case 8 => 0x65b0d9c6 case 9 => 0x12b7e950 case 10 => 0x8bbeb8ea case 11 => 0xfcb9887c
    case 12 => 0x62dd1ddf case 13 => 0x15da2d49 case 14 => 0x8cd37cf3 case _ => 0xfbd44c65
  }

  function Row6(i: byte): bv32 {
    match i
    case 0 => 0x4db26158 case 1 => 0x3ab551ce case 2 => 0xa3bc0074 case 3 => 0xd4bb30e2
    case 4 => 0x4adfa541 case 5 => 0x3dd895d7 case 6 => 0xa4d1c46d case 7 => 0xd3d6f4fb
    case 8 => 0x4369e96a case 9 => 0x346ed9fc case 10 => 0xad678846 case 11 => 0xda60b8d0
    case 12 => 0x44042d73 case 13 => 0x33031de5 case 14 => 0xaa0a4c5f case _ => 0xdd0d7cc9
  }

  function Row7(i: byte): bv32 {
    match i
    case 0 => 0x5005713c case 1 => 0x270241aa case 2 => 0xbe0b1010 case 3 => 0xc90c2086
    case 4 => 0x5768b525 case 5 => 0x206f85b3 case 6 => 0xb966d409 case 7 => 0xce61e49f
    case 8 => 0x5edef90e case 9 => 0x29d9c998 case 10 => 0xb0d09822 case 11 => 0xc7d7a8b4
    case 12 => 0x59b33d17 case 13 => 0x2eb40d81 case 14 => 0xb7bd5c3b case _ => 0xc0ba6cad
  }

  function Row8(i: byte): bv32 {
    match i
    case 0 => 0xedb88320 case 1 => 0x9abfb3b6 case 2 => 0x03b6e20c case 3 => 0x74b1d29a
    case 4 => 0xead54739 case 5 => 0x9dd277af case 6 => 0x04db2615 case 7 => 0x73dc1683
    case 8 => 0xe3630b12 case 9 => 0x94643b84 case 10 => 0x0d6d6a3e case 11 => 0x7a6a5aa8
    case 12 => 0xe40ecf0b case 13 => 0x9309ff9d case 14 => 0x0a00ae27 case _ => 0x7d079eb1
  }

  function Row9(i: byte): bv32 {
    match i
    case 0 => 0xf00f9344 case 1 => 0x8708a3d2 case 2 => 0x1e01f268 case 3 => 0x6906c2fe
    case 4 => 0xf762575d case 5 => 0x806567cb case 6 => 0x196c3671 case 7 => 0x6e6b06e7
    case 8 => 0xfed41b76 case 9 => 0x89d32be0 case 10 => 0x10da7a5a case 11 => 0x67dd4acc
    case 12 => 0xf9b9df6f case 13 => 0x8ebeeff9 case 14 => 0x17b7be43 case _ => 0x60b08ed5
  }

  function Row10(i: byte): bv32 {
    match i
    case 0 => 0xd6d6a3e8 case 1 => 0xa1d1937e case 2 => 0x38d8c2c4 case 3 => 0x4fdff252
    case 4 => 0xd1bb67f1 case 5 => 0xa6bc5767 case 6 => 0x3fb506dd case 7 => 0x48b2364b
    case 8 => 0xd80d2bda case 9 => 0xaf0a1b4c case 10 => 0x36034af6 case 11 => 0x41047a60
    case 12 => 0xdf60efc3 case 13 => 0xa867df55 case 14 => 0x316e8eef case _ => 0x4669be79
  }

  function Row11(i: byte): bv32 {
    match i
    case 0 => 0xcb61b38c case 1 => 0xbc66831a case 2 => 0x256fd2a0 case 3 => 0x5268e236
    case 4 => 0xcc0c7795 case 5 => 0xbb0b4703 case 6 => 0x220216b9 case 7 => 0x5505262f
    case 8 => 0xc5ba3bbe case 9 => 0xb2bd0b28 case 10 => 0x2bb45a92 case 11 => 0x5cb36a04
    case 12 => 0xc2d7ffa7 case 13 => 0xb5d0cf31 case 14 => 0x2cd99e8b case _ => 0x5bdeae1d
  }

  function Row12(i: byte): bv32 {
    match i
    case 0 => 0x9b64c2b0 case 1 => 0xec63f226 case 2 => 0x756aa39c case 3 => 0x026d930a
    case 4 => 0x9c0906a9 case 5 => 0xeb0e363f case 6 => 0x72076785 case 7 => 0x05005713
    case 8 => 0x95bf4a82 case 9 => 0xe2b87a14 case 10 => 0x7bb12bae case 11 => 0x0cb61b38
    case 12 => 0x92d28e9b case 13 => 0xe5d5be0d case 14 => 0x7cdcefb7 case _ => 0x0bdbdf21
  }

  function Row13(i: byte): bv32 {
    match i
    case 0 => 0x86d3d2d4 case 1 => 0xf1d4e242 case 2 => 0x68ddb3f8 case 3 => 0x1fda836e
    case 4 => 0x81be16cd case 5 => 0xf6b9265b case 6 => 0x6fb077e1 case 7 => 0x18b74777
    case 8 => 0x88085ae6 case 9 => 0xff0f6a70 case 10 => 0x66063bca case 11 => 0x11010b5c
    case 12 => 0x8f659eff case 13 => 0xf862ae69 case 14 => 0x616bffd3 case _ => 0x166ccf45
  }

  function Row14(i: byte): bv32 {
    match i
    case 0 => 0xa00ae278 case 1 => 0xd70dd2ee case 2 => 0x4e048354 case 3 => 0x3903b3c2
    case 4 => 0xa7672661 case 5 => 0xd06016f7 case 6 => 0x4969474d case 7 => 0x3e6e77db
    case 8 => 0xaed16a4a case 9 => 0xd9d65adc case 10 => 0x40df0b66 case 11 => 0x37d83bf0
    case 12 => 0xa9bcae53 case 13 => 0xdebb9ec5 case 14 => 0x47b2cf7f case _ => 0x30b5ffe9
  }

  function Row15(i: byte): bv32 {
    match i
    case 0 => 0xbdbdf21c case 1 => 0xcabac28a case 2 => 0x53b39330 case 3 => 0x24b4a3a6
    case 4 => 0xbad03605 case 5 => 0xcdd70693 case 6 => 0x54de5729 case 7 => 0x23d967bf
    case 8 => 0xb3667a2e case 9 => 0xc4614ab8 case 10 => 0x5d681b02 case 11 => 0x2a6f2b94
    case 12 => 0xb40bbe37 case 13 => 0xc30c8ea1 case 14 => 0x5a05df1b case _ => 0x2d02ef8d
  }

  /** g_crc32_table, sixteen rows of sixteen entries. */
  function Table(i: byte): bv32 {
    var j := i & 15;
    match i >> 4
    case 0 => Row0(j)
    case 1 => Row1(j)
    case 2 => Row2(j)
    case 3 => Row3(j)
    case 4 => Row4(j)
    case 5 => Row5(j)
    case 6 => Row6(j)
    case 7 => Row7(j)
    case 8 => Row8(j)
    case 9 => Row9(j)
    case 10 => Row10(j)
    case 11 => Row11(j)
    case 12 => Row12(j)
    case 13 => Row13(j)
    case 14 => Row14(j)
    case _ => Row15(j)
  }

  function LowByte(x: bv32): byte {
    (x & 0xFF) as bv8
  }

  function TableStep(c: bv32, b: byte): bv32 {
    Table(LowByte(c ^ (b as bv32))) ^ (c >> 8)
  }

  method CRC32(s: seq<byte>) returns (crc: bv32)
    ensures crc == Reference(s)
  {
    hide TableStep, BitsOfByte, Feed;
    crc := 0xFFFFFFFF;
    var p := 0;
    while p < |s|
      invariant 0 <= p <= |s|
      invariant Register(crc, BitsOf(s[p..])) == Register(0xFFFFFFFF, BitsOf(s))
    {
      assert s[p..][1..] == s[p + 1..];
      TableStepIsRegister(crc, s[p]);
      RegisterConcat(crc, BitsOfByte(s[p]), BitsOf(s[p + 1..]));
      crc := TableStep(crc, s[p]);
      p := p + 1;
    }
    crc := crc ^ 0xFFFFFFFF;
  }

  // ------------------------------------- the table step feeds one byte's bits

  function Shifts(n: nat, x: bv32): bv32 {
    if n == 0 then x else Shifts(n - 1, Shift(x))
  }

  function Discard(n: nat, w: bv32): bv32 {
    if n == 0 then w else Discard(n - 1, Half(w))
  }

  lemma HalfXor(s: bv32, w: bv32)
    ensures Half(Xor(s, w)) == Xor(Half(Xor(s, Lowest(w))), Half(w))
    ensures IsOdd(Xor(s, w)) == IsOdd(Xor(s, Lowest(w)))
  {
  }

  lemma ShiftOdd(v: bv32, w: bv32, u: bv32)
    requires IsOdd(v) && IsOdd(u) && Half(v) == Xor(Half(u), w)
    ensures Shift(v) == Xor(Shift(u), w)
  {
  }

  lemma ShiftEven(v: bv32, w: bv32, u: bv32)
    requires !IsOdd(v) && !IsOdd(u) && Half(v) == Xor(Half(u), w)
    ensures Shift(v) == Xor(Shift(u), w)
  {
  }

  lemma LowestBit(w: bv32)
    ensures Lowest(w) == if IsOdd(w) then 1 else 0
  {
  }

  lemma FeedIsShift(s: bv32, w: bv32)
    ensures Feed(s, IsOdd(w)) == Shift(Xor(s, Lowest(w)))
  {
    hide Shift, IsOdd, Lowest, Xor;
    LowestBit(w);
    XorZero(s);
  }

  /** Bits above the lowest pass through a shift untouched. */
  lemma ShiftSplit(s: bv32, w: bv32)
    ensures Shift(Xor(s, w)) == Xor(Feed(s, IsOdd(w)), Half(w))
  {
    hide Shift, Feed, IsOdd, Half, Xor, Lowest;
    var u := Xor(s, Lowest(w));
    HalfXor(s, w);
    FeedIsShift(s, w);
    if IsOdd(u) {
      ShiftOdd(Xor(s, w), Half(w), u);
    } else {
      ShiftEven(Xor(s, w), Half(w), u);
    }
  }

  /** Xoring w in and shifting n times is feeding the n low bits of w, plus what is left
      of w. */
  lemma {:induction false} ShiftsAreFeeds(n: nat, c: bv32, w: bv32)
    ensures Shifts(n, Xor(c, w)) == Xor(Register(c, LowBits(n, w)), Discard(n, w))
  {
    hide Xor, Half, Shift, IsOdd, Feed;
    if n > 0 {
      ShiftSplit(c, w);
      ShiftsAreFeeds(n - 1, Feed(c, IsOdd(w)), Half(w));
      assert LowBits(n, w)[1..] == LowBits(n - 1, Half(w));
    }
  }

  lemma DiscardEight(w: bv32)
    ensures Discard(8, w) == w >> 8
  {
    var w1 := Half(w);
    var w2 := Half(w1);
    var w3 := Half(w2);
    var w4 := Half(w3);
    var w5 := Half(w4);
    var w6 := Half(w5);
    var w7 := Half(w6);
    assert w >> 8 == Half(w7);
    hide Half;
    assert Discard(1, w7) == Half(w7);
    assert Discard(3, w5) == Half(w7);
    assert Discard(5, w3) == Half(w7);
    assert Discard(7, w1) == Half(w7);
  }

  lemma XorZero(x: bv32)
    ensures Xor(x, 0) == x
  {
  }

  lemma ByteFeed(c: bv32, b: byte)
    ensures Shifts(8, Xor(c, b as bv32)) == Register(c, BitsOfByte(b))
  {
    var w := b as bv32;
    assert w >> 8 == 0;
    hide Xor, Register, LowBits, Shifts;
    ShiftsAreFeeds(8, c, w);
    DiscardEight(w);
    XorZero(Register(c, LowBits(8, w)));
  }

  /** The part of a table entry that one index bit contributes. */
  function Part(x: bv32, bit: bv32, entry: bv32): bv32 {
    if x & bit == 0 then 0 else entry
  }

  /** The eight table entries with a one-bit index generate all the others. */
  function Generated(i: byte): bv32 {
    var x := i as bv32;
    Xor(Part(x, 0x1, 0x77073096),
    Xor(Part(x, 0x2, 0xee0e612c),
    Xor(Part(x, 0x4, 0x076dc419),
    Xor(Part(x, 0x8, 0x0edb8832),
    Xor(Part(x, 0x10, 0x1db71064),
    Xor(Part(x, 0x20, 0x3b6e20c8),
    Xor(Part(x, 0x40, 0x76dc4190),
    Part(x, 0x80, 0xedb88320))))))))
  }

  lemma TableIsGenerated(i: byte)
    ensures Table(i) == Generated(i)
  {
    match i >> 6
    case 0 => if i >> 5 == 0 { Eighth0(i); } else { Eighth1(i); }
    case 1 => Quarter1(i);
    case 2 => Quarter2(i);
    case _ => Quarter3(i);
  }

  lemma Eighth0(i: byte)
    requires i >> 5 == 0
    ensures Table(i) == Generated(i)
  {
  }

  lemma Eighth1(i: byte)
    requires i >> 5 == 1
    ensures Table(i) == Generated(i)
  {
  }

  lemma Quarter1(i: byte)
    requires i >> 6 == 1
    ensures Table(i) == Generated(i)
  {
  }

  lemma Quarter2(i: byte)
    requires i >> 6 == 2
    ensures Table(i) == Generated(i)
  {
  }

  lemma Quarter3(i: byte)
    requires i >> 6 == 3
    ensures Table(i) == Generated(i)
  {
  }

  lemma XorLaws(a: bv32, b: bv32, p: bv32)
    ensures Xor(Xor(a, p), b) == Xor(Xor(a, b), p)
    ensures Xor(a, Xor(b, p)) == Xor(Xor(a, b), p)
    ensures Xor(Xor(a, p), Xor(b, p)) == Xor(a, b)
  {
  }

  lemma ShiftLinear(x: bv32, y: bv32)
    ensures Shift(Xor(x, y)) == Xor(Shift(x), Shift(y))
  {
    hide Xor, Half, IsOdd;
    HalfXorPlain(x, y);
    XorLaws(Half(x), Half(y), 0xEDB88320);
  }

  lemma HalfXorPlain(x: bv32, y: bv32)
    ensures Half(Xor(x, y)) == Xor(Half(x), Half(y))
    ensures IsOdd(Xor(x, y)) == (IsOdd(x) != IsOdd(y))
  {
  }

  lemma {:induction false} ShiftsLinear(n: nat, x: bv32, y: bv32)
    ensures Shifts(n, Xor(x, y)) == Xor(Shifts(n, x), Shifts(n, y))
  {
    hide Shift, Xor;
    if n > 0 {
      ShiftLinear(x, y);
      ShiftsLinear(n - 1, Shift(x), Shift(y));
    }
  }

  lemma {:induction false} ShiftsLast(n: nat, x: bv32)
    ensures Shifts(n, Shift(x)) == Shift(Shifts(n, x))
  {
    hide Shift;
    if n > 0 {
      ShiftsLast(n - 1, Shift(x));
    }
  }

  lemma TopGenerator()
    ensures Shifts(8, 0x80) == 0xEDB88320
  {
    assert Shift(0x80) == 0x40 && Shift(0x40) == 0x20 && Shift(0x20) == 0x10 && Shift(0x10) == 0x08;
    assert Shift(0x08) == 0x04 && Shift(0x04) == 0x02 && Shift(0x02) == 0x01 && Shift(0x01) == 0xEDB88320;
    hide Shift;
    assert Shifts(1, 0x01) == 0xEDB88320;
    assert Shifts(3, 0x04) == 0xEDB88320;
    assert Shifts(5, 0x10) == 0xEDB88320;
    assert Shifts(7, 0x40) == 0xEDB88320;
  }

  /** The table entries with a one-bit index are eight shifts of that bit. */
  lemma Generators()
    ensures Shifts(8, 0x1) == 0x77073096
    ensures Shifts(8, 0x2) == 0xee0e612c
    ensures Shifts(8, 0x4) == 0x076dc419
    ensures Shifts(8, 0x8) == 0x0edb8832
    ensures Shifts(8, 0x10) == 0x1db71064
    ensures Shifts(8, 0x20) == 0x3b6e20c8
    ensures Shifts(8, 0x40) == 0x76dc4190
    ensures Shifts(8, 0x80) == 0xedb88320
  {
    assert Shift(0x80) == 0x40 && Shift(0xedb88320) == 0x76dc4190;
    assert Shift(0x40) == 0x20 && Shift(0x76dc4190) == 0x3b6e20c8;
    assert Shift(0x20) == 0x10 && Shift(0x3b6e20c8) == 0x1db71064;
    assert Shift(0x10) == 0x8 && Shift(0x1db71064) == 0x0edb8832;
    assert Shift(0x8) == 0x4 && Shift(0x0edb8832) == 0x076dc419;
    assert Shift(0x4) == 0x2 && Shift(0x076dc419) == 0xee0e612c;
    assert Shift(0x2) == 0x1 && Shift(0xee0e612c) == 0x77073096;
    hide Shift, Shifts;
    TopGenerator();
    ShiftsLast(8, 0x80);
    ShiftsLast(8, 0x40);
    ShiftsLast(8, 0x20);
    ShiftsLast(8, 0x10);
    ShiftsLast(8, 0x8);
    ShiftsLast(8, 0x4);
    ShiftsLast(8, 0x2);
  }

  lemma {:induction false} ShiftsZero(n: nat)
    ensures Shifts(n, 0) == 0
  {
    if n > 0 {
      assert Shift(0) == 0;
      ShiftsZero(n - 1);
    }
  }

  lemma PartIsShifts(x: bv32, bit: bv32, entry: bv32)
    requires x & bit == 0 || x & bit == bit
    requires Shifts(8, bit) == entry && bit != 0
    ensures Shifts(8, x & bit) == Part(x, bit, entry)
  {
    hide Shifts;
    ShiftsZero(8);
  }

  lemma EightParts(i: byte)
    ensures var x := i as bv32;
      x == Xor(x & 0x1, Xor(x & 0x2, Xor(x & 0x4, Xor(x & 0x8, Xor(x & 0x10, Xor(x & 0x20, Xor(x & 0x40, x & 0x80)))))))
  {
  }

  lemma OneBit(x: bv32)
    ensures x & 0x1 == 0 || x & 0x1 == 0x1
    ensures x & 0x2 == 0 || x & 0x2 == 0x2
    ensures x & 0x4 == 0 || x & 0x4 == 0x4
    ensures x & 0x8 == 0 || x & 0x8 == 0x8
    ensures x & 0x10 == 0 || x & 0x10 == 0x10
    ensures x & 0x20 == 0 || x & 0x20 == 0x20
    ensures x & 0x40 == 0 || x & 0x40 == 0x40
    ensures x & 0x80 == 0 || x & 0x80 == 0x80
  {
  }

  lemma GeneratedIsShifts(i: byte)
    ensures Generated(i) == Shifts(8, i as bv32)
  {
    hide Shifts, Xor, Part;
    var x := i as bv32;
    EightParts(i);
    OneBit(x);
    Generators();
    PartIsShifts(x, 0x1, 0x77073096);
    PartIsShifts(x, 0x2, 0xee0e612c);
    PartIsShifts(x, 0x4, 0x076dc419);
    PartIsShifts(x, 0x8, 0x0edb8832);
    PartIsShifts(x, 0x10, 0x1db71064);
    PartIsShifts(x, 0x20, 0x3b6e20c8);
    PartIsShifts(x, 0x40, 0x76dc4190);
    PartIsShifts(x, 0x80, 0xedb88320);
    var r7 := x & 0x80;
    var r6 := Xor(x & 0x40, r7);
    ShiftsLinear(8, x & 0x40, r7);
    var r5 := Xor(x & 0x20, r6);
    ShiftsLinear(8, x & 0x20, r6);
    var r4 := Xor(x & 0x10, r5);
    ShiftsLinear(8, x & 0x10, r5);
    var r3 := Xor(x & 0x8, r4);
    ShiftsLinear(8, x & 0x8, r4);
    var r2 := Xor(x & 0x4, r3);
    ShiftsLinear(8, x & 0x4, r3);
    var r1 := Xor(x & 0x2, r2);
    ShiftsLinear(8, x & 0x2, r2);
    var r0 := Xor(x & 0x1, r1);
    ShiftsLinear(8, x & 0x1, r1);
  }

  lemma SplitLowByte(x: bv32)
    ensures Xor(LowByte(x) as bv32, x & 0xFFFFFF00) == x
    ensures (x & 0xFFFFFF00) >> 8 == x >> 8 && (x & 0xFFFFFF00) & 0xFF == 0
  {
  }

  predicate LowClear(n: nat, w: bv32) {
    n == 0 || (!IsOdd(w) && LowClear(n - 1, Half(w)))
  }

  lemma {:induction false} ClearShifts(n: nat, w: bv32)
    requires LowClear(n, w)
    ensures Shifts(n, w) == Discard(n, w)
  {
    if n > 0 {
      assert Shift(w) == Half(w);
      hide IsOdd, Half, Shift;
      ClearShifts(n - 1, Half(w));
    }
  }

  lemma UpperShifts(w: bv32)
    requires w & 0xFF == 0
    ensures Shifts(8, w) == w >> 8
  {
    var w1 := Half(w);
    var w2 := Half(w1);
    var w3 := Half(w2);
    var w4 := Half(w3);
    var w5 := Half(w4);
    var w6 := Half(w5);
    var w7 := Half(w6);
    assert !IsOdd(w) && !IsOdd(w1) && !IsOdd(w2) && !IsOdd(w3);
    assert !IsOdd(w4) && !IsOdd(w5) && !IsOdd(w6) && !IsOdd(w7);
    hide IsOdd, Half, Shifts;
    assert LowClear(1, w7);
    assert LowClear(3, w5);
    assert LowClear(5, w3);
    assert LowClear(7, w1);
    ClearShifts(8, w);
    DiscardEight(w);
  }

  /** Eight shifts of a word are the table entry of its low byte and the rest moved down. */
  lemma ShiftsByTable(x: bv32)
    ensures Shifts(8, x) == Xor(Table(LowByte(x)), x >> 8)
  {
    hide Xor, Shifts, Table, LowByte, Generated;
    var l, h := LowByte(x) as bv32, x & 0xFFFFFF00;
    SplitLowByte(x);
    TableIsGenerated(LowByte(x));
    GeneratedIsShifts(LowByte(x));
    ShiftsLinear(8, l, h);
    UpperShifts(h);
  }

  lemma TableStepIsRegister(c: bv32, b: byte)
    ensures TableStep(c, b) == Register(c, BitsOfByte(b))
  {
    hide Xor, Shifts, Table, LowByte, Register, BitsOfByte, TableStep;
    var x := Xor(c, b as bv32);
    TableStepXor(c, b);
    ShiftsByTable(x);
    ByteFeed(c, b);
  }

  lemma TableStepXor(c: bv32, b: byte)
    ensures TableStep(c, b) == Xor(Table(LowByte(Xor(c, b as bv32))), c >> 8)
    ensures Xor(c, b as bv32) >> 8 == c >> 8
  {
    hide Table;
  }

  lemma {:induction false} RegisterConcat(c: bv32, u: seq<bool>, v: seq<bool>)
    ensures Register(c, u + v) == Register(Register(c, u), v)
    decreases |u|
  {
    hide Feed;
    if u == [] {
      assert u + v == v;
    } else {
      assert (u + v)[1..] == u[1..] + v;
      RegisterConcat(Feed(c, u[0]), u[1..], v);
    }
  }

  // -------------------------------------------------------- error detection

  function Unshift(y: bv32): bv32 {
    if y & 0x80000000 == 0 then y << 1 else ((y ^ 0xEDB88320) << 1) | 1
  }

  lemma UnshiftShift(x: bv32)
    ensures Unshift(Shift(x)) == x
  {
  }

  lemma FeedInjective(c: bv32, d: bv32, bit: bool)
    requires Feed(c, bit) == Feed(d, bit)
    ensures c == d
  {
    hide Shift, Unshift, Flip;
    UnshiftShift(Flip(c, bit));
    UnshiftShift(Flip(d, bit));
    FlipInjective(c, d, bit);
  }

  lemma FlipInjective(c: bv32, d: bv32, bit: bool)
    requires Flip(c, bit) == Flip(d, bit)
    ensures c == d
  {
    hide Xor;
    XorTwice(c);
    XorTwice(d);
  }

  lemma XorTwice(c: bv32)
    ensures Xor(Xor(c, 1), 1) == c
  {
  }

  /** Two registers that differ still differ after the same bits. */
  lemma {:induction false} RegisterInjective(c: bv32, d: bv32, bits: seq<bool>)
    requires Register(c, bits) == Register(d, bits)
    ensures c == d
    decreases |bits|
  {
    hide Feed;
    if bits != [] {
      RegisterInjective(Feed(c, bits[0]), Feed(d, bits[0]), bits[1..]);
      FeedInjective(c, d, bits[0]);
    }
  }

  predicate AtLeast(x: bv32, h: bv32) { x >= h }

  /** h is 2 to the power n. */
  predicate Power(h: bv32, n: nat) {
    if n == 0 then h == 1 else !IsOdd(h) && AtLeast(h, 2) && Power(Half(h), n - 1)
  }

  lemma TopPower()
    ensures Power(0x80000000, 31)
  {
    assert Power(0x00000002, 1);
    assert Power(0x00000008, 3);
    assert Power(0x00000020, 5);
    assert Power(0x00000080, 7);
    assert Power(0x00000200, 9);
    assert Power(0x00000800, 11);
    assert Power(0x00002000, 13);
    assert Power(0x00008000, 15);
    assert Power(0x00020000, 17);
    assert Power(0x00080000, 19);
    assert Power(0x00200000, 21);
    assert Power(0x00800000, 23);
    assert Power(0x02000000, 25);
    assert Power(0x08000000, 27);
    assert Power(0x20000000, 29);
  }

  /** The difference of two registers after one more bit each. */
  lemma FeedDifference(c: bv32, d: bv32, p: bool, q: bool)
    ensures Xor(Feed(c, p), Feed(d, q)) == Feed(Xor(c, d), p != q)
  {
    hide Xor, Shift, Flip;
    FlipDifference(c, d, p, q);
    ShiftLinear(Flip(c, p), Flip(d, q));
  }

  lemma FlipDifference(c: bv32, d: bv32, p: bool, q: bool)
    ensures Xor(Flip(c, p), Flip(d, q)) == Flip(Xor(c, d), p != q)
  {
    hide Xor;
    XorLaws(c, d, 1);
  }

  /** A difference with a bit at or above position n + 1 keeps one at or above n. */
  lemma DifferenceStays(x: bv32, e: bool, h: bv32)
    requires AtLeast(x, h) && AtLeast(h, 2) && !IsOdd(h)
    ensures AtLeast(Feed(x, e), Half(h))
  {
  }

  lemma NonZeroDifference(c: bv32, d: bv32, h: bv32)
    requires AtLeast(Xor(c, d), h) && h != 0
    ensures c != d
  {
  }

  lemma {:induction false} LateBitsCannotCancel(c: bv32, d: bv32, u: seq<bool>, v: seq<bool>, h: bv32, n: nat)
    requires |u| == |v| <= n && Power(h, n) && AtLeast(Xor(c, d), h)
    ensures Register(c, u) != Register(d, v)
    decreases |u|
  {
    hide Feed, Xor, IsOdd, Half, AtLeast;
    if u == [] {
      PowerNotZero(h, n);
      NonZeroDifference(c, d, h);
    } else {
      var c1, d1 := Feed(c, u[0]), Feed(d, v[0]);
      DifferenceStays(Xor(c, d), u[0] != v[0], h);
      FeedDifference(c, d, u[0], v[0]);
      LateBitsCannotCancel(c1, d1, u[1..], v[1..], Half(h), n - 1);
    }
  }

  lemma PowerNotZero(h: bv32, n: nat)
    requires Power(h, n)
    ensures h != 0
  {
  }

  lemma FirstDifference(c: bv32)
    ensures AtLeast(Xor(Feed(c, true), Feed(c, false)), 0x80000000)
  {
    FeedDifference(c, c, true, false);
    SelfDifference(c);
    assert AtLeast(Feed(0, true), 0x80000000);
  }

  lemma SelfDifference(c: bv32)
    ensures Xor(c, c) == 0
  {
  }

  lemma XorCommutes(c: bv32, d: bv32)
    ensures Xor(c, d) == Xor(d, c)
  {
  }

  /** A register fed two different strings of at most 32 bits ends in two different states. */
  lemma {:induction false} WindowInjective(c: bv32, u: seq<bool>, v: seq<bool>)
    requires |u| == |v| <= 32 && u != v
    ensures Register(c, u) != Register(c, v)
    decreases |u|
  {
    hide Feed, Xor, AtLeast, IsOdd, Half, Power;
    if u[0] == v[0] {
      assert u == [u[0]] + u[1..] && v == [v[0]] + v[1..];
      WindowInjective(Feed(c, u[0]), u[1..], v[1..]);
    } else {
      FirstDifference(c);
      XorCommutes(Feed(c, true), Feed(c, false));
      TopPower();
      LateBitsCannotCancel(Feed(c, u[0]), Feed(c, v[0]), u[1..], v[1..], 0x80000000, 31);
    }
  }

  lemma {:induction false} BitsOfConcat(s: seq<byte>, t: seq<byte>)
    ensures BitsOf(s + t) == BitsOf(s) + BitsOf(t)
  {
    hide BitsOfByte;
    if s == [] {
      assert s + t == t;
    } else {
      assert (s + t)[1..] == s[1..] + t;
      BitsOfConcat(s[1..], t);
    }
  }

  /** Any two messages that agree outside a window of at most 32 bits and differ inside it
      have different checksums. */
  lemma BurstDetected(p: seq<bool>, u: seq<bool>, v: seq<bool>, q: seq<bool>, s: seq<byte>, t: seq<byte>)
    requires |u| == |v| <= 32 && u != v
    requires BitsOf(s) == p + u + q && BitsOf(t) == p + v + q
    ensures Reference(s) != Reference(t)
  {
    hide BitsOf, Register;
    var c := Register(0xFFFFFFFF, p);
    RegisterConcat(0xFFFFFFFF, p + u, q);
    RegisterConcat(0xFFFFFFFF, p, u);
    RegisterConcat(0xFFFFFFFF, p + v, q);
    RegisterConcat(0xFFFFFFFF, p, v);
    WindowInjective(c, u, v);
    if Register(0xFFFFFFFF, BitsOf(s)) == Register(0xFFFFFFFF, BitsOf(t)) {
      RegisterInjective(Register(c, u), Register(c, v), q);
    }
    ComplementInjective(Register(0xFFFFFFFF, BitsOf(s)), Register(0xFFFFFFFF, BitsOf(t)));
  }

  lemma ComplementInjective(x: bv32, y: bv32)
    ensures x ^ 0xFFFFFFFF == y ^ 0xFFFFFFFF ==> x == y
  {
  }

  lemma {:induction false} LowBitsInjective(n: nat, a: bv32, b: bv32)
    requires LowBits(n, a) == LowBits(n, b) && Discard(n, a) == Discard(n, b)
    ensures a == b
  {
    hide IsOdd, Half;
    if n > 0 {
      assert LowBits(n, a)[0] == LowBits(n, b)[0] && LowBits(n, a)[1..] == LowBits(n, b)[1..];
      LowBitsInjective(n - 1, Half(a), Half(b));
      HalfInjective(a, b);
    }
  }

  lemma HalfInjective(a: bv32, b: bv32)
    requires IsOdd(a) == IsOdd(b) && Half(a) == Half(b)
    ensures a == b
  {
  }

  lemma ByteBitsInjective(a: byte, b: byte)
    requires BitsOfByte(a) == BitsOfByte(b)
    ensures a == b
  {
    hide LowBits, Discard;
    assert (a as bv32) >> 8 == 0 && (b as bv32) >> 8 == 0;
    DiscardEight(a as bv32);
    DiscardEight(b as bv32);
    LowBitsInjective(8, a as bv32, b as bv32);
  }

  lemma {:induction false} BitsOfInjective(s: seq<byte>, t: seq<byte>)
    requires |s| == |t| && BitsOf(s) == BitsOf(t)
    ensures s == t
    decreases |s|
  {
    hide BitsOfByte;
    if s != [] {
      ByteLength(s[0]);
      ByteLength(t[0]);
      assert BitsOfByte(s[0]) == BitsOf(s)[..8] == BitsOf(t)[..8] == BitsOfByte(t[0]);
      assert BitsOf(s[1..]) == BitsOf(s)[8..] == BitsOf(t)[8..] == BitsOf(t[1..]);
      ByteBitsInjective(s[0], t[0]);
      BitsOfInjective(s[1..], t[1..]);
      assert s == [s[0]] + s[1..] && t == [t[0]] + t[1..];
    }
  }

  lemma ByteLength(b: byte)
    ensures |BitsOfByte(b)| == 8
  {
  }

  lemma {:induction false} BitsLength(s: seq<byte>)
    ensures |BitsOf(s)| == 8 * |s|
  {
    hide BitsOfByte;
    if s != [] {
      ByteLength(s[0]);
      BitsLength(s[1..]);
    }
  }

  /** Messages that agree outside at most four consecutive bytes and differ inside them
      have different checksums. */
  lemma FourByteBurstDetected(p: seq<byte>, u: seq<byte>, v: seq<byte>, q: seq<byte>)
    requires |u| == |v| <= 4 && u != v
    ensures Reference(p + u + q) != Reference(p + v + q)
  {
    hide BitsOf, Reference;
    if BitsOf(u) == BitsOf(v) {
      BitsOfInjective(u, v);
    }
    BitsLength(u);
    BitsLength(v);
    BitsOfConcat(p + u, q);
    BitsOfConcat(p, u);
    BitsOfConcat(p + v, q);
    BitsOfConcat(p, v);
    BurstDetected(BitsOf(p), BitsOf(u), BitsOf(v), BitsOf(q), p + u + q, p + v + q);
  }

  // ------------------------------------------------------------------- a known value

  lemma StepFeeds(c: bv32, b: byte, rest: seq<byte>)
    ensures Register(c, BitsOf([b] + rest)) == Register(TableStep(c, b), BitsOf(rest))
  {
    hide TableStep, BitsOfByte, Feed;
    assert ([b] + rest)[1..] == rest;
    TableStepIsRegister(c, b);
    RegisterConcat(c, BitsOfByte(b), BitsOf(rest));
  }

  lemma Step1()
    ensures TableStep(0xFFFFFFFF, 0x31) == 0x7C231048
  {
  }

  lemma Step2()
    ensures TableStep(0x7C231048, 0x32) == 0xB0ACBB32
  {
  }

  lemma Step3()
    ensures TableStep(0xB0ACBB32, 0x33) == 0x77B79C2D
  {
  }

  lemma Step4()
    ensures TableStep(0x77B79C2D, 0x34) == 0x641C1F5C
  {
  }

  lemma Step5()
    ensures TableStep(0x641C1F5C, 0x35) == 0x340AC5E3
  {
  }

  lemma Step6()
    ensures TableStep(0x340AC5E3, 0x36) == 0xF68D2C9E
  {
  }

  lemma Step7()
    ensures TableStep(0xF68D2C9E, 0x37) == 0xAFFC9660
  {
  }

  lemma Step8()
    ensures TableStep(0xAFFC9660, 0x38) == 0x651F2550
  {
  }

  lemma Step9()
    ensures TableStep(0x651F2550, 0x39) == 0x340BC6D9
  {
  }

  function ThreeSteps(c: bv32, x: byte, y: byte, z: byte): bv32 {
    TableStep(TableStep(TableStep(c, x), y), z)
  }

  lemma FeedThree(c: bv32, x: byte, y: byte, z: byte, rest: seq<byte>)
    ensures Register(c, BitsOf([x, y, z] + rest)) == Register(ThreeSteps(c, x, y, z), BitsOf(rest))
  {
    hide TableStep, BitsOf, Register;
    assert [x, y, z] + rest == [x] + ([y] + ([z] + rest));
    StepFeeds(c, x, [y] + ([z] + rest));
    StepFeeds(TableStep(c, x), y, [z] + rest);
    StepFeeds(TableStep(TableStep(c, x), y), z, rest);
  }

  lemma KnownSteps()
    ensures ThreeSteps(0xFFFFFFFF, 0x31, 0x32, 0x33) == 0x77B79C2D
    ensures ThreeSteps(0x77B79C2D, 0x34, 0x35, 0x36) == 0xF68D2C9E
    ensures ThreeSteps(0xF68D2C9E, 0x37, 0x38, 0x39) == 0x340BC6D9
  {
    hide TableStep;
    Step1();
    Step2();
    Step3();
    Step4();
    Step5();
    Step6();
    Step7();
    Step8();
    Step9();
  }

  /** The check value of this CRC: that of the digits 1 to 9. */
  lemma CheckValue()
    ensures Reference([0x31, 0x32, 0x33, 0x34, 0x35, 0x36, 0x37, 0x38, 0x39]) == 0xCBF43926
  {
    hide ThreeSteps, BitsOf, Register;
    var one: seq<byte>, two: seq<byte>, three: seq<byte> := [0x31, 0x32, 0x33], [0x34, 0x35, 0x36], [0x37, 0x38, 0x39];
    KnownSteps();
    FeedThree(0xFFFFFFFF, 0x31, 0x32, 0x33, two + (three + []));
    FeedThree(0x77B79C2D, 0x34, 0x35, 0x36, three + []);
    FeedThree(0xF68D2C9E, 0x37, 0x38, 0x39, []);
    NothingFed(0x340BC6D9);
    assert one + (two + (three + [])) == [0x31, 0x32, 0x33, 0x34, 0x35, 0x36, 0x37, 0x38, 0x39];
  }

  lemma NothingFed(c: bv32)
    ensures Register(c, BitsOf([])) == c
  {
  }
}
