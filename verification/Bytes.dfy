/** Byte strings and the network byte order accessors of kernel/util/types.h. */
module Bytes {

  type byte = bv8

  function Bit(b: byte, mask: byte): (n: nat)
    ensures n <= 1
  {
    if b & mask != 0 then 1 else 0
  }

  /** The unsigned value of a byte. */
  function Val(b: byte): nat {
    Bit(b, 1) + 2 * (Bit(b, 2) + 2 * (Bit(b, 4) + 2 * (Bit(b, 8) +
    2 * (Bit(b, 16) + 2 * (Bit(b, 32) + 2 * (Bit(b, 64) + 2 * Bit(b, 128)))))))
  }

  function Join(p0: bool, p1: bool, p2: bool, p3: bool, p4: bool, p5: bool, p6: bool, p7: bool): byte {
    (if p0 then 1 else 0) | (if p1 then 2 else 0) | (if p2 then 4 else 0) | (if p3 then 8 else 0) |
    (if p4 then 16 else 0) | (if p5 then 32 else 0) | (if p6 then 64 else 0) | (if p7 then 128 else 0)
  }

  /** The byte with a given value; larger values are truncated as a cast to uint8_t does. */
  function ToByte(n: nat): byte {
    var n1 := n / 2;
    var n2 := n1 / 2;
    var n3 := n2 / 2;
    var n4 := n3 / 2;
    var n5 := n4 / 2;
    var n6 := n5 / 2;
    var n7 := n6 / 2;
    Join(n % 2 == 1, n1 % 2 == 1, n2 % 2 == 1, n3 % 2 == 1, n4 % 2 == 1, n5 % 2 == 1, n6 % 2 == 1, n7 % 2 == 1)
  }

  lemma JoinBits(p0: bool, p1: bool, p2: bool, p3: bool, p4: bool, p5: bool, p6: bool, p7: bool)
    ensures var b := Join(p0, p1, p2, p3, p4, p5, p6, p7);
            && (Bit(b, 1) == 1) == p0 && (Bit(b, 2) == 1) == p1 && (Bit(b, 4) == 1) == p2 && (Bit(b, 8) == 1) == p3
            && (Bit(b, 16) == 1) == p4 && (Bit(b, 32) == 1) == p5 && (Bit(b, 64) == 1) == p6 && (Bit(b, 128) == 1) == p7
  {
  }

  lemma BitsJoin(b: byte)
    ensures b == Join(Bit(b, 1) == 1, Bit(b, 2) == 1, Bit(b, 4) == 1, Bit(b, 8) == 1,
                      Bit(b, 16) == 1, Bit(b, 32) == 1, Bit(b, 64) == 1, Bit(b, 128) == 1)
  {
  }

  lemma Halve(n: nat, bit: nat, rest: nat)
    requires n == bit + 2 * rest && bit <= 1
    ensures n / 2 == rest && n % 2 == bit
  {
  }

  lemma ValBound(b: byte)
    ensures Val(b) < 256 && ToByte(Val(b)) == b
  {
    hide Join, Bit;
    BitsJoin(b);
    var n7 := Bit(b, 128);
    var n6 := Bit(b, 64) + 2 * n7;
    var n5 := Bit(b, 32) + 2 * n6;
    var n4 := Bit(b, 16) + 2 * n5;
    var n3 := Bit(b, 8) + 2 * n4;
    var n2 := Bit(b, 4) + 2 * n3;
    var n1 := Bit(b, 2) + 2 * n2;
    Halve(Val(b), Bit(b, 1), n1);
    Halve(n1, Bit(b, 2), n2);
    Halve(n2, Bit(b, 4), n3);
    Halve(n3, Bit(b, 8), n4);
    Halve(n4, Bit(b, 16), n5);
    Halve(n5, Bit(b, 32), n6);
    Halve(n6, Bit(b, 64), n7);
  }

  lemma ToByteBits(n: nat)
    ensures var b := ToByte(n);
            var n1 := n / 2;
            var n2 := n1 / 2;
            var n3 := n2 / 2;
            var n4 := n3 / 2;
            var n5 := n4 / 2;
            var n6 := n5 / 2;
            var n7 := n6 / 2;
            && n == Bit(b, 1) + 2 * n1 && n1 == Bit(b, 2) + 2 * n2 && n2 == Bit(b, 4) + 2 * n3
            && n3 == Bit(b, 8) + 2 * n4 && n4 == Bit(b, 16) + 2 * n5 && n5 == Bit(b, 32) + 2 * n6
            && n6 == Bit(b, 64) + 2 * n7 && n7 == Bit(b, 128) + 2 * (n7 / 2)
  {
    hide Join, Bit;
    var n1 := n / 2;
    var n2 := n1 / 2;
    var n3 := n2 / 2;
    var n4 := n3 / 2;
    var n5 := n4 / 2;
    var n6 := n5 / 2;
    var n7 := n6 / 2;
    JoinBits(n % 2 == 1, n1 % 2 == 1, n2 % 2 == 1, n3 % 2 == 1, n4 % 2 == 1, n5 % 2 == 1, n6 % 2 == 1, n7 % 2 == 1);
  }

  lemma Mod256(n: int, q: int, v: int)
    requires n == 256 * q + v && 0 <= v < 256
    ensures n % 256 == v
  {
  }

  lemma ValToByte(n: nat)
    ensures Val(ToByte(n)) == n % 256
  {
    hide ToByte, Bit;
    ToByteBits(n);
    ValBound(ToByte(n));
    var q := n / 2 / 2 / 2 / 2 / 2 / 2 / 2 / 2;
    assert n == 256 * q + Val(ToByte(n));
    Mod256(n, q, Val(ToByte(n)));
  }

  /** byte2: sixteen bits, most significant byte first. */
  function Get2(s: seq<byte>, i: nat): (v: nat)
    requires i + 2 <= |s|
    ensures v < 65536
  {
    ValBound(s[i]);
    ValBound(s[i + 1]);
    256 * Val(s[i]) + Val(s[i + 1])
  }

  function Put2(v: nat): (s: seq<byte>)
    requires v < 65536
    ensures |s| == 2
  {
    [ToByte(v / 256), ToByte(v % 256)]
  }

  lemma GetPut2(s: seq<byte>, i: nat, v: nat)
    requires i + 2 <= |s| && v < 65536 && s[i..i + 2] == Put2(v)
    ensures Get2(s, i) == v
  {
    hide Val, ToByte;
    assert s[i] == s[i..i + 2][0] && s[i + 1] == s[i..i + 2][1];
    ValToByte(v / 256);
    ValToByte(v % 256);
  }

  lemma PutGet2(s: seq<byte>, i: nat)
    requires i + 2 <= |s|
    ensures Put2(Get2(s, i)) == s[i..i + 2]
  {
    hide Val, ToByte;
    ValBound(s[i]);
    ValBound(s[i + 1]);
    var v := Get2(s, i);
    assert v / 256 == Val(s[i]) && v % 256 == Val(s[i + 1]);
  }

  /** byte4: thirty-two bits, most significant byte first. */
  function Get4(s: seq<byte>, i: nat): bv32
    requires i + 4 <= |s|
  {
    ((s[i] as bv32) << 24) | ((s[i + 1] as bv32) << 16) | ((s[i + 2] as bv32) << 8) | (s[i + 3] as bv32)
  }

  function Put4(v: bv32): (s: seq<byte>)
    ensures |s| == 4
  {
    [(v >> 24) as bv8, ((v >> 16) & 0xFF) as bv8, ((v >> 8) & 0xFF) as bv8, (v & 0xFF) as bv8]
  }

  lemma GetPut4(v: bv32)
    ensures Get4(Put4(v), 0) == v
  {
  }

  function Get8(s: seq<byte>, i: nat): bv64
    requires i + 8 <= |s|
  {
    ((Get4(s, i) as bv64) << 32) | (Get4(s, i + 4) as bv64)
  }

  function Put8(v: bv64): (s: seq<byte>)
    ensures |s| == 8
  {
    Put4((v >> 32) as bv32) + Put4((v & 0xFFFFFFFF) as bv32)
  }

  lemma Get4Slice(s: seq<byte>, i: nat)
    requires i + 4 <= |s|
    ensures Get4(s, i) == Get4(s[i..i + 4], 0)
  {
  }

  lemma GetPut8(v: bv64)
    ensures Get8(Put8(v), 0) == v
  {
    var h, l := (v >> 32) as bv32, (v & 0xFFFFFFFF) as bv32;
    JoinHalves(v);
    hide Get4, Put4;
    var s := Put8(v);
    assert s[0..4] == Put4(h) && s[4..8] == Put4(l);
    Get4Slice(s, 0);
    Get4Slice(s, 4);
    GetPut4(h);
    GetPut4(l);
  }

  lemma JoinHalves(v: bv64)
    ensures ((((v >> 32) as bv32) as bv64) << 32) | (((v & 0xFFFFFFFF) as bv32) as bv64) == v
  {
  }

  function XorBytes(a: seq<byte>, b: seq<byte>): (r: seq<byte>)
    requires |a| == |b|
    ensures |r| == |a|
  {
    seq(|a|, i requires 0 <= i < |a| => a[i] ^ b[i])
  }

  lemma XorBytesTwice(a: seq<byte>, b: seq<byte>)
    requires |a| == |b|
    ensures XorBytes(XorBytes(a, b), b) == a
  {
    forall i | 0 <= i < |a|
      ensures (a[i] ^ b[i]) ^ b[i] == a[i]
    {
      XorByteTwice(a[i], b[i]);
    }
  }

  lemma XorByteTwice(a: byte, b: byte)
    ensures (a ^ b) ^ b == a
  {
  }

  /** Align4 on uint16_t: the next multiple of four, truncated to sixteen bits. */
  function Align4(size: nat): nat
    requires size < 65536
  {
    if size % 4 != 0 then (size / 4 * 4 + 4) % 65536 else size
  }

  /** Most significant byte first. */
  lemma NetworkOrder()
    ensures Put2(0x0102) == [0x01, 0x02]
    ensures Put4(0x01020304) == [0x01, 0x02, 0x03, 0x04]
    ensures Put8(0x0102030405060708) == [0x01, 0x02, 0x03, 0x04, 0x05, 0x06, 0x07, 0x08]
  {
    hide ToByte, Put4;
    SmallToByte();
    FourInOrder();
    var v: bv64 := 0x0102030405060708;
    assert (v >> 32) as bv32 == 0x01020304 && (v & 0xFFFFFFFF) as bv32 == 0x05060708;
  }

  lemma FourInOrder()
    ensures Put4(0x01020304) == [0x01, 0x02, 0x03, 0x04]
    ensures Put4(0x05060708) == [0x05, 0x06, 0x07, 0x08]
  {
  }

  lemma SmallToByte()
    ensures ToByte(1) == 1 && ToByte(2) == 2
  {
  }
}
