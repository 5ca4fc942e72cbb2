/** STUN packets in the numbers of RFC 5389 and RFC 8445: what is on the wire, said without the
    definitions by which Stun parses and packs. */
module StunWire {
  import opened Bytes
  import Crc32
  import opened Stun

  // ---------------------------------------------------------- one way to tile a packet

  lemma TilesOfNothing(attrs: seq<Attribute>)
    requires AllFit(attrs) && EncodeAll(attrs) == []
    ensures attrs == []
  {
    hide Put2;
  }

  /** Two first attributes of the same bytes are one. */
  lemma FirstTile(a: Attribute, b: Attribute, data: seq<byte>)
    requires WellFormed(a) && Padded(a) && WellFormed(b) && Padded(b)
    requires Encode(a) <= data && Encode(b) <= data
    ensures a == b
  {
    hide Put2, Get2, Pad4;
    assert data[0..] == data;
    AttributeAt(data, 0, a);
    AttributeAt(data, 0, b);
    EncodeParts(a);
    EncodeParts(b);
    var n := 4 + |a.value|;
    assert a.padding == Encode(a)[n..] == data[n..n + |a.padding|];
    assert b.padding == Encode(b)[n..] == data[n..n + |b.padding|];
  }

  lemma EncodeParts(a: Attribute)
    requires WellFormed(a)
    ensures |Encode(a)| == 4 + |a.value| + |a.padding| && Encode(a)[4 + |a.value|..] == a.padding
  {
    hide Put2;
  }

  lemma {:induction false} TilesAreUnique(a: seq<Attribute>, b: seq<Attribute>)
    requires AllFit(a) && AllFit(b) && EncodeAll(a) == EncodeAll(b)
    ensures a == b
    decreases |a|
  {
    hide Encode, Padded, SizeFits, WellFormed;
    if a == [] {
      TilesOfNothing(b);
    } else if b == [] {
      TilesOfNothing(a);
    } else {
      var data := EncodeAll(a);
      FirstTile(a[0], b[0], data);
      var n := |Encode(a[0])|;
      assert EncodeAll(a[1..]) == data[n..] == EncodeAll(b[1..]);
      TilesAreUnique(a[1..], b[1..]);
    }
  }

  // ---------------------------------------------------------------- what Pack emits

  /** One attribute a message may carry. */
  datatype Row = Row(present: bool, kind: nat, value: seq<byte>)

  function Build(rows: seq<Row>): seq<Attribute> {
    if rows == [] then []
    else (if rows[0].present then [Attribute(rows[0].kind, rows[0].value, [])] else []) + Build(rows[1..])
  }

  /** Port and host xored with 0x2112A442 and the transaction id: section 15.2 of RFC 5389. */
  function KeyByte(tid: seq<byte>, i: nat): byte
    requires i < 4 + |tid|
  {
    if i == 0 then 0x21 else if i == 1 then 0x12 else if i == 2 then 0xA4 else if i == 3 then 0x42 else tid[i - 4]
  }

  function Xored(host: seq<byte>, tid: seq<byte>): seq<byte>
    requires |host| <= 4 + |tid|
  {
    seq(|host|, i requires 0 <= i < |host| => host[i] ^ KeyByte(tid, i))
  }

  function MappedBytes(m: Fields): seq<byte>
    requires m.mapped.Valid() && |m.tid| == 12
  {
    match m.mapped
    case Inet4(port, host) => [0, 1, port[0] ^ 0x21, port[1] ^ 0x12] + Xored(host, m.tid)
    case Inet6(port, host) => [0, 2, port[0] ^ 0x21, port[1] ^ 0x12] + Xored(host, m.tid)
    case _ => []
  }

  /** Class and number of an error code, each a byte: section 15.6 of RFC 5389. */
  function ErrorBytes(code: nat): seq<byte> {
    [0, 0, ToByte(code / 100), ToByte((code - code / 100 % 256 * 100) % 256)]
  }

  /** The attributes of a message in the order in which they are emitted. */
  function IceRows(m: Fields): seq<Row> {
    [Row(|m.username| > 0, 0x0006, m.username),
     Row(m.priority != 0, 0x0024, Put4(m.priority)),
     Row(m.controlling != 0, 0x802A, Put8(m.controlling)),
     Row(m.controlled != 0, 0x8029, Put8(m.controlled)),
     Row(m.useCandidate, 0x0025, [])]
  }

  function MappedRow(m: Fields): Row
    requires m.mapped.Valid() && |m.tid| == 12
  {
    Row((m.mapped.Inet4? || m.mapped.Inet6?) && m.klass == 2 && m.method_ == 1, 0x0020, MappedBytes(m))
  }

  function ErrorRow(m: Fields): Row {
    Row(m.errorCode != 0 && m.klass == 3, 0x0009, ErrorBytes(m.errorCode))
  }

  function IntegrityRow(m: Fields, digest: seq<byte>): Row {
    Row(m.klass != 3 && |m.password| > 0, 0x0008, digest)
  }

  function PlainRows(m: Fields): seq<Row>
    requires m.mapped.Valid() && |m.tid| == 12
  {
    IceRows(m) + [MappedRow(m)] + [ErrorRow(m)]
  }

  function Rows(m: Fields, digest: seq<byte>, crc: bv32): seq<Row>
    requires m.mapped.Valid() && |m.tid| == 12
  {
    PlainRows(m) + [IntegrityRow(m, digest)] + [Row(true, 0x8028, Put4(crc))]
  }

  lemma HostXored(host: seq<byte>, key: seq<byte>, tid: seq<byte>)
    requires |host| == |key| <= 4 + |tid| && forall i :: 0 <= i < |key| ==> key[i] == KeyByte(tid, i)
    ensures XorBytes(host, key) == Xored(host, tid)
  {
    hide KeyByte;
  }

  lemma PortXored(port: seq<byte>)
    requires |port| == 2
    ensures XorBytes(port, COOKIE[..2]) == [port[0] ^ 0x21, port[1] ^ 0x12]
  {
  }

  lemma KeyOf(tid: seq<byte>, i: nat)
    requires i < 4 + |tid|
    ensures (COOKIE + tid)[i] == KeyByte(tid, i)
  {
  }

  lemma MappedIs(m: Fields)
    requires m.mapped.Valid() && |m.tid| == 12
    ensures MappedValue(m) == MappedBytes(m)
  {
    hide XorBytes, KeyByte, Xored;
    forall i: nat | i < 16
      ensures (COOKIE + m.tid)[i] == KeyByte(m.tid, i)
    {
      KeyOf(m.tid, i);
    }
    match m.mapped
    case Inet4(port, host) =>
      PortXored(port);
      assert forall i: nat :: i < 4 ==> COOKIE[i] == (COOKIE + m.tid)[i];
      HostXored(host, COOKIE, m.tid);
      assert [0, 1] + [port[0] ^ 0x21, port[1] ^ 0x12] == [0, 1, port[0] ^ 0x21, port[1] ^ 0x12];
    case Inet6(port, host) =>
      PortXored(port);
      HostXored(host, COOKIE + m.tid, m.tid);
      assert [0, 2] + [port[0] ^ 0x21, port[1] ^ 0x12] == [0, 2, port[0] ^ 0x21, port[1] ^ 0x12];
    case _ =>
  }

  lemma ErrorIs(code: nat)
    requires code < 65536
    ensures ErrorValue(code) == ErrorBytes(code)
  {
    hide Val, ToByte;
    ValToByte(code / 100);
  }

  lemma BuildCons(r: Row, rest: seq<Row>)
    ensures Build([r] + rest) == Optional(r.present, r.kind, r.value) + Build(rest)
  {
    assert ([r] + rest)[1..] == rest;
  }

  lemma {:induction false} BuildJoin(a: seq<Row>, b: seq<Row>)
    ensures Build(a + b) == Build(a) + Build(b)
  {
    if a == [] {
      assert a + b == b;
    } else {
      assert (a + b)[1..] == a[1..] + b;
      BuildJoin(a[1..], b);
    }
  }

  lemma BuildOne(r: Row)
    ensures Build([r]) == Optional(r.present, r.kind, r.value)
  {
    assert [r][1..] == [];
  }

  lemma IceIsBuilt(m: Fields)
    requires Packable(m)
    ensures Ice(m) == Build(IceRows(m))
  {
    hide Build, Put4, Put8, Optional, PackedSize, AllWellFormed;
    var r := IceRows(m);
    BuildOne(r[0]);
    BuildOne(r[1]);
    BuildOne(r[2]);
    BuildOne(r[3]);
    BuildOne(r[4]);
    BuildJoin([r[0]], [r[1]]);
    BuildJoin([r[0]] + [r[1]], [r[2]]);
    BuildJoin([r[0]] + [r[1]] + [r[2]], [r[3]]);
    BuildJoin([r[0]] + [r[1]] + [r[2]] + [r[3]], [r[4]]);
    assert [r[0]] + [r[1]] + [r[2]] + [r[3]] + [r[4]] == r;
    assert (m.username != []) == (|m.username| > 0);
  }

  lemma PlainIsBuilt(m: Fields)
    requires Packable(m)
    ensures Plain(m) == Build(PlainRows(m))
  {
    hide Build, Optional, PackedSize, AllWellFormed, Ice, IceRows, MappedValue, MappedBytes, ErrorValue, ErrorBytes;
    MappedIs(m);
    ErrorIs(m.errorCode);
    IceIsBuilt(m);
    BuildOne(MappedRow(m));
    BuildOne(ErrorRow(m));
    BuildJoin(IceRows(m), [MappedRow(m)]);
    BuildJoin(IceRows(m) + [MappedRow(m)], [ErrorRow(m)]);
  }

  /** The attributes that Pack writes are those rows, for every message. */
  lemma PackedIsBuilt(m: Fields, hmac: Hmac)
    requires Packable(m)
    ensures Packed(m, hmac) == Build(Rows(m, DigestOf(m, hmac), Expected(Prefix(m, hmac))))
  {
    hide Build, Put4, Optional, PackedSize, AllWellFormed, Plain, PlainRows, Expected, Prefix, Header, EncodeAll;
    SizeBounds(m);
    PlainIsBuilt(m);
    var d, last := IntegrityRow(m, DigestOf(m, hmac)), Row(true, 0x8028, Put4(Expected(Prefix(m, hmac))));
    BuildOne(d);
    BuildOne(last);
    JustOne(0x8028, last.value);
    BuildJoin(PlainRows(m), [d]);
    BuildJoin(PlainRows(m) + [d], [last]);
    assert (m.password != []) == (|m.password| > 0);
  }

  /** The attributes hold one of this kind exactly if it is present, and then with this value. */
  ghost predicate Holds(attrs: seq<Attribute>, r: Row) {
    && (r.present <==> exists i :: 0 <= i < |attrs| && attrs[i].kind == r.kind)
    && (forall i :: 0 <= i < |attrs| && attrs[i].kind == r.kind ==> attrs[i].value == r.value && attrs[i].padding == [])
    && (forall i, j :: 0 <= i < j < |attrs| && attrs[i].kind == r.kind ==> attrs[j].kind != r.kind)
  }

  ghost predicate DistinctKinds(rows: seq<Row>) {
    forall i, j :: 0 <= i < j < |rows| ==> rows[i].kind != rows[j].kind
  }

  lemma {:induction false} BuildKinds(rows: seq<Row>, k: nat)
    requires k < |Build(rows)|
    ensures exists i :: 0 <= i < |rows| && rows[i].kind == Build(rows)[k].kind
    decreases |rows|
  {
    var n := if rows[0].present then 1 else 0;
    if k >= n {
      BuildKinds(rows[1..], k - n);
      var i :| 0 <= i < |rows[1..]| && rows[1..][i].kind == Build(rows[1..])[k - n].kind;
      assert rows[i + 1].kind == Build(rows)[k].kind;
    } else {
      assert rows[0].kind == Build(rows)[k].kind;
    }
  }

  lemma {:induction false} BuildHolds(rows: seq<Row>, r: nat)
    requires DistinctKinds(rows) && r < |rows|
    ensures Holds(Build(rows), rows[r])
    decreases |rows|
  {
    var rest := rows[1..];
    assert DistinctKinds(rest) by { assert forall i :: 0 <= i < |rest| ==> rest[i] == rows[i + 1]; }
    var first := if rows[0].present then [Attribute(rows[0].kind, rows[0].value, [])] else [];
    var attrs, more := Build(rows), Build(rest);
    assert attrs == first + more;
    if r == 0 {
      forall k | 0 <= k < |more|
        ensures more[k].kind != rows[0].kind
      {
        BuildKinds(rest, k);
      }
      if rows[0].present {
        assert attrs[0].kind == rows[0].kind;
      }
    } else {
      BuildHolds(rest, r - 1);
      HoldsBehind(first, more, rows[r]);
    }
  }

  lemma HoldsBehind(first: seq<Attribute>, more: seq<Attribute>, r: Row)
    requires Holds(more, r) && forall i :: 0 <= i < |first| ==> first[i].kind != r.kind
    ensures Holds(first + more, r)
  {
    var attrs := first + more;
    if r.present {
      var i :| 0 <= i < |more| && more[i].kind == r.kind;
      assert attrs[|first| + i].kind == r.kind;
    }
  }

  // ------------------------------------------------------------------ the main results

  /** The packet carries exactly these attributes. */
  ghost predicate Carries(m: Fields, attrs: seq<Attribute>, digest: seq<byte>, crc: bv32)
    requires m.mapped.Valid() && |m.tid| == 12
  {
    && Holds(attrs, Row(|m.username| > 0, 0x0006, m.username))
    && Holds(attrs, Row(m.priority != 0, 0x0024, Put4(m.priority)))
    && Holds(attrs, Row(m.controlling != 0, 0x802A, Put8(m.controlling)))
    && Holds(attrs, Row(m.controlled != 0, 0x8029, Put8(m.controlled)))
    && Holds(attrs, Row(m.useCandidate, 0x0025, []))
    && Holds(attrs, Row((m.mapped.Inet4? || m.mapped.Inet6?) && m.klass == 2 && m.method_ == 1, 0x0020, MappedBytes(m)))
    && Holds(attrs, Row(m.errorCode != 0 && m.klass == 3, 0x0009, ErrorBytes(m.errorCode)))
    && Holds(attrs, Row(m.klass != 3 && |m.password| > 0, 0x0008, digest))
    && Holds(attrs, Row(true, 0x8028, Put4(crc)))
    && attrs != [] && attrs[|attrs| - 1].kind == 0x8028
    && forall i :: 0 <= i < |attrs| ==>
         attrs[i].kind in {0x0006, 0x0024, 0x802A, 0x8029, 0x0025, 0x0020, 0x0009, 0x0008, 0x8028}
  }

  lemma RowsAreDistinct(m: Fields, digest: seq<byte>, crc: bv32)
    requires m.mapped.Valid() && |m.tid| == 12
    ensures DistinctKinds(Rows(m, digest, crc)) && |Rows(m, digest, crc)| == 9
    ensures forall i :: 0 <= i < 9 ==>
              Rows(m, digest, crc)[i].kind in {0x0006, 0x0024, 0x802A, 0x8029, 0x0025, 0x0020, 0x0009, 0x0008, 0x8028}
  {
    hide Put4, Put8, MappedBytes, ErrorBytes;
  }

  lemma BuiltCarries(m: Fields, digest: seq<byte>, crc: bv32)
    requires m.mapped.Valid() && |m.tid| == 12
    ensures Carries(m, Build(Rows(m, digest, crc)), digest, crc)
  {
    hide Put4, Put8, MappedBytes, ErrorBytes, Build, Holds, DistinctKinds;
    var rows := Rows(m, digest, crc);
    RowsAreDistinct(m, digest, crc);
    BuildHolds(rows, 0);
    BuildHolds(rows, 1);
    BuildHolds(rows, 2);
    BuildHolds(rows, 3);
    BuildHolds(rows, 4);
    BuildHolds(rows, 5);
    BuildHolds(rows, 6);
    BuildHolds(rows, 7);
    BuildHolds(rows, 8);
    BuildJoin(rows[..8], [rows[8]]);
    assert rows == rows[..8] + [rows[8]];
    BuildOne(rows[8]);
    JustOne(0x8028, rows[8].value);
    forall i | 0 <= i < |Build(rows)|
      ensures Build(rows)[i].kind in {0x0006, 0x0024, 0x802A, 0x8029, 0x0025, 0x0020, 0x0009, 0x0008, 0x8028}
    {
      BuildKinds(rows, i);
    }
  }

  /** MESSAGE-INTEGRITY is the digest of the bytes before it, with a length field that ends behind
      it: section 15.4 of RFC 5389.  The gap is what the length field counts and the packet lacks. */
  ghost predicate Signs(password: seq<byte>, hmac: Hmac, packet: seq<byte>, attrs: seq<Attribute>, gap: nat)
    requires AllWellFormed(attrs)
  {
    forall i :: 0 <= i < |attrs| && attrs[i].kind == 0x0008 ==>
      var at := 20 + |EncodeAll(attrs[..i])|;
      && 4 <= at <= |packet| && at + 4 + gap < 65536
      && attrs[i].value == hmac(password, packet[..2] + Put2(at + 4 + gap) + packet[4..at])
  }

  /** The padding that USERNAME lacks. */
  function Gap(m: Fields): nat {
    (4 - |m.username| % 4) % 4
  }

  lemma GapIsMissing(m: Fields)
    ensures Gap(m) == Missing(m)
  {
  }

  lemma PlainIsUnsigned(m: Fields, i: nat)
    requires Packable(m) && i < |Plain(m)|
    ensures Plain(m)[i].kind != 0x0008
  {
    hide Plain, Build, Put4, Put8, MappedBytes, ErrorBytes, PackedSize;
    PlainIsBuilt(m);
    BuildKinds(PlainRows(m), i);
  }

  /** Where the announced size comes from when the message is signed. */
  lemma SignedSize(m: Fields)
    requires Packable(m) && AddIntegrity(m)
    ensures PackedSize(m) == 20 + |EncodeAll(Plain(m))| + Gap(m) + 24 + 8
  {
    hide EncodeAll, Plain, Ice, IceBytes, ResponseBytes, Missing, Gap;
    IceSize(m);
    PlainSize(m);
    GapIsMissing(m);
  }

  lemma HeaderOf(m: Fields, length: nat, body: seq<byte>)
    requires |m.tid| == 12 && length < 65536
    ensures |Header(m, length) + body| == 20 + |body|
    ensures (Header(m, length) + body)[..2] == TypeBytes(m)
    ensures (Header(m, length) + body)[4..20] == COOKIE + m.tid
  {
    hide Put2, TypeBytes;
  }

  lemma Redigested(m: Fields, from: nat, to: nat, plain: seq<byte>, rest: seq<byte>)
    requires |m.tid| == 12 && from < 65536 && to < 65536
    ensures var packet := Header(m, from) + (plain + rest);
            var at := 20 + |plain|;
            at <= |packet| && packet[..2] + Put2(to) + packet[4..at] == Header(m, to) + plain
  {
    hide Put2, TypeBytes;
    var packet := Header(m, from) + (plain + rest);
    var at := 20 + |plain|;
    HeaderPatch(m, from, to, plain);
    assert |Header(m, from)| == 20;
    assert packet[..at] == Header(m, from) + plain;
    assert packet[..2] == packet[..at][..2] && packet[4..at] == packet[..at][4..];
  }

  lemma PackedSigns(m: Fields, hmac: Hmac)
    requires Packable(m)
    ensures Signs(m.password, hmac, PackBytes(m, hmac), Packed(m, hmac), Gap(m))
  {
    hide Encode, Plain, PackedSize, Header, Expected, Prefix, EncodeAll, PackBytes, Put4, Gap, Put2;
    SizeBounds(m);
    var attrs, plain := Packed(m, hmac), Plain(m);
    var packet := PackBytes(m, hmac);
    PackBytesIsHeaderAndTiles(m, hmac);
    forall i | 0 <= i < |attrs| && attrs[i].kind == 0x0008
      ensures var at := 20 + |EncodeAll(attrs[..i])|;
              && 4 <= at <= |packet| && at + 4 + Gap(m) < 65536
              && attrs[i].value == hmac(m.password, packet[..2] + Put2(at + 4 + Gap(m)) + packet[4..at])
    {
      if i < |plain| {
        PlainIsUnsigned(m, i);
      }
      assert AddIntegrity(m) && i == |plain|;
      assert attrs[..i] == plain && attrs == plain + attrs[i..];
      SignedSize(m);
      RestWellFormed(attrs, i);
      EncodeAllJoin(plain, attrs[i..]);
      Redigested(m, PackedSize(m) - 20, PackedSize(m) - 28, EncodeAll(plain), EncodeAll(attrs[i..]));
    }
  }

  lemma RestWellFormed(attrs: seq<Attribute>, i: nat)
    requires AllWellFormed(attrs) && i <= |attrs|
    ensures AllWellFormed(attrs[i..]) && AllWellFormed(attrs[..i])
  {
  }

  /** What Pack puts on the wire for every message: type, length, cookie and transaction id, then one
      attribute of each kind that the message calls for and no other, signed and with the fingerprint
      of section 15.5 of RFC 5389 last. */
  lemma PackedOnTheWire(m: Fields, hmac: Hmac) returns (attrs: seq<Attribute>, digest: seq<byte>)
    requires Packable(m)
    ensures AllWellFormed(attrs)
    ensures var packet := PackBytes(m, hmac);
            && |packet| >= 28
            && packet[4..8] == [0x21, 0x12, 0xA4, 0x42] && packet[8..20] == m.tid
            && Get2(packet, 2) == |packet| - 20 + Gap(m)
            && packet[20..] == EncodeAll(attrs)
            && Carries(m, attrs, digest, Crc32.Reference(packet[..|packet| - 8]) ^ 0x5354554E)
            && Signs(m.password, hmac, packet, attrs, Gap(m))
  {
    hide EncodeAll, Header, TypeBytes, Get2, Packed, PackedSize, PackBytes, MethodOf, ClassOf, IsStun, Carries, Signs, Gap,
      Crc32.Reference, Prefix, DigestOf, Rows, Build;
    SizeBounds(m);
    attrs, digest := Packed(m, hmac), DigestOf(m, hmac);
    var packet := PackBytes(m, hmac);
    PackedHeader(m, hmac);
    PackBytesIsHeaderAndTiles(m, hmac);
    HeaderReads(m, PackedSize(m) - 20, packet);
    PackedLength(m, hmac);
    GapIsMissing(m);
    PrefixIs(m, hmac);
    PackedIsBuilt(m, hmac);
    BuiltCarries(m, digest, Expected(Prefix(m, hmac)));
    PackedSigns(m, hmac);
  }

  lemma PrefixIs(m: Fields, hmac: Hmac)
    requires Packable(m)
    ensures |PackBytes(m, hmac)| >= 28 && PackBytes(m, hmac)[..|PackBytes(m, hmac)| - 8] == Prefix(m, hmac)
  {
    hide Encode, Put4, Expected, EncodeAll, PackedSize, Digested;
    SizeBounds(m);
    HeaderPatch(m, PackedSize(m) - 20, 0, []);
    EncodeSize(FINGERPRINT, Put4(Expected(Prefix(m, hmac))));
  }

  /** Whoever takes the packet apart finds just these attributes. */
  lemma PackedReadsAsPacked(m: Fields, hmac: Hmac, attrs: seq<Attribute>) returns (digest: seq<byte>)
    requires Packable(m) && Conforms(PackBytes(m, hmac), attrs)
    ensures var packet := PackBytes(m, hmac);
            && |packet| >= 28 && AllWellFormed(attrs)
            && Carries(m, attrs, digest, Crc32.Reference(packet[..|packet| - 8]) ^ 0x5354554E)
            && Signs(m.password, hmac, packet, attrs, 0)
  {
    hide EncodeAll, Get2, Packed, PackedSize, PackBytes, IsStun, Carries, Signs, Crc32.Reference, Prefix, DigestOf, Rows, Build,
      ParseResult, SizeFits, Padded, FingerprintHolds, Ordered, AllWellFormed;
    var packet := PackBytes(m, hmac);
    PackedLength(m, hmac);
    PackedHeader(m, hmac);
    NothingMissing(m);
    assert Missing(m) == 0;
    GapIsMissing(m);
    PackedFits(m, hmac);
    TilesAreUnique(attrs, Packed(m, hmac));
    PrefixIs(m, hmac);
    PackedIsBuilt(m, hmac);
    digest := DigestOf(m, hmac);
    BuiltCarries(m, digest, Expected(Prefix(m, hmac)));
    PackedSigns(m, hmac);
  }

  /** The message types of a Binding: section 6 of RFC 5389. */
  lemma BindingTypes(m: Fields)
    requires m.method_ == 1
    ensures m.klass == 0 ==> TypeBytes(m) == [0x00, 0x01]
    ensures m.klass == 1 ==> TypeBytes(m) == [0x00, 0x11]
    ensures m.klass == 2 ==> TypeBytes(m) == [0x01, 0x01]
    ensures m.klass == 3 ==> TypeBytes(m) == [0x01, 0x11]
  {
  }

  // -------------------------------------------------------------- what Parse accepts

  /** The sizes of RFC 5389 and RFC 8445 that are checked. */
  predicate RightSize(kind: nat, size: nat) {
    && (kind == 0x0024 || kind == 0xC001 || kind == 0x8028 ==> size == 4)
    && (kind == 0x8029 || kind == 0x802A ==> size == 8)
    && (kind == 0x0025 ==> size == 0)
    && (kind == 0x0008 ==> size == 20)
    && (kind == 0x0009 ==> size >= 4)
  }

  /** The packet is a STUN message with these attributes. */
  ghost predicate Describes(attrs: seq<Attribute>, packet: seq<byte>) {
    && |packet| >= 20 && packet[0] <= 2 && packet[4..8] == [0x21, 0x12, 0xA4, 0x42]
    && Get2(packet, 2) == |packet| - 20
    && (forall i :: 0 <= i < |attrs| ==>
          && attrs[i].kind < 65536 && |attrs[i].value| < 65536 && RightSize(attrs[i].kind, |attrs[i].value|)
          && |attrs[i].padding| == (4 - |attrs[i].value| % 4) % 4)
    && packet[20..] == EncodeAll(attrs)
    && InOrder(attrs)
    && (attrs != [] && attrs[|attrs| - 1].kind == 0x8028 ==>
          |packet| >= 28 && Get4(attrs[|attrs| - 1].value, 0) == Crc32.Reference(packet[..|packet| - 8]) ^ 0x5354554E)
  }

  lemma SizesAreRight(kind: nat, size: nat)
    ensures SizeFits(kind, size) <==> RightSize(kind, size)
  {
  }

  lemma PaddingIsRight(a: Attribute)
    ensures Padded(a) <==> |a.padding| == (4 - |a.value| % 4) % 4
  {
  }

  lemma CookieIs(packet: seq<byte>)
    requires |packet| >= 20
    ensures IsStun(packet) <==> packet[0] <= 2 && packet[4..8] == [0x21, 0x12, 0xA4, 0x42]
  {
    var c := packet[4..8];
    assert c == [packet[4], packet[5], packet[6], packet[7]];
  }

  lemma FitsAreRight(attrs: seq<Attribute>)
    ensures AllFit(attrs) <==>
              forall i :: 0 <= i < |attrs| ==>
                && attrs[i].kind < 65536 && |attrs[i].value| < 65536 && RightSize(attrs[i].kind, |attrs[i].value|)
                && |attrs[i].padding| == (4 - |attrs[i].value| % 4) % 4
  {
    hide SizeFits, RightSize, Padded;
    forall i | 0 <= i < |attrs|
      ensures SizeFits(attrs[i].kind, |attrs[i].value|) <==> RightSize(attrs[i].kind, |attrs[i].value|)
      ensures Padded(attrs[i]) <==> |attrs[i].padding| == (4 - |attrs[i].value| % 4) % 4
    {
      SizesAreRight(attrs[i].kind, |attrs[i].value|);
      PaddingIsRight(attrs[i]);
    }
  }

  ghost predicate InOrder(attrs: seq<Attribute>) {
    forall i, j :: 0 <= i < j < |attrs| ==> attrs[i].kind != 0x8028 && (attrs[i].kind == 0x0008 ==> attrs[j].kind == 0x8028)
  }

  lemma OrderIsRight(attrs: seq<Attribute>)
    ensures Ordered(attrs) <==> InOrder(attrs)
  {
    if InOrder(attrs) {
      forall i | 0 <= i < |attrs| - 1
        ensures attrs[i].kind != FINGERPRINT
      {
        var next := attrs[i + 1];
      }
    }
  }

  lemma LastTile(packet: seq<byte>, attrs: seq<Attribute>)
    requires AllFit(attrs) && |packet| >= 20 && packet[20..] == EncodeAll(attrs) && attrs != [] && attrs[|attrs| - 1].kind == 0x8028
    ensures |packet| >= 28 && |attrs[|attrs| - 1].value| == 4
  {
    hide Encode;
    var front, last := attrs[..|attrs| - 1], attrs[|attrs| - 1];
    assert attrs == front + [last];
    SizesAreRight(last.kind, |last.value|);
    EncodeAllAppend(front, last);
    EncodeParts(last);
  }

  lemma ConformingIsDescribed(packet: seq<byte>, attrs: seq<Attribute>)
    ensures Conforms(packet, attrs) <==> Describes(attrs, packet)
  {
    hide AllFit, Ordered, InOrder, IsStun, Get2, Get4, Crc32.Reference, EncodeAll;
    if |packet| >= 20 {
      CookieIs(packet);
      FitsAreRight(attrs);
      OrderIsRight(attrs);
      if AllFit(attrs) && packet[20..] == EncodeAll(attrs) && attrs != [] && attrs[|attrs| - 1].kind == 0x8028 {
        LastTile(packet, attrs);
      }
    } else {
      ShortIsNoStun(packet);
    }
  }

  lemma ShortIsNoStun(packet: seq<byte>)
    requires |packet| < 20
    ensures !IsStun(packet)
  {
  }

  // ------------------------------------------------------------- what Parse reads off

  /** The value of the last attribute of a kind, or what was there before. */
  function Latest(attrs: seq<Attribute>, kind: nat, before: seq<byte>): seq<byte> {
    if attrs == [] then before
    else if attrs[|attrs| - 1].kind == kind then attrs[|attrs| - 1].value
    else Latest(attrs[..|attrs| - 1], kind, before)
  }

  predicate Has(attrs: seq<Attribute>, kind: nat) {
    exists i :: 0 <= i < |attrs| && attrs[i].kind == kind
  }

  lemma HasSnoc(attrs: seq<Attribute>, a: Attribute, kind: nat)
    ensures Has(attrs + [a], kind) <==> Has(attrs, kind) || a.kind == kind
    ensures forall before :: Latest(attrs + [a], kind, before) == if a.kind == kind then a.value else Latest(attrs, kind, before)
  {
    var all := attrs + [a];
    assert all[..|attrs|] == attrs && all[|attrs|] == a;
    if Has(attrs, kind) {
      var i :| 0 <= i < |attrs| && attrs[i].kind == kind;
      assert all[i].kind == kind;
    }
  }

  /** A number is the last one given, or what it was. */
  ghost predicate Number4(attrs: seq<Attribute>, kind: nat, before: bv32, after: bv32) {
    if Has(attrs, kind) then |Latest(attrs, kind, [])| == 4 && after == Get4(Latest(attrs, kind, []), 0) else after == before
  }

  ghost predicate Number8(attrs: seq<Attribute>, kind: nat, before: bv64, after: bv64) {
    if Has(attrs, kind) then |Latest(attrs, kind, [])| == 8 && after == Get8(Latest(attrs, kind, []), 0) else after == before
  }

  ghost predicate ErrorNumber(attrs: seq<Attribute>, before: nat, after: nat) {
    if Has(attrs, 0x0009) then
      var v := Latest(attrs, 0x0009, []);
      |v| >= 4 && after == Val(v[2]) * 100 + Val(v[3])
    else after == before
  }

  /** The fields g are those of f with the attributes of a message put over them, kind by kind. */
  ghost predicate ReadOff(f: Fields, attrs: seq<Attribute>, g: Fields) {
    && g.username == Latest(attrs, 0x0006, f.username)
    && Number4(attrs, 0x0024, f.priority, g.priority)
    && Number8(attrs, 0x802A, f.controlling, g.controlling)
    && Number8(attrs, 0x8029, f.controlled, g.controlled)
    && (g.useCandidate <==> f.useCandidate || Has(attrs, 0x0025))
    && (g.hasNomination <==> f.hasNomination || Has(attrs, 0xC001))
    && Number4(attrs, 0xC001, f.nomination, g.nomination)
    && g.integrity == Latest(attrs, 0x0008, f.integrity)
    && (g.hasFingerprint <==> f.hasFingerprint || Has(attrs, 0x8028))
    && Number4(attrs, 0x8028, f.fingerprint, g.fingerprint)
    && ErrorNumber(attrs, f.errorCode, g.errorCode)
    && g.packet == f.packet && g.klass == f.klass && g.method_ == f.method_ && g.tid == f.tid
    && g.mapped == f.mapped && g.password == f.password
  }

  /** One attribute sets its field and no other. */
  ghost predicate SetsIce(g: Fields, kind: nat, value: seq<byte>, u: Fields)
    requires RightSize(kind, |value|)
  {
    && u.username == (if kind == 0x0006 then value else g.username)
    && u.priority == (if kind == 0x0024 then Get4(value, 0) else g.priority)
    && u.controlling == (if kind == 0x802A then Get8(value, 0) else g.controlling)
    && u.controlled == (if kind == 0x8029 then Get8(value, 0) else g.controlled)
    && (u.useCandidate <==> g.useCandidate || kind == 0x0025)
  }

  ghost predicate SetsRest(g: Fields, kind: nat, value: seq<byte>, u: Fields)
    requires RightSize(kind, |value|)
  {
    && (u.hasNomination <==> g.hasNomination || kind == 0xC001)
    && u.nomination == (if kind == 0xC001 then Get4(value, 0) else g.nomination)
    && u.integrity == (if kind == 0x0008 then value else g.integrity)
    && (u.hasFingerprint <==> g.hasFingerprint || kind == 0x8028)
    && u.fingerprint == (if kind == 0x8028 then Get4(value, 0) else g.fingerprint)
  }

  ghost predicate SetsError(g: Fields, kind: nat, value: seq<byte>, u: Fields)
    requires RightSize(kind, |value|)
  {
    u.errorCode == if kind == 0x0009 then Val(value[2]) * 100 + Val(value[3]) else g.errorCode
  }

  ghost predicate KeepsOthers(g: Fields, u: Fields) {
    && u.packet == g.packet && u.klass == g.klass && u.method_ == g.method_ && u.tid == g.tid
    && u.mapped == g.mapped && u.password == g.password
  }

  lemma AppliedIce(g: Fields, kind: nat, value: seq<byte>)
    requires SizeFits(kind, |value|)
    ensures RightSize(kind, |value|) && SetsIce(g, kind, value, Apply(g, kind, value))
  {
    hide Get4, Get8, Val;
    if kind == 0x0006 {
    } else if kind == 0x0024 {
    } else if kind == 0x802A {
    } else if kind == 0x8029 {
    } else if kind == 0x0025 {
    } else if kind == 0xC001 {
    } else if kind == 0x0008 {
    } else if kind == 0x8028 {
    } else if kind == 0x0009 {
    }
  }

  lemma AppliedNomination(g: Fields, kind: nat, value: seq<byte>)
    requires SizeFits(kind, |value|)
    ensures RightSize(kind, |value|)
    ensures var u := Apply(g, kind, value);
            && (u.hasNomination <==> g.hasNomination || kind == 0xC001)
            && u.nomination == (if kind == 0xC001 then Get4(value, 0) else g.nomination)
  {
    hide Get4, Get8, Val;
    if kind == 0x0006 {
    } else if kind == 0x0024 {
    } else if kind == 0x802A {
    } else if kind == 0x8029 {
    } else if kind == 0x0025 {
    } else if kind == 0xC001 {
    } else if kind == 0x0008 {
    } else if kind == 0x8028 {
    } else if kind == 0x0009 {
    }
  }

  lemma AppliedSigns(g: Fields, kind: nat, value: seq<byte>)
    requires SizeFits(kind, |value|)
    ensures RightSize(kind, |value|)
    ensures var u := Apply(g, kind, value);
            && u.integrity == (if kind == 0x0008 then value else g.integrity)
            && (u.hasFingerprint <==> g.hasFingerprint || kind == 0x8028)
            && u.fingerprint == (if kind == 0x8028 then Get4(value, 0) else g.fingerprint)
  {
    hide Get4, Get8, Val;
    if kind == 0x0006 {
    } else if kind == 0x0024 {
    } else if kind == 0x802A {
    } else if kind == 0x8029 {
    } else if kind == 0x0025 {
    } else if kind == 0xC001 {
    } else if kind == 0x0008 {
    } else if kind == 0x8028 {
    } else if kind == 0x0009 {
    }
  }

  lemma AppliedKeeps(g: Fields, kind: nat, value: seq<byte>)
    requires SizeFits(kind, |value|)
    ensures KeepsOthers(g, Apply(g, kind, value))
  {
    hide Get4, Get8, Val;
    if kind == 0x0006 {
    } else if kind == 0x0024 {
    } else if kind == 0x802A {
    } else if kind == 0x8029 {
    } else if kind == 0x0025 {
    } else if kind == 0xC001 {
    } else if kind == 0x0008 {
    } else if kind == 0x8028 {
    } else if kind == 0x0009 {
    }
  }

  lemma AppliedRest(g: Fields, kind: nat, value: seq<byte>)
    requires SizeFits(kind, |value|)
    ensures RightSize(kind, |value|) && SetsRest(g, kind, value, Apply(g, kind, value))
    ensures KeepsOthers(g, Apply(g, kind, value))
  {
    hide Get4, Get8, Val, Apply, SizeFits, KeepsOthers, RightSize;
    AppliedNomination(g, kind, value);
    AppliedSigns(g, kind, value);
    AppliedKeeps(g, kind, value);
  }

  lemma AppliedError(g: Fields, kind: nat, value: seq<byte>)
    requires SizeFits(kind, |value|)
    ensures RightSize(kind, |value|) && SetsError(g, kind, value, Apply(g, kind, value))
  {
    hide Get4, Get8, Val;
    if kind == 0x0009 {
      ErrorFits(value[2], value[3]);
    }
  }

  lemma NumberSnoc(attrs: seq<Attribute>, a: Attribute, kind: nat, before: bv32, now: bv32)
    requires Number4(attrs, kind, before, now) && (a.kind == kind ==> |a.value| == 4)
    ensures Number4(attrs + [a], kind, before, if a.kind == kind then Get4(a.value, 0) else now)
  {
    hide Latest, Has, Get4;
    HasSnoc(attrs, a, kind);
  }

  lemma NumberSnoc8(attrs: seq<Attribute>, a: Attribute, kind: nat, before: bv64, now: bv64)
    requires Number8(attrs, kind, before, now) && (a.kind == kind ==> |a.value| == 8)
    ensures Number8(attrs + [a], kind, before, if a.kind == kind then Get8(a.value, 0) else now)
  {
    hide Latest, Has, Get8;
    HasSnoc(attrs, a, kind);
  }

  lemma ErrorSnoc(attrs: seq<Attribute>, a: Attribute, before: nat, now: nat)
    requires ErrorNumber(attrs, before, now) && (a.kind == 0x0009 ==> |a.value| >= 4)
    ensures ErrorNumber(attrs + [a], before, if a.kind == 0x0009 then Val(a.value[2]) * 100 + Val(a.value[3]) else now)
  {
    hide Latest, Has, Val;
    HasSnoc(attrs, a, 0x0009);
  }

  lemma ReadOneOff(f: Fields, attrs: seq<Attribute>, g: Fields, a: Attribute)
    requires ReadOff(f, attrs, g) && SizeFits(a.kind, |a.value|)
    ensures ReadOff(f, attrs + [a], Apply(g, a.kind, a.value))
  {
    hide Latest, Has, Get4, Get8, Val, Apply, SizeFits, Number4, Number8, ErrorNumber;
    AppliedIce(g, a.kind, a.value);
    AppliedRest(g, a.kind, a.value);
    AppliedError(g, a.kind, a.value);
    HasSnoc(attrs, a, 0x0006);
    HasSnoc(attrs, a, 0x0025);
    HasSnoc(attrs, a, 0xC001);
    HasSnoc(attrs, a, 0x0008);
    HasSnoc(attrs, a, 0x8028);
    NumberSnoc(attrs, a, 0x0024, f.priority, g.priority);
    NumberSnoc8(attrs, a, 0x802A, f.controlling, g.controlling);
    NumberSnoc8(attrs, a, 0x8029, f.controlled, g.controlled);
    NumberSnoc(attrs, a, 0xC001, f.nomination, g.nomination);
    NumberSnoc(attrs, a, 0x8028, f.fingerprint, g.fingerprint);
    ErrorSnoc(attrs, a, f.errorCode, g.errorCode);
  }

  lemma ErrorFits(x: byte, y: byte)
    ensures (Val(x) * 100 + Val(y)) % 65536 == Val(x) * 100 + Val(y)
  {
    hide Val;
    ValBound(x);
    ValBound(y);
    SmallMod(Val(x) * 100 + Val(y));
  }

  lemma SmallMod(n: nat)
    requires n < 65536
    ensures n % 65536 == n
  {
  }

  lemma {:induction false} AppliedIsReadOff(f: Fields, attrs: seq<Attribute>)
    requires AllFit(attrs)
    ensures ReadOff(f, attrs, ApplyAll(f, attrs))
    decreases |attrs|
  {
    hide Apply, SizeFits, Padded, WellFormed, ReadOff;
    if attrs == [] {
      NothingReadOff(f);
    } else {
      var front, a := attrs[..|attrs| - 1], attrs[|attrs| - 1];
      assert attrs == front + [a];
      AppliedIsReadOff(f, front);
      ApplyAllJoin(f, front, [a]);
      assert [a][1..] == [];
      ReadOneOff(f, front, ApplyAll(f, front), a);
    }
  }

  lemma NothingReadOff(f: Fields)
    ensures ReadOff(f, [], f)
  {
  }

  /** Parse accepts exactly the packets that some list of attributes describes. */
  lemma AcceptedIffDescribed(f: Fields, packet: seq<byte>)
    ensures ParseResult(f, packet).0 <==> exists attrs :: Describes(attrs, packet)
  {
    hide ParseResult, Conforms, Describes;
    ParseAcceptsExactly(f, packet);
    forall attrs
      ensures Conforms(packet, attrs) <==> Describes(attrs, packet)
    {
      ConformingIsDescribed(packet, attrs);
    }
  }

  /** And what it leaves in the object is read off the header and these attributes. */
  lemma AcceptedIsReadOff(f: Fields, packet: seq<byte>, attrs: seq<Attribute>)
    requires Describes(attrs, packet)
    ensures var (ok, g) := ParseResult(f, packet);
            && ok && |packet| >= 20
            && ReadOff(f.(packet := packet, klass := ClassOf(packet[0], packet[1]), method_ := MethodOf(packet[0], packet[1]),
                          tid := packet[8..20]), attrs, g)
  {
    hide ParseResult, Conforms, ReadOff, ApplyAll, ClassOf, MethodOf, Describes, AllFit;
    ConformingIsDescribed(packet, attrs);
    DescribedBound(attrs, packet);
    ConformingIsParsed(f, packet, attrs);
    AppliedIsReadOff(HeaderFields(f, packet), attrs);
  }

  lemma DescribedBound(attrs: seq<Attribute>, packet: seq<byte>)
    requires Describes(attrs, packet)
    ensures |packet| >= 20 && AllFit(attrs)
  {
    hide AllFit, RightSize, Get2, Get4, EncodeAll, Crc32.Reference;
    FitsAreRight(attrs);
  }

  /** The types of a Binding, read. */
  lemma BindingTypesRead()
    ensures MethodOf(0x00, 0x01) == 1 && ClassOf(0x00, 0x01) == 0
    ensures MethodOf(0x00, 0x11) == 1 && ClassOf(0x00, 0x11) == 1
    ensures MethodOf(0x01, 0x01) == 1 && ClassOf(0x01, 0x01) == 2
    ensures MethodOf(0x01, 0x11) == 1 && ClassOf(0x01, 0x11) == 3
  {
  }
}
