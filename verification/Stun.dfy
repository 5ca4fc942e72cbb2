/** STUN messages as webrtc/ice/stun_packet.cc parses and packs them (RFC 5389).

    Parse and Pack are imperative; each is proved equal to a function on values.  Those
    functions are then tied to an independent description of the wire format: a packet is
    a header followed by a list of padded attributes.  Parse accepts exactly the packets
    that such a list describes, and reads off its fields. */
module Stun {
  import opened Bytes
  import Crc32
  import opened NetBuffer

  const COOKIE: seq<byte> := [0x21, 0x12, 0xA4, 0x42]

  const USERNAME := 0x0006
  const MESSAGE_INTEGRITY := 0x0008
  const ERROR_CODE := 0x0009
  const XOR_MAPPED_ADDRESS := 0x0020
  const PRIORITY := 0x0024
  const USE_CANDIDATE := 0x0025
  const FINGERPRINT := 0x8028
  const ICE_CONTROLLED := 0x8029
  const ICE_CONTROLLING := 0x802A
  const NOMINATION := 0xC001

  const BINDING: bv16 := 1
  const SUCCESS_RESPONSE: bv16 := 2
  const ERROR_RESPONSE: bv16 := 3

  /** A socket address, port and host in network byte order. */
  datatype Address =
    | Unset
    | Inet4(port: seq<byte>, host: seq<byte>)
    | Inet6(port: seq<byte>, host: seq<byte>)
    | OtherFamily
  {
    predicate Valid() {
      match this
      case Inet4(p, h) => |p| == 2 && |h| == 4
      case Inet6(p, h) => |p| == 2 && |h| == 16
      case _ => true
    }
  }

  /** The member variables of StunPacket. */
  datatype Fields = Fields(
    packet: seq<byte>,
    klass: bv16,
    method_: bv16,
    tid: seq<byte>,
    username: seq<byte>,
    priority: bv32,
    controlling: bv64,
    controlled: bv64,
    hasNomination: bool,
    nomination: bv32,
    useCandidate: bool,
    integrity: seq<byte>,
    hasFingerprint: bool,
    fingerprint: bv32,
    mapped: Address,
    errorCode: nat,
    password: seq<byte>)

  // ------------------------------------------------------------ parse, on values

  predicate IsStun(packet: seq<byte>) {
    && |packet| >= 20
    && packet[0] < 3
    && packet[4] == 0x21 && packet[5] == 0x12 && packet[6] == 0xA4 && packet[7] == 0x42
  }

  function MethodOf(b0: byte, b1: byte): bv16 {
    var t := ((b0 as bv16) << 8) | (b1 as bv16);
    (t & 0x000F) | ((t & 0x00E0) >> 1) | ((t & 0x3E00) >> 2)
  }

  function ClassOf(b0: byte, b1: byte): bv16 {
    (((b0 & 0x01) << 1) | ((b1 & 0x10) >> 4)) as bv16
  }

  /** The length checks of the attribute switch. */
  predicate SizeFits(kind: nat, size: nat) {
    if kind == PRIORITY || kind == NOMINATION || kind == FINGERPRINT then size == 4
    else if kind == ICE_CONTROLLING || kind == ICE_CONTROLLED then size == 8
    else if kind == USE_CANDIDATE then size == 0
    else if kind == MESSAGE_INTEGRITY then size == 20
    else if kind == ERROR_CODE then size >= 4
    else true
  }

  /** The assignments of the attribute switch. */
  function Apply(f: Fields, kind: nat, value: seq<byte>): Fields
    requires SizeFits(kind, |value|)
  {
    if kind == USERNAME then f.(username := value)
    else if kind == PRIORITY then f.(priority := Get4(value, 0))
    else if kind == ICE_CONTROLLING then f.(controlling := Get8(value, 0))
    else if kind == ICE_CONTROLLED then f.(controlled := Get8(value, 0))
    else if kind == USE_CANDIDATE then f.(useCandidate := true)
    else if kind == NOMINATION then f.(hasNomination := true, nomination := Get4(value, 0))
    else if kind == MESSAGE_INTEGRITY then f.(integrity := value)
    else if kind == FINGERPRINT then f.(hasFingerprint := true, fingerprint := Get4(value, 0))
    else if kind == ERROR_CODE then f.(errorCode := (Val(value[2]) * 100 + Val(value[3])) % 65536)
    else f
  }

  datatype Finger = NoFinger | Finger(at: nat, value: bv32)

  datatype Cursor = Cursor(pos: nat, fields: Fields, integrity: bool, finger: Finger)

  datatype Outcome = Rejected(fields: Fields) | Parsed(fields: Fields, finger: Finger)

  function Pad4(n: nat): (r: nat)
    ensures n <= r < n + 4 && r % 4 == 0
  {
    (n + 3) / 4 * 4
  }

  lemma PadFits(n: nat, m: nat)
    requires n <= m && m % 4 == 0
    ensures Pad4(n) <= m
  {
  }

  ghost predicate OnBoundary(data: seq<byte>, c: Cursor) {
    c.pos <= |data| && c.pos % 4 == 0 && |data| % 4 == 0
  }

  predicate OneFits(data: seq<byte>, c: Cursor)
    requires c.pos + 4 <= |data|
  {
    var kind, size := Get2(data, c.pos), Get2(data, c.pos + 2);
    && c.pos + 4 + size <= |data|
    && c.finger.NoFinger?
    && (c.integrity ==> kind == FINGERPRINT)
    && SizeFits(kind, size)
  }

  /** One turn of the attribute loop that does not return. */
  function Advance(data: seq<byte>, c: Cursor): (next: Cursor)
    requires OnBoundary(data, c) && c.pos + 4 <= |data| && OneFits(data, c)
    ensures OnBoundary(data, next) && next.pos > c.pos
  {
    hide Get2, Get4, Get8, Val, Pad4, Apply;
    var kind, size := Get2(data, c.pos), Get2(data, c.pos + 2);
    PadFits(c.pos + 4 + size, |data|);
    var value := data[c.pos + 4..c.pos + 4 + size];
    Cursor(Pad4(c.pos + 4 + size),
           Apply(c.fields, kind, value),
           c.integrity || kind == MESSAGE_INTEGRITY,
           if kind == FINGERPRINT then Finger(c.pos, Get4(value, 0)) else c.finger)
  }

  function Scan(data: seq<byte>, c: Cursor): Outcome
    requires OnBoundary(data, c)
    decreases |data| - c.pos
  {
    if c.pos + 4 > |data| then Parsed(c.fields, c.finger)
    else if OneFits(data, c) then Scan(data, Advance(data, c))
    else Rejected(c.fields)
  }

  function HeaderFields(f: Fields, packet: seq<byte>): Fields
    requires |packet| >= 20
  {
    f.(packet := packet,
       method_ := MethodOf(packet[0], packet[1]),
       klass := ClassOf(packet[0], packet[1]),
       tid := packet[8..20])
  }

  predicate LengthOk(packet: seq<byte>): (ok: bool)
    requires |packet| >= 20
    ensures ok ==> |packet| % 4 == 0
  {
    Get2(packet, 2) == |packet| - 20 && |packet| % 4 == 0
  }

  function Masked(crc: bv32): bv32 { crc ^ 0x5354554E }

  /** The FINGERPRINT value that must follow a prefix. */
  function Expected(prefix: seq<byte>): bv32 {
    Masked(Crc32.Reference(prefix))
  }

  /** The return value of Parse (accepted or not) and the fields it leaves behind. */
  function ParseResult(f: Fields, packet: seq<byte>): (bool, Fields) {
    if !IsStun(packet) then (false, f)
    else if !LengthOk(packet) then (false, f.(packet := packet))
    else match Scan(packet, Cursor(20, HeaderFields(f, packet), false, NoFinger))
      case Rejected(g) => (false, g)
      case Parsed(g, NoFinger) => (true, g)
      case Parsed(g, Finger(at, value)) => (at <= |packet| && value == Expected(packet[..at]), g)
  }

  function Fresh(): Fields {
    Fields([], 0, 0, [], [], 0, 0, 0, false, 0, false, [], false, 0, Unset, 0, [])
  }

  class StunPacket {
    var fields: Fields

    constructor ()
      ensures fields == Fresh()
    {
      fields := Fresh();
    }

    /** The switch over the attribute type. */
    method Assign(kind: nat, value: seq<byte>) returns (ok: bool)
      modifies this
      ensures ok == SizeFits(kind, |value|)
      ensures fields == if ok then Apply(old(fields), kind, value) else old(fields)
    {
      ok := true;
      if kind == USERNAME {
        fields := fields.(username := value);
      } else if kind == PRIORITY {
        if |value| != 4 { return false; }
        fields := fields.(priority := Get4(value, 0));
      } else if kind == ICE_CONTROLLING {
        if |value| != 8 { return false; }
        fields := fields.(controlling := Get8(value, 0));
      } else if kind == ICE_CONTROLLED {
        if |value| != 8 { return false; }
        fields := fields.(controlled := Get8(value, 0));
      } else if kind == USE_CANDIDATE {
        if |value| != 0 { return false; }
        fields := fields.(useCandidate := true);
      } else if kind == NOMINATION {
        if |value| != 4 { return false; }
        fields := fields.(hasNomination := true);
        fields := fields.(nomination := Get4(value, 0));
      } else if kind == MESSAGE_INTEGRITY {
        if |value| != 20 { return false; }
        fields := fields.(integrity := value);
      } else if kind == FINGERPRINT {
        if |value| != 4 { return false; }
        fields := fields.(hasFingerprint := true, fingerprint := Get4(value, 0));
      } else if kind == ERROR_CODE {
        if |value| < 4 { return false; }
        var class_, number := Val(value[2]), Val(value[3]);
        fields := fields.(errorCode := (class_ * 100 + number) % 65536);
      }
    }

    /** One turn of the attribute loop, for an attribute that starts at pos. */
    method ParseOne(packet: seq<byte>, pos: nat, integrity: bool, finger: Finger)
      returns (ok: bool, pos': nat, integrity': bool, finger': Finger)
      requires |packet| <= 65535 && pos + 4 <= |packet|
      requires OnBoundary(packet, Cursor(pos, fields, integrity, finger))
      modifies this
      ensures ok == OneFits(packet, Cursor(pos, old(fields), integrity, finger))
      ensures !ok ==> fields == old(fields)
      ensures ok ==> Cursor(pos', fields, integrity', finger')
                     == Advance(packet, Cursor(pos, old(fields), integrity, finger))
      ensures ok && finger'.Finger? ==> finger'.at + 4 <= |packet|
    {
      hide Apply, SizeFits, Get2, Get4, Pad4, Align4;
      ok, pos', integrity', finger' := false, pos, integrity, finger;
      var kind, size := Get2(packet, pos), Get2(packet, pos + 2);
      if pos + 4 + size > |packet| {
        return;
      }
      if finger.Finger? {
        return;
      }
      if integrity && kind != FINGERPRINT {
        return;
      }
      var value := packet[pos + 4..pos + 4 + size];
      ok := Assign(kind, value);
      if !ok {
        return;
      }
      if kind == MESSAGE_INTEGRITY {
        integrity' := true;
      }
      if kind == FINGERPRINT {
        SizeOfFingerprint(size);
        finger' := Finger(pos, Get4(value, 0));
      }
      PadIsAlign(pos + 4 + size, |packet|);
      pos' := Align4((pos + 4 + size) % 65536);
    }

    /** The attribute loop.  The cursor is sixteen bits wide, hence the bound on the packet. */
    method ParseAttributes(packet: seq<byte>) returns (ok: bool, finger: Finger)
      requires 20 <= |packet| <= 65535 && |packet| % 4 == 0
      modifies this
      ensures Scan(packet, Cursor(20, old(fields), false, NoFinger))
              == if ok then Parsed(fields, finger) else Rejected(fields)
      ensures ok && finger.Finger? ==> finger.at + 4 <= |packet|
    {
      hide OneFits, Advance;
      var pos := 20;
      var integrity := false;
      finger := NoFinger;
      ok := true;
      while pos + 4 <= |packet|
        invariant OnBoundary(packet, Cursor(pos, fields, integrity, finger))
        invariant finger.Finger? ==> finger.at + 4 <= |packet|
        invariant Scan(packet, Cursor(20, old(fields), false, NoFinger))
                  == Scan(packet, Cursor(pos, fields, integrity, finger))
        decreases |packet| - pos
      {
        ok, pos, integrity, finger := ParseOne(packet, pos, integrity, finger);
        if !ok {
          return;
        }
      }
      // the test whether the cursor stopped short of the end never succeeds
      assert pos == |packet|;
    }

    method Parse(packet: seq<byte>) returns (ret: int)
      requires IsStun(packet) && LengthOk(packet) ==> |packet| <= 65535
      modifies this
      ensures fields == ParseResult(old(fields), packet).1
      ensures ret == if ParseResult(old(fields), packet).0 then 0 else -1
    {
      hide Scan, LengthOk, MethodOf, ClassOf, Masked, Crc32.Reference;
      if !IsStun(packet) {
        return -1;
      }
      fields := fields.(packet := packet);
      if !LengthOk(packet) {
        return -1;
      }
      fields := fields.(method_ := MethodOf(packet[0], packet[1]));
      fields := fields.(klass := ClassOf(packet[0], packet[1]));
      fields := fields.(tid := packet[8..20]);
      var ok, finger := ParseAttributes(packet);
      if !ok {
        return -1;
      }
      if finger.Finger? {
        var crc := Crc32.CRC32(packet[..finger.at]);
        if finger.value != Masked(crc) {
          return -1;
        }
      }
      return 0;
    }

    // ------------------------------------------------------------------ pack

    method AppendAttribute(buf: Buffer<byte>, kind: nat, value: seq<byte>)
      requires buf.Valid() && kind < 65536 && |value| < 65536
      modifies buf
      ensures buf.Valid() && buf.Contents() == old(buf.Contents()) + Encode(Attribute(kind, value, []))
    {
      hide Put2;
      buf.Append(Put2(kind));
      buf.Append(Put2(|value|));
      buf.Append(value);
    }

    method AppendIf(buf: Buffer<byte>, present: bool, kind: nat, value: seq<byte>,
                    ghost before: seq<byte>, ghost done: seq<Attribute>)
      requires buf.Valid() && kind < 65536 && (present ==> |value| < 65536)
      requires AllWellFormed(done) && buf.Contents() == before + EncodeAll(done)
      modifies buf
      ensures buf.Valid() && AllWellFormed(done + Optional(present, kind, value))
      ensures buf.Contents() == before + EncodeAll(done + Optional(present, kind, value))
    {
      hide Encode, EncodeAll, AllWellFormed;
      if present {
        AppendAttribute(buf, kind, value);
        EncodeAllAppend(done, Attribute(kind, value, []));
      } else {
        assert done + Optional(present, kind, value) == done;
      }
    }

    method PackIce(buf: Buffer<byte>)
      requires buf.Valid() && Packable(fields)
      modifies buf
      ensures buf.Valid() && buf.Contents() == old(buf.Contents()) + EncodeAll(Ice(fields))
    {
      hide EncodeAll, AllWellFormed, Optional, Put4, Put8, PackedSize, HasPriority, HasControlling, HasControlled;
      EmptyEncoding();
      var m := fields;
      UsernameBound(m);
      ghost var before := buf.Contents();
      AppendIf(buf, m.username != [], USERNAME, m.username, before, []);
      ghost var d1 := Optional(m.username != [], USERNAME, m.username);
      assert [] + d1 == d1;
      AppendIf(buf, HasPriority(m), PRIORITY, Put4(m.priority), before, d1);
      ghost var d2 := d1 + Optional(HasPriority(m), PRIORITY, Put4(m.priority));
      AppendIf(buf, HasControlling(m), ICE_CONTROLLING, Put8(m.controlling), before, d2);
      ghost var d3 := d2 + Optional(HasControlling(m), ICE_CONTROLLING, Put8(m.controlling));
      AppendIf(buf, HasControlled(m), ICE_CONTROLLED, Put8(m.controlled), before, d3);
      ghost var d4 := d3 + Optional(HasControlled(m), ICE_CONTROLLED, Put8(m.controlled));
      AppendIf(buf, m.useCandidate, USE_CANDIDATE, [], before, d4);
    }

    method PackPlain(buf: Buffer<byte>)
      requires buf.Valid() && Packable(fields)
      modifies buf
      ensures buf.Valid() && buf.Contents() == old(buf.Contents()) + EncodeAll(Plain(fields))
    {
      hide EncodeAll, AllWellFormed, Optional, MappedValue, ErrorValue, PackedSize, Ice;
      var m := fields;
      ghost var before := buf.Contents();
      PackIce(buf);
      AppendIf(buf, AddMapped(m), XOR_MAPPED_ADDRESS, MappedValue(m), before, Ice(m));
      ghost var d6 := Ice(m) + Optional(AddMapped(m), XOR_MAPPED_ADDRESS, MappedValue(m));
      AppendIf(buf, AddError(m), ERROR_CODE, ErrorValue(m.errorCode), before, d6);
    }

    /** MESSAGE-INTEGRITY is computed with the length field patched to end before
        FINGERPRINT; the patch is undone afterwards. */
    method PackIntegrity(buf: Buffer<byte>, hmac: Hmac)
      requires buf.Valid() && Packable(fields) && |buf.Contents()| >= 4
      modifies buf
      ensures buf.Valid() && buf.Contents() == Signed(old(buf.Contents()), fields, hmac)
    {
      hide Encode, PackedSize, Put2;
      SizeBounds(fields);
      var size := PackedSize(fields);
      if AddIntegrity(fields) {
        buf.Patch(2, Put2(size - 28));
        AppendAttribute(buf, MESSAGE_INTEGRITY, hmac(fields.password, buf.Contents()));
        buf.Patch(2, Put2(size - 20));
      }
    }

    method PackHeader(buf: Buffer<byte>, size: nat)
      requires buf.Valid() && 20 <= size <= 65535
      modifies buf
      ensures buf.Valid() && buf.Contents() == old(buf.Contents()) + Header(fields, size - 20)
    {
      hide Put2, TypeBytes;
      buf.Append(TypeBytes(fields));
      buf.Append(Put2(size - 20));
      buf.Append(COOKIE);
      buf.Append(fields.tid);
    }

    method PackFingerprint(buf: Buffer<byte>)
      requires buf.Valid()
      modifies buf
      ensures buf.Valid()
      ensures buf.Contents() == old(buf.Contents()) + Encode(Attribute(FINGERPRINT, Put4(Expected(old(buf.Contents()))), []))
    {
      hide Encode, Put4, Crc32.Reference, Masked;
      var crc := Crc32.CRC32(buf.Contents());
      AppendAttribute(buf, FINGERPRINT, Put4(Masked(crc)));
    }

    method Pack(buf: Buffer<byte>, hmac: Hmac) returns (sizeError: bool)
      requires buf.Valid() && Packable(fields)
      modifies this, buf
      ensures buf.Valid() && buf.Contents() == PackBehind(old(buf.Contents()), old(fields), hmac)
      ensures fields == old(fields).(hasFingerprint := true)
      ensures sizeError == (|PackBehind(old(buf.Contents()), old(fields), hmac)| != PackedSize(old(fields)))
    {
      hide EncodeAll, Plain, Header, Encode, Put4, Expected, PackedSize, Signed;
      SizeBounds(fields);
      ghost var before := buf.Contents();
      var size := PackedSize(fields);
      UnsignedLength(before, fields);
      PackHeader(buf, size);
      PackPlain(buf);
      PackIntegrity(buf, hmac);
      PackFingerprint(buf);
      fields := fields.(hasFingerprint := true);
      sizeError := size != |buf.Contents()|;
    }
  }

  lemma SizeOfFingerprint(size: nat)
    requires SizeFits(FINGERPRINT, size)
    ensures size == 4
  {
  }

  /** Below the sixteen-bit limit the aligned cursor never wraps nor passes the end. */
  lemma PadIsAlign(n: nat, len: nat)
    requires n <= len <= 65535 && len % 4 == 0
    ensures Align4(n % 65536) == Pad4(n) <= len
  {
  }

  // -------------------------------------------------------- the wire format

  datatype Attribute = Attribute(kind: nat, value: seq<byte>, padding: seq<byte>)

  predicate WellFormed(a: Attribute) {
    a.kind < 65536 && |a.value| < 65536
  }

  predicate Padded(a: Attribute) {
    |a.padding| == Pad4(|a.value|) - |a.value|
  }

  function Encode(a: Attribute): seq<byte>
    requires WellFormed(a)
  {
    Put2(a.kind) + Put2(|a.value|) + a.value + a.padding
  }

  ghost predicate AllWellFormed(attrs: seq<Attribute>) {
    forall i :: 0 <= i < |attrs| ==> WellFormed(attrs[i])
  }

  ghost function EncodeAll(attrs: seq<Attribute>): seq<byte>
    requires AllWellFormed(attrs)
  {
    if attrs == [] then [] else Encode(attrs[0]) + EncodeAll(attrs[1..])
  }

  /** Sections 15.4 and 15.5 of RFC 5389: after MESSAGE-INTEGRITY nothing but FINGERPRINT,
      after FINGERPRINT nothing. */
  ghost predicate Ordered(attrs: seq<Attribute>) {
    && (forall i :: 0 <= i < |attrs| - 1 ==> attrs[i].kind != FINGERPRINT)
    && (forall i, j :: 0 <= i < j < |attrs| && attrs[i].kind == MESSAGE_INTEGRITY ==> attrs[j].kind == FINGERPRINT)
  }

  ghost predicate AllFit(attrs: seq<Attribute>) {
    forall i :: 0 <= i < |attrs| ==>
      WellFormed(attrs[i]) && Padded(attrs[i]) && SizeFits(attrs[i].kind, |attrs[i].value|)
  }

  ghost predicate FingerprintHolds(packet: seq<byte>, attrs: seq<Attribute>) {
    attrs != [] && attrs[|attrs| - 1].kind == FINGERPRINT ==>
      && |attrs[|attrs| - 1].value| == 4
      && |packet| >= 8
      && Get4(attrs[|attrs| - 1].value, 0) == Expected(packet[..|packet| - 8])
  }

  /** The packet is a header followed by exactly these attributes. */
  ghost predicate Conforms(packet: seq<byte>, attrs: seq<Attribute>) {
    && IsStun(packet)
    && Get2(packet, 2) == |packet| - 20
    && AllFit(attrs) && Ordered(attrs)
    && packet[20..] == EncodeAll(attrs)
    && FingerprintHolds(packet, attrs)
  }

  ghost function ApplyAll(f: Fields, attrs: seq<Attribute>): Fields
    requires AllFit(attrs)
    decreases |attrs|
  {
    if attrs == [] then f else ApplyAll(Apply(f, attrs[0].kind, attrs[0].value), attrs[1..])
  }

  // ------------------------------- parse accepts exactly the conforming packets

  /** Ordered and fitting, given what the loop has already seen. */
  ghost predicate Legal(integrity: bool, finger: bool, attrs: seq<Attribute>)
    decreases |attrs|
  {
    attrs == [] ||
    (&& !finger
     && (integrity ==> attrs[0].kind == FINGERPRINT)
     && WellFormed(attrs[0]) && Padded(attrs[0]) && SizeFits(attrs[0].kind, |attrs[0].value|)
     && Legal(integrity || attrs[0].kind == MESSAGE_INTEGRITY, attrs[0].kind == FINGERPRINT, attrs[1..]))
  }

  lemma {:induction false} LegalFits(integrity: bool, finger: bool, attrs: seq<Attribute>)
    requires Legal(integrity, finger, attrs)
    ensures AllFit(attrs) && Ordered(attrs)
    ensures finger ==> attrs == []
    ensures integrity ==> forall i :: 0 <= i < |attrs| ==> attrs[i].kind == FINGERPRINT
    decreases |attrs|
  {
    hide Padded, WellFormed, SizeFits;
    if attrs != [] {
      var rest := attrs[1..];
      LegalFits(integrity || attrs[0].kind == MESSAGE_INTEGRITY, attrs[0].kind == FINGERPRINT, rest);
      assert forall i :: 0 < i < |attrs| ==> attrs[i] == rest[i - 1];
    }
  }

  lemma {:induction false} FitsLegal(integrity: bool, finger: bool, attrs: seq<Attribute>)
    requires AllFit(attrs) && Ordered(attrs)
    requires finger ==> attrs == []
    requires integrity ==> forall i :: 0 <= i < |attrs| ==> attrs[i].kind == FINGERPRINT
    ensures Legal(integrity, finger, attrs)
    decreases |attrs|
  {
    hide Padded, WellFormed, SizeFits;
    if attrs != [] {
      var rest := attrs[1..];
      assert forall i :: 0 <= i < |rest| ==> rest[i] == attrs[i + 1];
      assert rest != [] ==> rest[0] == attrs[1];
      FitsLegal(integrity || attrs[0].kind == MESSAGE_INTEGRITY, attrs[0].kind == FINGERPRINT, rest);
    }
  }

  ghost function FingerAt(pos: nat, attrs: seq<Attribute>, finger: Finger): Finger
    requires AllFit(attrs)
    decreases |attrs|
  {
    if attrs == [] then finger
    else FingerAt(pos + |Encode(attrs[0])|, attrs[1..],
                  if attrs[0].kind == FINGERPRINT then Finger(pos, Get4(attrs[0].value, 0)) else finger)
  }

  /** The bytes at the cursor are one encoded attribute. */
  lemma AttributeAt(data: seq<byte>, pos: nat, a: Attribute)
    requires pos <= |data| && WellFormed(a) && Encode(a) <= data[pos..]
    ensures |Encode(a)| == 4 + |a.value| + |a.padding| <= |data| - pos
    ensures Get2(data, pos) == a.kind && Get2(data, pos + 2) == |a.value|
    ensures data[pos + 4..pos + 4 + |a.value|] == a.value
  {
    hide Get2, Put2;
    var e := Encode(a);
    assert forall i :: 0 <= i < |e| ==> e[i] == data[pos + i];
    assert e[0..2] == Put2(a.kind) && e[2..4] == Put2(|a.value|) && e[4..4 + |a.value|] == a.value;
    assert data[pos..pos + 2] == e[0..2] && data[pos + 2..pos + 4] == e[2..4];
    assert data[pos + 4..pos + 4 + |a.value|] == e[4..4 + |a.value|];
    GetPut2(data, pos, a.kind);
    GetPut2(data, pos + 2, |a.value|);
  }

  /** Conversely, an attribute that ends at a given boundary is read off the bytes. */
  function ReadAttribute(data: seq<byte>, pos: nat, end: nat): (a: Attribute)
    requires pos + 4 <= end <= |data| && end == pos + 4 + Pad4(Get2(data, pos + 2))
    ensures WellFormed(a) && Padded(a)
    ensures a.kind == Get2(data, pos) && |a.value| == Get2(data, pos + 2)
  {
    hide Get2, Pad4;
    var size := Get2(data, pos + 2);
    Attribute(Get2(data, pos), data[pos + 4..pos + 4 + size], data[pos + 4 + size..end])
  }

  lemma PadShift(base: nat, n: nat)
    requires base % 4 == 0
    ensures Pad4(base + n) == base + Pad4(n)
  {
  }

  lemma EncodeLength(a: Attribute)
    requires WellFormed(a) && Padded(a)
    ensures |Encode(a)| == 4 + Pad4(|a.value|)
  {
    hide Pad4, Put2;
  }

  lemma {:induction false} ScanOfTiles(data: seq<byte>, c: Cursor, attrs: seq<Attribute>)
    requires OnBoundary(data, c)
    requires AllFit(attrs) && Legal(c.integrity, c.finger.Finger?, attrs)
    requires data[c.pos..] == EncodeAll(attrs)
    ensures Scan(data, c) == Parsed(ApplyAll(c.fields, attrs), FingerAt(c.pos, attrs, c.finger))
    decreases |attrs|
  {
    hide Apply, SizeFits, Get2, Get4, Padded, Pad4, Encode, WellFormed, ReadAttribute;
    if attrs != [] {
      var a := attrs[0];
      EncodeLength(a);
      AttributeAt(data, c.pos, a);
      PadShift(c.pos + 4, |a.value|);
      assert OneFits(data, c);
      var next := Advance(data, c);
      assert next.pos == c.pos + |Encode(a)|;
      assert data[next.pos..] == data[c.pos..][|Encode(a)|..];
      ScanOfTiles(data, next, attrs[1..]);
    }
  }

  lemma {:induction false} TilesOfScan(data: seq<byte>, c: Cursor) returns (attrs: seq<Attribute>)
    requires OnBoundary(data, c) && Scan(data, c).Parsed?
    ensures AllFit(attrs) && Legal(c.integrity, c.finger.Finger?, attrs)
    ensures data[c.pos..] == EncodeAll(attrs)
    decreases |data| - c.pos
  {
    hide SizeFits, Get2, Pad4, Padded, Encode, WellFormed, ReadAttribute, Advance, OneFits, AllFit, Legal, EncodeAll;
    if c.pos + 4 > |data| {
      attrs := [];
      NoTiles(c.integrity, c.finger.Finger?);
      assert data[c.pos..] == [];
    } else {
      var next := Advance(data, c);
      ReadOne(data, c);
      var a := ReadAttribute(data, c.pos, next.pos);
      var rest := TilesOfScan(data, next);
      attrs := [a] + rest;
      ReadEncodes(data, c.pos, next.pos);
      OneMoreTile(c.integrity, a, rest);
      assert data[c.pos..] == data[c.pos..next.pos] + data[next.pos..];
    }
  }

  lemma NoTiles(integrity: bool, finger: bool)
    ensures AllFit([]) && Legal(integrity, finger, []) && EncodeAll([]) == []
  {
  }

  lemma OneMoreTile(integrity: bool, a: Attribute, rest: seq<Attribute>)
    requires WellFormed(a) && Padded(a) && SizeFits(a.kind, |a.value|) && (integrity ==> a.kind == FINGERPRINT)
    requires AllFit(rest) && Legal(integrity || a.kind == MESSAGE_INTEGRITY, a.kind == FINGERPRINT, rest)
    ensures AllFit([a] + rest) && Legal(integrity, false, [a] + rest)
    ensures EncodeAll([a] + rest) == Encode(a) + EncodeAll(rest)
  {
    hide WellFormed, Padded, SizeFits, Encode;
    assert ([a] + rest)[1..] == rest;
  }

  lemma ReadOne(data: seq<byte>, c: Cursor)
    requires OnBoundary(data, c) && c.pos + 4 <= |data| && OneFits(data, c)
    ensures var next := Advance(data, c);
            && c.pos + 4 <= next.pos <= |data| && next.pos == c.pos + 4 + Pad4(Get2(data, c.pos + 2))
            && var kind := Get2(data, c.pos);
               && SizeFits(kind, Get2(data, c.pos + 2)) && c.finger.NoFinger? && (c.integrity ==> kind == FINGERPRINT)
               && next.integrity == (c.integrity || kind == MESSAGE_INTEGRITY)
               && next.finger.Finger? == (kind == FINGERPRINT)
  {
    hide Apply, SizeFits, Get2, Get4, Pad4;
    PadShift(c.pos + 4, Get2(data, c.pos + 2));
  }

  lemma ReadEncodes(data: seq<byte>, pos: nat, end: nat)
    requires pos + 4 <= end <= |data| && end == pos + 4 + Pad4(Get2(data, pos + 2))
    ensures Encode(ReadAttribute(data, pos, end)) == data[pos..end]
  {
    hide Get2, Put2, Pad4;
    PutGet2(data, pos);
    PutGet2(data, pos + 2);
    assert data[pos..pos + 2] + data[pos + 2..pos + 4] == data[pos..pos + 4];
  }

  ghost predicate EndsInFingerprint(attrs: seq<Attribute>) {
    attrs != [] && attrs[|attrs| - 1].kind == FINGERPRINT
  }

  lemma {:induction false} FingerIsLast(pos: nat, attrs: seq<Attribute>)
    requires AllFit(attrs) && Ordered(attrs)
    ensures var finger := FingerAt(pos, attrs, NoFinger);
            if EndsInFingerprint(attrs) then
              && |attrs[|attrs| - 1].value| == 4
              && finger.Finger?
              && finger.at + 8 == pos + |EncodeAll(attrs)|
              && finger.value == Get4(attrs[|attrs| - 1].value, 0)
            else finger.NoFinger?
    decreases |attrs|
  {
    hide Get4, Encode, Pad4, Padded;
    if |attrs| == 1 {
      EncodeLength(attrs[0]);
      assert EncodeAll(attrs) == Encode(attrs[0]);
      assert EndsInFingerprint(attrs) ==> Pad4(4) == 4 by { PadOfFour(); }
    } else if |attrs| > 1 {
      var rest := attrs[1..];
      assert rest[|rest| - 1] == attrs[|attrs| - 1];
      FingerIsLast(pos + |Encode(attrs[0])|, rest);
    }
  }

  lemma PadOfFour()
    ensures Pad4(4) == 4
  {
  }

  lemma {:induction false} TilesAligned(attrs: seq<Attribute>)
    requires AllFit(attrs)
    ensures |EncodeAll(attrs)| % 4 == 0
    decreases |attrs|
  {
    hide Encode, Pad4, Padded, SizeFits;
    if attrs != [] {
      EncodeLength(attrs[0]);
      TilesAligned(attrs[1..]);
    }
  }

  lemma FitsWellFormed(attrs: seq<Attribute>)
    requires AllFit(attrs)
    ensures AllWellFormed(attrs)
  {
  }

  /** Every packet that a list of attributes describes is accepted, and its fields are the
      old ones overwritten by the header and then by the attributes in order. */
  lemma ConformingIsParsed(f: Fields, packet: seq<byte>, attrs: seq<Attribute>)
    requires Conforms(packet, attrs)
    ensures ParseResult(f, packet) == (true, ApplyAll(HeaderFields(f, packet), attrs))
  {
    hide Scan, ApplyAll, EncodeAll, Get2, Get4, Expected, HeaderFields, AllFit, Ordered, FingerAt, Legal;
    FitsWellFormed(attrs);
    TilesAligned(attrs);
    FitsLegal(false, false, attrs);
    FingerIsLast(20, attrs);
    assert |packet| == 20 + |EncodeAll(attrs)|;
    ScanOfTiles(packet, Cursor(20, HeaderFields(f, packet), false, NoFinger), attrs);
  }

  /** Every accepted packet is a header tiled exactly by padded attributes of the right
      sizes, MESSAGE-INTEGRITY followed by nothing but FINGERPRINT, FINGERPRINT last and
      matching the checksum of everything before it. */
  lemma ParsedIsConforming(f: Fields, packet: seq<byte>) returns (attrs: seq<Attribute>)
    requires ParseResult(f, packet).0
    ensures Conforms(packet, attrs)
  {
    hide Scan, ApplyAll, EncodeAll, Get2, Get4, Expected, HeaderFields;
    var c := Cursor(20, HeaderFields(f, packet), false, NoFinger);
    attrs := TilesOfScan(packet, c);
    LegalFits(false, false, attrs);
    FingerIsLast(20, attrs);
    assert |packet| == 20 + |EncodeAll(attrs)|;
    ScanOfTiles(packet, c, attrs);
  }

  /** Parse accepts exactly the conforming packets. */
  lemma ParseAcceptsExactly(f: Fields, packet: seq<byte>)
    ensures ParseResult(f, packet).0 <==> exists attrs :: Conforms(packet, attrs)
  {
    hide ParseResult, Conforms, ApplyAll;
    if ParseResult(f, packet).0 {
      var attrs := ParsedIsConforming(f, packet);
    }
    if attrs :| Conforms(packet, attrs) {
      ConformingIsParsed(f, packet, attrs);
    }
  }

  // ------------------------------------------------------------- pack, on values

  function TypeField(m: Fields): bv16 {
    ((m.method_ & 0x0F80) << 2) | ((m.method_ & 0x0070) << 1) | (m.method_ & 0x000F) |
    ((m.klass & 0x02) << 7) | ((m.klass & 0x01) << 4)
  }

  function Header(m: Fields, length: nat): seq<byte>
    requires length < 65536
  {
    TypeBytes(m) + Put2(length) + COOKIE + m.tid
  }

  function TypeBytes(m: Fields): (bytes: seq<byte>)
    ensures |bytes| == 2
  {
    var t := TypeField(m);
    [(t >> 8) as bv8, (t & 0xFF) as bv8]
  }

  function Optional(present: bool, kind: nat, value: seq<byte>): (attrs: seq<Attribute>)
    ensures kind < 65536 && (present ==> |value| < 65536) ==> AllWellFormed(attrs)
  {
    if present then [Attribute(kind, value, [])] else []
  }

  predicate HasPriority(m: Fields) { m.priority != 0 }

  predicate HasControlling(m: Fields) { m.controlling != 0 }

  predicate HasControlled(m: Fields) { m.controlled != 0 }

  predicate AddMapped(m: Fields) {
    (m.mapped.Inet4? || m.mapped.Inet6?) && m.method_ == BINDING && m.klass == SUCCESS_RESPONSE
  }

  predicate AddError(m: Fields) {
    m.errorCode != 0 && m.klass == ERROR_RESPONSE
  }

  predicate AddIntegrity(m: Fields) {
    m.klass != ERROR_RESPONSE && m.password != []
  }

  /** Section 15.2 of RFC 5389: port and host xored with the cookie and transaction id. */
  function MappedValue(m: Fields): (value: seq<byte>)
    requires m.mapped.Valid() && |m.tid| == 12
    ensures m.mapped.Inet4? ==> |value| == 8
    ensures m.mapped.Inet6? ==> |value| == 20
  {
    match m.mapped
    case Inet4(port, host) => [0, 1] + XorBytes(port, COOKIE[..2]) + XorBytes(host, COOKIE)
    case Inet6(port, host) => [0, 2] + XorBytes(port, COOKIE[..2]) + XorBytes(host, COOKIE + m.tid)
    case _ => []
  }

  function ErrorValue(code: nat): (value: seq<byte>)
    ensures |value| == 4
  {
    var class_ := ToByte(code / 100);
    [0, 0, class_, ToByte((code - Val(class_) * 100) % 256)]
  }

  /** A twelve-byte transaction id, a class and method of the widths RFC 5389 gives them, a
      sixteen-bit error code and a size that fits the length field. */
  ghost predicate Packable(m: Fields) {
    && m.mapped.Valid() && |m.tid| == 12 && m.errorCode < 65536 && PackedSize(m) <= 65535
    && m.klass < 4 && m.method_ < 0x1000
  }

  function IceBytes(m: Fields): nat {
    (if m.username != [] then 4 + Pad4(|m.username|) else 0)
    + (if HasPriority(m) then 8 else 0)
    + (if HasControlling(m) then 12 else 0)
    + (if HasControlled(m) then 12 else 0)
    + (if m.useCandidate then 4 else 0)
  }

  function ResponseBytes(m: Fields): nat {
    (if AddMapped(m) then (if m.mapped.Inet4? then 12 else 24) else 0)
    + (if AddError(m) then 8 else 0)
  }

  function IntegrityBytes(m: Fields): nat {
    if AddIntegrity(m) then 24 else 0
  }

  /** The size that Pack computes before it writes anything. */
  function PackedSize(m: Fields): nat {
    20 + IceBytes(m) + ResponseBytes(m) + IntegrityBytes(m) + 8
  }

  ghost function Ice(m: Fields): (attrs: seq<Attribute>)
    requires Packable(m)
    ensures AllWellFormed(attrs)
  {
    hide AllWellFormed, Optional, Put4, Put8, PackedSize;
    JoinWellFormed();
    UsernameBound(m);
    Optional(m.username != [], USERNAME, m.username)
    + Optional(HasPriority(m), PRIORITY, Put4(m.priority))
    + Optional(HasControlling(m), ICE_CONTROLLING, Put8(m.controlling))
    + Optional(HasControlled(m), ICE_CONTROLLED, Put8(m.controlled))
    + Optional(m.useCandidate, USE_CANDIDATE, [])
  }

  ghost function Plain(m: Fields): (attrs: seq<Attribute>)
    requires Packable(m)
    ensures AllWellFormed(attrs)
  {
    hide AllWellFormed, Optional, MappedValue, ErrorValue, PackedSize;
    JoinWellFormed();
    Ice(m)
    + Optional(AddMapped(m), XOR_MAPPED_ADDRESS, MappedValue(m))
    + Optional(AddError(m), ERROR_CODE, ErrorValue(m.errorCode))
  }

  lemma JoinWellFormed()
    ensures forall a, b :: AllWellFormed(a) && AllWellFormed(b) ==> AllWellFormed(a + b)
  {
  }

  lemma {:induction false} EncodeAllAppend(attrs: seq<Attribute>, a: Attribute)
    requires AllWellFormed(attrs) && WellFormed(a)
    ensures AllWellFormed(attrs + [a]) && EncodeAll(attrs + [a]) == EncodeAll(attrs) + Encode(a)
    decreases |attrs|
  {
    hide Encode;
    if attrs == [] {
      assert [a][1..] == [];
      assert EncodeAll([a]) == Encode(a);
    } else {
      assert (attrs + [a])[1..] == attrs[1..] + [a];
      EncodeAllAppend(attrs[1..], a);
    }
  }

  /** HMAC-SHA1 is any function to twenty bytes. */
  type Digest = d: seq<byte> | |d| == 20 witness seq(20, _ => 0)

  type Hmac = (seq<byte>, seq<byte>) -> Digest

  ghost function Digested(m: Fields, hmac: Hmac): (attrs: seq<Attribute>)
    requires Packable(m)
    ensures AllWellFormed(attrs)
  {
    JoinWellFormed();
    Plain(m) + Optional(AddIntegrity(m), MESSAGE_INTEGRITY,
                        hmac(m.password, Header(m, PackedSize(m) - 28) + EncodeAll(Plain(m))))
  }

  ghost function Prefix(m: Fields, hmac: Hmac): seq<byte>
    requires Packable(m)
  {
    Header(m, PackedSize(m) - 20) + EncodeAll(Digested(m, hmac))
  }

  /** What Pack leaves in an empty buffer. */
  ghost function PackBytes(m: Fields, hmac: Hmac): seq<byte>
    requires Packable(m)
  {
    Prefix(m, hmac) + Encode(Attribute(FINGERPRINT, Put4(Expected(Prefix(m, hmac))), []))
  }

  /** set_byte2 at offset 2 of the buffer. */
  ghost function Patched(c: seq<byte>, length: nat): seq<byte>
    requires |c| >= 4 && length < 65536
  {
    c[..2] + Put2(length) + c[4..]
  }

  ghost function Unsigned(before: seq<byte>, m: Fields): seq<byte>
    requires Packable(m)
  {
    before + Header(m, PackedSize(m) - 20) + EncodeAll(Plain(m))
  }

  ghost function Signed(plain: seq<byte>, m: Fields, hmac: Hmac): seq<byte>
    requires Packable(m) && |plain| >= 4
  {
    if !AddIntegrity(m) then plain
    else
      SizeBounds(m);
      var digested := Patched(plain, PackedSize(m) - 28);
      Patched(digested + Encode(Attribute(MESSAGE_INTEGRITY, hmac(m.password, digested), [])), PackedSize(m) - 20)
  }

  /** What Pack leaves in a buffer that already holds bytes: length field and FINGERPRINT are
      those of the whole buffer. */
  ghost function PackBehind(before: seq<byte>, m: Fields, hmac: Hmac): seq<byte>
    requires Packable(m)
  {
    UnsignedLength(before, m);
    var prefix := Signed(Unsigned(before, m), m, hmac);
    prefix + Encode(Attribute(FINGERPRINT, Put4(Expected(prefix)), []))
  }

  lemma UnsignedLength(before: seq<byte>, m: Fields)
    requires Packable(m)
    ensures |Unsigned(before, m)| == |before| + 20 + |EncodeAll(Plain(m))|
  {
    hide EncodeAll, Plain, PackedSize;
    SizeBounds(m);
    HeaderPatch(m, PackedSize(m) - 20, 0, []);
  }

  /** In an empty buffer that is the packet of the message. */
  lemma PackBehindNothing(m: Fields, hmac: Hmac)
    requires Packable(m)
    ensures PackBehind([], m, hmac) == PackBytes(m, hmac)
  {
    hide EncodeAll, AllWellFormed, Encode, Plain, PackedSize, Header, Put4, Expected, Put2;
    SizeBounds(m);
    var size := PackedSize(m);
    var plain := Plain(m);
    UnsignedLength([], m);
    assert [] + Header(m, size - 20) == Header(m, size - 20);
    if AddIntegrity(m) {
      HeaderPatch(m, size - 20, size - 28, EncodeAll(plain));
      var digested := Header(m, size - 28) + EncodeAll(plain);
      assert Patched(Unsigned([], m), size - 28) == digested;
      var a := Attribute(MESSAGE_INTEGRITY, hmac(m.password, digested), []);
      EncodeAllAppend(plain, a);
      assert Digested(m, hmac) == plain + [a];
      Regroup(Header(m, size - 28), EncodeAll(plain), Encode(a));
      HeaderPatch(m, size - 28, size - 20, EncodeAll(plain + [a]));
    } else {
      assert Digested(m, hmac) == plain;
    }
  }

  lemma EmptyEncoding()
    ensures AllWellFormed([]) && EncodeAll([]) == []
  {
  }

  lemma HeaderPatch(m: Fields, from: nat, to: nat, rest: seq<byte>)
    requires |m.tid| == 12 && from < 65536 && to < 65536
    ensures var whole := Header(m, from) + rest;
            |Header(m, from)| == 20 && whole[..2] + Put2(to) + whole[4..] == Header(m, to) + rest
  {
    hide Put2, TypeBytes;
  }

  lemma UsernameBound(m: Fields)
    requires Packable(m)
    ensures |m.username| < 65536
  {
  }

  lemma SizeBounds(m: Fields)
    ensures PackedSize(m) >= 28 && (AddIntegrity(m) ==> PackedSize(m) >= 52)
  {
    hide Pad4;
  }

  lemma Regroup(a: seq<byte>, b: seq<byte>, c: seq<byte>)
    ensures a + b + c == a + (b + c)
  {
  }

  // ---------------------------------------------------------------- round trip

  /** The types whose first byte IsStun lets through. */
  predicate TypePasses(m: Fields) {
    m.method_ < 0x80 || (m.method_ < 0x100 && m.klass < 2)
  }

  lemma TypeRoundTrip(m: Fields)
    requires m.klass < 4 && m.method_ < 0x1000
    ensures var b := TypeBytes(m);
            && MethodOf(b[0], b[1]) == m.method_
            && ClassOf(b[0], b[1]) == m.klass
            && (b[0] < 3 <==> TypePasses(m))
  {
  }

  ghost function Packed(m: Fields, hmac: Hmac): (attrs: seq<Attribute>)
    requires Packable(m)
    ensures AllWellFormed(attrs)
  {
    Digested(m, hmac) + [Attribute(FINGERPRINT, Put4(Expected(Prefix(m, hmac))), [])]
  }

  lemma PackBytesIsHeaderAndTiles(m: Fields, hmac: Hmac)
    requires Packable(m)
    ensures PackBytes(m, hmac) == Header(m, PackedSize(m) - 20) + EncodeAll(Packed(m, hmac))
  {
    hide EncodeAll, Encode, Header, PackedSize, Digested, Expected, AllWellFormed;
    SizeBounds(m);
    var a := Attribute(FINGERPRINT, Put4(Expected(Prefix(m, hmac))), []);
    EncodeAllAppend(Digested(m, hmac), a);
    Regroup(Header(m, PackedSize(m) - 20), EncodeAll(Digested(m, hmac)), Encode(a));
  }

  lemma {:induction false} EncodeAllJoin(a: seq<Attribute>, b: seq<Attribute>)
    requires AllWellFormed(a) && AllWellFormed(b)
    ensures AllWellFormed(a + b) && EncodeAll(a + b) == EncodeAll(a) + EncodeAll(b)
    decreases |a|
  {
    hide Encode;
    if a == [] {
      assert a + b == b;
    } else {
      assert (a + b)[1..] == a[1..] + b;
      EncodeAllJoin(a[1..], b);
    }
  }

  lemma OptionalSize(present: bool, kind: nat, value: seq<byte>)
    requires kind < 65536 && (present ==> |value| < 65536)
    ensures |EncodeAll(Optional(present, kind, value))| == if present then 4 + |value| else 0
  {
    hide Put2;
    if present {
      var a := Attribute(kind, value, []);
      assert [a][1..] == [];
      assert EncodeAll([a]) == Encode(a);
    }
  }

  /** Bytes that Pack's size computation counts and its output lacks. */
  function Missing(m: Fields): nat {
    Pad4(|m.username|) - |m.username|
  }

  lemma IceSize(m: Fields)
    requires Packable(m)
    ensures |EncodeAll(Ice(m))| + Missing(m) == IceBytes(m)
  {
    hide EncodeAll, AllWellFormed, Optional, PackedSize, HasPriority, HasControlling, HasControlled, Put4, Put8;
    UsernameBound(m);
    var a1 := Optional(m.username != [], USERNAME, m.username);
    var a2 := Optional(HasPriority(m), PRIORITY, Put4(m.priority));
    var a3 := Optional(HasControlling(m), ICE_CONTROLLING, Put8(m.controlling));
    var a4 := Optional(HasControlled(m), ICE_CONTROLLED, Put8(m.controlled));
    var a5 := Optional(m.useCandidate, USE_CANDIDATE, []);
    OptionalSize(m.username != [], USERNAME, m.username);
    OptionalSize(HasPriority(m), PRIORITY, Put4(m.priority));
    OptionalSize(HasControlling(m), ICE_CONTROLLING, Put8(m.controlling));
    OptionalSize(HasControlled(m), ICE_CONTROLLED, Put8(m.controlled));
    OptionalSize(m.useCandidate, USE_CANDIDATE, []);
    EncodeAllJoin(a1, a2);
    EncodeAllJoin(a1 + a2, a3);
    EncodeAllJoin(a1 + a2 + a3, a4);
    EncodeAllJoin(a1 + a2 + a3 + a4, a5);
  }

  lemma PlainSize(m: Fields)
    requires Packable(m)
    ensures |EncodeAll(Plain(m))| == |EncodeAll(Ice(m))| + ResponseBytes(m)
  {
    hide EncodeAll, AllWellFormed, Optional, Ice, MappedValue, ErrorValue, AddError, PackedSize;
    var b1 := Optional(AddMapped(m), XOR_MAPPED_ADDRESS, MappedValue(m));
    var b2 := Optional(AddError(m), ERROR_CODE, ErrorValue(m.errorCode));
    OptionalSize(AddMapped(m), XOR_MAPPED_ADDRESS, MappedValue(m));
    OptionalSize(AddError(m), ERROR_CODE, ErrorValue(m.errorCode));
    EncodeAllJoin(Ice(m), b1);
    EncodeAllJoin(Ice(m) + b1, b2);
  }

  lemma DigestedSize(m: Fields, hmac: Hmac)
    requires Packable(m)
    ensures |EncodeAll(Digested(m, hmac))| == |EncodeAll(Plain(m))| + IntegrityBytes(m)
  {
    hide EncodeAll, AllWellFormed, Optional, Plain, Header, PackedSize, AddIntegrity;
    SizeBounds(m);
    var d := hmac(m.password, Header(m, PackedSize(m) - 28) + EncodeAll(Plain(m)));
    OptionalSize(AddIntegrity(m), MESSAGE_INTEGRITY, d);
    EncodeAllJoin(Plain(m), Optional(AddIntegrity(m), MESSAGE_INTEGRITY, d));
  }

  /** Pack writes the size it announced, less the padding of USERNAME. */
  lemma PackedLength(m: Fields, hmac: Hmac)
    requires Packable(m)
    ensures |PackBytes(m, hmac)| == PackedSize(m) - Missing(m)
  {
    hide EncodeAll, Encode, Plain, Digested, Ice, Put4, Header, Expected, Missing,
      IceBytes, ResponseBytes, IntegrityBytes;
    IceSize(m);
    PlainSize(m);
    DigestedSize(m, hmac);
    HeaderPatch(m, PackedSize(m) - 20, 0, []);
    EncodeSize(FINGERPRINT, Put4(Expected(Prefix(m, hmac))));
  }

  lemma SignedLength(plain: seq<byte>, m: Fields, hmac: Hmac)
    requires Packable(m) && |plain| >= 4
    ensures |Signed(plain, m, hmac)| == |plain| + IntegrityBytes(m)
  {
    hide Encode, PackedSize, Put2;
    SizeBounds(m);
    if AddIntegrity(m) {
      EncodeSize(MESSAGE_INTEGRITY, hmac(m.password, Patched(plain, PackedSize(m) - 28)));
    }
  }

  /** The size check at the end of Pack fails if and only if the bytes that were already in the
      buffer are not as many as the padding that USERNAME lacks. */
  lemma SizeCheckFiresIff(before: seq<byte>, m: Fields, hmac: Hmac)
    requires Packable(m)
    ensures |PackBehind(before, m, hmac)| == |before| + |PackBytes(m, hmac)|
    ensures |PackBehind(before, m, hmac)| != PackedSize(m) <==> |before| != Missing(m)
  {
    hide EncodeAll, Encode, Plain, Put4, Expected, Signed, Unsigned, PackBytes, PackedSize, Missing, IntegrityBytes;
    UnsignedLength(before, m);
    UnsignedLength([], m);
    SignedLength(Unsigned(before, m), m, hmac);
    SignedLength(Unsigned([], m), m, hmac);
    EncodeSize(FINGERPRINT, Put4(Expected(Signed(Unsigned(before, m), m, hmac))));
    EncodeSize(FINGERPRINT, Put4(Expected(Signed(Unsigned([], m), m, hmac))));
    PackBehindNothing(m, hmac);
    PackedLength(m, hmac);
  }

  lemma EncodeSize(kind: nat, value: seq<byte>)
    requires kind < 65536 && |value| < 65536
    ensures |Encode(Attribute(kind, value, []))| == 4 + |value|
  {
  }

  /** Attributes that neither carry FINGERPRINT nor MESSAGE-INTEGRITY. */
  ghost predicate PlainFit(attrs: seq<Attribute>) {
    && AllFit(attrs)
    && forall i :: 0 <= i < |attrs| ==> attrs[i].kind != FINGERPRINT && attrs[i].kind != MESSAGE_INTEGRITY
  }

  lemma OptionalFits(present: bool, kind: nat, value: seq<byte>)
    requires kind < 65536 && kind != FINGERPRINT && kind != MESSAGE_INTEGRITY
    requires present ==> |value| < 65536 && |value| % 4 == 0 && SizeFits(kind, |value|)
    ensures PlainFit(Optional(present, kind, value))
  {
  }

  lemma JoinPlainFit(a: seq<Attribute>, b: seq<Attribute>)
    requires PlainFit(a) && PlainFit(b)
    ensures PlainFit(a + b)
  {
    hide Padded, SizeFits, WellFormed;
  }

  lemma PlainIsFit(m: Fields)
    requires Packable(m) && |m.username| % 4 == 0
    ensures PlainFit(Plain(m))
  {
    hide PlainFit, Optional, Put4, Put8, HasPriority, HasControlling, HasControlled, MappedValue, ErrorValue,
      PackedSize, AllWellFormed;
    UsernameBound(m);
    OptionalFits(m.username != [], USERNAME, m.username);
    OptionalFits(HasPriority(m), PRIORITY, Put4(m.priority));
    OptionalFits(HasControlling(m), ICE_CONTROLLING, Put8(m.controlling));
    OptionalFits(HasControlled(m), ICE_CONTROLLED, Put8(m.controlled));
    OptionalFits(m.useCandidate, USE_CANDIDATE, []);
    OptionalFits(AddMapped(m), XOR_MAPPED_ADDRESS, MappedValue(m));
    OptionalFits(AddError(m), ERROR_CODE, ErrorValue(m.errorCode));
    hide SizeFits, AddMapped, AddError;
    var a1 := Optional(m.username != [], USERNAME, m.username);
    var a2 := Optional(HasPriority(m), PRIORITY, Put4(m.priority));
    var a3 := Optional(HasControlling(m), ICE_CONTROLLING, Put8(m.controlling));
    var a4 := Optional(HasControlled(m), ICE_CONTROLLED, Put8(m.controlled));
    var a5 := Optional(m.useCandidate, USE_CANDIDATE, []);
    var a6 := Optional(AddMapped(m), XOR_MAPPED_ADDRESS, MappedValue(m));
    JoinPlainFit(a1, a2);
    JoinPlainFit(a1 + a2, a3);
    JoinPlainFit(a1 + a2 + a3, a4);
    JoinPlainFit(a1 + a2 + a3 + a4, a5);
    JoinPlainFit(Ice(m), a6);
    JoinPlainFit(Ice(m) + a6, Optional(AddError(m), ERROR_CODE, ErrorValue(m.errorCode)));
  }

  lemma PackedFits(m: Fields, hmac: Hmac)
    requires Packable(m) && |m.username| % 4 == 0
    ensures AllFit(Packed(m, hmac)) && Ordered(Packed(m, hmac))
  {
    hide Plain, Put4, Expected, Prefix, Header, EncodeAll, PackedSize, AddIntegrity;
    PlainIsFit(m);
    var plain, all := Plain(m), Packed(m, hmac);
    assert forall i :: 0 <= i < |plain| ==> all[i] == plain[i];
  }

  lemma HeaderReads(m: Fields, length: nat, packet: seq<byte>)
    requires Packable(m) && length < 65536 && Header(m, length) <= packet
    ensures |packet| >= 20 && Get2(packet, 2) == length && packet[8..20] == m.tid
    ensures packet[0] == TypeBytes(m)[0] && packet[1] == TypeBytes(m)[1]
    ensures packet[4..8] == COOKIE
  {
    hide Put2, Get2, TypeBytes, PackedSize;
    var h := Header(m, length);
    assert |h| == 20;
    assert h[0..2] == TypeBytes(m) && h[2..4] == Put2(length) && h[4..8] == COOKIE && h[8..20] == m.tid;
    assert packet[..20] == h;
    assert packet[2..4] == h[2..4] && packet[4..8] == h[4..8] && packet[8..20] == h[8..20];
    GetPut2(packet, 2, length);
  }

  lemma NothingMissing(m: Fields)
    ensures Missing(m) == 0 <==> |m.username| % 4 == 0
  {
  }

  lemma CookieReads(packet: seq<byte>)
    requires |packet| >= 20 && packet[4..8] == COOKIE
    ensures IsStun(packet) <==> packet[0] < 3
  {
    assert packet[4] == packet[4..8][0] && packet[5] == packet[4..8][1];
    assert packet[6] == packet[4..8][2] && packet[7] == packet[4..8][3];
  }

  /** The header of a packed message and what IsStun says about it. */
  lemma PackedHeader(m: Fields, hmac: Hmac)
    requires Packable(m)
    ensures var packet := PackBytes(m, hmac);
            && |packet| >= 20
            && (IsStun(packet) <==> TypePasses(m))
            && Get2(packet, 2) == PackedSize(m) - 20
            && packet[20..] == EncodeAll(Packed(m, hmac))
            && MethodOf(packet[0], packet[1]) == m.method_
            && ClassOf(packet[0], packet[1]) == m.klass
            && packet[8..20] == m.tid
  {
    hide EncodeAll, Header, TypeBytes, TypePasses, Get2, Packed, PackedSize, PackBytes, MethodOf, ClassOf, IsStun;
    var packet := PackBytes(m, hmac);
    SizeBounds(m);
    PackBytesIsHeaderAndTiles(m, hmac);
    HeaderReads(m, PackedSize(m) - 20, packet);
    HeaderPatch(m, PackedSize(m) - 20, 0, []);
    TypeRoundTrip(m);
    CookieReads(packet);
  }

  lemma PackedConforms(m: Fields, hmac: Hmac)
    requires Packable(m) && |m.username| % 4 == 0 && TypePasses(m)
    ensures Conforms(PackBytes(m, hmac), Packed(m, hmac))
  {
    hide EncodeAll, AllFit, Ordered, Get2, Packed, PackBytes, PackedSize, AllWellFormed, TypePasses, IsStun, FingerprintHolds;
    PackedHeader(m, hmac);
    PackedFits(m, hmac);
    PackedLength(m, hmac);
    NothingMissing(m);
    FingerprintOfPacked(m, hmac);
  }

  lemma FingerprintOfPacked(m: Fields, hmac: Hmac)
    requires Packable(m)
    ensures FingerprintHolds(PackBytes(m, hmac), Packed(m, hmac))
  {
    hide Digested, Prefix, Put4, Get4, Expected, Encode;
    var value := Put4(Expected(Prefix(m, hmac)));
    EncodeSize(FINGERPRINT, value);
    GetPut4(Expected(Prefix(m, hmac)));
    assert PackBytes(m, hmac)[..|PackBytes(m, hmac)| - 8] == Prefix(m, hmac);
  }

  lemma {:induction false} ApplyAllJoin(f: Fields, a: seq<Attribute>, b: seq<Attribute>)
    requires AllFit(a) && AllFit(b)
    ensures AllFit(a + b) && ApplyAll(f, a + b) == ApplyAll(ApplyAll(f, a), b)
    decreases |a|
  {
    hide Apply, Padded, SizeFits, WellFormed;
    if a == [] {
      assert a + b == b;
    } else {
      assert (a + b)[1..] == a[1..] + b;
      ApplyAllJoin(Apply(f, a[0].kind, a[0].value), a[1..], b);
    }
  }

  lemma ApplyOptional(f: Fields, present: bool, kind: nat, value: seq<byte>)
    requires kind < 65536
    requires present ==> |value| < 65536 && |value| % 4 == 0 && SizeFits(kind, |value|)
    ensures AllFit(Optional(present, kind, value))
    ensures ApplyAll(f, Optional(present, kind, value)) == if present then Apply(f, kind, value) else f
  {
    hide Apply;
    if present {
      var a := Attribute(kind, value, []);
      assert [a][1..] == [];
      assert ApplyAll(f, [a]) == Apply(f, kind, value);
    }
  }

  /** The error code that survives the two value bytes of ERROR-CODE. */
  lemma ErrorRoundTrip(code: nat)
    requires code < 65536
    ensures var v := ErrorValue(code);
            (Val(v[2]) * 100 + Val(v[3])) % 65536 == code % 25600
  {
    hide Val, ToByte;
    var d, r := code / 100, code % 100;
    var q, c := d / 256, d % 256;
    ValToByte(d);
    ValToByte((code - c * 100) % 256);
    Mod256(code - c * 100, 100 * q, r);
    Mod256(r, 0, r);
    Mod25600(code, q, 100 * c + r);
  }

  lemma Mod25600(n: nat, q: nat, v: nat)
    requires n == 25600 * q + v && v < 25600
    ensures n % 25600 == v
  {
  }

  function SetUsername(f: Fields, m: Fields): Fields {
    f.(username := if m.username != [] then m.username else f.username)
  }

  function SetPriority(f: Fields, m: Fields): Fields {
    f.(priority := if HasPriority(m) then m.priority else f.priority)
  }

  function SetControlling(f: Fields, m: Fields): Fields {
    f.(controlling := if HasControlling(m) then m.controlling else f.controlling)
  }

  function SetControlled(f: Fields, m: Fields): Fields {
    f.(controlled := if HasControlled(m) then m.controlled else f.controlled)
  }

  function SetCandidate(f: Fields, m: Fields): Fields {
    f.(useCandidate := if m.useCandidate then true else f.useCandidate)
  }

  function SetError(f: Fields, m: Fields): Fields {
    f.(errorCode := if AddError(m) then m.errorCode % 25600 else f.errorCode)
  }

  function SetIntegrity(f: Fields, m: Fields, digest: seq<byte>): Fields {
    f.(integrity := if AddIntegrity(m) then digest else f.integrity)
  }

  lemma ApplyUsername(f: Fields, m: Fields)
    requires |m.username| < 65536 && |m.username| % 4 == 0
    ensures var a := Optional(m.username != [], USERNAME, m.username);
            AllFit(a) && ApplyAll(f, a) == SetUsername(f, m)
  {
    hide ApplyAll, AllFit, Optional;
    ApplyOptional(f, m.username != [], USERNAME, m.username);
  }

  lemma ApplyPriority(f: Fields, m: Fields)
    ensures var a := Optional(HasPriority(m), PRIORITY, Put4(m.priority));
            AllFit(a) && ApplyAll(f, a) == SetPriority(f, m)
  {
    hide ApplyAll, AllFit, Optional, Put4, Get4, HasPriority;
    ApplyOptional(f, HasPriority(m), PRIORITY, Put4(m.priority));
    GetPut4(m.priority);
  }

  lemma ApplyControlling(f: Fields, m: Fields)
    ensures var a := Optional(HasControlling(m), ICE_CONTROLLING, Put8(m.controlling));
            AllFit(a) && ApplyAll(f, a) == SetControlling(f, m)
  {
    hide ApplyAll, AllFit, Optional, Put8, Get8, HasControlling;
    ApplyOptional(f, HasControlling(m), ICE_CONTROLLING, Put8(m.controlling));
    GetPut8(m.controlling);
  }

  lemma ApplyControlled(f: Fields, m: Fields)
    ensures var a := Optional(HasControlled(m), ICE_CONTROLLED, Put8(m.controlled));
            AllFit(a) && ApplyAll(f, a) == SetControlled(f, m)
  {
    hide ApplyAll, AllFit, Optional, Put8, Get8, HasControlled;
    ApplyOptional(f, HasControlled(m), ICE_CONTROLLED, Put8(m.controlled));
    GetPut8(m.controlled);
  }

  lemma ApplyCandidate(f: Fields, m: Fields)
    ensures var a := Optional(m.useCandidate, USE_CANDIDATE, []);
            AllFit(a) && ApplyAll(f, a) == SetCandidate(f, m)
  {
    hide ApplyAll, AllFit, Optional;
    ApplyOptional(f, m.useCandidate, USE_CANDIDATE, []);
  }

  function WithIce(f: Fields, m: Fields): Fields {
    SetCandidate(SetControlled(SetControlling(SetPriority(SetUsername(f, m), m), m), m), m)
  }

  lemma ApplyIce(f: Fields, m: Fields)
    requires Packable(m) && |m.username| % 4 == 0
    ensures AllFit(Ice(m)) && ApplyAll(f, Ice(m)) == WithIce(f, m)
  {
    hide ApplyAll, AllFit, Optional, Put4, Put8, HasPriority, HasControlling, HasControlled, PackedSize, AllWellFormed,
      SetUsername, SetPriority, SetControlling, SetControlled, SetCandidate;
    UsernameBound(m);
    var a1 := Optional(m.username != [], USERNAME, m.username);
    var a2 := Optional(HasPriority(m), PRIORITY, Put4(m.priority));
    var a3 := Optional(HasControlling(m), ICE_CONTROLLING, Put8(m.controlling));
    var a4 := Optional(HasControlled(m), ICE_CONTROLLED, Put8(m.controlled));
    var a5 := Optional(m.useCandidate, USE_CANDIDATE, []);
    ApplyUsername(f, m);
    var f1 := ApplyAll(f, a1);
    ApplyPriority(f1, m);
    var f2 := ApplyAll(f1, a2);
    ApplyControlling(f2, m);
    var f3 := ApplyAll(f2, a3);
    ApplyControlled(f3, m);
    var f4 := ApplyAll(f3, a4);
    ApplyCandidate(f4, m);
    ApplyAllJoin(f, a1, a2);
    ApplyAllJoin(f, a1 + a2, a3);
    ApplyAllJoin(f, a1 + a2 + a3, a4);
    ApplyAllJoin(f, a1 + a2 + a3 + a4, a5);
  }

  lemma ApplyMapped(f: Fields, m: Fields)
    requires Packable(m)
    ensures var a := Optional(AddMapped(m), XOR_MAPPED_ADDRESS, MappedValue(m));
            AllFit(a) && ApplyAll(f, a) == f
  {
    hide ApplyAll, AllFit, Optional, MappedValue, PackedSize;
    ApplyOptional(f, AddMapped(m), XOR_MAPPED_ADDRESS, MappedValue(m));
  }

  lemma ApplyError(f: Fields, m: Fields)
    requires Packable(m)
    ensures var a := Optional(AddError(m), ERROR_CODE, ErrorValue(m.errorCode));
            AllFit(a) && ApplyAll(f, a) == SetError(f, m)
  {
    hide ApplyAll, AllFit, Optional, ErrorValue, PackedSize, AddError, Val;
    ApplyOptional(f, AddError(m), ERROR_CODE, ErrorValue(m.errorCode));
    ErrorRoundTrip(m.errorCode);
  }

  lemma ApplyIntegrity(f: Fields, m: Fields, digest: Digest)
    ensures var a := Optional(AddIntegrity(m), MESSAGE_INTEGRITY, digest);
            AllFit(a) && ApplyAll(f, a) == SetIntegrity(f, m, digest)
  {
    hide ApplyAll, AllFit, Optional, AddIntegrity;
    ApplyOptional(f, AddIntegrity(m), MESSAGE_INTEGRITY, digest);
  }

  lemma ApplyFingerprint(f: Fields, value: bv32)
    ensures var a := [Attribute(FINGERPRINT, Put4(value), [])];
            AllFit(a) && ApplyAll(f, a) == f.(hasFingerprint := true, fingerprint := value)
  {
    hide ApplyAll, AllFit, Optional, Put4, Get4;
    ApplyOptional(f, true, FINGERPRINT, Put4(value));
    JustOne(FINGERPRINT, Put4(value));
    GetPut4(value);
  }

  lemma JustOne(kind: nat, value: seq<byte>)
    ensures Optional(true, kind, value) == [Attribute(kind, value, [])]
  {
  }

  ghost function DigestOf(m: Fields, hmac: Hmac): Digest
    requires Packable(m)
  {
    hmac(m.password, Header(m, PackedSize(m) - 28) + EncodeAll(Plain(m)))
  }

  /** What Parse leaves in an object that held f when it reads the packing of m: header,
      emitted attributes, everything else as it was. */
  ghost function Recovered(f: Fields, m: Fields, hmac: Hmac): Fields
    requires Packable(m)
  {
    var g := f.(packet := PackBytes(m, hmac), klass := m.klass, method_ := m.method_, tid := m.tid);
    SetIntegrity(SetError(WithIce(g, m), m), m, DigestOf(m, hmac)).(
      hasFingerprint := true, fingerprint := Expected(Prefix(m, hmac)))
  }

  lemma ApplyPlain(f: Fields, m: Fields)
    requires Packable(m) && |m.username| % 4 == 0
    ensures AllFit(Plain(m)) && ApplyAll(f, Plain(m)) == SetError(WithIce(f, m), m)
  {
    hide ApplyAll, AllFit, Optional, PackedSize, AllWellFormed, Ice, MappedValue, ErrorValue, AddMapped, AddError,
      SetError, WithIce;
    var b1 := Optional(AddMapped(m), XOR_MAPPED_ADDRESS, MappedValue(m));
    var b2 := Optional(AddError(m), ERROR_CODE, ErrorValue(m.errorCode));
    ApplyIce(f, m);
    ApplyMapped(WithIce(f, m), m);
    ApplyError(WithIce(f, m), m);
    ApplyAllJoin(f, Ice(m), b1);
    ApplyAllJoin(f, Ice(m) + b1, b2);
  }

  lemma ApplyPacked(f: Fields, m: Fields, hmac: Hmac)
    requires Packable(m) && |m.username| % 4 == 0
    ensures AllFit(Packed(m, hmac))
    ensures ApplyAll(f.(packet := PackBytes(m, hmac), klass := m.klass, method_ := m.method_, tid := m.tid), Packed(m, hmac))
            == Recovered(f, m, hmac)
  {
    hide ApplyAll, AllFit, Optional, PackedSize, AllWellFormed, Plain, PackBytes, Prefix, Put4, Header,
      EncodeAll, Expected, AddIntegrity, SetIntegrity, SetError, WithIce;
    SizeBounds(m);
    var g := f.(packet := PackBytes(m, hmac), klass := m.klass, method_ := m.method_, tid := m.tid);
    var d := DigestOf(m, hmac);
    var c1 := Optional(AddIntegrity(m), MESSAGE_INTEGRITY, d);
    var x := Expected(Prefix(m, hmac));
    ApplyPlain(g, m);
    var g1 := ApplyAll(g, Plain(m));
    ApplyIntegrity(g1, m, d);
    ApplyAllJoin(g, Plain(m), c1);
    ApplyFingerprint(SetIntegrity(g1, m, d), x);
    ApplyAllJoin(g, Plain(m) + c1, [Attribute(FINGERPRINT, Put4(x), [])]);
  }

  /** Parse reads back what Pack wrote: every emitted field, every other field untouched. */
  lemma RoundTrip(f: Fields, m: Fields, hmac: Hmac)
    requires Packable(m) && |m.username| % 4 == 0 && TypePasses(m)
    ensures ParseResult(f, PackBytes(m, hmac)) == (true, Recovered(f, m, hmac))
  {
    hide ParseResult, Conforms, ApplyAll, Recovered, PackBytes, Packed, Packable, TypePasses, Get2, EncodeAll, AllFit,
      AllWellFormed, MethodOf, ClassOf, IsStun;
    PackedConforms(m, hmac);
    PackedHeader(m, hmac);
    PackedFits(m, hmac);
    ConformingIsParsed(f, PackBytes(m, hmac), Packed(m, hmac));
    ApplyPacked(f, m, hmac);
  }

  /** Parse accepts what Pack wrote exactly when USERNAME needs no padding and the message
      type starts with a byte below three. */
  lemma PackedIsAccepted(f: Fields, m: Fields, hmac: Hmac)
    requires Packable(m)
    ensures ParseResult(f, PackBytes(m, hmac)).0 <==> |m.username| % 4 == 0 && TypePasses(m)
  {
    hide PackBytes, Packable, TypePasses, Get2, EncodeAll, Scan, IsStun, MethodOf, ClassOf, Recovered, PackedSize, Missing;
    PackedHeader(m, hmac);
    PackedLength(m, hmac);
    NothingMissing(m);
    if |m.username| % 4 == 0 && TypePasses(m) {
      RoundTrip(f, m, hmac);
    }
  }

  /** A fresh object recovers the message; the error code survives exactly below 25600. */
  lemma FreshRoundTrip(m: Fields, hmac: Hmac)
    requires Packable(m) && |m.username| % 4 == 0 && TypePasses(m)
    ensures var (ok, g) := ParseResult(Fresh(), PackBytes(m, hmac));
            && ok
            && g.klass == m.klass && g.method_ == m.method_ && g.tid == m.tid
            && g.username == m.username && g.priority == m.priority
            && g.controlling == m.controlling && g.controlled == m.controlled
            && g.useCandidate == m.useCandidate
            && (m.klass == ERROR_RESPONSE ==> (g.errorCode == m.errorCode <==> m.errorCode < 25600))
  {
    hide ParseResult, PackBytes, Packable, TypePasses, PackedSize, EncodeAll, Plain, Prefix, Expected, Header, WithIce,
      DigestOf;
    RoundTrip(Fresh(), m, hmac);
    PackableCode(m);
    WithIceFields(Fresh().(packet := PackBytes(m, hmac), klass := m.klass, method_ := m.method_, tid := m.tid), m);
  }

  lemma WithIceFields(f: Fields, m: Fields)
    requires f.username == [] && f.priority == 0 && f.controlling == 0 && f.controlled == 0 && !f.useCandidate
    ensures var g := WithIce(f, m);
            && g.klass == f.klass && g.method_ == f.method_ && g.tid == f.tid && g.errorCode == f.errorCode
            && g.username == m.username && g.priority == m.priority
            && g.controlling == m.controlling && g.controlled == m.controlled
            && g.useCandidate == m.useCandidate
  {
    hide HasPriority, HasControlling, HasControlled;
    ZeroFields(m);
  }

  lemma ZeroFields(m: Fields)
    ensures HasPriority(m) || m.priority == 0
    ensures HasControlling(m) || m.controlling == 0
    ensures HasControlled(m) || m.controlled == 0
  {
  }

  lemma PackableCode(m: Fields)
    requires Packable(m)
    ensures m.errorCode < 65536
  {
  }

  /** Section 15.2 of RFC 5389: xoring the value again gives back port and host. */
  lemma MappedRoundTrip(m: Fields)
    requires m.mapped.Valid() && |m.tid| == 12 && (m.mapped.Inet4? || m.mapped.Inet6?)
    ensures var v := MappedValue(m);
            && XorBytes(v[2..4], COOKIE[..2]) == m.mapped.port
            && XorBytes(v[4..], if m.mapped.Inet4? then COOKIE else COOKIE + m.tid) == m.mapped.host
  {
    hide XorBytes;
    var v := MappedValue(m);
    var key := if m.mapped.Inet4? then COOKIE else COOKIE + m.tid;
    XorBytesTwice(m.mapped.port, COOKIE[..2]);
    XorBytesTwice(m.mapped.host, key);
    assert v[2..4] == XorBytes(m.mapped.port, COOKIE[..2]);
    assert v[4..] == XorBytes(m.mapped.host, key);
  }

  /** The packet conforms, and so is accepted, with this FINGERPRINT as last attribute. */
  ghost predicate AcceptedWith(packet: seq<byte>, finger: Attribute) {
    exists attrs :: Conforms(packet, attrs) && attrs != [] && attrs[|attrs| - 1] == finger
  }

  /** Of two packets that end in the same FINGERPRINT and differ only inside four
      consecutive bytes before it, at most one is accepted. */
  lemma TamperingIsDetected(p: seq<byte>, u: seq<byte>, v: seq<byte>, q: seq<byte>, finger: Attribute)
    requires |u| == |v| <= 4 && u != v
    requires finger.kind == FINGERPRINT && |finger.value| == 4 && finger.padding == []
    requires AcceptedWith(p + u + q + Encode(finger), finger)
    ensures !AcceptedWith(p + v + q + Encode(finger), finger)
  {
    hide AcceptedWith, Encode, Crc32.Reference, Masked, Get4;
    Crc32.FourByteBurstDetected(p, u, v, q);
    FingerprintValue(p + u + q, finger);
    if AcceptedWith(p + v + q + Encode(finger), finger) {
      FingerprintValue(p + v + q, finger);
      MaskInjective(Crc32.Reference(p + u + q), Crc32.Reference(p + v + q));
    }
  }

  lemma FingerprintValue(s: seq<byte>, finger: Attribute)
    requires finger.kind == FINGERPRINT && |finger.value| == 4 && finger.padding == []
    requires AcceptedWith(s + Encode(finger), finger)
    ensures Get4(finger.value, 0) == Masked(Crc32.Reference(s))
  {
    hide Encode, Crc32.Reference, Masked, Get4, EncodeAll, IsStun, Get2, AllFit, Ordered;
    EncodeSize(FINGERPRINT, finger.value);
    var packet := s + Encode(finger);
    var attrs :| Conforms(packet, attrs) && attrs != [] && attrs[|attrs| - 1] == finger;
    assert packet[..|packet| - 8] == s;
  }

  lemma MaskInjective(x: bv32, y: bv32)
    ensures Masked(x) == Masked(y) ==> x == y
  {
  }
}
