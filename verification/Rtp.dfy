/** RTP packets: the layout of section 5.1 of RFC 3550 and the decoder of
    webrtc/rtp/rtp_packet.cc. */
module Rtp {
  import opened Bytes
  import opened Options

  const HEADER_SIZE := 12

  datatype Header = Header(marker: nat, payloadType: nat, sequence: nat, timestamp: bv32, ssrc: bv32)

  datatype Extension = Extension(profile: nat, value: seq<byte>)

  /** padding is all padding bytes, the count at their end included. */
  datatype Packet = Packet(header: Header, csrcs: seq<bv32>, extension: Option<Extension>, payload: seq<byte>,
                           padding: Option<seq<byte>>)

  predicate WellFormed(p: Packet) {
    && p.header.marker < 2 && p.header.payloadType < 128 && p.header.sequence < 65536 && |p.csrcs| < 16
    && (p.extension.Some? ==>
          p.extension.value.profile < 65536 && |p.extension.value.value| % 4 == 0 && |p.extension.value.value| / 4 < 65536)
    && (p.padding.Some? ==>
          var pad := p.padding.value;
          0 < |pad| < 256 && pad[|pad| - 1] == ToByte(|pad|))
  }

  // --------------------------------------------------------------------- layout

  function First(p: Packet): nat {
    128 + (if p.padding.Some? then 32 else 0) + (if p.extension.Some? then 16 else 0) + |p.csrcs|
  }

  function Fixed(p: Packet): (s: seq<byte>)
    requires WellFormed(p)
    ensures |s| == HEADER_SIZE
  {
    [ToByte(First(p)), ToByte(128 * p.header.marker + p.header.payloadType)]
    + Put2(p.header.sequence) + Put4(p.header.timestamp) + Put4(p.header.ssrc)
  }

  function Csrcs(cs: seq<bv32>): (s: seq<byte>)
    ensures |s| == 4 * |cs|
  {
    if cs == [] then [] else Put4(cs[0]) + Csrcs(cs[1..])
  }

  function ExtensionBytes(e: Option<Extension>): seq<byte>
    requires e.Some? ==> e.value.profile < 65536 && |e.value.value| / 4 < 65536
  {
    if e.None? then [] else Put2(e.value.profile) + Put2(|e.value.value| / 4) + e.value.value
  }

  function Layout(p: Packet): seq<byte>
    requires WellFormed(p)
  {
    Fixed(p) + Csrcs(p.csrcs) + ExtensionBytes(p.extension) + p.payload + if p.padding.Some? then p.padding.value else []
  }

  // --------------------------------------------------------------------- parsing

  predicate IsRtp(s: seq<byte>) {
    |s| >= HEADER_SIZE && 127 < Val(s[0]) < 192 && Val(s[0]) / 64 == 2
  }

  function ReadCsrcs(s: seq<byte>, at: nat, n: nat): (cs: seq<bv32>)
    requires at + 4 * n <= |s|
    ensures |cs| == n
    decreases n
  {
    if n == 0 then [] else [Get4(s, at)] + ReadCsrcs(s, at + 4, n - 1)
  }

  function ReadHeader(s: seq<byte>): Header
    requires |s| >= HEADER_SIZE
  {
    Header(Val(s[1]) / 128, Val(s[1]) % 128, Get2(s, 2), Get4(s, 4), Get4(s, 8))
  }

  /** The extension that starts at an index, when the flag is set and it fits. */
  function ReadExtension(s: seq<byte>, at: nat, flag: bool): (r: Option<(Option<Extension>, nat)>)
    requires at <= |s|
    ensures r.Some? ==> at <= r.value.1 <= |s|
  {
    if !flag then Some((None, at))
    else if |s| < at + 4 then None
    else
      var size := 4 * Get2(s, at + 2);
      if |s| < at + 4 + size then None
      else Some((Some(Extension(Get2(s, at), s[at + 4..at + 4 + size])), at + 4 + size))
  }

  /** Payload and padding from an index to the end. */
  function ReadPayload(s: seq<byte>, at: nat, flag: bool): Option<(seq<byte>, Option<seq<byte>>)>
    requires at <= |s|
  {
    if !flag then Some((s[at..], None))
    else if |s| == at then None
    else
      var pad := Val(s[|s| - 1]);
      if pad == 0 || |s| - at < pad then None else Some((s[at..|s| - pad], Some(s[|s| - pad..])))
  }

  function Parse(s: seq<byte>): Option<Packet> {
    if !IsRtp(s) then None
    else
      var v := Val(s[0]);
      var at := HEADER_SIZE + 4 * (v % 16);
      if |s| < at then None
      else
        match ReadExtension(s, at, v / 16 % 2 == 1)
        case None => None
        case Some((extension, end)) =>
          match ReadPayload(s, end, v / 32 % 2 == 1)
          case None => None
          case Some((payload, padding)) =>
            Some(Packet(ReadHeader(s), ReadCsrcs(s, HEADER_SIZE, v % 16), extension, payload, padding))
  }

  // ---------------------------------------------------------- both directions

  lemma FirstByte(p: Packet)
    requires WellFormed(p)
    ensures var v := Val(Fixed(p)[0]);
            && 127 < v < 192 && v / 64 == 2 && v % 16 == |p.csrcs|
            && (v / 16 % 2 == 1 <==> p.extension.Some?) && (v / 32 % 2 == 1 <==> p.padding.Some?)
  {
    hide Val, ToByte;
    ValToByte(First(p));
  }

  lemma SecondByte(p: Packet)
    requires WellFormed(p)
    ensures var v := Val(Fixed(p)[1]); v / 128 == p.header.marker && v % 128 == p.header.payloadType
  {
    hide Val, ToByte;
    ValToByte(128 * p.header.marker + p.header.payloadType);
  }

  lemma Get4At(s: seq<byte>, i: nat, v: bv32)
    requires i + 4 <= |s| && s[i..i + 4] == Put4(v)
    ensures Get4(s, i) == v
  {
    hide Get4, Put4;
    Get4Slice(s, i);
    GetPut4(v);
  }

  lemma HeaderBack(p: Packet, s: seq<byte>)
    requires WellFormed(p) && |s| >= HEADER_SIZE && s[..HEADER_SIZE] == Fixed(p)
    ensures ReadHeader(s) == p.header
  {
    hide Val, ToByte, Get4, Put4, Get2, Put2;
    SecondByte(p);
    var f := Fixed(p);
    assert s[1] == f[1];
    assert s[2..4] == f[2..4] == Put2(p.header.sequence);
    assert s[4..8] == f[4..8] == Put4(p.header.timestamp);
    assert s[8..12] == f[8..12] == Put4(p.header.ssrc);
    GetPut2(s, 2, p.header.sequence);
    Get4At(s, 4, p.header.timestamp);
    Get4At(s, 8, p.header.ssrc);
  }

  lemma {:induction false} CsrcsBack(cs: seq<bv32>, s: seq<byte>, at: nat)
    requires at + 4 * |cs| <= |s| && s[at..at + 4 * |cs|] == Csrcs(cs)
    ensures ReadCsrcs(s, at, |cs|) == cs
  {
    hide Get4, Put4;
    if cs != [] {
      var all := s[at..at + 4 * |cs|];
      assert s[at..at + 4] == all[..4] == Put4(cs[0]);
      assert s[at + 4..at + 4 + 4 * |cs[1..]|] == all[4..] == Csrcs(cs[1..]);
      Get4At(s, at, cs[0]);
      CsrcsBack(cs[1..], s, at + 4);
    }
  }

  lemma Slices(a: seq<byte>, b: seq<byte>, c: seq<byte>)
    requires |a| == 2 && |b| == 2
    ensures var all := a + b + c; all[..2] == a && all[2..4] == b && all[4..] == c
  {
  }

  lemma SubSlice(s: seq<byte>, at: nat, n: nat, i: nat, j: nat)
    requires at + n <= |s| && i <= j <= n
    ensures s[at..at + n][i..j] == s[at + i..at + j]
  {
    var part, whole := s[at..at + n][i..j], s[at + i..at + j];
    assert |part| == |whole|;
    forall k | 0 <= k < |part|
      ensures part[k] == whole[k]
    {
      assert part[k] == s[at..at + n][i + k] == s[at + (i + k)];
    }
  }

  lemma ExtensionBack(e: Option<Extension>, s: seq<byte>, at: nat)
    requires e.Some? ==> e.value.profile < 65536 && |e.value.value| % 4 == 0 && |e.value.value| / 4 < 65536
    requires at + |ExtensionBytes(e)| <= |s| && s[at..at + |ExtensionBytes(e)|] == ExtensionBytes(e)
    ensures ReadExtension(s, at, e.Some?) == Some((e, at + |ExtensionBytes(e)|))
  {
    hide Get2, Put2;
    if e.Some? {
      var b := ExtensionBytes(e);
      Slices(Put2(e.value.profile), Put2(|e.value.value| / 4), e.value.value);
      SubSlice(s, at, |b|, 0, 2);
      SubSlice(s, at, |b|, 2, 4);
      SubSlice(s, at, |b|, 4, |b|);
      GetPut2(s, at, e.value.profile);
      GetPut2(s, at + 2, |e.value.value| / 4);
    }
  }

  lemma PayloadBack(payload: seq<byte>, padding: Option<seq<byte>>, s: seq<byte>, at: nat)
    requires padding.Some? ==> 0 < |padding.value| < 256 && padding.value[|padding.value| - 1] == ToByte(|padding.value|)
    requires at <= |s| && s[at..] == payload + if padding.Some? then padding.value else []
    ensures ReadPayload(s, at, padding.Some?) == Some((payload, padding))
  {
    hide Val, ToByte;
    var tail := s[at..];
    if padding.Some? {
      var pad := padding.value;
      assert tail[|tail| - 1] == s[|s| - 1] == pad[|pad| - 1];
      ValToByte(|pad|);
      assert s[at..|s| - |pad|] == tail[..|payload|] == payload;
      assert s[|s| - |pad|..] == tail[|payload|..] == pad;
    } else {
      assert payload + [] == payload;
    }
  }

  lemma Parts(f: seq<byte>, c: seq<byte>, e: seq<byte>, rest: seq<byte>)
    ensures var s := f + c + e + rest;
            && s[..|f|] == f && (f != [] ==> s[0] == f[0])
            && s[|f|..|f| + |c|] == c
            && s[|f| + |c|..|f| + |c| + |e|] == e
            && s[|f| + |c| + |e|..] == rest
  {
  }

  /** Parsing inverts the layout of every packet. */
  lemma LayoutIsParsed(p: Packet)
    requires WellFormed(p)
    ensures Parse(Layout(p)) == Some(p)
  {
    hide Val, ToByte, Get4, Put4, Get2, Put2, Fixed, Csrcs, ExtensionBytes, ReadCsrcs, ReadExtension, ReadPayload, ReadHeader;
    var s := Layout(p);
    var c, e := Csrcs(p.csrcs), ExtensionBytes(p.extension);
    var pad := if p.padding.Some? then p.padding.value else [];
    Parts(Fixed(p), c, e, p.payload + pad);
    assert s == Fixed(p) + c + e + (p.payload + pad);
    FirstByte(p);
    HeaderBack(p, s);
    CsrcsBack(p.csrcs, s, HEADER_SIZE);
    var at := HEADER_SIZE + |c|;
    ExtensionBack(p.extension, s, at);
    PayloadBack(p.payload, p.padding, s, at + |e|);
  }

  lemma PutGet4(s: seq<byte>, i: nat)
    requires i + 4 <= |s|
    ensures Put4(Get4(s, i)) == s[i..i + 4]
  {
    FourBytes(s[i], s[i + 1], s[i + 2], s[i + 3]);
    assert s[i..i + 4] == [s[i], s[i + 1], s[i + 2], s[i + 3]];
  }

  lemma FourBytes(a: byte, b: byte, c: byte, d: byte)
    ensures Put4(Get4([a, b, c, d], 0)) == [a, b, c, d]
  {
  }

  lemma FirstBack(v: nat, p: Packet)
    requires 127 < v < 192 && |p.csrcs| == v % 16
    requires (v / 16 % 2 == 1 <==> p.extension.Some?) && (v / 32 % 2 == 1 <==> p.padding.Some?)
    ensures First(p) == v
  {
  }

  lemma FixedBack(s: seq<byte>, p: Packet)
    requires WellFormed(p) && IsRtp(s) && p.header == ReadHeader(s) && First(p) == Val(s[0])
    ensures Fixed(p) == s[..HEADER_SIZE]
  {
    hide Val, ToByte, Get4, Put4, Get2, Put2, First;
    ValBound(s[0]);
    ValBound(s[1]);
    assert 128 * p.header.marker + p.header.payloadType == Val(s[1]);
    PutGet2(s, 2);
    PutGet4(s, 4);
    PutGet4(s, 8);
    assert s[..HEADER_SIZE] == [s[0], s[1]] + s[2..4] + s[4..8] + s[8..12];
  }

  lemma {:induction false} CsrcsRead(s: seq<byte>, at: nat, n: nat)
    requires at + 4 * n <= |s|
    ensures Csrcs(ReadCsrcs(s, at, n)) == s[at..at + 4 * n]
    decreases n
  {
    hide Get4, Put4;
    if n > 0 {
      var cs := ReadCsrcs(s, at, n);
      assert cs[1..] == ReadCsrcs(s, at + 4, n - 1);
      CsrcsRead(s, at + 4, n - 1);
      PutGet4(s, at);
      assert s[at..at + 4 * n] == s[at..at + 4] + s[at + 4..at + 4 + 4 * (n - 1)];
    }
  }

  lemma ExtensionRead(s: seq<byte>, at: nat, flag: bool)
    requires at <= |s| && ReadExtension(s, at, flag).Some?
    ensures var (e, end) := ReadExtension(s, at, flag).value;
            && e.Some? == flag
            && (e.Some? ==> e.value.profile < 65536 && |e.value.value| % 4 == 0 && |e.value.value| / 4 < 65536)
            && ExtensionBytes(e) == s[at..end]
  {
    hide Get2, Put2;
    if flag {
      PutGet2(s, at);
      PutGet2(s, at + 2);
      var end := ReadExtension(s, at, flag).value.1;
      assert s[at..end] == s[at..at + 2] + s[at + 2..at + 4] + s[at + 4..end];
    }
  }

  lemma PayloadRead(s: seq<byte>, at: nat, flag: bool)
    requires at <= |s| && ReadPayload(s, at, flag).Some?
    ensures var (payload, padding) := ReadPayload(s, at, flag).value;
            && padding.Some? == flag
            && (padding.Some? ==> 0 < |padding.value| < 256 && padding.value[|padding.value| - 1] == ToByte(|padding.value|))
            && payload + (if padding.Some? then padding.value else []) == s[at..]
  {
    hide Val, ToByte;
    if flag {
      ValBound(s[|s| - 1]);
    }
  }

  lemma HeaderBound(s: seq<byte>)
    requires |s| >= HEADER_SIZE
    ensures var h := ReadHeader(s); h.marker < 2 && h.payloadType < 128 && h.sequence < 65536
  {
    hide Val, Get4, Get2;
    ValBound(s[1]);
  }

  /** Whatever the parser accepts is the layout of what it returns. */
  lemma ParsedIsLayout(s: seq<byte>)
    requires Parse(s).Some?
    ensures WellFormed(Parse(s).value) && Layout(Parse(s).value) == s
  {
    hide Val, ToByte, Get4, Put4, Get2, Put2, Fixed, Csrcs, ExtensionBytes, ReadCsrcs, ReadExtension, ReadPayload, First, ReadHeader;
    var p := Parse(s).value;
    var v := Val(s[0]);
    var at := HEADER_SIZE + 4 * (v % 16);
    HeaderBound(s);
    ExtensionRead(s, at, v / 16 % 2 == 1);
    var end := ReadExtension(s, at, v / 16 % 2 == 1).value.1;
    PayloadRead(s, end, v / 32 % 2 == 1);
    FirstBack(v, p);
    FixedBack(s, p);
    CsrcsRead(s, HEADER_SIZE, v % 16);
    Assemble(s, at, end, p.payload, if p.padding.Some? then p.padding.value else []);
  }

  lemma Assemble(s: seq<byte>, at: nat, end: nat, payload: seq<byte>, pad: seq<byte>)
    requires HEADER_SIZE <= at <= end <= |s| && payload + pad == s[end..]
    ensures s[..HEADER_SIZE] + s[HEADER_SIZE..at] + s[at..end] + payload + pad == s
  {
    assert s[..HEADER_SIZE] + s[HEADER_SIZE..at] + s[at..end] == s[..end];
    assert s[..end] + payload + pad == s[..end] + (payload + pad);
  }

  /** A byte string is accepted exactly when it is the layout of a packet. */
  lemma AcceptsExactlyLayouts(s: seq<byte>)
    ensures Parse(s).Some? <==> exists p :: WellFormed(p) && Layout(p) == s
  {
    hide Layout, Parse, WellFormed;
    if Parse(s).Some? {
      ParsedIsLayout(s);
    }
    if p :| WellFormed(p) && Layout(p) == s {
      LayoutIsParsed(p);
    }
  }

  // ---------------------------------------------------------------- the decoder

  class RtpPacket {
    var header: Header
    var padded: bool
    var extended: bool
    var csrcCount: nat
    var csrcs: seq<bv32>
    var profile: nat
    var extensionLength: nat
    var payload: seq<byte>

    constructor ()
      ensures csrcs == [] && payload == []
    {
      header := Header(0, 0, 0, 0, 0);
      padded, extended, csrcCount := false, false, 0;
      csrcs, profile, extensionLength, payload := [], 0, 0, [];
    }

    /** RtpPacket::Decode.  It accepts what Parse accepts and stores the parts of the packet;
        the length check at its end can never fail. */
    method Decode(packet: seq<byte>) returns (r: int)
      modifies this
      ensures r == if Parse(packet).Some? then 0 else -1
      ensures r == 0 ==>
                var p := Parse(packet).value;
                && header == p.header && csrcs == old(csrcs) + p.csrcs && payload == p.payload
                && padded == p.padding.Some? && extended == p.extension.Some? && csrcCount == |p.csrcs|
                && (p.extension.Some? ==> profile == p.extension.value.profile && 4 * extensionLength == |p.extension.value.value|)
    {
      hide Val, Get4, Get2, ReadHeader, ReadCsrcs, ReadExtension, ReadPayload;
      var len := |packet|;
      if !IsRtp(packet) {
        return -1;
      }
      header := ReadHeader(packet);
      var v := Val(packet[0]);
      padded, extended, csrcCount := v / 32 % 2 == 1, v / 16 % 2 == 1, v % 16;
      var ptr := HEADER_SIZE;
      var csrcListSize := 0;
      if csrcCount != 0 {
        csrcListSize := csrcCount * 4;
        if len < ptr + csrcListSize {
          return -1;
        }
      }
      ReadList(packet, ptr, csrcCount);
      ptr := ptr + csrcListSize;
      var fits, extensionEnd := ReadExtensionAt(packet, ptr);
      if !fits {
        return -1;
      }
      var sound, payloadPadding := ReadPayloadAt(packet, extensionEnd);
      if !sound {
        return -1;
      }
      var packetLength := HEADER_SIZE + csrcListSize + (extensionEnd - ptr) + |payload| + payloadPadding;
      assert packetLength == len;
      return 0;
    }

    method ReadExtensionAt(packet: seq<byte>, ptr: nat) returns (fits: bool, end: nat)
      requires ptr <= |packet|
      modifies `profile, `extensionLength
      ensures fits == ReadExtension(packet, ptr, extended).Some?
      ensures fits ==>
                var (e, after) := ReadExtension(packet, ptr, extended).value;
                && end == after && e.Some? == extended
                && (e.Some? ==> profile == e.value.profile && 4 * extensionLength == |e.value.value|)
    {
      hide Get2;
      fits, end := true, ptr;
      if extended {
        if |packet| < ptr + 4 {
          return false, ptr;
        }
        var extensionValueSize := Get2(packet, ptr + 2) * 4;
        if |packet| < ptr + 4 + extensionValueSize {
          return false, ptr;
        }
        profile, extensionLength := Get2(packet, ptr), Get2(packet, ptr + 2);
        end := ptr + 4 + extensionValueSize;
      }
    }

    method ReadPayloadAt(packet: seq<byte>, ptr: nat) returns (sound: bool, payloadPadding: nat)
      requires ptr <= |packet|
      modifies `payload
      ensures sound == ReadPayload(packet, ptr, padded).Some?
      ensures sound ==>
                var (body, padding) := ReadPayload(packet, ptr, padded).value;
                && payload == body && padding.Some? == padded && ptr + |payload| + payloadPadding == |packet|
    {
      hide Val;
      var payloadLength := |packet| - ptr;
      payloadPadding := 0;
      if padded {
        if payloadLength == 0 {
          return false, 0;
        }
        payloadPadding := Val(packet[|packet| - 1]);
        if payloadPadding == 0 {
          return false, 0;
        }
        if payloadLength < payloadPadding {
          return false, 0;
        }
        payloadLength := payloadLength - payloadPadding;
      }
      payload := packet[ptr..ptr + payloadLength];
      sound := true;
    }

    /** The loop over the CSRC list. */
    method ReadList(packet: seq<byte>, start: nat, n: nat)
      requires start + 4 * n <= |packet|
      modifies this`csrcs
      ensures csrcs == old(csrcs) + ReadCsrcs(packet, start, n)
    {
      hide Get4;
      var count, offset := n, start;
      while count > 0
        invariant offset + 4 * count == start + 4 * n
        invariant csrcs + ReadCsrcs(packet, offset, count) == old(csrcs) + ReadCsrcs(packet, start, n)
      {
        ghost var rest := ReadCsrcs(packet, offset + 4, count - 1);
        assert csrcs + ([Get4(packet, offset)] + rest) == csrcs + [Get4(packet, offset)] + rest;
        csrcs := csrcs + [Get4(packet, offset)];
        offset, count := offset + 4, count - 1;
      }
    }
  }
}
