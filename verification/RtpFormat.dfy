/** The octets of an RTP data packet (section 5.1 of RFC 3550): layout and parsing. */
module RtpFormat {
  import opened Octets

  const VERSION: int := 2
  const FIXED_HEADER: nat := 12

  type Bits7 = x: int | 0 <= x < 128

  // ---- Bit fields of the first two octets ----

  function SetVersion(b: octet, v: octet): octet { v % 4 * 64 + b % 64 }
  function SetPaddingBit(b: octet, p: bool): octet { b / 64 * 64 + (if p then 32 else 0) + b % 32 }
  function SetExtensionBit(b: octet, x: bool): octet { b / 32 * 32 + (if x then 16 else 0) + b % 16 }
  function SetCc(b: octet, n: nat): octet { b / 16 * 16 + n % 16 }
  function SetMarkerBit(b: octet, m: bool): octet { (if m then 128 else 0) + b % 128 }
  function SetPayloadType(b: octet, pt: octet): octet { b / 128 * 128 + pt % 128 }

  function VersionOf(b: octet): int { b / 64 }
  predicate PaddingBit(b: octet) { b / 32 % 2 == 1 }
  predicate ExtensionBit(b: octet) { b / 16 % 2 == 1 }
  function CcOf(b: octet): nat { b % 16 }
  predicate MarkerBit(b: octet) { b / 128 == 1 }
  function PayloadTypeOf(b: octet): Bits7 { b % 128 }

  // ---- The layout of a packet ----

  datatype Header = Header(
    marker: bool,
    payloadType: Bits7,
    seqNum: uint16,
    timestamp: uint32,
    ssrc: uint32,
    csrcs: seq<uint32>,
    extension: seq<octet>)
  {
    function Size(): nat {
      FIXED_HEADER + 4 * |csrcs| + |extension|
    }
  }

  function CsrcOctets(csrcs: seq<uint32>): (s: seq<octet>)
    ensures |s| == 4 * |csrcs|
  {
    if csrcs == [] then []
    else CsrcOctets(csrcs[..|csrcs| - 1]) + BigEndian32(csrcs[|csrcs| - 1])
  }

  /** Zeros, then the count of padding octets, itself included. */
  function PaddingOctets(n: octet): (s: seq<octet>)
    ensures |s| == n
  {
    if n == 0 then [] else seq(n - 1, _ => 0) + [n]
  }

  /** A packet of `size` octets that is already a multiple gets a whole unit more. */
  function PaddingFor(size: nat, paddinglen: octet): octet {
    if paddinglen == 0 then 0 else paddinglen - size % paddinglen
  }

  function Octet0(padded: bool, extended: bool, cc: nat): octet {
    VERSION * 64 + (if padded then 32 else 0) + (if extended then 16 else 0) + cc % 16
  }

  function Octet1(marker: bool, payloadType: Bits7): octet {
    (if marker then 128 else 0) + payloadType
  }

  /** Everything behind the fixed header. */
  function Body(csrcs: seq<uint32>, extension: seq<octet>, payload: seq<octet>, padding: octet): (s: seq<octet>)
    ensures |s| == 4 * |csrcs| + |extension| + |payload| + padding
  {
    CsrcOctets(csrcs) + extension + payload + PaddingOctets(padding)
  }

  /** The octets of a packet on the wire: section 5.1 of RFC 3550. */
  predicate Carries(b: seq<octet>, h: Header, payload: seq<octet>, padding: octet) {
    && |b| >= FIXED_HEADER
    && b[0] == Octet0(padding != 0, h.extension != [], |h.csrcs|)
    && b[1] == Octet1(h.marker, h.payloadType)
    && b[2..4] == BigEndian16(h.seqNum)
    && b[4..8] == BigEndian32(h.timestamp)
    && b[8..12] == BigEndian32(h.ssrc)
    && b[12..] == Body(h.csrcs, h.extension, payload, padding)
  }

  /** The fixed header octet by octet. */
  lemma FixedHeader(b: seq<octet>, h: Header, payload: seq<octet>, padding: octet)
    requires Carries(b, h, payload, padding)
    ensures b[..12] == [
      0x80 + (if padding != 0 then 0x20 else 0) + (if h.extension != [] then 0x10 else 0) + |h.csrcs| % 16,
      (if h.marker then 0x80 else 0) + h.payloadType,
      h.seqNum / 0x100, h.seqNum % 0x100,
      h.timestamp / 0x100_0000, h.timestamp / 0x1_0000 % 0x100, h.timestamp / 0x100 % 0x100, h.timestamp % 0x100,
      h.ssrc / 0x100_0000, h.ssrc / 0x1_0000 % 0x100, h.ssrc / 0x100 % 0x100, h.ssrc % 0x100]
  {
    hide Body;
    assert b[..12] == [b[0], b[1]] + b[2..4] + b[4..8] + b[8..12];
  }

  lemma BodyParts(b: seq<octet>, h: Header, payload: seq<octet>, padding: octet)
    requires Carries(b, h, payload, padding)
    ensures |b| == h.Size() + |payload| + padding
    ensures b[12..12 + 4 * |h.csrcs|] == CsrcOctets(h.csrcs)
    ensures b[12 + 4 * |h.csrcs|..h.Size()] == h.extension
    ensures b[h.Size()..h.Size() + |payload|] == payload
    ensures padding != 0 ==> b[|b| - 1] == padding
  {
    hide CsrcOctets, PaddingOctets, BigEndian16, BigEndian32, Octet0, Octet1;
    FourParts(b, 12, CsrcOctets(h.csrcs), h.extension, payload, PaddingOctets(padding));
    if padding != 0 {
      LastPaddingOctet(padding);
    }
  }

  lemma LastPaddingOctet(n: octet)
    requires n != 0
    ensures PaddingOctets(n)[n - 1] == n
  {
  }

  /** Four parts one behind the other, from some place of b to its end. */
  lemma FourParts<T>(b: seq<T>, at: nat, p: seq<T>, q: seq<T>, r: seq<T>, t: seq<T>)
    requires at <= |b| && b[at..] == p + q + r + t
    ensures |b| == at + |p| + |q| + |r| + |t|
    ensures b[at..at + |p|] == p && b[at + |p|..at + |p| + |q|] == q
    ensures b[at + |p| + |q|..at + |p| + |q| + |r|] == r
    ensures t != [] ==> b[|b| - 1] == t[|t| - 1]
  {
    assert |b| == at + |b[at..]|;
    assert b == b[..at] + (p + q + r + t);
  }

  // ---- Reading a packet ----

  /** The octets the parser looks at are there. */
  predicate Readable(b: seq<octet>) {
    && |b| >= FIXED_HEADER
    && (ExtensionBit(b[0]) ==> FIXED_HEADER + 4 * CcOf(b[0]) + 4 <= |b|)
  }

  function HeaderSize(b: seq<octet>): nat
    requires Readable(b)
  {
    var base := FIXED_HEADER + 4 * CcOf(b[0]);
    if ExtensionBit(b[0]) then base + 4 + 4 * Read16(b, base + 2) else base
  }

  /** A 32-bit difference: it wraps when padding and header exceed the packet. */
  function PayloadSize(b: seq<octet>): uint32
    requires Readable(b)
  {
    var padding := if PaddingBit(b[0]) then b[|b| - 1] else 0;
    (|b| - padding - HeaderSize(b)) % TWO32
  }

  /** The payload size is the octets behind the header without the padding, unless these are more than there are. */
  lemma PayloadSizeWraps(b: seq<octet>)
    requires Readable(b) && |b| < TWO32
    ensures var padding := if PaddingBit(b[0]) then b[|b| - 1] else 0;
      PayloadSize(b) == |b| - padding - HeaderSize(b) <==> HeaderSize(b) + padding <= |b|
  {
    hide HeaderSize, PaddingBit;
  }

  /** What reComputePayLength makes of a payload size: the octet it looks at is added. */
  function Recomputed(b: seq<octet>, payloadSize: uint32): uint32
    requires 0 < payloadSize <= |b|
  {
    (payloadSize + b[payloadSize - 1]) % TWO32
  }

  /** Version 2, and not a misaddressed RTCP SR or RR (the mask drops the low bit). */
  predicate HeaderValid(b: seq<octet>)
    requires Readable(b)
  {
    VersionOf(b[0]) == VERSION && PayloadTypeOf(b[1]) / 2 * 2 != 0x48
  }

  function CsrcAt(b: seq<octet>, i: nat): uint32
    requires FIXED_HEADER + 4 * i + 4 <= |b|
  {
    Read32(b, FIXED_HEADER + 4 * i)
  }

  /** An extension carries its own length, in words after its first. */
  predicate WellFormedExtension(x: seq<octet>) {
    x == [] || (|x| >= 4 && |x| == 4 + 4 * Read16(x, 2))
  }

  // ---- Printing and parsing undo each other ----

  lemma OctetFields(padded: bool, extended: bool, cc: nat, marker: bool, pt: Bits7)
    ensures var b := Octet0(padded, extended, cc);
      VersionOf(b) == VERSION && PaddingBit(b) == padded && ExtensionBit(b) == extended && CcOf(b) == cc % 16
    ensures MarkerBit(Octet1(marker, pt)) == marker && PayloadTypeOf(Octet1(marker, pt)) == pt
  {
  }

  /** Clearing the padding bit leaves the rest of the octet, and setting it again restores all of it. */
  lemma PaddingBitCleared(b: octet)
    ensures var c := SetPaddingBit(b, false);
      && !PaddingBit(c) && VersionOf(c) == VersionOf(b) && ExtensionBit(c) == ExtensionBit(b) && CcOf(c) == CcOf(b)
      && (PaddingBit(b) ==> SetPaddingBit(c, true) == b)
  {
    var v, p, x, n := b / 64, b / 32 % 2, b / 16 % 2, b % 16;
    Fields(b);
    FieldsOf(v, 0, x, n);
    assert SetPaddingBit(b, false) == 64 * v + 16 * x + n;
    hide SetPaddingBit;
    assert SetPaddingBit(SetPaddingBit(b, false), true) == 64 * v + 32 + (16 * x + n) by {
      SetIs(SetPaddingBit(b, false));
    }
  }

  lemma SetIs(b: octet)
    ensures SetPaddingBit(b, true) == b / 64 * 64 + 32 + b % 32
  {
  }

  lemma Fields(b: octet)
    ensures b == 64 * (b / 64) + 32 * (b / 32 % 2) + 16 * (b / 16 % 2) + b % 16
    ensures b % 32 == 16 * (b / 16 % 2) + b % 16
  {
    var h := b / 16;
    assert b / 32 == h / 2;
    assert b / 64 == h / 2 / 2;
  }

  lemma FieldsOf(v: nat, p: nat, x: nat, n: nat)
    requires v < 4 && p < 2 && x < 2 && n < 16
    ensures var b := 64 * v + 32 * p + 16 * x + n;
      b / 64 == v && b / 32 % 2 == p && b / 16 % 2 == x && b % 16 == n && b % 32 == 16 * x + n
  {
    var b := 64 * v + 32 * p + 16 * x + n;
    assert b / 32 == 2 * v + p;
    assert b / 16 == 4 * v + 2 * p + x;
  }

  lemma Octet0Built(padded: bool, extended: bool, cc: nat)
    ensures SetExtensionBit(SetCc(Octet0(padded, false, 0), cc), extended) == Octet0(padded, extended, cc)
  {
  }

  lemma {:induction false} CsrcOctetsAt(csrcs: seq<uint32>, i: nat)
    requires i < |csrcs|
    ensures CsrcOctets(csrcs)[4 * i..4 * i + 4] == BigEndian32(csrcs[i])
  {
    var n := |csrcs| - 1;
    if i < n {
      CsrcOctetsAt(csrcs[..n], i);
      assert CsrcOctets(csrcs)[4 * i..4 * i + 4] == CsrcOctets(csrcs[..n])[4 * i..4 * i + 4];
    }
  }

  lemma CsrcBack(b: seq<octet>, csrcs: seq<uint32>, i: nat)
    requires i < |csrcs| && 12 + 4 * |csrcs| <= |b|
    requires b[12..12 + 4 * |csrcs|] == CsrcOctets(csrcs)
    ensures CsrcAt(b, i) == csrcs[i]
  {
    CsrcOctetsAt(csrcs, i);
    Read32Inside(b, 12, CsrcOctets(csrcs), 4 * i, csrcs[i]);
  }

  lemma HeaderSizeBack(b: seq<octet>, h: Header, payload: seq<octet>, padding: octet)
    requires Carries(b, h, payload, padding)
    requires |h.csrcs| <= 15 && WellFormedExtension(h.extension)
    ensures Readable(b) && HeaderSize(b) == h.Size()
  {
    hide Carries, Body, HeaderSize, Readable, WellFormedExtension;
    BodyParts(b, h, payload, padding);
    FirstFields(b, h, payload, padding);
    SizeRead(b, |h.csrcs|, h.extension);
  }

  lemma FirstFields(b: seq<octet>, h: Header, payload: seq<octet>, padding: octet)
    requires Carries(b, h, payload, padding) && |h.csrcs| <= 15
    ensures |b| >= 12 && CcOf(b[0]) == |h.csrcs| && (ExtensionBit(b[0]) <==> h.extension != [])
  {
    hide Body, BigEndian16, BigEndian32, Octet0, Octet1;
    OctetFields(padding != 0, h.extension != [], |h.csrcs|, h.marker, h.payloadType);
  }

  /** What the parser makes of the count and the extension. */
  lemma SizeRead(b: seq<octet>, n: nat, x: seq<octet>)
    requires 12 + 4 * n + |x| <= |b| && b[12 + 4 * n..12 + 4 * n + |x|] == x && WellFormedExtension(x)
    requires CcOf(b[0]) == n && (ExtensionBit(b[0]) <==> x != [])
    ensures Readable(b) && HeaderSize(b) == 12 + 4 * n + |x|
  {
    hide CcOf, ExtensionBit, Read16;
    if x != [] {
      Read16Inside(b, 12 + 4 * n, x, 2);
    }
  }

  lemma PayloadSizeBack(b: seq<octet>, h: Header, payload: seq<octet>, padding: octet)
    requires Carries(b, h, payload, padding) && |b| < TWO32
    requires |h.csrcs| <= 15 && WellFormedExtension(h.extension)
    ensures Readable(b) && PayloadSize(b) == |payload|
  {
    hide CsrcOctets, PaddingOctets, BigEndian16, BigEndian32, Octet0, Octet1, Body;
    HeaderSizeBack(b, h, payload, padding);
    BodyParts(b, h, payload, padding);
    OctetFields(padding != 0, h.extension != [], |h.csrcs|, h.marker, h.payloadType);
  }

  lemma FieldsBack(b: seq<octet>, h: Header, payload: seq<octet>, padding: octet)
    requires Carries(b, h, payload, padding)
    ensures Read16(b, 2) == h.seqNum && Read32(b, 4) == h.timestamp && Read32(b, 8) == h.ssrc
  {
    Read16Back(b, 2, h.seqNum);
    Read32Back(b, 4, h.timestamp);
    Read32Back(b, 8, h.ssrc);
  }

  lemma FirstOctetsBack(b: seq<octet>, h: Header, payload: seq<octet>, padding: octet)
    requires Carries(b, h, payload, padding) && Readable(b) && |h.csrcs| <= 15
    ensures HeaderValid(b) <==> h.payloadType != 72 && h.payloadType != 73
    ensures MarkerBit(b[1]) == h.marker && PayloadTypeOf(b[1]) == h.payloadType
    ensures PaddingBit(b[0]) == (padding != 0) && CcOf(b[0]) == |h.csrcs|
  {
    OctetFields(padding != 0, h.extension != [], |h.csrcs|, h.marker, h.payloadType);
  }

  /**
   Parsing what was built recovers every header field, the CSRC list, the extension
   and the payload; the packet is valid exactly when its payload type is not one
   of the two that collide with RTCP.
   */
  lemma BuildThenParse(b: seq<octet>, h: Header, payload: seq<octet>, padding: octet)
    requires Carries(b, h, payload, padding) && |b| < TWO32
    requires |h.csrcs| <= 15 && WellFormedExtension(h.extension)
    ensures Readable(b)
    ensures HeaderSize(b) == h.Size() && PayloadSize(b) == |payload|
    ensures HeaderValid(b) <==> h.payloadType != 72 && h.payloadType != 73
    ensures MarkerBit(b[1]) == h.marker && PayloadTypeOf(b[1]) == h.payloadType
    ensures PaddingBit(b[0]) == (padding != 0) && CcOf(b[0]) == |h.csrcs|
    ensures Read16(b, 2) == h.seqNum && Read32(b, 4) == h.timestamp && Read32(b, 8) == h.ssrc
    ensures forall i :: 0 <= i < |h.csrcs| ==> CsrcAt(b, i) == h.csrcs[i]
    ensures b[12 + 4 * |h.csrcs|..h.Size()] == h.extension
    ensures b[h.Size()..h.Size() + |payload|] == payload
  {
    HeaderSizeBack(b, h, payload, padding);
    PayloadSizeBack(b, h, payload, padding);
    FirstOctetsBack(b, h, payload, padding);
    FieldsBack(b, h, payload, padding);
    BodyParts(b, h, payload, padding);
    forall i | 0 <= i < |h.csrcs| ensures CsrcAt(b, i) == h.csrcs[i] {
      CsrcBack(b, h.csrcs, i);
    }
  }

  /** The four-bit count: a longer list is built but can no longer be parsed back. */
  lemma CsrcCountBack(b: seq<octet>, h: Header, payload: seq<octet>, padding: octet)
    requires Carries(b, h, payload, padding)
    ensures CcOf(b[0]) == |h.csrcs| <==> |h.csrcs| <= 15
  {
    OctetFields(padding != 0, h.extension != [], |h.csrcs|, h.marker, h.payloadType);
  }

  lemma PaddedToMultiple(size: nat, paddinglen: octet)
    requires paddinglen != 0
    ensures 1 <= PaddingFor(size, paddinglen) <= paddinglen
    ensures (size + PaddingFor(size, paddinglen)) % paddinglen == 0
  {
    assert size + PaddingFor(size, paddinglen) == (size / paddinglen + 1) * paddinglen;
    MultipleOf(size / paddinglen + 1, paddinglen);
  }

  lemma MultipleOf(k: nat, m: int)
    requires m > 0
    ensures k * m % m == 0
  {
    var d := k - k * m / m;
    assert d * m == k * m % m;
  }
}
