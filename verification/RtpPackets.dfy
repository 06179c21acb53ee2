/**
 RTP data packets as objects: building them in a buffer, parsing a received buffer,
 and the SRTP transform applied in place (section 3.3 of RFC 3711).
 */
module RtpPackets {
  import opened Octets
  import opened CounterMode
  import opened CryptoContexts
  import opened ReplayProtection
  import opened RtpFormat

  // ---- Outgoing packets ----

  lemma LastOctet(b: seq<octet>, total: nat, csrcs: seq<uint32>, hdrext: seq<octet>, data: seq<octet>, padding: octet)
    requires 12 <= total <= |b| && b[12..total] == Body(csrcs, hdrext, data, padding)
    ensures padding != 0 ==> b[total - 1] == padding
  {
    hide CsrcOctets, PaddingOctets;
    assert b[..total][12..] == b[12..total];
    FourParts(b[..total], 12, CsrcOctets(csrcs), hdrext, data, PaddingOctets(padding));
    if padding != 0 {
      LastPaddingOctet(padding);
    }
  }

  lemma FirstOctetWritten(padded: bool)
    ensures SetPaddingBit(SetVersion(0, VERSION), padded) == Octet0(padded, false, 0)
  {
  }

  /** protect on octets: the payload (and padding) encrypted, then the tag over all of it. */
  function Protected(plain: seq<octet>, hdrSize: nat, e: Encryption, a: Authentication,
                     ssrc: uint32, index: uint48): (r: seq<octet>)
    requires hdrSize <= |plain| && |plain| - hdrSize < MAX_LENGTH
    ensures |r| == |plain| + TagSize(a)
  {
    var body := plain[..hdrSize] + Crypt(e, ssrc, index, plain[hdrSize..]);
    body + Tag(a, body, index / TWO16)
  }

  class OutgoingRtpPacket {
    var buffer: array<octet>
    var total: nat
    var payloadSize: nat
    var hdrSize: nat
    var srtpLength: nat
    var srtpDataOffset: nat
    var cachedSeqNum: uint16
    var cachedTimestamp: uint32

    ghost predicate Valid()
      reads this, buffer
    {
      && FIXED_HEADER <= hdrSize <= total
      && buffer.Length == total + srtpLength
      && srtpDataOffset == total
      && (PaddingBit(buffer[0]) ==> hdrSize < total)
      && total == hdrSize + payloadSize + (if PaddingBit(buffer[0]) then buffer[total - 1] else 0)
    }

    /**
     The three constructors of the source are this one, with csrcs or hdrext empty.
     The sequence number, timestamp and source fields are left for the setters.
     */
    constructor (csrcs: seq<uint32>, hdrext: seq<octet>, data: seq<octet>, paddinglen: octet,
                 srtpLength: nat)
      ensures Valid() && fresh(buffer)
      ensures hdrSize == 12 + 4 * |csrcs| + |hdrext| && payloadSize == |data|
      ensures total == hdrSize + |data| + PaddingFor(hdrSize + |data|, paddinglen)
      ensures this.srtpLength == srtpLength
      ensures buffer[0] == Octet0(PaddingFor(hdrSize + |data|, paddinglen) != 0, hdrext != [], |csrcs|)
      ensures buffer[1] == 0
      ensures buffer[12..total] == Body(csrcs, hdrext, data, PaddingFor(hdrSize + |data|, paddinglen))
    {
      hide PaddingFor, Body, PaddingBit, Octet0;
      var hdrlen := FIXED_HEADER + 4 * |csrcs| + |hdrext|;
      var size := hdrlen + |data|;
      var padding := PaddingNeeded(size, paddinglen);
      buffer := new octet[size + padding + srtpLength];
      total, payloadSize, hdrSize := size + padding, |data|, hdrlen;
      this.srtpLength, srtpDataOffset := srtpLength, size + padding;
      new;
      WriteFixedPart(padding);
      WriteContents(csrcs, hdrext, data, padding);
      OctetFields(padding != 0, hdrext != [], |csrcs|, false, 0);
      LastOctet(buffer[..], total, csrcs, hdrext, data, padding);
    }

    /** What fills a packet up to a multiple of paddinglen. */
    static method PaddingNeeded(size: nat, paddinglen: octet) returns (padding: octet)
      ensures padding == PaddingFor(size, paddinglen)
    {
      padding := 0;
      if paddinglen != 0 {
        padding := paddinglen - size % paddinglen;
      }
    }

    /** Version, padding bit and padding octets; the other flags are cleared. */
    method WriteFixedPart(padding: octet)
      requires 12 + padding <= total <= buffer.Length
      modifies buffer
      ensures buffer[0] == Octet0(padding != 0, false, 0) && buffer[1] == 0
      ensures buffer[total - padding..total] == PaddingOctets(padding)
    {
      hide Splice, PaddingOctets, SetVersion, SetPaddingBit, Octet0;
      FirstOctetWritten(padding != 0);
      CopyInto(buffer, 0, [0, 0, 0, 0]);
      assert buffer[..][0..4] == [0, 0, 0, 0];
      buffer[0] := SetVersion(buffer[0], VERSION);
      if padding != 0 {
        ghost var b := buffer[..12];
        CopyInto(buffer, total - padding, PaddingOctets(padding));
        assert buffer[..12] == buffer[..total - padding][..12] == b;
        buffer[0] := SetPaddingBit(buffer[0], true);
      } else {
        buffer[0] := SetPaddingBit(buffer[0], false);
      }
    }

    /** Identifiers, extension and data, behind the fixed header and before the padding. */
    method WriteContents(csrcs: seq<uint32>, hdrext: seq<octet>, data: seq<octet>, padding: octet)
      requires hdrSize == 12 + 4 * |csrcs| + |hdrext|
      requires total == hdrSize + |data| + padding && total <= buffer.Length
      requires buffer[0] == Octet0(padding != 0, false, 0) && buffer[1] == 0
      requires buffer[total - padding..total] == PaddingOctets(padding)
      modifies buffer
      ensures buffer[0] == Octet0(padding != 0, hdrext != [], |csrcs|)
      ensures buffer[1] == 0
      ensures buffer[12..total] == Body(csrcs, hdrext, data, padding)
    {
      hide CsrcOctets, PaddingOctets, Octet0, SetCc, SetExtensionBit, Splice;
      Octet0Built(padding != 0, hdrext != [], |csrcs|);
      var pointer := FIXED_HEADER + 4 * |csrcs|;
      ghost var b := buffer[..];
      SetCsrcArray(csrcs);
      ghost var c := buffer[..];
      CopyInto(buffer, pointer, hdrext);
      ghost var d := buffer[..];
      buffer[0] := SetExtensionBit(buffer[0], |hdrext| > 0);
      ghost var e := buffer[..];
      pointer := pointer + |hdrext|;
      CopyInto(buffer, pointer, data);
      ContentsWritten(b, c, d, e, buffer[..], FIXED_HEADER + 4 * |csrcs|, CsrcOctets(csrcs), hdrext, data,
                      PaddingOctets(padding), total);
      assert buffer[12..total] == buffer[..][12..total];
    }

    /** Identifiers after the fixed header, each in network order, and their count. */
    method SetCsrcArray(csrcs: seq<uint32>)
      requires 12 + 4 * |csrcs| <= buffer.Length
      modifies buffer
      ensures buffer[0] == SetCc(old(buffer[0]), |csrcs|)
      ensures buffer[1] == old(buffer[1])
      ensures buffer[12..12 + 4 * |csrcs|] == CsrcOctets(csrcs)
      ensures buffer[12 + 4 * |csrcs|..] == old(buffer[12 + 4 * |csrcs|..])
    {
      hide Splice, BigEndian32, SetCc;
      for i := 0 to |csrcs|
        invariant buffer[0] == old(buffer[0]) && buffer[1] == old(buffer[1])
        invariant buffer[12..12 + 4 * i] == CsrcOctets(csrcs[..i])
        invariant buffer[12 + 4 * |csrcs|..] == old(buffer[12 + 4 * |csrcs|..])
      {
        ghost var b := buffer[..];
        CopyInto(buffer, 12 + 4 * i, BigEndian32(csrcs[i]));
        Appended(b, buffer[..], 12, 12 + 4 * i, BigEndian32(csrcs[i]));
        SameTail(b, buffer[..], 12 + 4 * i + 4, 12 + 4 * |csrcs|);
        assert csrcs[..i + 1][..i] == csrcs[..i];
      }
      assert csrcs[..|csrcs|] == csrcs;
      buffer[0] := SetCc(buffer[0], |csrcs|);
    }

    method SetPayloadTypeField(pt: octet)
      requires Valid()
      modifies buffer
      ensures Valid()
      ensures buffer[..] == old(buffer[..])[1 := SetPayloadType(old(buffer[1]), pt)]
    {
      buffer[1] := SetPayloadType(buffer[1], pt);
    }

    method SetMarker(mark: bool)
      requires Valid()
      modifies buffer
      ensures Valid()
      ensures buffer[..] == old(buffer[..])[1 := SetMarkerBit(old(buffer[1]), mark)]
    {
      buffer[1] := SetMarkerBit(buffer[1], mark);
    }

    method SetSeqNum(seqNum: uint16)
      requires Valid()
      modifies this`cachedSeqNum, buffer
      ensures Valid() && cachedSeqNum == seqNum
      ensures buffer[..] == Splice(old(buffer[..]), 2, BigEndian16(seqNum))
    {
      cachedSeqNum := seqNum;
      CopyInto(buffer, 2, BigEndian16(seqNum));
    }

    method SetTimestamp(pts: uint32)
      requires Valid()
      modifies this`cachedTimestamp, buffer
      ensures Valid() && cachedTimestamp == pts
      ensures buffer[..] == Splice(old(buffer[..]), 4, BigEndian32(pts))
    {
      cachedTimestamp := pts;
      CopyInto(buffer, 4, BigEndian32(pts));
    }

    method SetSsrc(ssrc: uint32)
      requires Valid()
      modifies buffer
      ensures Valid()
      ensures buffer[..] == Splice(old(buffer[..]), 8, BigEndian32(ssrc))
    {
      CopyInto(buffer, 8, BigEndian32(ssrc));
    }

    /** Encrypt, authenticate and count the rollover. */
    method Protect(ssrc: uint32, pcc: CryptoContext)
      requires Valid() && srtpLength == TagSize(pcc.authentication)
      requires total - hdrSize < MAX_LENGTH
      modifies buffer, pcc
      ensures buffer[..] == Protected(old(buffer[..total]), hdrSize, pcc.encryption, pcc.authentication,
                                      ssrc, Index(old(pcc.roc), cachedSeqNum))
      ensures Sender(pcc.roc, (cachedSeqNum + 1) % TWO16) == Sender(old(pcc.roc), cachedSeqNum).Next()
      ensures pcc.State() == old(pcc.State()).(roc := pcc.roc)
    {
      hide Crypt, Tag;
      var index := Index(pcc.roc, cachedSeqNum);
      ghost var plain := buffer[..total];
      var pad := if PaddingBit(buffer[0]) then buffer[total - 1] else 0;
      assert buffer[hdrSize..hdrSize + payloadSize + pad] == plain[hdrSize..];
      pcc.SrtpEncrypt(buffer, hdrSize, payloadSize + pad, index, ssrc);
      ghost var body := plain[..hdrSize] + Crypt(pcc.encryption, ssrc, index, plain[hdrSize..]);
      assert buffer[..total] == body;
      pcc.SrtpAuthenticate(buffer, total, pcc.roc, buffer, srtpDataOffset);
      assert buffer[..] == body + Tag(pcc.authentication, body, pcc.roc);
      if cachedSeqNum == 0xFFFF {
        pcc.roc := (pcc.roc + 1) % TWO32;
      }
    }
  }

  /** The packet putData makes of a segment, ready to be protected or queued. */
  method NewDataPacket(csrcs: seq<uint32>, data: seq<octet>, paddinglen: octet, srtpLength: nat,
                       payloadType: Bits7, seqNum: uint16, timestamp: uint32, ssrc: uint32, marker: bool)
      returns (packet: OutgoingRtpPacket)
    ensures packet.Valid() && fresh(packet) && fresh(packet.buffer)
    ensures packet.srtpLength == srtpLength && packet.cachedSeqNum == seqNum
    ensures packet.payloadSize == |data| && packet.hdrSize == 12 + 4 * |csrcs|
    ensures Carries(packet.buffer[..packet.total],
                    Header(marker, payloadType, seqNum, timestamp, ssrc, csrcs, []), data,
                    PaddingFor(12 + 4 * |csrcs| + |data|, paddinglen))
  {
    hide PaddingFor, BigEndian16, BigEndian32, CsrcOctets, PaddingOctets, Splice, SetPayloadType, SetMarkerBit;
    hide Octet0, Octet1, Body;
    packet := new OutgoingRtpPacket(csrcs, [], data, paddinglen, srtpLength);
    ghost var b := packet.buffer[..];
    packet.SetPayloadTypeField(payloadType);
    packet.SetSeqNum(seqNum);
    packet.SetTimestamp(timestamp);
    packet.SetSsrc(ssrc);
    packet.SetMarker(marker);
    ghost var e := packet.buffer[..];
    HeaderWritten(b, e, payloadType, seqNum, timestamp, ssrc, marker);
    CutToTotal(b, e, packet.total, Body(csrcs, [], data, PaddingFor(12 + 4 * |csrcs| + |data|, paddinglen)));
    assert packet.buffer[..packet.total] == e[..packet.total];
  }

  lemma HeaderWritten(b: seq<octet>, e: seq<octet>, payloadType: Bits7, seqNum: uint16,
                      timestamp: uint32, ssrc: uint32, marker: bool)
    requires |b| >= 12 && b[1] == 0
    requires var c := Splice(b[1 := SetPayloadType(b[1], payloadType)], 2, BigEndian16(seqNum));
      var d := Splice(Splice(c, 4, BigEndian32(timestamp)), 8, BigEndian32(ssrc));
      e == d[1 := SetMarkerBit(d[1], marker)]
    ensures |e| == |b| && e[0] == b[0] && e[1] == Octet1(marker, payloadType)
    ensures e[2..4] == BigEndian16(seqNum) && e[4..8] == BigEndian32(timestamp)
    ensures e[8..12] == BigEndian32(ssrc) && e[12..] == b[12..]
  {
    hide Splice, BigEndian16, BigEndian32;
    var a := b[1 := SetPayloadType(b[1], payloadType)];
    var c := Splice(a, 2, BigEndian16(seqNum));
    var c2 := Splice(c, 4, BigEndian32(timestamp));
    var d := Splice(c2, 8, BigEndian32(ssrc));
    Spliced(a, c, 2, BigEndian16(seqNum));
    Spliced(c, c2, 4, BigEndian32(timestamp));
    Spliced(c2, d, 8, BigEndian32(ssrc));
    SameHead(c2, d, 8, 4, 8);
    SameHead(c2, d, 8, 2, 4);
    SameHead(c, c2, 4, 2, 4);
    SameTail(c, c2, 8, 12);
    SameTail(a, c, 4, 12);
    assert d[..8][..2] == c2[..8][..2] && c2[..4][..2] == c[..4][..2];
    assert d[..2] == a[..2] && d[0] == d[..2][0] && d[1] == d[..2][1];
    assert e[2..4] == d[2..4] && e[4..8] == d[4..8] && e[8..12] == d[8..12] && e[12..] == d[12..];
  }

  lemma Spliced(b: seq<octet>, c: seq<octet>, at: nat, src: seq<octet>)
    requires at + |src| <= |b| && c == Splice(b, at, src)
    ensures |c| == |b| && c[at..at + |src|] == src && c[..at] == b[..at] && c[at + |src|..] == b[at + |src|..]
  {
  }

  lemma SameHead(b: seq<octet>, c: seq<octet>, n: nat, i: nat, j: nat)
    requires n <= |b| == |c| && b[..n] == c[..n] && i <= j <= n
    ensures b[i..j] == c[i..j]
  {
    assert b[i..j] == b[..n][i..j] && c[i..j] == c[..n][i..j];
  }

  /** The first octets and the body of a buffer, seen in its part before the SRTP area. */
  lemma CutToTotal(b: seq<octet>, e: seq<octet>, total: nat, body: seq<octet>)
    requires |b| == |e| && 12 <= total <= |b| && b[12..] == e[12..] && b[12..total] == body
    ensures var t := e[..total];
      && t[0] == e[0] && t[1] == e[1] && t[2..4] == e[2..4] && t[4..8] == e[4..8] && t[8..12] == e[8..12]
      && t[12..] == body
  {
    SubSlice(b, 12, |b|, 0, total - 12);
    SubSlice(e, 12, |e|, 0, total - 12);
    assert b[12..|b|] == b[12..] && e[12..|e|] == e[12..];
    assert e[..total][12..] == e[12..total];
  }

  /** Copying right behind a known stretch extends it. */
  lemma Appended(b: seq<octet>, c: seq<octet>, lo: nat, at: nat, src: seq<octet>)
    requires lo <= at && at + |src| <= |b| && c == Splice(b, at, src)
    ensures c[lo..at + |src|] == b[lo..at] + src && |c| == |b|
    ensures c[..lo] == b[..lo] && c[at + |src|..] == b[at + |src|..]
  {
  }

  /** Three parts written one behind the other in front of a part that was there. */
  lemma ContentsWritten(b: seq<octet>, c: seq<octet>, d: seq<octet>, e: seq<octet>, f: seq<octet>, at: nat,
                        list: seq<octet>, hdrext: seq<octet>, data: seq<octet>, padding: seq<octet>, total: nat)
    requires 12 <= at && at + |hdrext| + |data| + |padding| == total <= |b| == |c|
    requires b[total - |padding|..total] == padding
    requires c[12..at] == list && c[at..] == b[at..]
    requires d == Splice(c, at, hdrext) && |e| == |d| && e[1..] == d[1..]
    requires f == Splice(e, at + |hdrext|, data)
    ensures f[0] == e[0] && f[1] == c[1]
    ensures f[12..total] == list + hdrext + data + padding
  {
    hide Splice;
    var end := total - |padding|;
    Appended(c, d, 12, at, hdrext);
    SameTail(b, c, at, end);
    SameTail(c, d, at + |hdrext|, end);
    FirstApart(d, e, at + |hdrext|, end);
    Appended(e, f, 12, at + |hdrext|, data);
    CutTail(b, f, end, total);
    assert f[12..total] == f[12..end] + f[end..total];
  }

  /** Two strings that may differ in the first octet. */
  lemma FirstApart(d: seq<octet>, e: seq<octet>, i: nat, j: nat)
    requires |d| == |e| && 12 <= i <= j <= |d| && d[1..] == e[1..]
    ensures d[1] == e[1] && d[12..i] == e[12..i] && d[j..] == e[j..]
  {
    forall k | 1 <= k < |d| ensures d[k] == e[k] {
      assert d[k] == d[1..][k - 1] && e[k] == e[1..][k - 1];
    }
  }

  lemma CutTail(b: seq<octet>, f: seq<octet>, i: nat, j: nat)
    requires |b| == |f| && i <= j <= |b| && b[i..] == f[i..]
    ensures b[i..j] == f[i..j]
  {
    assert b[i..j] == b[i..][..j - i] && f[i..j] == f[i..][..j - i];
  }

  lemma SameTail(b: seq<octet>, c: seq<octet>, i: nat, j: nat)
    requires |b| == |c| && i <= j <= |b| && b[i..] == c[i..]
    ensures b[j..] == c[j..]
  {
    assert b[j..] == b[i..][j - i..] && c[j..] == c[i..][j - i..];
  }

  // ---- Incoming packets ----

  /** What unprotect does to a received packet and its context. */
  datatype Unprotected = Unprotected(code: int, octets: seq<octet>, receiver: Receiver)

  function Unprotect(b: seq<octet>, hdrSize: nat, e: Encryption, a: Authentication, ssrc: uint32,
                     seqNum: uint16, r: Receiver, undefinedBit: bool, undefinedWord: Word64): (u: Unprotected)
    requires hdrSize + TagSize(a) <= |b| && |b| - hdrSize < MAX_LENGTH
    ensures |u.octets| == |b|
  {
    var policy := !(a.NullAuthentication? && e.NullEncryption?);
    var checked := if policy then AfterGuess(r, seqNum) else r;
    if policy && !Fresh(r, seqNum, undefinedBit) then
      Unprotected(-2, b, checked)
    else
      var index := GuessIndex(checked, seqNum);
      var guessed := AfterGuess(checked, seqNum);
      var total := |b| - TagSize(a);
      if b[total..] != Tag(a, b[..total], index / TWO16) then
        Unprotected(-1, b, guessed)
      else
        Unprotected(1, b[..hdrSize] + Crypt(e, ssrc, index, b[hdrSize..total]) + b[total..],
                    Updated(guessed, seqNum, undefinedWord))
  }

  /** The three outcomes, the last one as a change of the payload in place. */
  lemma UnprotectCases(b: seq<octet>, hdrSize: nat, e: Encryption, a: Authentication, ssrc: uint32,
                       seqNum: uint16, r: Receiver, undefinedBit: bool, undefinedWord: Word64)
    requires hdrSize + TagSize(a) <= |b| && |b| - hdrSize < MAX_LENGTH
    ensures var u := Unprotect(b, hdrSize, e, a, ssrc, seqNum, r, undefinedBit, undefinedWord);
      var policy := !(a.NullAuthentication? && e.NullEncryption?);
      var checked := if policy then AfterGuess(r, seqNum) else r;
      var index, guessed, total := GuessIndex(checked, seqNum), AfterGuess(checked, seqNum), |b| - TagSize(a);
      if policy && !Fresh(r, seqNum, undefinedBit) then u == Unprotected(-2, b, checked)
      else if b[total..] != Tag(a, b[..total], index / TWO16) then u == Unprotected(-1, b, guessed)
      else u == Unprotected(1, Splice(b, hdrSize, Crypt(e, ssrc, index, b[hdrSize..total])),
                            Updated(guessed, seqNum, undefinedWord))
  {
    hide Crypt, Tag, AfterGuess, Updated, Fresh, GuessIndex, TagSize;
  }

  class IncomingRtpPacket {
    const buffer: array<octet>
    var total: nat
    var payloadSize: uint32
    const hdrSize: nat
    const headerValid: bool
    const cachedTimestamp: uint32
    const cachedSeqNum: uint16
    const cachedSsrc: uint32

    /** The cached fields of an invalid packet are left as they are. */
    constructor (block: array<octet>)
      requires Readable(block[..])
      ensures buffer == block && total == block.Length
      ensures hdrSize == HeaderSize(block[..]) && payloadSize == PayloadSize(block[..])
      ensures headerValid == HeaderValid(block[..])
      ensures headerValid ==> cachedSeqNum == Read16(block[..], 2)
      ensures headerValid ==> cachedTimestamp == Read32(block[..], 4) && cachedSsrc == Read32(block[..], 8)
    {
      buffer := block;
      total := block.Length;
      var size := FIXED_HEADER + 4 * CcOf(block[0]);
      if ExtensionBit(block[0]) {
        size := size + 4 + 4 * Read16(block[..], size + 2);
      }
      var len := block.Length;
      if PaddingBit(block[0]) {
        len := len - block[block.Length - 1];
      }
      hdrSize := size;
      payloadSize := (len - size) % TWO32;
      if VersionOf(block[0]) != VERSION || PayloadTypeOf(block[1]) / 2 * 2 == 0x48 {
        headerValid := false;
        cachedTimestamp, cachedSeqNum, cachedSsrc := *, *, *;
      } else {
        headerValid := true;
        cachedTimestamp := Read32(block[..], 4);
        cachedSeqNum := Read16(block[..], 2);
        cachedSsrc := Read32(block[..], 8);
      }
    }

    /** The padding bit that was cleared on arrival is set again, and the payload size corrected for it. */
    method ReComputePayLength(padding: bool)
      requires padding ==> 0 < payloadSize <= buffer.Length
      modifies this`payloadSize, buffer
      ensures buffer[..] == if padding then old(buffer[..])[0 := SetPaddingBit(old(buffer[0]), true)] else old(buffer[..])
      ensures payloadSize == if padding then Recomputed(buffer[..], old(payloadSize)) else old(payloadSize)
    {
      if padding {
        buffer[0] := SetPaddingBit(buffer[0], true);
        var len := -(buffer[payloadSize - 1] as int);
        payloadSize := (payloadSize - len) % TWO32;
      }
    }

    /** Returns 1, or -2 for a replay, or -1 for a tag that does not match. */
    method UnprotectWith(pcc: CryptoContext?, undefinedBit: bool, undefinedWord: Word64) returns (code: int)
      requires total == buffer.Length && FIXED_HEADER <= hdrSize <= total
      requires payloadSize == total - hdrSize
      requires !PaddingBit(buffer[0])
      requires pcc != null ==> TagSize(pcc.authentication) <= payloadSize < MAX_LENGTH
      modifies this, buffer, pcc
      ensures pcc == null ==> code == 1 && buffer[..] == old(buffer[..]) && total == old(total)
      ensures pcc != null ==>
        Unprotected(code, buffer[..], pcc.State())
        == Unprotect(old(buffer[..]), hdrSize, pcc.encryption, pcc.authentication, cachedSsrc,
                     cachedSeqNum, old(pcc.State()), undefinedBit, undefinedWord)
      ensures pcc != null ==> total == old(total) - TagSize(pcc.authentication)
      ensures pcc != null ==> payloadSize == total - hdrSize
    {
      hide Crypt, Tag, AfterGuess, Updated, Fresh, ReplayProtection.GuessIndex, PaddingBit, TagSize, Unprotect, Splice;
      if pcc == null {
        return 1;
      }
      UnprotectCases(buffer[..], hdrSize, pcc.encryption, pcc.authentication, cachedSsrc, cachedSeqNum, pcc.State(),
                     undefinedBit, undefinedWord);
      var tagLength := TagSize(pcc.authentication);
      total := total - tagLength;
      payloadSize := payloadSize - tagLength;
      var ok := pcc.CheckReplay(cachedSeqNum, undefinedBit);
      if !ok {
        return -2;
      }
      var guessedIndex := pcc.GuessIndex(cachedSeqNum);
      ok := TagMatches(pcc, guessedIndex / TWO16);
      if !ok {
        return -1;
      }
      pcc.SrtpEncrypt(buffer, hdrSize, payloadSize, guessedIndex, cachedSsrc);
      pcc.Update(cachedSeqNum, undefinedWord);
      return 1;
    }

    /** The octets from srtpDataIndex on, against the tag of all octets before them. */
    method TagMatches(pcc: CryptoContext, guessedRoc: uint32) returns (ok: bool)
      requires total + TagSize(pcc.authentication) == buffer.Length
      ensures ok <==> buffer[total..] == Tag(pcc.authentication, buffer[..total], guessedRoc)
    {
      var mac := new octet[TagSize(pcc.authentication)];
      pcc.SrtpAuthenticate(buffer, total, guessedRoc, mac, 0);
      assert mac[..] == Tag(pcc.authentication, buffer[..total], guessedRoc);
      ok := buffer[total..] == mac[..];
    }
  }
}
