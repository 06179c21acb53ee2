/** Compounds as the queue builds them in its send buffer and checks them in its receive buffer. */
module RtcpPackets {
  import opened Basics
  import opened Octets
  import opened Words
  import opened RtpFormat
  import opened RtcpFormat
  import opened RtcpReports

  function SetBlockCount(b: octet, n: nat): octet { b / 32 * 32 + n % 32 }

  /** The chunk the queue sends: its CNAME and at most one scheduled item, cut to its length octet. */
  function LocalChunk(ssrc: uint32, cname: seq<octet>, next: Option<Item>): Packet {
    Description(ssrc, [Item(CNAME, cname)] + Scheduled(next))
  }

  function Scheduled(next: Option<Item>): seq<Item> {
    if next.Some? && CNAME < next.value.kind <= LAST_ITEM
    then [Item(next.value.kind, next.value.text[..|next.value.text| % 0x100])]
    else []
  }

  /** What the scheduled item adds to a chunk. */
  function ScheduledSize(next: Option<Item>): nat {
    if next.Some? && CNAME < next.value.kind <= LAST_ITEM then 2 + |next.value.text| % 0x100 else 0
  }

  lemma FlagsSet(b: octet)
    ensures SetVersion(SetPaddingBit(b, false), VERSION) / 32 == 4
  {
    var c := SetPaddingBit(b, false);
    assert c == b / 64 * 64 + b % 32;
    assert c % 64 == b % 32;
    assert SetVersion(c, VERSION) == 4 * 32 + b % 32;
  }

  /** A run of reports, and behind it the header that was started last when it was left unfilled. */
  predicate Led(front: seq<octet>, run: seq<octet>, dangling: bool, ssrc: seq<octet>) {
    && |front| == |run| + (if dangling then 8 else 0) && run <= front
    && (dangling ==> front[|run|] / 32 == 4 && front[|run| + 1] == RR && front[|run| + 4..] == ssrc)
  }

  class RtcpQueue {
    const rtcpSendBuffer: array<octet>
    const rtcpRecvBuffer: array<octet>
    const pathMTU: uint16
    const lowerHeadersSize: uint16
    const localSsrc: uint32
    var lastSendPacketCount: uint32
    var rtcpInitial: bool
    var ctrlSendCount: uint32

    ghost predicate Valid()
      reads this
    {
      rtcpSendBuffer != rtcpRecvBuffer && rtcpSendBuffer.Length == pathMTU == rtcpRecvBuffer.Length
    }

    constructor (mtu: uint16, lower: uint16, ssrc: uint32)
      ensures Valid() && pathMTU == mtu && lowerHeadersSize == lower && localSsrc == ssrc
      ensures rtcpInitial && lastSendPacketCount == 0
      ensures fresh(rtcpSendBuffer) && fresh(rtcpRecvBuffer)
    {
      rtcpSendBuffer := new octet[mtu];
      rtcpRecvBuffer := new octet[mtu];
      pathMTU, lowerHeadersSize, localSsrc := mtu, lower, ssrc;
      lastSendPacketCount, rtcpInitial, ctrlSendCount := 0, true, 0;
    }

    /** The header check: the first packet's flags, then the chain of length fields. */
    method CheckCompoundRTCPHeader(len: nat) returns (ok: bool)
      requires Valid() && 4 <= pathMTU && Whole(len) <= pathMTU
      ensures ok <==> FirstOctetsRight(rtcpRecvBuffer[..]) && Walk(rtcpRecvBuffer[..], 0, len)
    {
      hide Whole, LengthAt;
      ghost var b := rtcpRecvBuffer[..];
      if !(VersionOf(rtcpRecvBuffer[0]) == VERSION && !PaddingBit(rtcpRecvBuffer[0])
           && (rtcpRecvBuffer[1] == SR || rtcpRecvBuffer[1] == RR)) {
        return false;
      }
      var pkt := 0;
      var pointer := LengthAt(rtcpRecvBuffer[..], 0);
      while pointer < len && VersionOf(rtcpRecvBuffer[pkt]) == VERSION
        invariant pkt % 4 == 0 && pkt + 4 <= |b| && pointer == pkt + LengthAt(b, pkt)
        invariant Walk(b, 0, len) <==> Walk(b, pkt, len)
        decreases len - pkt
      {
        NextWord(b, pkt, len);
        pkt := pointer;
        pointer := pointer + LengthAt(rtcpRecvBuffer[..], pkt);
      }
      return pointer == len;
    }

    // ---- Building a compound ----

    /** A report's fixed header, its count and length still open. */
    method StartReport(at: nat, kind: octet)
      requires at + 8 <= rtcpSendBuffer.Length
      modifies rtcpSendBuffer
      ensures rtcpSendBuffer[..at] == old(rtcpSendBuffer[..at])
      ensures Opened(at, kind) && rtcpSendBuffer[at + 4..at + 8] == BigEndian32(localSsrc)
    {
      hide BigEndian32, Splice, SetPaddingBit, SetVersion;
      FlagsSet(rtcpSendBuffer[at]);
      rtcpSendBuffer[at] := SetPaddingBit(rtcpSendBuffer[at], false);
      rtcpSendBuffer[at] := SetVersion(rtcpSendBuffer[at], VERSION);
      rtcpSendBuffer[at + 1] := kind;
      CopyInto(rtcpSendBuffer, at + 4, BigEndian32(localSsrc));
    }

    /** Version 2 and no padding, whatever the count bits hold. */
    ghost predicate Opened(at: nat, kind: octet)
      reads rtcpSendBuffer
      requires at + 2 <= rtcpSendBuffer.Length
    {
      rtcpSendBuffer[at] / 32 == 4 && rtcpSendBuffer[at + 1] == kind
    }

    /** A report at `at`, written up to its blocks. */
    ghost predicate Started(at: nat, len: nat, sender: Option<Sender>)
      reads rtcpSendBuffer
    {
      && len == at + Front(sender) <= rtcpSendBuffer.Length
      && Opened(at, if sender.Some? then SR else RR)
      && rtcpSendBuffer[at + 4..len] == BigEndian32(localSsrc) + SenderPart(sender)
    }

    lemma OpenedMeans(at: nat, kind: octet)
      requires at + 2 <= rtcpSendBuffer.Length
      ensures Opened(at, kind) <==> rtcpSendBuffer[at] / 32 == 4 && rtcpSendBuffer[at + 1] == kind
    {
    }

    /** Append octets to the part of the buffer that starts at `lo`. */
    method Append(lo: nat, len: nat, src: seq<octet>)
      requires lo <= len && len + |src| <= rtcpSendBuffer.Length
      modifies rtcpSendBuffer
      ensures rtcpSendBuffer[..lo] == old(rtcpSendBuffer[..lo])
      ensures rtcpSendBuffer[lo..len + |src|] == old(rtcpSendBuffer[lo..len]) + src
      ensures forall k :: 0 <= k < lo ==> rtcpSendBuffer[k] == old(rtcpSendBuffer[k])
    {
      hide Splice;
      ghost var b := rtcpSendBuffer[..];
      CopyInto(rtcpSendBuffer, len, src);
      OneMore(b, rtcpSendBuffer[..], lo, len, src);
      assert rtcpSendBuffer[..lo] == rtcpSendBuffer[..][..lo];
      forall k | 0 <= k < lo ensures rtcpSendBuffer[k] == old(rtcpSendBuffer[k]) {
        assert rtcpSendBuffer[k] == rtcpSendBuffer[..lo][k];
      }
      assert rtcpSendBuffer[lo..len + |src|] == rtcpSendBuffer[..][lo..len + |src|];
      assert old(rtcpSendBuffer[lo..len]) == b[lo..len];
    }

    /** As many blocks as fit, each for one source from the first on. */
    method PackReportBlocks(blocks: nat, sources: seq<Report>, available: uint16) returns (len: nat, j: nat)
      requires blocks + BLOCK * Blocks(|sources|, blocks, available, 0) <= rtcpSendBuffer.Length
      modifies rtcpSendBuffer
      ensures j == Blocks(|sources|, blocks, available, 0) <= |sources|
      ensures len == blocks + BLOCK * j <= rtcpSendBuffer.Length
      ensures rtcpSendBuffer[..blocks] == old(rtcpSendBuffer[..blocks])
      ensures rtcpSendBuffer[blocks..len] == ReportsOctets(sources[..j])
    {
      hide ReportOctets, ReportsOctets, Blocks, Below;
      len, j := blocks, 0;
      assert sources[..0] == [];
      EmptyReports();
      while j < |sources| && Below(len, available, BLOCK) && j < MAX_BLOCKS
        invariant j <= |sources| && j <= MAX_BLOCKS && len == blocks + BLOCK * j <= rtcpSendBuffer.Length
        invariant Blocks(|sources|, len, available, j) == Blocks(|sources|, blocks, available, 0)
        invariant rtcpSendBuffer[..blocks] == old(rtcpSendBuffer[..blocks])
        invariant rtcpSendBuffer[blocks..len] == ReportsOctets(sources[..j])
        decreases MAX_BLOCKS - j
      {
        BlocksUnfold(|sources|, len, available, j);
        Append(blocks, len, ReportOctets(sources[j]));
        ReportsOne(sources[..j], sources[j]);
        assert sources[..j + 1] == sources[..j] + [sources[j]];
        len := len + BLOCK;
        j := j + 1;
      }
      BlocksUnfold(|sources|, len, available, j);
    }

    /** Fill in the count and the length of the packet between `at` and `len`. */
    method ClosePacket(at: nat, len: nat, ghost kind: octet, count: nat)
      requires at + 4 <= len <= rtcpSendBuffer.Length && (len - at) % 4 == 0 && len - at <= 4 * TWO16
      requires Opened(at, kind)
      modifies rtcpSendBuffer
      ensures rtcpSendBuffer[..at] == old(rtcpSendBuffer[..at])
      ensures rtcpSendBuffer[at..len] == HeaderOctets(kind, count, len - at - 4) + old(rtcpSendBuffer[at + 4..len])
    {
      hide Splice, BigEndian16;
      ghost var b := rtcpSendBuffer[..];
      rtcpSendBuffer[at] := SetBlockCount(rtcpSendBuffer[at], count);
      assert rtcpSendBuffer[at + 4..] == b[at + 4..];
      CopyInto(rtcpSendBuffer, at + 2, BigEndian16((len - at) / 4 - 1));
      Closed(b, rtcpSendBuffer[..], at, len, BigEndian16((len - at) / 4 - 1));
      assert rtcpSendBuffer[at..len] == rtcpSendBuffer[..][at..len];
    }

    /** A kind octet, a length octet and the text. */
    method PackItem(lo: nat, len: nat, kind: octet, text: seq<octet>) returns (end: nat)
      requires lo <= len && len + 2 + |text| <= rtcpSendBuffer.Length
      modifies rtcpSendBuffer
      ensures end == len + 2 + |text|
      ensures rtcpSendBuffer[..lo] == old(rtcpSendBuffer[..lo])
      ensures rtcpSendBuffer[lo..end] == old(rtcpSendBuffer[lo..len]) + ItemOctets(Item(kind, text))
      ensures forall k :: 0 <= k < lo ==> rtcpSendBuffer[k] == old(rtcpSendBuffer[k])
    {
      ghost var b := rtcpSendBuffer[lo..len];
      Append(lo, len, [kind, |text| % 0x100]);
      Append(lo, len + 2, text);
      end := len + 2 + |text|;
      assert b + [kind, |text| % 0x100] + text == b + ItemOctets(Item(kind, text));
    }

    /** END, then zeros up to a word boundary. */
    method PackEnd(lo: nat, len: nat) returns (end: nat)
      requires lo <= len && len + |EndOctets(len)| <= rtcpSendBuffer.Length
      modifies rtcpSendBuffer
      ensures end == len + |EndOctets(len)|
      ensures rtcpSendBuffer[..lo] == old(rtcpSendBuffer[..lo])
      ensures rtcpSendBuffer[lo..end] == old(rtcpSendBuffer[lo..len]) + EndOctets(len)
      ensures forall k :: 0 <= k < lo ==> rtcpSendBuffer[k] == old(rtcpSendBuffer[k])
    {
      ghost var b := rtcpSendBuffer[lo..len];
      Append(lo, len, [0]);
      end := len + 1;
      var padding := end % 4;
      if padding != 0 {
        padding := 4 - padding;
        Append(lo, end, seq(padding, _ => 0));
        end := end + padding;
      }
      assert [0] + seq(padding, _ => 0) == EndOctets(len);
      assert b + [0] + seq(padding, _ => 0) == b + EndOctets(len);
    }

    /** The items behind the identifier, and the end of the chunk. */
    method PackChunk(lo: nat, cname: seq<octet>, next: Option<Item>) returns (len: nat)
      requires lo % 4 == 0 && lo + |BodyOf(LocalChunk(localSsrc, cname, next))| <= rtcpSendBuffer.Length
      requires lo + 4 <= rtcpSendBuffer.Length && rtcpSendBuffer[lo..lo + 4] == BigEndian32(localSsrc)
      modifies rtcpSendBuffer
      ensures len == lo + |BodyOf(LocalChunk(localSsrc, cname, next))|
      ensures rtcpSendBuffer[..lo] == old(rtcpSendBuffer[..lo])
      ensures rtcpSendBuffer[lo..len] == BodyOf(LocalChunk(localSsrc, cname, next))
      ensures forall k :: 0 <= k < lo ==> rtcpSendBuffer[k] == old(rtcpSendBuffer[k])
    {
      hide BigEndian32, EndOctets, ItemOctets, BodyOf, LocalChunk;
      ChunkParts(localSsrc, cname, next);
      len := PackItem(lo, lo + 4, CNAME, cname);
      if next.Some? && CNAME < next.value.kind <= LAST_ITEM {
        len := PackItem(lo, len, next.value.kind, next.value.text[..|next.value.text| % 0x100]);
      }
      EndSame(len, lo);
      len := PackEnd(lo, len);
    }

    /** The chunk of the local source: CNAME, at most one more item, END and padding. */
    method PackSDES(at: nat, cname: seq<octet>, next: Option<Item>) returns (len: nat)
      requires at % 4 == 0 && rtcpSendBuffer.Length < TWO16
      requires at + |PacketOctets(LocalChunk(localSsrc, cname, next))| <= rtcpSendBuffer.Length
      modifies rtcpSendBuffer
      ensures len == at + |PacketOctets(LocalChunk(localSsrc, cname, next))|
      ensures rtcpSendBuffer[..len] == old(rtcpSendBuffer[..at]) + PacketOctets(LocalChunk(localSsrc, cname, next))
    {
      hide *;
      ChunkPacket(localSsrc, cname, next);
      StartReport(at, SDES);
      ghost var b := rtcpSendBuffer[..at];
      OpenedMeans(at, SDES);
      len := PackChunk(at + 4, cname, next);
      assert rtcpSendBuffer[..at] == b;
      OpenedMeans(at, SDES);
      ClosePacket(at, len, SDES, 1);
      Joined(rtcpSendBuffer[..], at, len);
    }

    /** Blocks, count and length of the report packet opened at `at`. */
    method FillReport(at: nat, len: nat, ghost sender: Option<Sender>, sources: seq<Report>, available: uint16)
      returns (end: nat, blocks: nat)
      requires rtcpSendBuffer.Length < TWO16 && Started(at, len, sender)
      requires at + |PacketOctets(FirstOf(localSsrc, sender, sources, at, available))| <= rtcpSendBuffer.Length
      modifies rtcpSendBuffer
      ensures var p := FirstOf(localSsrc, sender, sources, at, available);
        && p.Reports? && blocks == |p.blocks| && end == at + |PacketOctets(p)| <= rtcpSendBuffer.Length
        && rtcpSendBuffer[at..end] == PacketOctets(p)
      ensures rtcpSendBuffer[..at] == old(rtcpSendBuffer[..at])
    {
      hide BigEndian32, SenderPart, ReportsOctets, Blocks, HeaderOctets, PacketOctets;
      ghost var b := rtcpSendBuffer[..len];
      FirstFits(localSsrc, sender, sources, at, available);
      ReportOctetsOf(FirstOf(localSsrc, sender, sources, at, available));
      end, blocks := PackReportBlocks(len, sources, available);
      ReportParts(b, rtcpSendBuffer[..end], at, len, BigEndian32(localSsrc) + SenderPart(sender),
                  ReportsOctets(sources[..blocks]));
      ClosePacket(at, end, if sender.Some? then SR else RR, blocks);
    }

    /** One report packet, and the header of the next when it was full and there is room. */
    method PackOne(at: nat, len: nat, ghost sender: Option<Sender>, sources: seq<Report>, available: uint16)
      returns (end: nat, another: bool)
      requires rtcpSendBuffer.Length < TWO16 && Started(at, len, sender)
      requires var p := FirstOf(localSsrc, sender, sources, at, available);
        var next := at + |PacketOctets(p)|;
        p.Reports? && next + (if Another(|p.blocks|, next, available) then 8 else 0) <= rtcpSendBuffer.Length
      modifies rtcpSendBuffer
      ensures var p := FirstOf(localSsrc, sender, sources, at, available);
        && p.Reports? && end == at + |PacketOctets(p)| <= rtcpSendBuffer.Length
        && another == Another(|p.blocks|, end, available)
        && rtcpSendBuffer[..end] == old(rtcpSendBuffer[..at]) + PacketOctets(p)
      ensures another ==> Started(end, end + 8, None)
    {
      hide *;
      var blocks;
      end, blocks := FillReport(at, len, sender, sources, available);
      Joined(rtcpSendBuffer[..], at, end);
      another := Another(blocks, end, available);
      if another {
        StartReport(end, RR);
        StartedBare(end);
      }
    }

    lemma StartedBare(at: nat)
      requires at + 8 <= rtcpSendBuffer.Length && Opened(at, RR)
      ensures Started(at, at + 8, None) <==> rtcpSendBuffer[at + 4..at + 8] == BigEndian32(localSsrc)
    {
      hide Opened, BigEndian32;
      assert BigEndian32(localSsrc) + [] == BigEndian32(localSsrc);
    }

    /**
     All report packets: a new one is started while the last was full and there is room.
     With room for less than a block the last one started is not filled.
     */
    method PackReports(sender: Option<Sender>, sources: seq<Report>, available: uint16) returns (len: nat, dangling: bool)
      requires |Compound(ReportRun(localSsrc, sender, sources, 0, available))|
        + (if Dangling(|sources|, available) then 8 else 0) <= rtcpSendBuffer.Length < TWO16
      modifies rtcpSendBuffer
      ensures dangling <==> Dangling(|sources|, available)
      ensures len <= rtcpSendBuffer.Length
      ensures Led(rtcpSendBuffer[..len], Compound(ReportRun(localSsrc, sender, sources, 0, available)), dangling,
                  BigEndian32(localSsrc))
    {
      hide *;
      ghost var all := ReportRun(localSsrc, sender, sources, 0, available);
      var at: nat := 0;
      FirstRoom(localSsrc, sender, sources, 0, available);
      StartFirst(sender);
      len := if sender.Some? then 28 else 8;
      var more, another := true, true;
      ghost var now := sender;
      ghost var done: seq<Packet> := [];
      CompoundFirst([Reports(0, None, [])]);
      while more
        invariant at <= rtcpSendBuffer.Length && rtcpSendBuffer[..at] == Compound(done)
        invariant more ==>
          && Started(at, len, now)
          && done + ReportRun(localSsrc, now, sources, at, available) == all
          && at + |Compound(ReportRun(localSsrc, now, sources, at, available))|
             + (if Dangling(|sources|, available) then 8 else 0) <= rtcpSendBuffer.Length
        invariant more ==> at <= available
        invariant !more ==> done == all && (another <==> Dangling(|sources|, available))
        invariant !more ==> len == at + (if another then 8 else 0)
        invariant !more && another ==> Started(at, len, None)
        decreases more, available - at
      {
        ghost var p := FirstOf(localSsrc, now, sources, at, available);
        FirstFits(localSsrc, now, sources, at, available);
        FirstRoom(localSsrc, now, sources, at, available);
        RunUnfolds(localSsrc, now, sources, at, available);
        AnotherFits(localSsrc, now, sources, at, available);
        FirstRoom(localSsrc, None, sources, at + |PacketOctets(p)|, available);
        at, another := PackOne(at, len, now, sources, available);
        CompoundOne(done, p);
        done := done + [p];
        len := if another then at + 8 else at;
        more := another && len < available;
        now := None;
      }
      dangling := another;
      LedBy(at, len, dangling);
    }

    lemma LedBy(at: nat, len: nat, dangling: bool)
      requires len == at + (if dangling then 8 else 0) && at <= rtcpSendBuffer.Length
      requires dangling ==> Started(at, len, None)
      ensures len <= rtcpSendBuffer.Length
      ensures Led(rtcpSendBuffer[..len], rtcpSendBuffer[..at], dangling, BigEndian32(localSsrc))
    {
      hide BigEndian32;
      assert BigEndian32(localSsrc) + [] == BigEndian32(localSsrc);
    }

    /** The first report's header, and the sender info when packets were sent. */
    method StartFirst(sender: Option<Sender>)
      requires Front(sender) <= rtcpSendBuffer.Length
      modifies rtcpSendBuffer
      ensures Started(0, if sender.Some? then 28 else 8, sender)
    {
      hide BigEndian32, SenderOctets;
      FrontSize(sender);
      StartReport(0, if sender.Some? then SR else RR);
      if sender.Some? {
        Append(4, 8, SenderOctets(sender.value));
      } else {
        StartedBare(0);
      }
    }

    /**
     One compound: a sender report if packets went out since the last one, else a receiver
     report; more receiver reports while there is room; the description of the source.
     */
    method DispatchControlPacket(now: Sender, sources: seq<Report>, cname: seq<octet>, next: Option<Item>)
      returns (sent: seq<octet>)
      requires Valid()
      requires BuiltLength(localSsrc, SenderIn(lastSendPacketCount, now), sources,
                           Room(pathMTU, lowerHeadersSize, SenderIn(lastSendPacketCount, now), cname), cname, next) <= pathMTU
      modifies this`rtcpInitial, this`lastSendPacketCount, this`ctrlSendCount, rtcpSendBuffer
      ensures sent <= rtcpSendBuffer[..]
      ensures var sender := SenderIn(old(lastSendPacketCount), now);
        var available := Room(pathMTU, lowerHeadersSize, sender, cname);
        var run := Compound(ReportRun(localSsrc, sender, sources, 0, available));
        var chunk := PacketOctets(LocalChunk(localSsrc, cname, next));
        && |sent| == BuiltLength(localSsrc, sender, sources, available, cname, next)
        && sent[|sent| - |chunk|..] == chunk
        && Led(sent[..|sent| - |chunk|], run, Dangling(|sources|, available), BigEndian32(localSsrc))
        && (!Dangling(|sources|, available) ==>
              sent == Compound(Built(localSsrc, sender, sources, available, cname, next)))
      ensures !rtcpInitial && lastSendPacketCount == now.packets
      ensures ctrlSendCount == (old(ctrlSendCount) + 1) % TWO32
    {
      hide Front, ReportRun, Compound, LocalChunk, PacketOctets, Dangling, Spare, BigEndian32, Built, Led;
      rtcpInitial := false;
      var sender := None;
      if lastSendPacketCount != now.packets {
        lastSendPacketCount := now.packets;
        sender := Some(now);
      }
      var available := Room(pathMTU, lowerHeadersSize, sender, cname);
      BuiltParts(localSsrc, sender, sources, available, cname, next);
      ghost var run := Compound(ReportRun(localSsrc, sender, sources, 0, available));
      var len, dangling := PackReports(sender, sources, available);
      ghost var front := rtcpSendBuffer[..len];
      LedSize(front, run, dangling, BigEndian32(localSsrc));
      len := PackSDES(len, cname, next);
      sent := rtcpSendBuffer[..len];
      Together(sent, front, PacketOctets(LocalChunk(localSsrc, cname, next)));
      ctrlSendCount := (ctrlSendCount + 1) % TWO32;
    }
  }

  lemma LedSize(front: seq<octet>, run: seq<octet>, dangling: bool, ssrc: seq<octet>)
    requires Led(front, run, dangling, ssrc)
    ensures |front| == |run| + (if dangling then 8 else 0) && (!dangling ==> front == run)
  {
  }

  lemma Together(sent: seq<octet>, front: seq<octet>, chunk: seq<octet>)
    requires sent == front + chunk
    ensures |sent| == |front| + |chunk| && sent[|sent| - |chunk|..] == chunk && sent[..|sent| - |chunk|] == front
  {
  }

  /** The sender info goes out when the packet count has moved since the last compound. */
  function SenderIn(last: uint32, now: Sender): Option<Sender> {
    if last != now.packets then Some(now) else None
  }

  /** Octets that reports may fill: the MTU less headers, the CNAME item and a reserve of 100. */
  function Spare(mtu: uint16, lower: uint16, sender: Option<Sender>, cname: seq<octet>): (n: int)
    ensures n < TWO16
  {
    mtu - lower - (if sender.Some? then 28 else 8) - (4 + 2 + |cname|) - 100
  }

  const DEFAULT_MTU: uint16 := 1500

  /** With the default MTU and a CNAME its length octet can describe, there is room over IPv4 and IPv6. */
  lemma DefaultHasRoom(lower: uint16, sender: Option<Sender>, cname: seq<octet>)
    requires lower <= 48 && |cname| <= 0xff
    ensures BLOCK <= Spare(DEFAULT_MTU, lower, sender, cname)
  {
  }

  /** The same as the code keeps it, in 16 bits. */
  function Room(mtu: uint16, lower: uint16, sender: Option<Sender>, cname: seq<octet>): uint16 {
    Spare(mtu, lower, sender, cname) % TWO16
  }

  function Built(ssrc: uint32, sender: Option<Sender>, sources: seq<Report>, available: uint16,
                 cname: seq<octet>, next: Option<Item>): seq<Packet>
  {
    ReportRun(ssrc, sender, sources, 0, available) + [LocalChunk(ssrc, cname, next)]
  }

  /** What a compound takes in the send buffer, with the header that may be left unfilled. */
  function BuiltLength(ssrc: uint32, sender: Option<Sender>, sources: seq<Report>, available: uint16,
                       cname: seq<octet>, next: Option<Item>): nat
  {
    |Compound(ReportRun(ssrc, sender, sources, 0, available))| + (if Dangling(|sources|, available) then 8 else 0)
    + |PacketOctets(LocalChunk(ssrc, cname, next))|
  }

  /** The description as a packet. */
  lemma ChunkPacket(ssrc: uint32, cname: seq<octet>, next: Option<Item>)
    ensures var p := LocalChunk(ssrc, cname, next);
      && PacketOctets(p) == HeaderOctets(SDES, 1, |BodyOf(p)|) + BodyOf(p)
      && |PacketOctets(p)| == 4 + |BodyOf(p)| && |BodyOf(p)| % 4 == 0 && |BodyOf(p)| >= 4
  {
    hide BodyOf, HeaderOctets;
    WholeWords(LocalChunk(ssrc, cname, next));
    ChunkParts(ssrc, cname, next);
  }

  lemma ChunkSize(ssrc: uint32, cname: seq<octet>, next: Option<Item>)
    ensures |PacketOctets(LocalChunk(ssrc, cname, next))| <= 14 + |cname| + ScheduledSize(next)
  {
    hide EndOctets, LocalChunk, BodyOf, ChunkFront;
    ChunkParts(ssrc, cname, next);
  }

  lemma BuiltParts(ssrc: uint32, sender: Option<Sender>, sources: seq<Report>, available: uint16,
                   cname: seq<octet>, next: Option<Item>)
    ensures var run := ReportRun(ssrc, sender, sources, 0, available);
      && |Compound(run)| % 4 == 0
      && Compound(Built(ssrc, sender, sources, available, cname, next))
         == Compound(run) + PacketOctets(LocalChunk(ssrc, cname, next))
  {
    hide ReportRun, Compound, PacketOctets, LocalChunk;
    var run := ReportRun(ssrc, sender, sources, 0, available);
    WholeCompound(run);
    CompoundOne(run, LocalChunk(ssrc, cname, next));
  }

  /**
   With room for a block no header is left unfilled, and the reserve is enough for the rest
   of the chunk: the compound stays within the MTU.
   */
  lemma BuiltSize(mtu: uint16, lower: uint16, ssrc: uint32, sender: Option<Sender>, sources: seq<Report>,
                  cname: seq<octet>, next: Option<Item>)
    requires Spare(mtu, lower, sender, cname) >= BLOCK
    ensures var available := Room(mtu, lower, sender, cname);
      && !Dangling(|sources|, available)
      && var n := BuiltLength(ssrc, sender, sources, available, cname, next);
      && n == |Compound(Built(ssrc, sender, sources, available, cname, next))|
      && n + lower <= mtu + Max(0, ScheduledSize(next) - 101)
  {
    hide ReportRun, Compound, PacketOctets, LocalChunk, Front, FirstOf, ScheduledSize, Built, Blocks, SenderPart;
    var available := Room(mtu, lower, sender, cname);
    BuiltParts(ssrc, sender, sources, available, cname, next);
    RunShape(ssrc, sender, sources, 0, available);
    ChunkSize(ssrc, cname, next);
    FrontSize(sender);
  }

  lemma {:induction false} WholeCompound(ps: seq<Packet>)
    ensures |Compound(ps)| % 4 == 0
  {
    hide PacketOctets, BodyOf;
    if ps != [] {
      WholeCompound(ps[1..]);
      WholePacket(ps[0]);
    }
  }

  lemma WholePacket(p: Packet)
    ensures |PacketOctets(p)| % 4 == 0
  {
    hide BodyOf, HeaderOctets, PacketOctets;
    WholeWords(p);
    assert |PacketOctets(p)| == 4 + |BodyOf(p)|;
  }

  lemma Joined(b: seq<octet>, at: nat, len: nat)
    requires at <= len <= |b|
    ensures b[..len] == b[..at] + b[at..len]
  {
  }

  lemma ReportParts(b: seq<octet>, c: seq<octet>, at: nat, len: nat, front: seq<octet>, blocks: seq<octet>)
    requires at + 4 <= len == |b| <= |c| && c[..len] == b && b[at + 4..len] == front && c[len..] == blocks
    ensures c[at] == b[at] && c[at + 1] == b[at + 1] && c[..at] == b[..at]
    ensures c[at + 4..] == front + blocks
  {
    assert c == b + blocks;
    assert c[at] == (b + blocks)[at];
  }

  /** A report packet written out. */
  lemma ReportOctetsOf(p: Packet)
    requires p.Reports?
    ensures PacketOctets(p) == HeaderOctets(if p.sender.Some? then SR else RR, |p.blocks|, |PacketOctets(p)| - 4)
                               + (BigEndian32(p.ssrc) + SenderPart(p.sender) + ReportsOctets(p.blocks))
  {
    hide BigEndian32, SenderPart, ReportsOctets, HeaderOctets;
  }

  /** The first packet of a run is part of its size. */
  lemma FirstRoom(ssrc: uint32, sender: Option<Sender>, sources: seq<Report>, at: nat, available: uint16)
    ensures var p := FirstOf(ssrc, sender, sources, at, available);
      var next := at + |PacketOctets(p)|;
      && 8 <= Front(sender) <= |PacketOctets(p)|
      && |Compound(ReportRun(ssrc, sender, sources, at, available))|
         == |PacketOctets(p)|
            + (if Continues(|p.blocks|, next, available)
               then |Compound(ReportRun(ssrc, None, sources, next, available))| else 0)
  {
    hide PacketOctets, ReportRun, Continues, FirstOf, Front, Compound;
    var p := FirstOf(ssrc, sender, sources, at, available);
    var next := at + |PacketOctets(p)|;
    FirstFits(ssrc, sender, sources, at, available);
    RunUnfolds(ssrc, sender, sources, at, available);
    var rest := if Continues(|p.blocks|, next, available) then ReportRun(ssrc, None, sources, next, available) else [];
    CompoundFirst([p] + rest);
    assert ([p] + rest)[1..] == rest;
  }

  lemma AnotherFits(ssrc: uint32, sender: Option<Sender>, sources: seq<Report>, at: nat, available: uint16)
    requires at < TWO16
    ensures var p := FirstOf(ssrc, sender, sources, at, available);
      var next := at + |PacketOctets(p)|;
      && (Another(|p.blocks|, next, available) && next + 8 < available <==> Continues(|p.blocks|, next, available))
      && (Another(|p.blocks|, next, available) && !Continues(|p.blocks|, next, available) <==> Dangling(|sources|, available))
  {
    hide PacketOctets, Blocks, Dangling;
    FirstFits(ssrc, sender, sources, at, available);
    FrontSize(sender);
    DanglingExactly(sender, sources, at, available);
  }

  lemma EndSame(len: nat, lo: nat)
    requires lo % 4 == 0 && lo <= len
    ensures EndOctets(len) == EndOctets(len - lo)
  {
    assert len == lo / 4 * 4 + (len - lo);
    ModShift(lo / 4, len - lo, 4);
  }

  /** The chunk in front of its END octets. */
  function ChunkFront(ssrc: uint32, cname: seq<octet>, next: Option<Item>): (s: seq<octet>)
    ensures |s| == 6 + |cname| + ScheduledSize(next)
  {
    var front := BigEndian32(ssrc) + ItemOctets(Item(CNAME, cname));
    if next.Some? && CNAME < next.value.kind <= LAST_ITEM
    then front + ItemOctets(Item(next.value.kind, next.value.text[..|next.value.text| % 0x100]))
    else front
  }

  lemma ChunkParts(ssrc: uint32, cname: seq<octet>, next: Option<Item>)
    ensures var front := ChunkFront(ssrc, cname, next);
      BodyOf(LocalChunk(ssrc, cname, next)) == front + EndOctets(|front|)
  {
    hide BigEndian32, EndOctets, ItemOctets;
    var first := Item(CNAME, cname);
    var more := Scheduled(next);
    assert ([first] + more)[1..] == more;
    assert ItemsOctets([first] + more) == ItemOctets(first) + ItemsOctets(more);
    assert ItemsOctets([]) == [];
    if more == [] {
      assert BigEndian32(ssrc) + ItemsOctets([first] + more) == ChunkFront(ssrc, cname, next);
    } else {
      assert more[1..] == [] && ItemsOctets(more) == ItemOctets(more[0]) + [];
      assert BigEndian32(ssrc) + ItemsOctets([first] + more) == ChunkFront(ssrc, cname, next);
    }
  }

  lemma Closed(b: seq<octet>, c: seq<octet>, at: nat, len: nat, length: seq<octet>)
    requires |length| == 2 && at + 4 <= len <= |b| == |c|
    requires c[at + 2..at + 4] == length && c[at + 4..] == b[at + 4..]
    ensures c[at..len] == [c[at], c[at + 1]] + length + b[at + 4..len]
  {
    assert c[at + 4..len] == c[at + 4..][..len - at - 4];
    assert b[at + 4..len] == b[at + 4..][..len - at - 4];
    assert c[at..len] == [c[at], c[at + 1]] + c[at + 2..at + 4] + c[at + 4..len];
  }

  lemma EmptyReports()
    ensures ReportsOctets([]) == []
  {
  }

  /** A copy just behind b[lo..hi] extends it and leaves what is in front alone. */
  lemma OneMore(b: seq<octet>, c: seq<octet>, lo: nat, hi: nat, src: seq<octet>)
    requires lo <= hi && hi + |src| <= |b| == |c| && c[..hi] == b[..hi] && c[hi..hi + |src|] == src
    ensures c[..lo] == b[..lo] && c[lo..hi + |src|] == b[lo..hi] + src
  {
    assert b[..lo] == b[..hi][..lo] && c[..lo] == c[..hi][..lo];
    assert b[lo..hi] == b[..hi][lo..] && c[lo..hi] == c[..hi][lo..];
  }

  /** What the header check says of len octets in the buffer b. */
  predicate Accepted(b: seq<octet>, len: nat) {
    len % 4 == 0 && 4 <= len <= |b| && FirstOctetsRight(b) && Walk(b, 0, len)
  }

  /**
   Whatever lies behind it in the receive buffer, a built compound passes the check; its
   length fields tile it exactly, and every packet in it, the last included, has version 2.
   */
  lemma BuiltIsAccepted(ssrc: uint32, sender: Option<Sender>, sources: seq<Report>, available: uint16,
                        cname: seq<octet>, next: Option<Item>, b: seq<octet>)
    requires |b| < TWO16
    requires Compound(Built(ssrc, sender, sources, available, cname, next)) <= b
    ensures var ps := Built(ssrc, sender, sources, available, cname, next);
      var len := |Compound(ps)|;
      && Accepted(b, len)
      && Tiles(b, Starts(ps, 0), 0, len) && VersionsRight(b, Starts(ps, 0), |ps|)
  {
    hide *;
    var ps := Built(ssrc, sender, sources, available, cname, next);
    var len := |Compound(ps)|;
    BuiltShape(ssrc, sender, sources, available, cname, next);
    CompoundFits(ps, |b|);
    assert b[0..len] == Compound(ps);
    CompoundTiles(ps, b, 0, len);
    CompoundParts(ps, b, 0, len);
    HeaderBack(ps[0], b, 0);
    FirstRight(ps[0], b);
    VersionsRightFewer(b, Starts(ps, 0), |ps|);
    BuiltParts(ssrc, sender, sources, available, cname, next);
    WholePacket(LocalChunk(ssrc, cname, next));
    WholeOf(len);
    TilesWalk(b, Starts(ps, 0), 0, len);
    AcceptedBy(b, len);
  }

  lemma AcceptedBy(b: seq<octet>, len: nat)
    requires len % 4 == 0 && 4 <= len <= |b| && Whole(len) <= |b|
    ensures Accepted(b, len) <==> FirstOctetsRight(b) && Walk(b, 0, len)
  {
    hide FirstOctetsRight, Walk;
  }

  /** And the header of each of its packets says what the packet holds; the count always fits its field. */
  lemma BuiltIsHeaded(ssrc: uint32, sender: Option<Sender>, sources: seq<Report>, available: uint16,
                      cname: seq<octet>, next: Option<Item>, b: seq<octet>)
    requires |b| < TWO16 && Compound(Built(ssrc, sender, sources, available, cname, next)) <= b
    ensures var ps := Built(ssrc, sender, sources, available, cname, next);
      forall i :: 0 <= i < |ps| ==> HeadedBy(b, Starts(ps, 0)[i], ps[i]) && (ps[i].Reports? ==> |ps[i].blocks| < 32)
  {
    hide *;
    var ps := Built(ssrc, sender, sources, available, cname, next);
    var len := |Compound(ps)|;
    BuiltShape(ssrc, sender, sources, available, cname, next);
    CompoundFits(ps, |b|);
    assert b[0..len] == Compound(ps);
    CompoundHeaders(ps, b, 0, len);
  }

  lemma WholeOf(len: nat)
    requires len % 4 == 0
    ensures Whole(len) == len
  {
  }

  lemma BuiltShape(ssrc: uint32, sender: Option<Sender>, sources: seq<Report>, available: uint16,
                   cname: seq<octet>, next: Option<Item>)
    ensures var ps := Built(ssrc, sender, sources, available, cname, next);
      && |ps| >= 2 && ps[0].Reports?
      && (forall i :: 0 <= i < |ps| && ps[i].Reports? ==> |ps[i].blocks| < 32)
  {
    hide ReportRun, FirstOf, Scheduled;
    RunShape(ssrc, sender, sources, 0, available);
    FirstFits(ssrc, sender, sources, 0, available);
    var run, ps := ReportRun(ssrc, sender, sources, 0, available), Built(ssrc, sender, sources, available, cname, next);
    forall i | 0 <= i < |ps| && ps[i].Reports? ensures |ps[i].blocks| < 32 {
      if i < |run| {
        assert ps[i] == run[i];
      }
    }
  }

  lemma {:induction false} CompoundFits(ps: seq<Packet>, n: nat)
    requires |Compound(ps)| <= n < 4 * TWO16
    ensures forall i :: 0 <= i < |ps| ==> Small(ps[i])
  {
    hide BodyOf;
    if ps != [] {
      CompoundFits(ps[1..], n);
      assert forall i :: 1 <= i < |ps| ==> ps[i] == ps[1..][i - 1];
    }
  }

  lemma FirstRight(p: Packet, b: seq<octet>)
    requires p.Reports? && |b| >= 4 && VersionOf(b[0]) == VERSION && !PaddingBit(b[0]) && b[1] == KindOf(p)
    ensures FirstOctetsRight(b)
  {
  }

  lemma VersionsRightFewer(b: seq<octet>, cuts: seq<nat>, n: nat)
    requires VersionsRight(b, cuts, n) && n >= 1 && |cuts| == n + 1
    ensures VersionsRight(b, cuts, |cuts| - 2)
  {
  }
}
