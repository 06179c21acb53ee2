/**
 Which report packets a compound holds, as a function of the sources and of the room
 left in the path MTU.
 */
module RtcpReports {
  import opened Basics
  import opened Octets
  import opened RtpFormat
  import opened RtcpFormat

  const SIZE: int := 0x1_0000_0000_0000_0000

  /** `len < available - k` in size_t arithmetic, where the difference wraps. */
  predicate Below(len: nat, available: uint16, k: nat) {
    len < (available - k) % SIZE
  }

  /** Blocks packed from `len` on when j are there already. */
  function Blocks(count: nat, len: nat, available: uint16, j: nat): (n: nat)
    requires j <= MAX_BLOCKS
    ensures j <= n <= MAX_BLOCKS && (n <= count || n == j)
    decreases MAX_BLOCKS - j
  {
    if j < count && Below(len, available, BLOCK) && j < MAX_BLOCKS then Blocks(count, len + BLOCK, available, j + 1)
    else j
  }

  lemma BlocksUnfold(count: nat, len: nat, available: uint16, j: nat)
    requires j <= MAX_BLOCKS
    ensures if j < count && Below(len, available, BLOCK) && j < MAX_BLOCKS
      then Blocks(count, len, available, j) == Blocks(count, len + BLOCK, available, j + 1) > j
      else Blocks(count, len, available, j) == j
  {
  }

  /** With room left, blocks are packed until the sources, the room or the count field runs out. */
  lemma {:induction false} BlocksBest(count: nat, len: nat, available: uint16, j: nat)
    requires j <= MAX_BLOCKS && available >= BLOCK
    ensures var n := Blocks(count, len, available, j);
      && (n > j ==> n <= count && len + BLOCK * (n - j) < available)
      && (n < MAX_BLOCKS && n < count ==> len + BLOCK * (n - j) >= available - BLOCK)
    decreases MAX_BLOCKS - j
  {
    if j < count && Below(len, available, BLOCK) && j < MAX_BLOCKS {
      BlocksBest(count, len + BLOCK, available, j + 1);
    }
  }

  /** With less room than one block the difference wraps, and the room no longer counts. */
  lemma {:induction false} BlocksUnchecked(count: nat, len: nat, available: uint16, j: nat)
    requires j <= MAX_BLOCKS && available < BLOCK && len + BLOCK * (MAX_BLOCKS - j) < SIZE - BLOCK && j <= count
    ensures Blocks(count, len, available, j) == Min(count, MAX_BLOCKS)
    decreases MAX_BLOCKS - j
  {
    if j < count && j < MAX_BLOCKS {
      BlocksUnchecked(count, len + BLOCK, available, j + 1);
    }
  }

  /** Octets of a report packet in front of its blocks. */
  function Front(sender: Option<Sender>): (n: nat)
    ensures n >= 8
  {
    8 + |SenderPart(sender)|
  }

  /** Is there room for one more report packet, after a full one ending at `len`? */
  predicate Another(blocks: nat, len: nat, available: uint16) {
    blocks == MAX_BLOCKS && Below(len, available, 8 + BLOCK)
  }

  /** Its header is written then; it is filled only if the end of its header is below the room. */
  predicate Continues(blocks: nat, len: nat, available: uint16) {
    Another(blocks, len, available) && len + 8 < available
  }

  /** The header of one more report packet is left as it was started. */
  predicate Dangling(count: nat, available: uint16) {
    available < BLOCK && count >= MAX_BLOCKS
  }

  /** The report packets from `at` on; every one of them starts again at the first source. */
  function ReportRun(ssrc: uint32, sender: Option<Sender>, sources: seq<Report>, at: nat, available: uint16): seq<Packet>
    decreases available - at
  {
    var start := at + Front(sender);
    var n := Blocks(|sources|, start, available, 0);
    [Reports(ssrc, sender, sources[..n])]
    + if Continues(n, start + BLOCK * n, available)
      then ReportRun(ssrc, None, sources, start + BLOCK * n, available) else []
  }

  /** The first source reports that one packet starting at `at` holds. */
  function FirstBlocks(sender: Option<Sender>, sources: seq<Report>, at: nat, available: uint16): (n: nat)
    ensures n <= |sources| && n <= MAX_BLOCKS
  {
    Blocks(|sources|, at + Front(sender), available, 0)
  }

  /** A header is started and not filled exactly when the room is below one block and there are 31 sources or more. */
  lemma DanglingExactly(sender: Option<Sender>, sources: seq<Report>, at: nat, available: uint16)
    requires at + Front(sender) < TWO32
    ensures var n := FirstBlocks(sender, sources, at, available);
      var next := at + Front(sender) + BLOCK * n;
      Another(n, next, available) && !Continues(n, next, available) <==> Dangling(|sources|, available)
  {
    hide Front;
    if available >= BLOCK {
      BlocksBest(|sources|, at + Front(sender), available, 0);
    } else {
      BlocksUnchecked(|sources|, at + Front(sender), available, 0);
    }
  }

  lemma FrontSize(sender: Option<Sender>)
    ensures Front(sender) == if sender.Some? then 28 else 8
  {
  }

  lemma ReportSize(p: Packet)
    requires p.Reports?
    ensures |PacketOctets(p)| == Front(p.sender) + BLOCK * |p.blocks|
  {
  }

  /** The first packet of a run, and where the next would start. */
  function FirstOf(ssrc: uint32, sender: Option<Sender>, sources: seq<Report>, at: nat, available: uint16): Packet {
    Reports(ssrc, sender, sources[..FirstBlocks(sender, sources, at, available)])
  }

  lemma FirstFits(ssrc: uint32, sender: Option<Sender>, sources: seq<Report>, at: nat, available: uint16)
    ensures var p := FirstOf(ssrc, sender, sources, at, available);
      var next := at + |PacketOctets(p)|;
      && p.Reports? && p.ssrc == ssrc && p.sender == sender
      && p.blocks <= sources && |p.blocks| == FirstBlocks(sender, sources, at, available) <= MAX_BLOCKS
      && next == at + Front(sender) + BLOCK * |p.blocks|
      && (available >= BLOCK && |p.blocks| > 0 ==> next < available)
      && (Continues(|p.blocks|, next, available) ==> |p.blocks| == MAX_BLOCKS && at < next && next + 8 < available)
  {
    hide PacketOctets, SenderPart, Blocks;
    if available >= BLOCK {
      BlocksBest(|sources|, at + Front(sender), available, 0);
    }
    ReportSize(FirstOf(ssrc, sender, sources, at, available));
  }

  lemma RunUnfolds(ssrc: uint32, sender: Option<Sender>, sources: seq<Report>, at: nat, available: uint16)
    ensures var p := FirstOf(ssrc, sender, sources, at, available);
      var next := at + |PacketOctets(p)|;
      ReportRun(ssrc, sender, sources, at, available)
      == [p] + (if Continues(|p.blocks|, next, available) then ReportRun(ssrc, None, sources, next, available) else [])
  {
    hide PacketOctets, SenderPart, Continues, Blocks, Front;
    FirstFits(ssrc, sender, sources, at, available);
  }

  /** Every report packet holds a prefix of the sources; only the first may hold a sender block. */
  predicate Prefixes(ps: seq<Packet>, ssrc: uint32, sources: seq<Report>) {
    forall i :: 0 <= i < |ps| ==>
      ps[i].Reports? && ps[i].ssrc == ssrc && ps[i].blocks <= sources && |ps[i].blocks| <= MAX_BLOCKS
      && (i > 0 ==> ps[i].sender == None) && (i < |ps| - 1 ==> |ps[i].blocks| == MAX_BLOCKS)
  }

  lemma PrefixesCons(p: Packet, ps: seq<Packet>, ssrc: uint32, sources: seq<Report>)
    requires p.Reports? && p.ssrc == ssrc && p.blocks <= sources && |p.blocks| <= MAX_BLOCKS
    requires ps != [] ==> |p.blocks| == MAX_BLOCKS && Prefixes(ps, ssrc, sources) && ps[0].Reports? && ps[0].sender == None
    ensures Prefixes([p] + ps, ssrc, sources)
  {
    var r := [p] + ps;
    forall i | 0 <= i < |r|
      ensures r[i].Reports? && r[i].ssrc == ssrc && r[i].blocks <= sources && |r[i].blocks| <= MAX_BLOCKS
      ensures (i > 0 ==> r[i].sender == None) && (i < |r| - 1 ==> |r[i].blocks| == MAX_BLOCKS)
    {
      if i > 0 {
        assert r[i] == ps[i - 1];
      }
    }
  }

  /** A run is full packets of the first 31 sources and one last packet, and it ends below the room. */
  lemma {:induction false} RunShape(ssrc: uint32, sender: Option<Sender>, sources: seq<Report>, at: nat, available: uint16)
    ensures var ps := ReportRun(ssrc, sender, sources, at, available);
      && ps != [] && ps[0] == FirstOf(ssrc, sender, sources, at, available)
      && Prefixes(ps, ssrc, sources)
      && (available >= BLOCK ==> at + |Compound(ps)| <= Max(available - 1, at + Front(sender)))
    decreases available - at
  {
    hide FirstOf, Continues, ReportRun, Compound, PacketOctets, Prefixes, FirstBlocks, Front;
    FirstFits(ssrc, sender, sources, at, available);
    var p := FirstOf(ssrc, sender, sources, at, available);
    var next := at + |PacketOctets(p)|;
    RunUnfolds(ssrc, sender, sources, at, available);
    var rest := if Continues(|p.blocks|, next, available) then ReportRun(ssrc, None, sources, next, available) else [];
    CompoundFirst([p] + rest);
    assert ([p] + rest)[1..] == rest;
    if rest != [] {
      FirstFits(ssrc, None, sources, next, available);
      RunShape(ssrc, None, sources, next, available);
      FrontSize(None);
    }
    PrefixesCons(p, rest, ssrc, sources);
  }

  predicate ReportedIn(ps: seq<Packet>, k: nat) {
    exists i :: 0 <= i < |ps| && ps[i].Reports? && k < |ps[i].blocks|
  }

  /**
   Since every further packet repeats the first sources, all sources are reported exactly
   when there are at most 31 of them and the first packet has room for them all.
   */
  lemma AllReported(ssrc: uint32, sender: Option<Sender>, sources: seq<Report>, at: nat, available: uint16)
    requires available >= BLOCK
    ensures var ps := ReportRun(ssrc, sender, sources, at, available);
      (forall k :: 0 <= k < |sources| ==> ReportedIn(ps, k))
      <==> |sources| <= MAX_BLOCKS
           && (sources != [] ==> at + Front(sender) + BLOCK * (|sources| - 1) < available - BLOCK)
  {
    hide ReportRun, Front, Compound, Below, Blocks, PacketOctets;
    var ps := ReportRun(ssrc, sender, sources, at, available);
    RunShape(ssrc, sender, sources, at, available);
    FirstFits(ssrc, sender, sources, at, available);
    var n := |ps[0].blocks|;
    FirstIsBest(sender, sources, at, available);
    if n == |sources| {
      forall k | 0 <= k < |sources| ensures ReportedIn(ps, k) {
        assert ps[0].Reports? && k < |ps[0].blocks|;
      }
    } else {
      NotReported(ps, ssrc, sources);
    }
  }

  lemma FirstIsBest(sender: Option<Sender>, sources: seq<Report>, at: nat, available: uint16)
    requires available >= BLOCK
    ensures FirstBlocks(sender, sources, at, available) == |sources|
       <==> |sources| <= MAX_BLOCKS
            && (sources != [] ==> at + Front(sender) + BLOCK * (|sources| - 1) < available - BLOCK)
  {
    hide Front, Blocks;
    BlocksBest(|sources|, at + Front(sender), available, 0);
  }

  /** What the first packet leaves out no other packet of the run holds. */
  lemma NotReported(ps: seq<Packet>, ssrc: uint32, sources: seq<Report>)
    requires ps != [] && ps[0].Reports? && Prefixes(ps, ssrc, sources)
    ensures !ReportedIn(ps, |ps[0].blocks|)
  {
    if |ps| > 1 {
      assert |ps[0].blocks| == MAX_BLOCKS;
    }
  }
}
