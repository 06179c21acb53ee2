/**
 RTCP packets and compounds (sections 6.4 and 6.5 of RFC 3550), and the header check of
 its appendix A.2. A compound is a run of packets whose length fields tile it.
 */
module RtcpFormat {
  import opened Basics
  import opened Octets
  import opened RtpFormat

  const SR: octet := 200
  const RR: octet := 201
  const SDES: octet := 202
  const CNAME: octet := 1
  const LAST_ITEM: octet := 9
  const MAX_BLOCKS: nat := 31
  const BLOCK: nat := 24

  /** What one report block says of one source. */
  datatype Report = Report(ssrc: uint32, fractionLost: octet, lost: uint32, highest: uint32,
                           jitter: uint32, lsr: uint32, dlsr: uint32)

  function ReportOctets(r: Report): (s: seq<octet>)
    ensures |s| == BLOCK
  {
    BigEndian32(r.ssrc) + [r.fractionLost, r.lost / 0x1_0000 % 0x100] + BigEndian16(r.lost % 0x1_0000)
    + BigEndian32(r.highest) + BigEndian32(r.jitter) + BigEndian32(r.lsr) + BigEndian32(r.dlsr)
  }

  function ReportsOctets(rs: seq<Report>): (s: seq<octet>)
    ensures |s| == BLOCK * |rs|
  {
    if rs == [] then [] else ReportsOctets(rs[..|rs| - 1]) + ReportOctets(rs[|rs| - 1])
  }

  lemma ReportsOne(rs: seq<Report>, r: Report)
    ensures ReportsOctets(rs + [r]) == ReportsOctets(rs) + ReportOctets(r)
  {
    assert (rs + [r])[..|rs|] == rs;
  }

  /** The sender info block. */
  datatype Sender = Sender(ntpHigh: uint32, ntpLow: uint32, rtpTimestamp: uint32, packets: uint32, octets: uint32)

  function SenderOctets(s: Sender): (r: seq<octet>)
    ensures |r| == 20
  {
    BigEndian32(s.ntpHigh) + BigEndian32(s.ntpLow) + BigEndian32(s.rtpTimestamp)
    + BigEndian32(s.packets) + BigEndian32(s.octets)
  }

  datatype Item = Item(kind: octet, text: seq<octet>)

  /** A sender or receiver report, or the description of one source. */
  datatype Packet =
    | Reports(ssrc: uint32, sender: Option<Sender>, blocks: seq<Report>)
    | Description(ssrc: uint32, items: seq<Item>)

  function KindOf(p: Packet): octet {
    match p
    case Reports(_, sender, _) => if sender.Some? then SR else RR
    case Description(_, _) => SDES
  }

  function CountOf(p: Packet): nat {
    match p
    case Reports(_, _, blocks) => |blocks|
    case Description(_, _) => 1
  }

  /** An item is a kind, the low octet of its length, and its text. */
  function ItemOctets(i: Item): (s: seq<octet>)
    ensures |s| == 2 + |i.text|
  {
    [i.kind, |i.text| % 0x100] + i.text
  }

  function ItemsOctets(items: seq<Item>): seq<octet> {
    if items == [] then [] else ItemOctets(items[0]) + ItemsOctets(items[1..])
  }

  /** One END octet, and more until the chunk ends on a word boundary. */
  function EndOctets(n: nat): (s: seq<octet>)
    ensures (n + |s|) % 4 == 0 && 1 <= |s| <= 4
    ensures forall k :: 0 <= k < |s| ==> s[k] == 0
  {
    seq(4 - n % 4, _ => 0)
  }

  function SenderPart(sender: Option<Sender>): (s: seq<octet>)
    ensures |s| == if sender.Some? then 20 else 0
  {
    if sender.Some? then SenderOctets(sender.value) else []
  }

  function ReportBody(ssrc: uint32, sender: Option<Sender>, blocks: seq<Report>): (s: seq<octet>)
    ensures |s| == 4 + (if sender.Some? then 20 else 0) + BLOCK * |blocks|
  {
    BigEndian32(ssrc) + SenderPart(sender) + ReportsOctets(blocks)
  }

  /** An identifier and its items, closed and padded. */
  function ChunkOctets(ssrc: uint32, items: seq<Item>): (s: seq<octet>)
    ensures |s| % 4 == 0
  {
    var chunk := BigEndian32(ssrc) + ItemsOctets(items);
    chunk + EndOctets(|chunk|)
  }

  function BodyOf(p: Packet): seq<octet> {
    match p
    case Reports(ssrc, sender, blocks) => ReportBody(ssrc, sender, blocks)
    case Description(ssrc, items) => ChunkOctets(ssrc, items)
  }

  /** Bodies are whole words. */
  lemma WholeWords(p: Packet)
    ensures |BodyOf(p)| % 4 == 0
  {
    hide ReportBody, ChunkOctets;
    if p.Reports? {
      Quadruple(1 + (if p.sender.Some? then 5 else 0) + 6 * |p.blocks|);
    }
  }

  lemma Quadruple(n: nat)
    ensures 4 * n % 4 == 0
  {
  }

  /** Version 2 without padding in the first octet. */
  const VERSION_BITS: octet := 128

  function HeaderOctets(kind: octet, count: nat, size: nat): (s: seq<octet>)
    ensures |s| == 4
  {
    [VERSION_BITS + count % 32, kind] + BigEndian16((size / 4) % TWO16)
  }

  /** The length field counts the words behind the first. */
  function PacketOctets(p: Packet): (s: seq<octet>)
    ensures |s| == 4 + |BodyOf(p)|
  {
    HeaderOctets(KindOf(p), CountOf(p), |BodyOf(p)|) + BodyOf(p)
  }

  function Compound(ps: seq<Packet>): seq<octet> {
    if ps == [] then [] else PacketOctets(ps[0]) + Compound(ps[1..])
  }

  lemma {:induction false} CompoundOne(ps: seq<Packet>, p: Packet)
    ensures Compound(ps + [p]) == Compound(ps) + PacketOctets(p)
  {
    if ps == [] {
      assert ps + [p] == [p] && [p][1..] == [];
      assert Compound([p]) == PacketOctets(p) + Compound([]);
    } else {
      assert (ps + [p])[1..] == ps[1..] + [p] && (ps + [p])[0] == ps[0];
      CompoundOne(ps[1..], p);
      assert PacketOctets(ps[0]) + (Compound(ps[1..]) + PacketOctets(p))
          == PacketOctets(ps[0]) + Compound(ps[1..]) + PacketOctets(p);
    }
  }

  // ---- The check of a received compound ----

  /** A length rounded up to whole words. */
  function Whole(len: nat): (n: nat)
    ensures len <= n < len + 4 && n % 4 == 0
  {
    (len + 3) / 4 * 4
  }

  function LengthAt(b: seq<octet>, at: nat): (n: nat)
    requires at + 4 <= |b|
    ensures n >= 4
  {
    4 * (Read16(b, at + 2) + 1)
  }

  /** The next packet starts at a whole word, and its first word lies in front of the rounded length. */
  lemma NextWord(b: seq<octet>, at: nat, len: nat)
    requires at % 4 == 0 && at + 4 <= |b|
    ensures var next := at + LengthAt(b, at);
      && next % 4 == 0 && next <= at + 4 * TWO16 && (next < len ==> next + 4 <= Whole(len))
  {
    hide Read16;
    var k, m := at / 4, Read16(b, at + 2) + 1;
    assert at == 4 * k && at + LengthAt(b, at) == 4 * (k + m);
    Quadruple(k + m);
    hide LengthAt, Whole;
    if at + LengthAt(b, at) < len {
      var n := Whole(len) / 4;
      assert Whole(len) == 4 * n;
    }
  }

  /** Version 2, no padding, and a sender or receiver report. */
  predicate FirstOctetsRight(b: seq<octet>)
    requires |b| >= 2
  {
    VersionOf(b[0]) == VERSION && !PaddingBit(b[0]) && (b[1] == SR || b[1] == RR)
  }

  /** What the loop of the check decides from the packet at `at` on. */
  predicate Walk(b: seq<octet>, at: nat, len: nat)
    requires at % 4 == 0 && at + 4 <= |b| && Whole(len) <= |b|
    decreases len - at
  {
    var next := at + LengthAt(b, at);
    NextWord(b, at, len);
    if next < len && VersionOf(b[at]) == VERSION then Walk(b, next, len) else next == len
  }

  /** Positions at which packets start, and the end: each length field leads to the next. */
  predicate Tiles(b: seq<octet>, cuts: seq<nat>, at: nat, len: nat) {
    && |cuts| >= 2 && cuts[0] == at && cuts[|cuts| - 1] == len <= |b|
    && forall i :: 0 <= i < |cuts| - 1 ==> cuts[i] + 4 <= |b| && cuts[i + 1] == cuts[i] + LengthAt(b, cuts[i])
  }

  predicate VersionsRight(b: seq<octet>, cuts: seq<nat>, n: nat) {
    forall i :: 0 <= i < n && i < |cuts| && cuts[i] < |b| ==> VersionOf(b[cuts[i]]) == VERSION
  }

  lemma {:induction false} TilesAscend(b: seq<octet>, cuts: seq<nat>, at: nat, len: nat, i: nat)
    requires Tiles(b, cuts, at, len) && i < |cuts|
    ensures cuts[i] + (|cuts| - 1 - i) <= len
    decreases |cuts| - i
  {
    if i < |cuts| - 1 {
      TilesAscend(b, cuts, at, len, i + 1);
      assert cuts[i + 1] == cuts[i] + LengthAt(b, cuts[i]);
    }
  }

  lemma TilesTail(b: seq<octet>, cuts: seq<nat>, at: nat, len: nat)
    requires Tiles(b, cuts, at, len) && |cuts| > 2
    ensures Tiles(b, cuts[1..], at + LengthAt(b, at), len) && at + LengthAt(b, at) < len
  {
    var rest := cuts[1..];
    forall k | 0 <= k < |rest| - 1 ensures rest[k] + 4 <= |b| && rest[k + 1] == rest[k] + LengthAt(b, rest[k]) {
      assert cuts[k + 2] == cuts[k + 1] + LengthAt(b, cuts[k + 1]);
    }
    TilesAscend(b, cuts, at, len, 1);
  }

  lemma TilesCons(b: seq<octet>, rest: seq<nat>, at: nat, len: nat)
    requires at + 4 <= |b| && Tiles(b, rest, at + LengthAt(b, at), len)
    ensures Tiles(b, [at] + rest, at, len)
  {
    var cuts := [at] + rest;
    forall k | 0 <= k < |cuts| - 1 ensures cuts[k] + 4 <= |b| && cuts[k + 1] == cuts[k] + LengthAt(b, cuts[k]) {
      if k > 0 {
        assert rest[k] == rest[k - 1] + LengthAt(b, rest[k - 1]);
      }
    }
  }

  /** Acceptance yields a tiling in which every packet but the last has version 2. */
  lemma {:induction false} WalkTiles(b: seq<octet>, at: nat, len: nat) returns (cuts: seq<nat>)
    requires at % 4 == 0 && at + 4 <= |b| && Whole(len) <= |b|
    requires Walk(b, at, len)
    ensures Tiles(b, cuts, at, len) && VersionsRight(b, cuts, |cuts| - 2)
    decreases len - at
  {
    hide Whole, LengthAt;
    var next := at + LengthAt(b, at);
    NextWord(b, at, len);
    if next < len && VersionOf(b[at]) == VERSION {
      var rest := WalkTiles(b, next, len);
      TilesCons(b, rest, at, len);
      cuts := [at] + rest;
      forall i | 0 <= i < |cuts| - 2 && cuts[i] < |b| ensures VersionOf(b[cuts[i]]) == VERSION {
        if i > 0 {
          assert cuts[i] == rest[i - 1];
        }
      }
    } else {
      cuts := [at, next];
    }
  }

  /** Every such tiling is accepted. */
  lemma {:induction false} TilesWalk(b: seq<octet>, cuts: seq<nat>, at: nat, len: nat)
    requires at % 4 == 0 && at + 4 <= |b| && Whole(len) <= |b|
    requires Tiles(b, cuts, at, len) && VersionsRight(b, cuts, |cuts| - 2)
    ensures Walk(b, at, len)
    decreases |cuts|
  {
    hide Whole, LengthAt;
    var next := at + LengthAt(b, at);
    NextWord(b, at, len);
    if |cuts| > 2 {
      TilesTail(b, cuts, at, len);
      var rest := cuts[1..];
      forall i | 0 <= i < |rest| - 2 && rest[i] < |b| ensures VersionOf(b[rest[i]]) == VERSION {
        assert rest[i] == cuts[i + 1];
      }
      assert VersionOf(b[cuts[0]]) == VERSION;
      TilesWalk(b, rest, next, len);
    } else {
      assert cuts[1] == cuts[0] + LengthAt(b, cuts[0]);
    }
  }

  /** A compound whose last packet claims version 0 is accepted all the same. */
  lemma LastVersionUnchecked()
    ensures var b := HeaderOctets(RR, 0, 4) + [0, 0, 0, 0] + [0, SDES, 0, 0];
      FirstOctetsRight(b) && Walk(b, 0, 12) && VersionOf(b[8]) != VERSION
  {
    var b := HeaderOctets(RR, 0, 4) + [0, 0, 0, 0] + [0, SDES, 0, 0];
    assert Read16(b, 2) == 1 && Read16(b, 10) == 0;
    assert LengthAt(b, 0) == 8 && LengthAt(b, 8) == 4;
    assert Walk(b, 8, 12);
  }

  /** The check accepts exactly the tilings whose packets, the last one excepted, have version 2. */
  lemma WalkIffTiled(b: seq<octet>, len: nat)
    requires 4 <= |b| && Whole(len) <= |b|
    ensures Walk(b, 0, len) <==> exists cuts: seq<nat> :: Tiles(b, cuts, 0, len) && VersionsRight(b, cuts, |cuts| - 2)
  {
    if Walk(b, 0, len) {
      var cuts := WalkTiles(b, 0, len);
    } else if cuts: seq<nat> :| Tiles(b, cuts, 0, len) && VersionsRight(b, cuts, |cuts| - 2) {
      TilesWalk(b, cuts, 0, len);
    }
  }

  /** Where the packets of a compound start, from `at` on. */
  function Starts(ps: seq<Packet>, at: nat): (cuts: seq<nat>)
    ensures |cuts| == |ps| + 1 && cuts[0] == at
  {
    if ps == [] then [at] else [at] + Starts(ps[1..], at + |PacketOctets(ps[0])|)
  }

  /** A packet small enough for its length field. */
  predicate Small(p: Packet) {
    |BodyOf(p)| < 4 * TWO16
  }

  type SmallPacket = p: Packet | Small(p) witness Reports(0, None, [])

  lemma HeaderBack(p: SmallPacket, b: seq<octet>, at: nat)
    requires at + |PacketOctets(p)| <= |b| && b[at..at + |PacketOctets(p)|] == PacketOctets(p)
    ensures LengthAt(b, at) == |PacketOctets(p)|
    ensures VersionOf(b[at]) == VERSION && !PaddingBit(b[at]) && b[at + 1] == KindOf(p)
    ensures b[at] % 32 == CountOf(p) % 32
  {
    hide BodyOf, KindOf, CountOf;
    var s := b[at..at + |PacketOctets(p)|];
    WholeWords(p);
    var n := |BodyOf(p)| / 4;
    assert s[..4] == HeaderOctets(KindOf(p), CountOf(p), |BodyOf(p)|);
    assert b[at] == s[0] && b[at + 1] == s[1] && b[at + 2] == s[2] && b[at + 3] == s[3];
    assert s[0] == s[..4][0] && s[1] == s[..4][1] && s[2] == s[..4][2] && s[3] == s[..4][3];
    assert n < TWO16 && s[2] == n / 0x100 && s[3] == n % 0x100;
  }

  lemma VersionsCons(b: seq<octet>, rest: seq<nat>, at: nat, n: nat)
    requires at < |b| && VersionOf(b[at]) == VERSION && VersionsRight(b, rest, n)
    ensures VersionsRight(b, [at] + rest, n + 1)
  {
    var cuts := [at] + rest;
    forall i | 0 <= i < n + 1 && i < |cuts| && cuts[i] < |b| ensures VersionOf(b[cuts[i]]) == VERSION {
      if i > 0 {
        assert cuts[i] == rest[i - 1];
      }
    }
  }

  lemma TwoParts(b: seq<octet>, at: nat, len: nat, p: seq<octet>, q: seq<octet>)
    requires at <= len <= |b| && b[at..len] == p + q
    ensures at + |p| + |q| == len && b[at..at + |p|] == p && b[at + |p|..len] == q
  {
    SubSlice(b, at, len, 0, |p|);
    SubSlice(b, at, len, |p|, len - at);
    assert (p + q)[..|p|] == p && (p + q)[|p|..] == q;
  }

  lemma CompoundFirst(ps: seq<Packet>)
    requires ps != []
    ensures Compound(ps) == PacketOctets(ps[0]) + Compound(ps[1..])
    ensures Compound([]) == []
  {
    hide PacketOctets;
  }

  lemma CompoundParts(ps: seq<Packet>, b: seq<octet>, at: nat, len: nat)
    requires ps != [] && at <= len <= |b| && b[at..len] == Compound(ps)
    ensures var n := |PacketOctets(ps[0])|;
      && at + n <= len
      && b[at..at + n] == PacketOctets(ps[0]) && b[at + n..len] == Compound(ps[1..])
      && (|ps| == 1 ==> at + n == len)
  {
    hide *;
    CompoundFirst(ps);
    TwoParts(b, at, len, PacketOctets(ps[0]), Compound(ps[1..]));
    assert |ps| == 1 ==> ps[1..] == [];
  }

  /** The length fields of a built compound lead from each packet to the next and to its end. */
  lemma {:induction false} CompoundTiles(ps: seq<SmallPacket>, b: seq<octet>, at: nat, len: nat)
    requires ps != []
    requires at <= len <= |b| && b[at..len] == Compound(ps)
    ensures Tiles(b, Starts(ps, at), at, len) && VersionsRight(b, Starts(ps, at), |ps|)
  {
    hide *;
    StartsCons(ps, at);
    CompoundParts(ps, b, at, len);
    if |ps| == 1 {
      PacketTiles(ps[0], b, at);
    } else {
      var next := at + |PacketOctets(ps[0])|;
      CompoundTiles(ps[1..], b, next, len);
      PacketThenTiles(ps[0], Starts(ps[1..], next), |ps| - 1, b, at, len);
    }
  }

  /**
   The header of a packet: version 2 without padding, the number of blocks, or 1 chunk, in
   five bits, the type, and the number of words behind the first.
   */
  predicate HeadedBy(b: seq<octet>, at: nat, p: Packet) {
    && at + 4 <= |b| && b[at] / 32 == 4
    && 4 * (0x100 * b[at + 2] as int + b[at + 3] as int) == |PacketOctets(p)| - 4
    && (p.Reports? ==> b[at] % 32 == |p.blocks| % 32 && b[at + 1] == if p.sender.Some? then 200 else 201)
    && (p.Description? ==> b[at] % 32 == 1 && b[at + 1] == 202)
  }

  lemma PacketHeaded(p: SmallPacket, b: seq<octet>, at: nat)
    requires at + |PacketOctets(p)| <= |b| && b[at..at + |PacketOctets(p)|] == PacketOctets(p)
    ensures HeadedBy(b, at, p)
  {
    hide PacketOctets, BodyOf;
    HeaderBack(p, b, at);
  }

  lemma {:induction false} CompoundHeaders(ps: seq<SmallPacket>, b: seq<octet>, at: nat, len: nat)
    requires at <= len <= |b| && b[at..len] == Compound(ps)
    ensures forall i :: 0 <= i < |ps| ==> HeadedBy(b, Starts(ps, at)[i], ps[i])
  {
    hide *;
    if ps != [] {
      StartsCons(ps, at);
      CompoundParts(ps, b, at, len);
      PacketHeaded(ps[0], b, at);
      var next := at + |PacketOctets(ps[0])|;
      CompoundHeaders(ps[1..], b, next, len);
      forall i | 0 <= i < |ps| ensures HeadedBy(b, Starts(ps, at)[i], ps[i]) {
        if i > 0 {
          assert HeadedBy(b, Starts(ps[1..], next)[i - 1], ps[1..][i - 1]);
        }
      }
    }
  }

  lemma PacketTiles(p: SmallPacket, b: seq<octet>, at: nat)
    requires var end := at + |PacketOctets(p)|; end <= |b| && b[at..end] == PacketOctets(p)
    ensures var end := at + |PacketOctets(p)|;
      Tiles(b, [at, end], at, end) && VersionsRight(b, [at, end], 1)
  {
    hide PacketOctets;
    HeaderBack(p, b, at);
  }

  lemma PacketThenTiles(p: SmallPacket, rest: seq<nat>, n: nat, b: seq<octet>, at: nat, len: nat)
    requires var next := at + |PacketOctets(p)|;
      next <= |b| && b[at..next] == PacketOctets(p) && Tiles(b, rest, next, len) && VersionsRight(b, rest, n)
    ensures Tiles(b, [at] + rest, at, len) && VersionsRight(b, [at] + rest, n + 1)
  {
    hide PacketOctets, Tiles, VersionsRight, LengthAt;
    HeaderBack(p, b, at);
    TilesCons(b, rest, at, len);
    VersionsCons(b, rest, at, n);
  }

  lemma StartsCons(ps: seq<Packet>, at: nat)
    requires ps != []
    ensures var n := |PacketOctets(ps[0])|;
      Starts(ps, at) == [at] + Starts(ps[1..], at + n) && (|ps| == 1 ==> Starts(ps, at) == [at, at + n])
  {
    hide PacketOctets;
  }

  // ---- Reading back what was built ----

  function ReadReport(b: seq<octet>, at: nat): Report
    requires at + BLOCK <= |b|
  {
    Report(Read32(b, at), b[at + 4], b[at + 5] as int * 0x1_0000 + Read16(b, at + 6),
           Read32(b, at + 8), Read32(b, at + 12), Read32(b, at + 16), Read32(b, at + 20))
  }

  /** A report block carries everything but the top octet of the loss count. */
  lemma ReportBack(r: Report, b: seq<octet>, at: nat)
    requires at + BLOCK <= |b| && b[at..at + BLOCK] == ReportOctets(r)
    ensures ReadReport(b, at) == r.(lost := r.lost % 0x100_0000)
  {
    hide BigEndian32, Read32;
    var s := ReportOctets(r);
    assert s[0..4] == BigEndian32(r.ssrc) && s[8..12] == BigEndian32(r.highest);
    assert s[12..16] == BigEndian32(r.jitter) && s[16..20] == BigEndian32(r.lsr) && s[20..24] == BigEndian32(r.dlsr);
    Read32Inside(b, at, s, 0, r.ssrc);
    Read32Inside(b, at, s, 8, r.highest);
    Read32Inside(b, at, s, 12, r.jitter);
    Read32Inside(b, at, s, 16, r.lsr);
    Read32Inside(b, at, s, 20, r.dlsr);
    assert b[at + 4] == b[at..at + BLOCK][4] && b[at + 5] == b[at..at + BLOCK][5];
    assert s[6..8] == BigEndian16(r.lost % 0x1_0000);
    Read16Back(s, 6, r.lost % 0x1_0000);
    Read16Inside(b, at, s, 6);
  }

  function ReadSender(b: seq<octet>, at: nat): Sender
    requires at + 20 <= |b|
  {
    Sender(Read32(b, at), Read32(b, at + 4), Read32(b, at + 8), Read32(b, at + 12), Read32(b, at + 16))
  }

  /** The sender info of a report packet lying at `at` reads back, behind the identifier. */
  lemma SenderBack(p: Packet, b: seq<octet>, at: nat)
    requires p.Reports? && p.sender.Some?
    requires at + |PacketOctets(p)| <= |b| && b[at..at + |PacketOctets(p)|] == PacketOctets(p)
    ensures Read32(b, at + 4) == p.ssrc && ReadSender(b, at + 8) == p.sender.value
  {
    hide BigEndian32, Read32, ReportsOctets, HeaderOctets;
    var s, info := PacketOctets(p), p.sender.value;
    assert s[4..8] == BigEndian32(p.ssrc) && s[8..12] == BigEndian32(info.ntpHigh);
    assert s[12..16] == BigEndian32(info.ntpLow) && s[16..20] == BigEndian32(info.rtpTimestamp);
    assert s[20..24] == BigEndian32(info.packets) && s[24..28] == BigEndian32(info.octets);
    Read32Inside(b, at, s, 4, p.ssrc);
    Read32Inside(b, at, s, 8, info.ntpHigh);
    Read32Inside(b, at, s, 12, info.ntpLow);
    Read32Inside(b, at, s, 16, info.rtpTimestamp);
    Read32Inside(b, at, s, 20, info.packets);
    Read32Inside(b, at, s, 24, info.octets);
  }

  lemma {:induction false} BlockAt(rs: seq<Report>, k: nat)
    requires k < |rs|
    ensures ReportsOctets(rs)[BLOCK * k..BLOCK * (k + 1)] == ReportOctets(rs[k])
  {
    hide ReportOctets;
    var n := |rs| - 1;
    var front, lo := ReportsOctets(rs[..n]), BLOCK * k;
    if k < n {
      BlockAt(rs[..n], k);
      assert rs[..n][k] == rs[k];
      assert lo + BLOCK <= |front|;
      assert (front + ReportOctets(rs[n]))[lo..lo + BLOCK] == front[lo..lo + BLOCK];
    } else {
      assert |front| == lo;
    }
  }

  lemma BlocksBehind(p: Packet)
    requires p.Reports?
    ensures var s := PacketOctets(p);
      var lo := 8 + |SenderPart(p.sender)|;
      |s| == lo + BLOCK * |p.blocks| && s[lo..] == ReportsOctets(p.blocks)
  {
    hide ReportsOctets, SenderPart, BigEndian32, HeaderOctets;
    var h, i := HeaderOctets(KindOf(p), CountOf(p), |BodyOf(p)|), BigEndian32(p.ssrc);
    var m, r := SenderPart(p.sender), ReportsOctets(p.blocks);
    assert PacketOctets(p) == h + (i + m + r);
    assert h + (i + m + r) == (h + i + m) + r;
  }

  /** The k-th block of a report packet lying at `at` reads back as the k-th report. */
  lemma BlocksBack(p: Packet, b: seq<octet>, at: nat, k: nat)
    requires p.Reports? && k < |p.blocks|
    requires at + |PacketOctets(p)| <= |b| && b[at..at + |PacketOctets(p)|] == PacketOctets(p)
    ensures ReadReport(b, at + 8 + |SenderPart(p.sender)| + BLOCK * k)
         == p.blocks[k].(lost := p.blocks[k].lost % 0x100_0000)
  {
    hide ReportsOctets, ReportOctets, SenderPart, BigEndian32, HeaderOctets, ReadReport, PacketOctets;
    var lo := 8 + |SenderPart(p.sender)|;
    var s := PacketOctets(p);
    BlockAt(p.blocks, k);
    BlocksBehind(p);
    SubSlice(s, lo, |s|, BLOCK * k, BLOCK * (k + 1));
    assert s[lo..|s|] == s[lo..];
    SubSlice(b, at, at + |s|, lo + BLOCK * k, lo + BLOCK * (k + 1));
    ReportBack(p.blocks[k], b, at + lo + BLOCK * k);
  }

  /** The items of a chunk up to the END octet (section 6.5 of RFC 3550). */
  function ReadItems(b: seq<octet>): Option<seq<Item>> {
    if b == [] then None
    else if b[0] == 0 then Some([])
    else if |b| < 2 || |b| < 2 + b[1] as int then None
    else
      var rest := ReadItems(b[2 + b[1] as int..]);
      if rest.None? then None else Some([Item(b[0], b[2..2 + b[1] as int])] + rest.value)
  }

  predicate Describable(items: seq<Item>) {
    forall i :: 0 <= i < |items| ==> items[i].kind != 0 && |items[i].text| < 0x100
  }

  lemma ReadOne(i: Item, tail: seq<octet>)
    requires i.kind != 0 && |i.text| < 0x100 && ReadItems(tail).Some?
    ensures ReadItems(ItemOctets(i) + tail) == Some([i] + ReadItems(tail).value)
  {
    var b := ItemOctets(i) + tail;
    var n := 2 + |i.text|;
    assert b[0] == i.kind && b[1] == |i.text|;
    assert b[2..n] == i.text && b[n..] == tail;
  }

  /** Texts of up to 255 octets read back from the chunk, whatever padding follows the END. */
  lemma {:induction false} ItemsBack(items: seq<Item>, n: nat)
    requires Describable(items)
    ensures ReadItems(ItemsOctets(items) + EndOctets(n)) == Some(items)
  {
    hide ItemOctets, EndOctets;
    if items == [] {
      assert ItemsOctets(items) + EndOctets(n) == EndOctets(n);
    } else {
      hide ReadItems;
      var tail := ItemsOctets(items[1..]) + EndOctets(n);
      ItemsBack(items[1..], n);
      ReadOne(items[0], tail);
      assert ItemsOctets(items) + EndOctets(n) == ItemOctets(items[0]) + tail;
      assert [items[0]] + items[1..] == items;
    }
  }
}
