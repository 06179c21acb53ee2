/**
 The queue of received packets. Every packet sits in two doubly linked lists at once:
 the global one, in order of delivery, and the one of its source, in order of sequence
 numbers.
 */
module IncomingQueues {
  import opened Basics
  import opened Octets

  /** The queue's record of a source: the ends of its packet list. */
  class SourceLink {
    var first: PacketLink?
    var last: PacketLink?

    constructor ()
      ensures first == null && last == null
    {
      first, last := null, null;
    }
  }

  class PacketLink {
    const source: SourceLink
    const seqNum: uint16
    /** Timestamp relative to the first packet of the source. */
    const timestamp: uint32
    var prev: PacketLink?
    var next: PacketLink?
    var srcPrev: PacketLink?
    var srcNext: PacketLink?

    constructor (source: SourceLink, seqNum: uint16, timestamp: uint32)
      ensures this.source == source && this.seqNum == seqNum && this.timestamp == timestamp
      ensures prev == null && next == null && srcPrev == null && srcNext == null
    {
      this.source, this.seqNum, this.timestamp := source, seqNum, timestamp;
      prev, next, srcPrev, srcNext := null, null, null, null;
    }
  }

  // ---- Lists as sequences ----

  /** The packets of one source, in the order of q. */
  function Restrict(q: seq<PacketLink>, s: SourceLink): (r: seq<PacketLink>)
    ensures forall i :: 0 <= i < |r| ==> r[i] in q && r[i].source == s
  {
    if q == [] then []
    else
      var front := Restrict(q[..|q| - 1], s);
      if q[|q| - 1].source == s then front + [q[|q| - 1]] else front
  }

  lemma {:induction false} RestrictSplit(p: seq<PacketLink>, q: seq<PacketLink>, s: SourceLink)
    ensures Restrict(p + q, s) == Restrict(p, s) + Restrict(q, s)
  {
    if q == [] {
      assert p + q == p;
    } else {
      var n := |q| - 1;
      assert (p + q)[..|p| + n] == p + q[..n];
      RestrictSplit(p, q[..n], s);
    }
  }

  lemma {:induction false} RestrictMembers(q: seq<PacketLink>, s: SourceLink)
    ensures forall x :: x in q && x.source == s ==> x in Restrict(q, s)
  {
    if q != [] {
      RestrictMembers(q[..|q| - 1], s);
      assert q == q[..|q| - 1] + [q[|q| - 1]];
    }
  }

  lemma {:induction false} NoneOf(q: seq<PacketLink>, s: SourceLink)
    requires forall x :: x in q ==> x.source != s
    ensures Restrict(q, s) == []
  {
    if q != [] {
      NoneOf(q[..|q| - 1], s);
    }
  }

  lemma RestrictOne(x: PacketLink, s: SourceLink)
    ensures Restrict([x], s) == if x.source == s then [x] else []
  {
    assert [x][..0] == [];
  }

  /** Where the k-th packet of a source stands in q. */
  lemma {:induction false} Locate(q: seq<PacketLink>, s: SourceLink, k: nat) returns (i: nat)
    requires k < |Restrict(q, s)|
    ensures i < |q| && q[i] == Restrict(q, s)[k]
    ensures Restrict(q[..i], s) == Restrict(q, s)[..k] && Restrict(q[i..], s) == Restrict(q, s)[k..]
  {
    var n := |q| - 1;
    var front := Restrict(q[..n], s);
    if k < |front| {
      i := Locate(q[..n], s, k);
      assert q[..n][..i] == q[..i];
    } else {
      i := n;
    }
    assert q == q[..i] + q[i..];
    RestrictSplit(q[..i], q[i..], s);
  }

  predicate Distinct(q: seq<PacketLink>) {
    forall i, j :: 0 <= i < j < |q| ==> q[i] != q[j]
  }

  predicate InOrder(q: seq<PacketLink>) {
    forall i, j :: 0 <= i < j < |q| ==> q[i].seqNum <= q[j].seqNum
  }

  /** Of two packets of one source the one in front is not newer. */
  predicate SourcesInOrder(q: seq<PacketLink>) {
    forall i, j :: 0 <= i < j < |q| && q[i].source == q[j].source ==> q[i].seqNum <= q[j].seqNum
  }

  lemma {:induction false} RestrictDistinct(q: seq<PacketLink>, s: SourceLink)
    requires Distinct(q)
    ensures Distinct(Restrict(q, s))
  {
    if q != [] {
      RestrictDistinct(q[..|q| - 1], s);
      RestrictMembers(q[..|q| - 1], s);
    }
  }

  function At(q: seq<PacketLink>, i: int): PacketLink? {
    if 0 <= i < |q| then q[i] else null
  }

  /**
   Following next walks q, and following prev walks it back, except that what the prev of
   the first element and of the element at `gap` hold is left open.
   */
  ghost predicate Linked(q: seq<PacketLink>, gap: nat)
    reads q`next, q`prev
  {
    && (forall i, j {:trigger q[i], q[j]} :: 0 <= i && i + 1 == j && j < |q| ==>
          q[i].next == q[j] && (j != gap ==> q[j].prev == q[i]))
    && (q != [] ==> q[|q| - 1].next == null)
  }

  ghost predicate HeadClear(q: seq<PacketLink>, gap: nat)
    reads q`prev
  {
    (q != [] ==> q[0].prev == null) && (gap < |q| ==> q[gap].prev == null)
  }

  ghost predicate SrcLinked(q: seq<PacketLink>)
    reads q`srcNext, q`srcPrev
  {
    && (forall i, j {:trigger q[i], q[j]} :: 0 <= i && i + 1 == j && j < |q| ==>
          q[i].srcNext == q[j] && q[j].srcPrev == q[i])
    && (q != [] ==> q[0].srcPrev == null && q[|q| - 1].srcNext == null)
  }

  /** The list of one source: its ends, its links, and its order. */
  ghost predicate SourceList(s: SourceLink, mine: seq<PacketLink>)
    reads s, mine`srcNext, mine`srcPrev
  {
    s.first == At(mine, 0) && s.last == At(mine, |mine| - 1) && SrcLinked(mine) && InOrder(mine)
  }

  /** The place of a packet behind everything not newer than it. */
  function Place(mine: seq<PacketLink>, seqNum: uint16): (k: nat)
    ensures k <= |mine|
  {
    if mine == [] || mine[|mine| - 1].seqNum <= seqNum then |mine|
    else Place(mine[..|mine| - 1], seqNum)
  }

  lemma OnlyAt(q: seq<PacketLink>, i: nat)
    requires Distinct(q) && i < |q|
    ensures forall j :: 0 <= j < |q| && j != i ==> q[j] != q[i]
  {
  }

  /** The first packet of the same source that is newer, or the end of the queue. */
  function FirstNewer(q: seq<PacketLink>, x: PacketLink): (i: nat)
    ensures i <= |q|
  {
    if q == [] || (q[0].source == x.source && x.seqNum < q[0].seqNum) then 0 else 1 + FirstNewer(q[1..], x)
  }

  lemma {:induction false} FirstNewerIs(q: seq<PacketLink>, x: PacketLink, i: nat)
    requires i <= |q| && (i < |q| ==> q[i].source == x.source && x.seqNum < q[i].seqNum)
    requires forall j :: 0 <= j < i && q[j].source == x.source ==> q[j].seqNum <= x.seqNum
    ensures FirstNewer(q, x) == i
  {
    if i > 0 {
      assert forall j :: 0 <= j < |q| - 1 ==> q[1..][j] == q[j + 1];
      FirstNewerIs(q[1..], x, i - 1);
    }
  }

  /** The source list and the global list agree on the place of a packet. */
  lemma PlacesAgree(q: seq<PacketLink>, x: PacketLink, i: nat)
    requires var mine := Restrict(q, x.source);
      var k := Place(mine, x.seqNum);
      && i <= |q| && InOrder(mine) && Restrict(q[..i], x.source) == mine[..k]
      && (if i < |q| then k < |mine| && q[i] == mine[k] else k == |mine|)
    ensures FirstNewer(q, x) == i
  {
    var mine := Restrict(q, x.source);
    PlaceSplits(mine, x.seqNum);
    forall j | 0 <= j < i && q[j].source == x.source ensures q[j].seqNum <= x.seqNum {
      RestrictMembers(q[..i], x.source);
      assert q[j] == q[..i][j] && q[j] in q[..i];
      assert q[j] in mine[..Place(mine, x.seqNum)];
    }
    if i < |q| {
      assert mine[Place(mine, x.seqNum)] in mine;
    }
    FirstNewerIs(q, x, i);
  }

  /** Where the gap is after an insertion in front of index i. */
  function GapAfter(gap: nat, i: nat): nat {
    if 0 < gap && i <= gap then gap + 1 else gap
  }

  /** Link x in front of q[i]; the code follows the prev of q[i] unless that is null. */
  method LinkBefore(ghost q: seq<PacketLink>, ghost gap: nat, ghost i: nat, at: PacketLink, x: PacketLink)
    requires i < |q| && q[i] == at && Linked(q, gap) && Distinct(q) && x !in q
    requires gap < |q| && (i == gap ==> gap == 0)
    requires HeadClear(q, gap) && x.prev == null
    modifies q`next, q`prev, x`next, x`prev
    ensures Linked(Inserted(q, i, x), GapAfter(gap, i)) && HeadClear(Inserted(q, i, x), GapAfter(gap, i))
  {
    hide Distinct, Inserted;
    InsertedAt(q, i, x);
    OnlyAt(q, i);
    if i > 0 {
      OnlyAt(q, i - 1);
    }
    var prevLink := at.prev;
    assert i > 0 ==> prevLink == q[i - 1];
    if prevLink != null {
      prevLink.next := x;
      x.prev := prevLink;
    }
    at.prev := x;
    x.next := at;
    ghost var r := Inserted(q, i, x);
    forall j, k | 0 <= j && j + 1 == k && k < |r|
      ensures r[j].next == r[k] && (k != GapAfter(gap, i) ==> r[k].prev == r[j])
    {
    }
  }

  /** Link x behind the last element of q. */
  method LinkLast(ghost q: seq<PacketLink>, ghost gap: nat, last: PacketLink?, x: PacketLink)
    requires Linked(q, gap) && Distinct(q) && x !in q && last == At(q, |q| - 1)
    requires gap < |q| || gap == 0
    requires HeadClear(q, gap) && x.prev == null && x.next == null
    modifies q`next, x`prev
    ensures Linked(q + [x], gap) && HeadClear(q + [x], gap)
  {
    if last != null {
      last.next := x;
      x.prev := last;
    }
  }

  method SrcLinkBefore(ghost q: seq<PacketLink>, ghost i: nat, at: PacketLink, x: PacketLink)
    requires i < |q| && q[i] == at && SrcLinked(q) && Distinct(q) && x !in q && x.srcPrev == null
    modifies q`srcNext, q`srcPrev, x`srcNext, x`srcPrev
    ensures SrcLinked(Inserted(q, i, x))
  {
    hide Distinct, Inserted;
    InsertedAt(q, i, x);
    OnlyAt(q, i);
    if i > 0 {
      OnlyAt(q, i - 1);
    }
    var prevLink := at.srcPrev;
    at.srcPrev := x;
    x.srcNext := at;
    if prevLink != null {
      prevLink.srcNext := x;
      x.srcPrev := prevLink;
    }
    ghost var r := Inserted(q, i, x);
    forall j, k | 0 <= j && j + 1 == k && k < |r| ensures r[j].srcNext == r[k] && r[k].srcPrev == r[j] {
    }
  }

  method SrcLinkLast(ghost q: seq<PacketLink>, last: PacketLink?, x: PacketLink)
    requires SrcLinked(q) && Distinct(q) && x !in q && last == At(q, |q| - 1)
    requires x.srcPrev == null && x.srcNext == null
    modifies q`srcNext, x`srcPrev
    ensures SrcLinked(q + [x])
  {
    if last != null {
      last.srcNext := x;
      x.srcPrev := last;
    }
  }

  lemma RestrictInserted(q: seq<PacketLink>, i: nat, x: PacketLink, s: SourceLink)
    requires i <= |q|
    ensures Restrict(Inserted(q, i, x), s)
         == if x.source == s then Restrict(q[..i], s) + [x] + Restrict(q[i..], s) else Restrict(q, s)
  {
    RestrictSplit(q[..i] + [x], q[i..], s);
    RestrictSplit(q[..i], [x], s);
    RestrictOne(x, s);
    RestrictSplit(q[..i], q[i..], s);
    assert q == q[..i] + q[i..];
  }

  /** Packets in front of the place are not newer, packets behind it are newer. */
  lemma {:induction false} PlaceSplits(mine: seq<PacketLink>, seqNum: uint16)
    requires InOrder(mine)
    ensures var k := Place(mine, seqNum);
      && (forall i :: 0 <= i < k ==> mine[i].seqNum <= seqNum)
      && (forall i :: k <= i < |mine| ==> seqNum < mine[i].seqNum)
  {
    if mine != [] && seqNum < mine[|mine| - 1].seqNum {
      PlaceSplits(mine[..|mine| - 1], seqNum);
    }
  }

  lemma PlaceKeepsOrder(mine: seq<PacketLink>, x: PacketLink)
    requires InOrder(mine)
    ensures InOrder(Inserted(mine, Place(mine, x.seqNum), x))
  {
    PlaceSplits(mine, x.seqNum);
  }

  lemma OrderLast(mine: seq<PacketLink>, x: PacketLink)
    requires InOrder(mine) && (mine != [] ==> mine[|mine| - 1].seqNum <= x.seqNum)
    ensures InOrder(mine + [x])
  {
  }

  // ---- The queue ----

  /**
   A queue as the code leaves it. `all` is the global list; the head pointer stands at its
   element `skip`, so the first `skip` packets are hidden from requests. When `cut`, the
   packet at the head has lost its way back to them.
   */
  datatype Queue = Queue(all: seq<PacketLink>, skip: nat, cut: bool)
  {
    /** What requests see. */
    function Visible(): seq<PacketLink> {
      if skip <= |all| then all[skip..] else []
    }

    /** What they do not see. */
    function Hidden(): seq<PacketLink> {
      if skip <= |all| then all[..skip] else []
    }

    /** The packets of each source are in order. */
    predicate Ordered() {
      SourcesInOrder(all)
    }

    /** The packet belongs in front of everything that is visible. */
    predicate BeforeHead(x: PacketLink) {
      skip < |all| && all[skip].source == x.source && x.seqNum < all[skip].seqNum
    }

    /** Its place is right in front of a head that has lost its way back: the code follows a null link. */
    predicate Torn(x: PacketLink) {
      cut && BeforeHead(x) && FirstNewer(all, x) == skip
    }

    /** There is a visible packet unless the queue is empty; what is hidden is of the source of the first visible one. */
    predicate Shaped() {
      && (skip < |all| || (all == [] && skip == 0))
      && (cut ==> skip > 0)
      && (forall i :: 0 <= i < skip ==> all[i].source == all[skip].source)
    }
  }

  /** Only a repetition of the newest number is refused. */
  predicate Refused(q: seq<PacketLink>, x: PacketLink) {
    var mine := Restrict(q, x.source);
    mine != [] && mine[|mine| - 1].seqNum == x.seqNum
  }

  function AfterArrival(q: Queue, x: PacketLink): Queue {
    if Refused(q.all, x) then q
    else Queue(Inserted(q.all, FirstNewer(q.all, x), x), if q.BeforeHead(x) then q.skip + 1 else q.skip, q.cut)
  }

  /** A packet whose time has passed, or that the application declares late. */
  predicate Old(x: PacketLink, timestamp: uint32, delayed: PacketLink -> bool) {
    x.timestamp < timestamp || delayed(x)
  }

  function HeadRun(q: seq<PacketLink>, timestamp: uint32, delayed: PacketLink -> bool): (n: nat)
    ensures n <= |q|
  {
    if q != [] && Old(q[0], timestamp, delayed) then 1 + HeadRun(q[1..], timestamp, delayed) else 0
  }

  /** The first n packets are before the time or late, and the next is neither: the longest such run. */
  predicate Passed(q: seq<PacketLink>, timestamp: uint32, delayed: PacketLink -> bool, n: nat) {
    && n <= |q|
    && (forall i :: 0 <= i < n ==> q[i].timestamp < timestamp || delayed(q[i]))
    && (n < |q| ==> timestamp <= q[n].timestamp && !delayed(q[n]))
  }

  lemma {:induction false} HeadRunMaximal(q: seq<PacketLink>, timestamp: uint32, delayed: PacketLink -> bool)
    ensures Passed(q, timestamp, delayed, HeadRun(q, timestamp, delayed))
  {
    if q != [] && Old(q[0], timestamp, delayed) {
      HeadRunMaximal(q[1..], timestamp, delayed);
      assert forall i :: 1 <= i < |q| ==> q[i] == q[1..][i - 1];
    }
  }

  /** Packet k is of exactly this time, not late, and everything in front of it is earlier or late. */
  predicate Asked(q: seq<PacketLink>, k: nat, timestamp: uint32, delayed: PacketLink -> bool) {
    && k < |q| && q[k].timestamp == timestamp && !delayed(q[k])
    && forall j :: 0 <= j < k ==> q[j].timestamp < timestamp || delayed(q[j])
  }

  /** There is such a packet exactly when the one behind the passed ones is of the time asked for; it is that one. */
  lemma AskedIsNext(q: seq<PacketLink>, timestamp: uint32, delayed: PacketLink -> bool, n: nat)
    requires Passed(q, timestamp, delayed, n)
    ensures forall k: nat :: Asked(q, k, timestamp, delayed) <==> k == n && n < |q| && q[n].timestamp == timestamp
  {
  }

  /** How many packets a request takes out of the queue. */
  function Taken(q: seq<PacketLink>, timestamp: uint32, delayed: PacketLink -> bool): (n: nat)
    ensures n <= |q|
  {
    var n := HeadRun(q, timestamp, delayed);
    if n < |q| && q[n].timestamp == timestamp then n + 1 else n
  }

  /** A request that takes nothing cuts the hidden packets off; one that takes something loses them. */
  function AfterRequest(q: Queue, timestamp: uint32, delayed: PacketLink -> bool): Queue {
    var n := Taken(q.Visible(), timestamp, delayed);
    if n == 0 then q.(cut := q.skip > 0) else Queue(q.Visible()[n..], 0, false)
  }

  lemma {:induction false} FirstNewerFirst(q: seq<PacketLink>, x: PacketLink, i: nat)
    requires i < FirstNewer(q, x)
    ensures !(q[i].source == x.source && x.seqNum < q[i].seqNum)
  {
    if i > 0 {
      FirstNewerFirst(q[1..], x, i - 1);
    }
  }

  /** The place of x in q: what is in front of it and of its source is not newer, and it is at the end or at a newer one. */
  predicate BelongsAt(q: seq<PacketLink>, i: nat, x: PacketLink) {
    && i <= |q|
    && (forall j :: 0 <= j < i && q[j].source == x.source ==> q[j].seqNum <= x.seqNum)
    && (i < |q| ==> q[i].source == x.source && x.seqNum < q[i].seqNum)
  }

  /** x repeats the newest number of its source. */
  ghost predicate RepeatsNewest(q: seq<PacketLink>, x: PacketLink) {
    && (exists y :: y in q && y.source == x.source && y.seqNum == x.seqNum)
    && (forall y :: y in q && y.source == x.source ==> y.seqNum <= x.seqNum)
  }

  lemma RefusedExactly(q: seq<PacketLink>, x: PacketLink)
    requires InOrder(Restrict(q, x.source))
    ensures Refused(q, x) <==> RepeatsNewest(q, x)
  {
    var mine := Restrict(q, x.source);
    RestrictMembers(q, x.source);
    if mine != [] {
      var last := mine[|mine| - 1];
      assert last in mine && last in q;
      forall y | y in q && y.source == x.source ensures y.seqNum <= last.seqNum {
        var i :| 0 <= i < |mine| && mine[i] == y;
      }
    }
  }

  lemma BelongsThere(q: seq<PacketLink>, x: PacketLink)
    ensures BelongsAt(q, FirstNewer(q, x), x)
  {
    hide FirstNewer;
    forall j | 0 <= j < FirstNewer(q, x) && q[j].source == x.source ensures q[j].seqNum <= x.seqNum {
      FirstNewerFirst(q, x, j);
    }
    if FirstNewer(q, x) < |q| {
      FirstNewerStands(q, x);
    }
  }

  lemma {:induction false} FirstNewerStands(q: seq<PacketLink>, x: PacketLink)
    requires FirstNewer(q, x) < |q|
    ensures q[FirstNewer(q, x)].source == x.source && x.seqNum < q[FirstNewer(q, x)].seqNum
  {
    if !(q[0].source == x.source && x.seqNum < q[0].seqNum) {
      FirstNewerStands(q[1..], x);
    }
  }

  /** Packets of one source stand in q in the order of their numbers. */
  lemma {:induction false} OrderAt(q: seq<PacketLink>, s: SourceLink, i: nat, j: nat)
    requires InOrder(Restrict(q, s)) && i < j < |q| && q[i].source == s && q[j].source == s
    ensures q[i].seqNum <= q[j].seqNum
  {
    var n := |q| - 1;
    var front := Restrict(q[..n], s);
    if j < n {
      assert forall a, b :: 0 <= a < b < |front| ==> front[a] == Restrict(q, s)[a] && front[b] == Restrict(q, s)[b];
      OrderAt(q[..n], s, i, j);
    } else {
      RestrictMembers(q[..n], s);
      assert q[i] == q[..n][i] && q[i] in front;
      var a :| 0 <= a < |front| && front[a] == q[i];
      assert Restrict(q, s)[a] == q[i] && Restrict(q, s)[|front|] == q[n];
    }
  }

  /** A packet is hidden by its arrival exactly when its place is not behind the visible head. */
  lemma HiddenPlace(q: Queue, x: PacketLink)
    requires q.Shaped() && q.all != [] && InOrder(Restrict(q.all, x.source))
    ensures FirstNewer(q.all, x) <= q.skip <==> q.BeforeHead(x)
  {
    hide Restrict, InOrder;
    var at := FirstNewer(q.all, x);
    if at <= q.skip {
      FirstNewerStands(q.all, x);
      if at < q.skip {
        OrderAt(q.all, x.source, at, q.skip);
      }
    } else {
      FirstNewerFirst(q.all, x, q.skip);
    }
  }

  lemma ShapedHead(q: Queue)
    requires q.Shaped()
    ensures q.skip < |q.all| || (q.all == [] && q.skip == 0)
    ensures q.cut ==> q.skip > 0
  {
  }

  /** An ordered packet goes behind everything, and so is not hidden. */
  lemma OrderedPlace(q: Queue, x: PacketLink)
    requires q.Shaped() && InOrder(Restrict(q.all, x.source))
    requires Place(Restrict(q.all, x.source), x.seqNum) == |Restrict(q.all, x.source)|
    ensures FirstNewer(q.all, x) == |q.all| && !q.BeforeHead(x)
    ensures Inserted(q.all, |q.all|, x) == q.all + [x]
    ensures var mine := Restrict(q.all, x.source); Inserted(mine, |mine|, x) == mine + [x]
  {
    hide Restrict, InOrder, Place, FirstNewer;
    EndsAgree(q.all, x);
    if q.all != [] {
      HiddenPlace(q, x);
    }
  }

  /** Behind hidden packets of one source the visible head stands in its list. */
  lemma HeadInSource(mine: seq<PacketLink>, q: seq<PacketLink>, h: nat)
    requires h < |q| && mine == q[..h + 1] + Restrict(q[h + 1..], q[h].source)
    ensures h < |mine| && mine[h] == q[h] && mine[h + 1..] == Restrict(q[h + 1..], q[h].source)
  {
  }

  /** The run of old packets from the n-th visible one on. */
  lemma RunFrom(q: Queue, n: nat, timestamp: uint32, delayed: PacketLink -> bool)
    requires q.Shaped() && n <= |q.Visible()|
    ensures var v := q.Visible();
      var l := At(q.all, q.skip + n);
      && (l == null <==> n == |v|)
      && (if l != null && Old(l, timestamp, delayed)
          then q.skip + n < |q.all| && l == q.all[q.skip + n]
               && HeadRun(v[n..], timestamp, delayed) == 1 + HeadRun(v[n + 1..], timestamp, delayed)
          else HeadRun(v[n..], timestamp, delayed) == 0)
  {
    hide Old;
    assert n < |q.Visible()| ==> q.Visible()[n..][1..] == q.Visible()[n + 1..];
  }

  lemma VisibleIn(q: Queue, n: nat)
    requires n <= |q.Visible()|
    ensures forall x :: x in q.Visible()[n..] ==> x in q.all
  {
  }

  /** What is left when the old packets at the head are gone. */
  lemma Remaining(q: Queue, timestamp: uint32, delayed: PacketLink -> bool)
    requires q.Shaped()
    ensures var v := q.Visible();
      var n := HeadRun(v, timestamp, delayed);
      var r := if n == 0 then q else Queue(v[n..], 0, false);
      && r.Visible() == v[n..]
      && (r.all != [] ==>
            && r.skip < |r.all| && r.all[r.skip] == r.Visible()[0] && timestamp <= r.all[r.skip].timestamp
            && q.all != [] && r.all[|r.all| - 1] == q.all[|q.all| - 1])
      && (r.all == [] ==> r.skip == 0 && v[n..] == [])
      && AfterRequest(q, timestamp, delayed)
         == (if v[n..] != [] && v[n].timestamp == timestamp then Queue(r.Visible()[1..], 0, false) else r.(cut := r.skip > 0))
  {
    hide HeadRun;
    HeadRunMaximal(q.Visible(), timestamp, delayed);
  }

  lemma NextVisible(q: Queue, i: nat)
    requires i < |q.Visible()|
    ensures var v := q.Visible();
      && q.skip < |q.all| && q.all[q.skip + 1..] == v[1..] && q.all[q.skip] == v[0]
      && v[i..][1..] == v[i + 1..] && v[i..][0] == v[i] && v[..i] + [v[i]] == v[..i + 1]
      && v[i..][0 + 1..] == v[i + 1..]
  {
  }

  /** Both lists agree on the place of a disordered packet, and it is hidden just when it belongs in front of the head. */
  lemma DisorderedPlace(q: Queue, x: PacketLink)
    requires q.Shaped() && InOrder(Restrict(q.all, x.source))
    requires Place(Restrict(q.all, x.source), x.seqNum) < |Restrict(q.all, x.source)|
    ensures var at := FirstNewer(q.all, x);
      var mine := Restrict(q.all, x.source);
      var k := Place(mine, x.seqNum);
      && q.skip < |q.all| && at < |q.all| && q.all[at] == mine[k]
      && (at <= q.skip <==> q.BeforeHead(x))
      && (at <= q.skip ==> x.source == q.all[q.skip].source)
      && (q.cut ==> q.skip > 0)
      && (q.cut && at == q.skip ==> q.Torn(x))
      && Restrict(Inserted(q.all, at, x), x.source) == Inserted(mine, k, x)
  {
    hide Restrict, InOrder, Place, Inserted, FirstNewer;
    var s := x.source;
    var mine := Restrict(q.all, s);
    var k := Place(mine, x.seqNum);
    var at := Locate(q.all, s, k);
    PlacesAgree(q.all, x, at);
    HiddenPlace(q, x);
    RestrictInserted(q.all, at, x, s);
    MiddleInserted(mine, k, x);
  }

  lemma NextOf(q: seq<PacketLink>, gap: nat, i: nat)
    requires Linked(q, gap) && i < |q|
    ensures q[i].next == At(q, i + 1)
  {
    if i + 1 < |q| {
      assert q[i].next == q[i + 1];
    }
  }

  /** Behind element h a linked sequence stays linked, when its gap is not there. */
  lemma TailLinked(q: seq<PacketLink>, gap: nat, h: nat)
    requires h < |q| && gap <= h && Distinct(q) && Linked(q, gap)
    ensures Distinct(q[h + 1..]) && Linked(q[h + 1..], 0) && q[h].next == At(q[h + 1..], 0)
  {
    var r := q[h + 1..];
    forall i, j | 0 <= i && i + 1 == j && j < |r| ensures r[i].next == r[j] && (j != 0 ==> r[j].prev == r[i]) {
      assert r[i] == q[h + 1 + i] && r[j] == q[h + 1 + j];
    }
    NextOf(q, gap, h);
  }

  lemma {:induction false} AllOf(q: seq<PacketLink>, s: SourceLink)
    requires forall i :: 0 <= i < |q| ==> q[i].source == s
    ensures Restrict(q, s) == q
  {
    if q != [] {
      AllOf(q[..|q| - 1], s);
    }
  }

  /** Behind h + 1 packets of source s, its list begins with them and the others are untouched. */
  lemma RestrictTail(q: seq<PacketLink>, h: nat, s: SourceLink, t: SourceLink)
    requires h < |q| && forall i :: 0 <= i <= h ==> q[i].source == s
    ensures Restrict(q, t) == if s == t then q[..h + 1] + Restrict(q[h + 1..], t) else Restrict(q[h + 1..], t)
  {
    assert q == q[..h + 1] + q[h + 1..];
    RestrictSplit(q[..h + 1], q[h + 1..], t);
    if s == t {
      AllOf(q[..h + 1], t);
    } else {
      NoneOf(q[..h + 1], t);
    }
  }

  /** The list of a source is made to begin behind l, whatever is in front of l. */
  method SrcDropHead(ghost mine: seq<PacketLink>, ghost h: nat, l: PacketLink)
    requires SourceList(l.source, mine) && Distinct(mine) && h < |mine| && mine[h] == l
    modifies l.source, mine`srcPrev
    ensures SourceList(l.source, mine[h + 1..])
  {
    var src := l.source;
    ghost var tail := mine[h + 1..];
    if h + 1 < |mine| {
      assert mine[h].srcNext == mine[h + 1];
    }
    src.first := l.srcNext;
    if l.srcNext != null {
      l.srcNext.srcPrev := null;
    } else {
      src.last := null;
    }
    forall i, j | 0 <= i && i + 1 == j && j < |tail| ensures tail[i].srcNext == tail[j] && tail[j].srcPrev == tail[i] {
      assert tail[i] == mine[h + 1 + i] && tail[j] == mine[h + 1 + j];
    }
  }

  lemma EndsAgree(q: seq<PacketLink>, x: PacketLink)
    requires var mine := Restrict(q, x.source); InOrder(mine) && Place(mine, x.seqNum) == |mine|
    ensures FirstNewer(q, x) == |q|
  {
    assert q[..|q|] == q;
    PlacesAgree(q, x, |q|);
  }

  lemma PlaceOfLast(mine: seq<PacketLink>, seqNum: uint16)
    ensures Place(mine, seqNum) < |mine| <==> mine != [] && seqNum < mine[|mine| - 1].seqNum
  {
  }

  /** From the last packet of a source back to the first one not newer than seqNum. */
  method Scan(ghost mine: seq<PacketLink>, last: PacketLink?, seqNum: uint16) returns (plink: PacketLink?)
    requires SrcLinked(mine) && last == At(mine, |mine| - 1)
    ensures plink == At(mine, Place(mine, seqNum) - 1)
  {
    plink := last;
    ghost var n: nat := |mine|;
    assert mine[..n] == mine;
    while plink != null && seqNum < plink.seqNum
      invariant n <= |mine| && plink == At(mine, n - 1)
      invariant Place(mine[..n], seqNum) == Place(mine, seqNum)
      decreases n
    {
      assert mine[..n][..n - 1] == mine[..n - 1];
      if n > 1 {
        assert mine[n - 1].srcPrev == mine[n - 2];
      }
      plink := plink.srcPrev;
      n := n - 1;
    }
    assert mine[..n] == [] || mine[..n][n - 1] == mine[n - 1];
  }

  lemma MiddleInserted(mine: seq<PacketLink>, k: nat, x: PacketLink)
    requires k <= |mine|
    ensures mine[..k] + [x] + mine[k..] == Inserted(mine, k, x)
  {
  }

  /** An insertion keeps the last element, and the element at h at its place or one further. */
  lemma EndsKept(q: seq<PacketLink>, i: nat, x: PacketLink, h: nat)
    requires i < |q| && h < |q|
    ensures var r := Inserted(q, i, x);
      At(r, |r| - 1) == At(q, |q| - 1) && At(r, if i <= h then h + 1 else h) == At(q, h)
  {
  }

  lemma LastKept(q: seq<PacketLink>, i: nat, x: PacketLink)
    requires i < |q|
    ensures var r := Inserted(q, i, x); At(r, |r| - 1) == At(q, |q| - 1)
    ensures At(q, 0) == q[0] && At(Inserted(q, i, x), 0) == if i == 0 then x else q[0]
  {
  }

  /** A source's list grows in front of its k-th packet, behind plink. */
  method SrcInsert(ghost mine: seq<PacketLink>, ghost k: nat, plink: PacketLink?, x: PacketLink) returns (place: PacketLink)
    requires SourceList(x.source, mine) && Distinct(mine) && x !in mine && x.srcPrev == null
    requires k == Place(mine, x.seqNum) && k < |mine| && plink == At(mine, k - 1)
    modifies x.source, mine`srcNext, mine`srcPrev, x`srcNext, x`srcPrev
    ensures place == mine[k] && SourceList(x.source, Inserted(mine, k, x))
  {
    hide InOrder, Distinct;
    var s := x.source;
    PlaceKeepsOrder(mine, x);
    LastKept(mine, k, x);
    if plink == null {
      place := s.first;
      SrcLinkBefore(mine, k, place, x);
      s.first := x;
    } else {
      assert mine[k - 1].srcNext == mine[k];
      place := plink.srcNext;
      SrcLinkBefore(mine, k, place, x);
    }
  }

  lemma RestrictAppended(q: seq<PacketLink>, x: PacketLink, s: SourceLink)
    ensures Inserted(q, |q|, x) == q + [x]
    ensures x.source == s ==> Restrict(q + [x], s) == Restrict(q, s) + [x]
  {
    assert (q + [x])[..|q|] == q;
  }

  /** A source's list grows at its end. */
  method SrcAppend(ghost mine: seq<PacketLink>, x: PacketLink)
    requires SourceList(x.source, mine) && Distinct(mine) && x !in mine && x.srcPrev == null && x.srcNext == null
    requires mine != [] ==> mine[|mine| - 1].seqNum <= x.seqNum
    modifies x.source, mine`srcNext, x`srcPrev
    ensures SourceList(x.source, mine + [x])
  {
    hide SrcLinked, InOrder, Distinct;
    var s := x.source;
    var plink := s.last;
    SrcLinkLast(mine, plink, x);
    if plink == null {
      s.first := x;
    }
    s.last := x;
    OrderLast(mine, x);
  }

  // ---- Runs of arrivals and requests ----

  datatype Event = Arrival(x: PacketLink) | Request(timestamp: uint32, delayed: PacketLink -> bool)

  /** How a packet left: at which request, whether it was late then, and whether as its result. */
  datatype Departure = Departure(x: PacketLink, asked: uint32, late: bool, returned: bool)

  /** What a request takes out: the old packets, and the one it returns. */
  function Leaving(v: seq<PacketLink>, t: uint32, delayed: PacketLink -> bool): (r: seq<Departure>)
    ensures |r| == Taken(v, t, delayed) && forall i :: 0 <= i < |r| ==> r[i].x == v[i]
  {
    var n := HeadRun(v, t, delayed);
    seq(n, i requires 0 <= i < n => Departure(v[i], t, delayed(v[i]), false))
    + if n < |v| && v[n].timestamp == t then [Departure(v[n], t, delayed(v[n]), true)] else []
  }

  /**
   A queue after a run. In order: the packets requests returned or expired, the packets
   arrivals left in the queue, and those of them that were hidden. Lost are the hidden
   packets that are in no list any more.
   */
  datatype Outcome = Outcome(queue: Queue, left: seq<Departure>, accepted: seq<PacketLink>,
                             hidden: seq<PacketLink>, lost: seq<PacketLink>)
  {
    function Gone(): (r: seq<PacketLink>)
      ensures |r| == |left|
    {
      seq(|left|, i requires 0 <= i < |left| => left[i].x)
    }
  }

  function AfterEvent(o: Outcome, e: Event): Outcome {
    var q := o.queue;
    match e
    case Arrival(x) =>
      Outcome(AfterArrival(q, x), o.left,
              o.accepted + (if Refused(q.all, x) then [] else [x]),
              o.hidden + (if !Refused(q.all, x) && q.BeforeHead(x) then [x] else []),
              o.lost)
    case Request(t, delayed) =>
      var v, n := q.Visible(), Taken(q.Visible(), t, delayed);
      Outcome(AfterRequest(q, t, delayed), o.left + Leaving(v, t, delayed), o.accepted, o.hidden,
              o.lost + (if n == 0 then [] else q.Hidden()))
  }

  function AfterRun(q: Queue, es: seq<Event>): Outcome {
    if es == [] then Outcome(q, [], [], [], [])
    else AfterEvent(AfterRun(q, es[..|es| - 1]), es[|es| - 1])
  }

  /** The packets that arrive. */
  ghost function Packets(es: seq<Event>): set<PacketLink> {
    set i | 0 <= i < |es| && es[i].Arrival? :: es[i].x
  }

  /** No arrival meets a torn place at its moment. */
  predicate Followable(q: Queue, es: seq<Event>) {
    es != [] ==>
      && Followable(q, es[..|es| - 1])
      && (es[|es| - 1].Arrival? ==> !AfterRun(q, es[..|es| - 1]).queue.Torn(es[|es| - 1].x))
  }

  lemma {:induction false} FollowableAt(q: Queue, es: seq<Event>, i: nat)
    requires i < |es| && Followable(q, es)
    ensures es[i].Arrival? ==> !AfterRun(q, es[..i]).queue.Torn(es[i].x)
  {
    hide Queue.Torn, AfterRun;
    var front := es[..|es| - 1];
    if i < |front| {
      FollowableAt(q, front, i);
      assert front[..i] == es[..i];
    }
  }

  lemma Members(o: Outcome, e: Event)
    ensures forall y :: y in AfterEvent(o, e).queue.all ==> y in o.queue.all || (e.Arrival? && y == e.x)
  {
    hide Refused, FirstNewer, Inserted, Taken;
    if e.Arrival? {
      InsertedAt(o.queue.all, FirstNewer(o.queue.all, e.x), e.x);
    }
  }

  /** No arrival belongs in front of the visible head at its moment. */
  predicate Orderly(q: Queue, es: seq<Event>) {
    es != [] ==>
      && Orderly(q, es[..|es| - 1])
      && (es[|es| - 1].Arrival? ==> !AfterRun(q, es[..|es| - 1]).queue.BeforeHead(es[|es| - 1].x))
  }

  /** An orderly run meets no torn place. */
  lemma {:induction false} OrderlyIsFollowable(q: Queue, es: seq<Event>)
    requires Orderly(q, es)
    ensures Followable(q, es)
  {
    if es != [] {
      OrderlyIsFollowable(q, es[..|es| - 1]);
    }
  }

  lemma BeforeHeadAccepted(q: Queue, x: PacketLink)
    requires q.Shaped() && q.Ordered() && q.BeforeHead(x)
    ensures !Refused(q.all, x) && FirstNewer(q.all, x) <= q.skip
  {
    RestrictMembers(q.all, x.source);
    var mine := Restrict(q.all, x.source);
    assert q.all[q.skip] in mine;
    OrderedInOrder(q.all, x.source);
    FirstNewerReaches(q.all, x, q.skip);
  }

  lemma {:induction false} FirstNewerReaches(q: seq<PacketLink>, x: PacketLink, i: nat)
    requires i < |q| && q[i].source == x.source && x.seqNum < q[i].seqNum
    ensures FirstNewer(q, x) <= i
  {
    if i > 0 {
      FirstNewerReaches(q[1..], x, i - 1);
    }
  }

  /** A list in order by sources restricts to lists in order. */
  lemma {:induction false} OrderedInOrder(q: seq<PacketLink>, s: SourceLink)
    requires SourcesInOrder(q)
    ensures InOrder(Restrict(q, s))
  {
    if q != [] {
      var front := q[..|q| - 1];
      OrderedInOrder(front, s);
      forall x | x in Restrict(front, s) ensures x.seqNum <= q[|q| - 1].seqNum || q[|q| - 1].source != s {
        var i :| 0 <= i < |front| && front[i] == x;
      }
    }
  }

  lemma ArrivalKeeps(q: Queue, x: PacketLink)
    requires q.Shaped() && q.Ordered()
    ensures AfterArrival(q, x).Shaped() && AfterArrival(q, x).Ordered()
  {
    hide Refused, Inserted, Restrict, FirstNewer;
    if !Refused(q.all, x) {
      var at := FirstNewer(q.all, x);
      var r := Inserted(q.all, at, x);
      InsertedAt(q.all, at, x);
      if q.all != [] {
        HiddenBy(q, x);
      }
      forall i, j | 0 <= i < j < |r| && r[i].source == r[j].source ensures r[i].seqNum <= r[j].seqNum {
        if j == at {
          FirstNewerFirst(q.all, x, i);
        } else if i == at {
          FirstNewerStands(q.all, x);
          assert q.all[at].seqNum <= q.all[j - 1].seqNum;
        }
      }
    }
  }

  /** An arrival is hidden exactly when its place is not behind the visible head. */
  lemma HiddenBy(q: Queue, x: PacketLink)
    requires q.Shaped() && q.Ordered() && q.all != []
    ensures FirstNewer(q.all, x) <= q.skip <==> q.BeforeHead(x)
  {
    OrderedInOrder(q.all, x.source);
    HiddenPlace(q, x);
  }

  lemma RequestKeeps(q: Queue, t: uint32, delayed: PacketLink -> bool)
    requires q.Shaped() && q.Ordered()
    ensures AfterRequest(q, t, delayed).Shaped() && AfterRequest(q, t, delayed).Ordered()
  {
    hide Taken;
  }

  /** Over every run, the packets of each source stay in order of sequence numbers. */
  lemma {:induction false} RunKeepsOrder(q: Queue, es: seq<Event>)
    requires q.Shaped() && q.Ordered()
    ensures AfterRun(q, es).queue.Shaped() && AfterRun(q, es).queue.Ordered()
  {
    hide Queue.Shaped, Queue.Ordered, AfterArrival, AfterRequest, Taken, Refused;
    if es != [] {
      RunKeepsOrder(q, es[..|es| - 1]);
      var r := AfterRun(q, es[..|es| - 1]).queue;
      match es[|es| - 1]
      case Arrival(x) => ArrivalKeeps(r, x);
      case Request(t, delayed) => RequestKeeps(r, t, delayed);
    }
  }

  lemma InsertedConserves(q: seq<PacketLink>, i: nat, x: PacketLink)
    requires i <= |q|
    ensures multiset(Inserted(q, i, x)) == multiset(q) + multiset{x}
  {
    assert q == q[..i] + q[i..];
  }

  lemma HiddenGrows(q: seq<PacketLink>, i: nat, x: PacketLink, h: nat)
    requires i <= |q| && h <= |q|
    ensures var r := Inserted(q, i, x);
      if i <= h then multiset(r[..h + 1]) == multiset(q[..h]) + multiset{x} else r[..h] == q[..h]
  {
    var r := Inserted(q, i, x);
    if i <= h {
      assert r[..h + 1] == Inserted(q[..h], i, x);
      InsertedConserves(q[..h], i, x);
    } else {
      assert r[..h] == q[..h];
    }
  }

  /** What an event takes from one account it enters in another. */
  ghost predicate Balanced(q: Queue, o: Outcome) {
    && multiset(o.Gone()) + multiset(o.queue.all) + multiset(o.lost) == multiset(q.all) + multiset(o.accepted)
    && multiset(o.lost) + multiset(o.queue.Hidden()) == multiset(q.Hidden()) + multiset(o.hidden)
  }

  lemma ArrivalBalances(q: Queue, o: Outcome, x: PacketLink)
    requires Balanced(q, o) && o.queue.Shaped() && o.queue.Ordered()
    ensures Balanced(q, AfterEvent(o, Arrival(x)))
  {
    hide Refused, FirstNewer, Inserted, Queue.Ordered, Queue.BeforeHead;
    var r, p := o.queue, AfterEvent(o, Arrival(x));
    if Refused(r.all, x) {
      assert p.accepted == o.accepted && p.hidden == o.hidden;
    } else {
      var at := FirstNewer(r.all, x);
      if r.all != [] {
        HiddenBy(r, x);
      }
      InsertedConserves(r.all, at, x);
      InsertedAt(r.all, at, x);
      HiddenGrows(r.all, at, x, r.skip);
      Entered(q, o, p, x, r.BeforeHead(x));
    }
  }

  lemma Entered(q: Queue, o: Outcome, p: Outcome, x: PacketLink, hidden: bool)
    requires multiset(p.queue.all) == multiset(o.queue.all) + multiset{x}
    requires p.left == o.left && p.lost == o.lost && p.accepted == o.accepted + [x]
    requires p.hidden == o.hidden + if hidden then [x] else []
    requires multiset(p.queue.Hidden()) == multiset(o.queue.Hidden()) + if hidden then multiset{x} else multiset{}
    requires Balanced(q, o)
    ensures Balanced(q, p)
  {
    assert multiset(p.accepted) == multiset(o.accepted) + multiset{x};
    assert p.Gone() == o.Gone();
    assert multiset(p.Gone()) + multiset(p.queue.all) + multiset(p.lost)
        == (multiset(o.Gone()) + multiset(o.queue.all) + multiset(o.lost)) + multiset{x};
    if hidden {
      assert multiset(p.hidden) == multiset(o.hidden) + multiset{x};
      assert multiset(p.lost) + multiset(p.queue.Hidden()) == multiset(o.lost) + multiset(o.queue.Hidden()) + multiset{x};
    } else {
      assert p.hidden == o.hidden;
    }
  }

  lemma RequestBalances(q: Queue, o: Outcome, t: uint32, delayed: PacketLink -> bool)
    requires Balanced(q, o) && o.queue.Shaped()
    ensures Balanced(q, AfterEvent(o, Request(t, delayed)))
  {
    hide Taken, Queue.Shaped, Queue.Visible, Queue.Hidden, Leaving;
    var r := o.queue;
    var v, h, n := r.Visible(), r.Hidden(), Taken(r.Visible(), t, delayed);
    ShapedHead(r);
    VisibleAndHidden(r);
    var p := AfterEvent(o, Request(t, delayed));
    assert p.Gone() == o.Gone() + v[..n];
    if n > 0 {
      assert v == v[..n] + v[n..];
      assert multiset(p.lost) == multiset(o.lost) + multiset(h);
      assert p.queue.Hidden() == [] by { NothingHidden(p.queue); }
    } else {
      assert p.Gone() == o.Gone() && p.lost == o.lost;
      assert p.queue.Hidden() == h by { CutHides(r); }
    }
  }

  lemma NothingHidden(q: Queue)
    requires q.skip == 0
    ensures q.Hidden() == []
  {
  }

  lemma CutHides(q: Queue)
    ensures q.(cut := q.skip > 0).Hidden() == q.Hidden()
  {
  }

  /**
   Over every run: what was accepted left the queue, is in it, or is lost; and exactly the
   packets hidden on arrival are lost or still hidden.
   */
  lemma {:induction false} RunBalances(q: Queue, es: seq<Event>)
    requires q.Shaped() && q.Ordered()
    ensures Balanced(q, AfterRun(q, es))
  {
    hide Queue.Shaped, Queue.Ordered, AfterEvent, Balanced;
    assert Balanced(q, Outcome(q, [], [], [], [])) by { BalancedAtStart(q); }
    if es != [] {
      RunBalances(q, es[..|es| - 1]);
      RunKeepsOrder(q, es[..|es| - 1]);
      var o := AfterRun(q, es[..|es| - 1]);
      match es[|es| - 1]
      case Arrival(x) => ArrivalBalances(q, o, x);
      case Request(t, delayed) => RequestBalances(q, o, t, delayed);
    }
  }

  lemma BalancedAtStart(q: Queue)
    ensures Balanced(q, Outcome(q, [], [], [], []))
  {
  }

  /**
   A packet leaves as the result of a request exactly when the request is for its own time
   and it is not late; otherwise it expires, and then its time has passed or it is late.
   */
  predicate LeftRight(d: Departure) {
    && (d.returned <==> d.x.timestamp == d.asked && !d.late)
    && (!d.returned ==> d.x.timestamp < d.asked || d.late)
  }

  /** The departure is that of a request of the run, with the verdict of its caller. */
  ghost predicate AtRequest(d: Departure, es: seq<Event>) {
    exists i :: 0 <= i < |es| && es[i].Request? && es[i].timestamp == d.asked && es[i].delayed(d.x) == d.late
  }

  lemma LeavingRight(v: seq<PacketLink>, t: uint32, delayed: PacketLink -> bool)
    ensures forall d :: d in Leaving(v, t, delayed) ==> LeftRight(d) && d.asked == t && d.late == delayed(d.x)
  {
    hide HeadRun;
    HeadRunMaximal(v, t, delayed);
    var r, n := Leaving(v, t, delayed), HeadRun(v, t, delayed);
    forall i | 0 <= i < |r| ensures LeftRight(r[i]) && r[i].asked == t && r[i].late == delayed(r[i].x) {
      if i < n {
        assert v[i].timestamp < t || delayed(v[i]);
      }
    }
  }

  /** Over every run: no packet expires at a request for its own time unless it is late, and none is returned at another. */
  lemma {:induction false} RunLeavesRight(q: Queue, es: seq<Event>)
    ensures forall d :: d in AfterRun(q, es).left ==> LeftRight(d) && AtRequest(d, es)
  {
    hide LeftRight, Leaving, Taken, AfterArrival, AfterRequest, Refused;
    if es != [] {
      var front := es[..|es| - 1];
      RunLeavesRight(q, front);
      var o := AfterRun(q, front);
      forall d | d in o.left ensures AtRequest(d, es) {
        var i :| 0 <= i < |front| && front[i].Request? && front[i].timestamp == d.asked && front[i].delayed(d.x) == d.late;
        assert es[i] == front[i];
      }
      match es[|es| - 1]
      case Arrival(x) =>
        assert AfterRun(q, es).left == o.left;
      case Request(t, delayed) =>
        LeavingRight(o.queue.Visible(), t, delayed);
        assert AfterRun(q, es).left == o.left + Leaving(o.queue.Visible(), t, delayed);
    }
  }

  /** And a visible packet that is asked for is the result. */
  lemma AskedIsReturned(o: Outcome, t: uint32, delayed: PacketLink -> bool, k: nat)
    requires Asked(o.queue.Visible(), k, t, delayed)
    ensures var left := AfterEvent(o, Request(t, delayed)).left;
      |left| == |o.left| + k + 1 && left[|left| - 1] == Departure(o.queue.Visible()[k], t, false, true)
  {
    hide HeadRun, AfterRequest;
    var v := o.queue.Visible();
    HeadRunMaximal(v, t, delayed);
    AskedIsNext(v, t, delayed, HeadRun(v, t, delayed));
  }

  /** Orderly runs hide nothing, and only they. */
  lemma {:induction false} OrderlyHidesNothing(q: Queue, es: seq<Event>)
    requires q.Shaped() && q.Ordered()
    ensures Orderly(q, es) <==> AfterRun(q, es).hidden == []
    ensures q.skip == 0 && Orderly(q, es) ==> AfterRun(q, es).queue.skip == 0 && AfterRun(q, es).lost == []
  {
    hide Queue.Shaped, Queue.Ordered, Refused, Queue.BeforeHead, Taken, FirstNewer, Inserted;
    if es != [] {
      OrderlyHidesNothing(q, es[..|es| - 1]);
      RunKeepsOrder(q, es[..|es| - 1]);
      var r := AfterRun(q, es[..|es| - 1]).queue;
      match es[|es| - 1]
      case Arrival(x) =>
        if r.BeforeHead(x) {
          BeforeHeadAccepted(r, x);
        }
      case Request(t, delayed) =>
    }
  }

  /** In orderly runs, and in no others, nothing is hidden at any moment. */
  lemma {:induction false} OrderlyNeverHides(q: Queue, es: seq<Event>)
    requires q.Shaped() && q.Ordered() && q.skip == 0
    ensures Orderly(q, es) <==> forall i :: 0 <= i <= |es| ==> AfterRun(q, es[..i]).queue.skip == 0
  {
    hide Queue.Shaped, Queue.Ordered, Queue.BeforeHead, AfterEvent;
    assert es[..|es|] == es;
    if es != [] {
      var front := es[..|es| - 1];
      OrderlyNeverHides(q, front);
      OrderlyHidesNothing(q, es);
      RunKeepsOrder(q, front);
      assert forall i :: 0 <= i <= |front| ==> es[..i] == front[..i];
      if !Orderly(q, es) && Orderly(q, front) {
        HidesOne(AfterRun(q, front), es[|front|].x);
      }
    }
  }

  lemma HidesOne(o: Outcome, x: PacketLink)
    requires o.queue.Shaped() && o.queue.Ordered() && o.queue.BeforeHead(x)
    ensures AfterEvent(o, Arrival(x)).queue.skip == o.queue.skip + 1
  {
    BeforeHeadAccepted(o.queue, x);
  }

  /**
   From a queue that hides nothing, what was there and what was accepted is what was taken
   out and what requests can still see, if and only if no arrival belonged in front of the
   head at its moment.
   */
  lemma RunConserves(q: Queue, es: seq<Event>)
    requires q.Shaped() && q.Ordered() && q.skip == 0
    ensures var o := AfterRun(q, es);
      multiset(o.Gone()) + multiset(o.queue.Visible()) == multiset(q.all) + multiset(o.accepted) <==> Orderly(q, es)
  {
    hide Queue.Shaped, Queue.Ordered, AfterRun, Orderly, Queue.Hidden, Queue.Visible;
    RunBalances(q, es);
    RunKeepsOrder(q, es);
    NothingHidden(q);
    ShapedHead(AfterRun(q, es).queue);
    OrderlyHidesNothing(q, es);
    var o := AfterRun(q, es);
    VisibleAndHidden(o.queue);
    Cancel(multiset(o.Gone()), multiset(o.queue.Visible()), multiset(o.queue.Hidden()), multiset(o.lost),
           multiset(o.hidden), multiset(q.all) + multiset(o.accepted));
    if o.hidden != [] {
      assert o.hidden[0] in multiset(o.hidden);
    }
  }

  lemma Cancel<T>(left: multiset<T>, v: multiset<T>, h: multiset<T>, lost: multiset<T>, hidden: multiset<T>,
                  all: multiset<T>)
    requires left + (v + h) + lost == all && lost + h == hidden
    ensures left + v == all <==> hidden == multiset{}
  {
    assert left + v + hidden == all;
    if left + v == all {
      forall x ensures hidden[x] == 0 {
        assert (left + v + hidden)[x] == (left + v)[x] + hidden[x];
      }
    }
  }

  lemma VisibleAndHidden(q: Queue)
    requires q.skip <= |q.all|
    ensures multiset(q.all) == multiset(q.Visible()) + multiset(q.Hidden())
  {
    assert q.all == q.all[..q.skip] + q.all[q.skip..];
  }

  lemma FirstArrival(a: PacketLink)
    ensures AfterEvent(Outcome(Queue([], 0, false), [], [], [], []), Arrival(a))
         == Outcome(Queue([a], 0, false), [], [a], [], [])
  {
  }

  lemma SecondArrival(a: PacketLink, b: PacketLink)
    requires a.source == b.source && b.seqNum < a.seqNum
    ensures AfterEvent(Outcome(Queue([a], 0, false), [], [a], [], []), Arrival(b))
         == Outcome(Queue([b, a], 1, false), [], [a, b], [b], [])
  {
    RestrictOne(a, b.source);
  }

  lemma LastRequest(a: PacketLink, b: PacketLink, t: uint32, delayed: PacketLink -> bool)
    requires a.timestamp < t
    ensures AfterEvent(Outcome(Queue([b, a], 1, false), [], [a, b], [b], []), Request(t, delayed))
         == Outcome(Queue([], 0, false), [Departure(a, t, delayed(a), false)], [a, b], [b], [b])
  {
    assert [b, a][1..] == [a] && HeadRun([a], t, delayed) == 1;
  }

  /**
   Packet 10 and then packet 5 of one source arrive, and a request is made when both are
   too old: packet 10 expires, and packet 5 is neither returned nor expired nor queued.
   */
  lemma EarlierPacketLost(a: PacketLink, b: PacketLink)
    requires a.source == b.source && a.seqNum == 10 && a.timestamp == 100 && b.seqNum == 5 && b.timestamp == 50
    ensures AfterRun(Queue([], 0, false), [Arrival(a), Arrival(b), Request(200, (x: PacketLink) => false)])
         == Outcome(Queue([], 0, false), [Departure(a, 200, false, false)], [a, b], [b], [b])
  {
    var never := (x: PacketLink) => false;
    var es := [Arrival(a), Arrival(b), Request(200, never)];
    var start := Queue([], 0, false);
    var one, two := Outcome(Queue([a], 0, false), [], [a], [], []), Outcome(Queue([b, a], 1, false), [], [a, b], [b], []);
    assert AfterRun(start, es[..1]) == one by {
      assert es[..1][..0] == [] && es[..1][0] == es[0];
      FirstArrival(a);
    }
    assert AfterRun(start, es[..2]) == two by {
      assert es[..2][..1] == es[..1] && es[..2][1] == es[1];
      SecondArrival(a, b);
    }
    LastRequest(a, b, 200, never);
  }

  /**
   Packets 10 and 5 of one source again, and a request for an earlier time, which takes
   nothing: in front of packet 10 there is no link any more for packet 7 to be put in.
   */
  lemma LinkLostByRequest(a: PacketLink, b: PacketLink, x: PacketLink)
    requires a.source == b.source == x.source && a.seqNum == 10 && b.seqNum == 5 && x.seqNum == 7
    requires a.timestamp == 100
    ensures var two := Outcome(Queue([b, a], 1, false), [], [a, b], [b], []);
      AfterEvent(two, Request(50, (y: PacketLink) => false)).queue.Torn(x)
  {
    assert [b, a][1..] == [a];
    assert [b, a][1..][1..] == [];
    assert FirstNewer([a], x) == 0;
  }

  // ---- Sending order ----

  /**
   The queue orders packets by their 16-bit numbers. Of packets sent less than one cycle of
   numbers apart, that is the order in which they were sent if and only if no cycle began
   between them.
   */
  lemma OrderIsSendingOrder(mine: seq<PacketLink>, index: PacketLink -> nat)
    requires InOrder(mine) && forall x :: x in mine ==> x.seqNum == index(x) % TWO16
    requires forall i, j :: 0 <= i < j < |mine| ==> index(mine[i]) != index(mine[j])
    requires forall x, y :: x in mine && y in mine ==> index(x) < index(y) + TWO16
    ensures (forall i, j :: 0 <= i < j < |mine| ==> index(mine[i]) < index(mine[j]))
       <==> (forall x, y :: x in mine && y in mine ==> index(x) / TWO16 == index(y) / TWO16)
  {
    forall i, j | 0 <= i < j < |mine|
      ensures index(mine[i]) < index(mine[j]) <==> index(mine[i]) / TWO16 == index(mine[j]) / TWO16
    {
      var a, b := mine[i], mine[j];
      assert a in mine && b in mine;
    }
  }

  /** A packet sent later than the visible head of its source is put in front of it exactly when a cycle began in between. */
  lemma NextCycleInFront(q: Queue, x: PacketLink, index: PacketLink -> nat)
    requires q.skip < |q.all| && q.all[q.skip].source == x.source
    requires var head := q.all[q.skip];
      && head.seqNum == index(head) % TWO16 && x.seqNum == index(x) % TWO16
      && index(head) < index(x) < index(head) + TWO16
    ensures q.BeforeHead(x) <==> index(x) / TWO16 != index(q.all[q.skip]) / TWO16
  {
  }

  // ---- The queue as an object ----

  class IncomingQueue {
    var recvFirst: PacketLink?
    var recvLast: PacketLink?
    /** The packets in the queue in global order, and the sources they may come from. */
    ghost var all: seq<PacketLink>
    ghost var skip: nat
    ghost var cut: bool
    ghost var sources: set<SourceLink>

    ghost function State(): Queue
      reads this`all, this`skip, this`cut
    {
      Queue(all, skip, cut)
    }

    ghost function Gap(): nat
      reads this`skip, this`cut
    {
      if cut then skip else 0
    }

    ghost predicate Known(q: seq<PacketLink>)
      reads this`sources
    {
      forall x :: x in q ==> x.source in sources
    }

    /** Both kinds of list are linked as the state says. */
    ghost predicate Threaded()
      reads this, sources, all
    {
      && Distinct(all) && Linked(all, Gap()) && State().Shaped() && Known(all)
      && (forall s :: s in sources ==> SourceList(s, Restrict(all, s)))
    }

    lemma Parts(s: SourceLink)
      requires Threaded() && s in sources
      ensures Distinct(all) && Linked(all, Gap()) && State().Shaped() && Known(all)
      ensures SourceList(s, Restrict(all, s)) && InOrder(Restrict(all, s))
    {
    }

    ghost predicate Sound()
      reads this, sources, all
    {
      && Threaded() && HeadClear(all, Gap())
      && recvLast == At(all, |all| - 1) && recvFirst == At(all, skip)
    }

    /** Nothing is hidden. */
    ghost predicate Valid()
      reads this, sources, all
    {
      Sound() && skip == 0
    }

    constructor ()
      ensures Valid() && all == [] && sources == {}
    {
      recvFirst, recvLast, all, skip, cut, sources := null, null, [], 0, false, {};
    }

    /** A source not seen before brings no packets. */
    method AddSource(s: SourceLink)
      requires Sound() && s !in sources && s.first == null && s.last == null
      modifies this`sources
      ensures Sound() && sources == old(sources) + {s} && State() == old(State())
    {
      hide Linked, Distinct, Restrict, HeadClear;
      NoneOf(all, s);
      sources := sources + {s};
    }

    /** The timestamp at the head of the queue, or 0 when it is empty. */
    method GetFirstTimestamp() returns (ts: uint32)
      requires Sound()
      ensures ts == if State().Visible() == [] then 0 else State().Visible()[0].timestamp
    {
      hide Linked, Distinct, SourceList;
      ts := if recvFirst != null then recvFirst.timestamp else 0;
    }

    /** The lists of all sources but one are linked as q says. */
    ghost predicate Others(q: seq<PacketLink>, s: SourceLink)
      reads this`sources, sources, q`srcNext, q`srcPrev
    {
      forall t :: t in sources && t != s ==> SourceList(t, Restrict(q, t))
    }

    /** What linking x into both lists must leave. */
    lemma Reestablish(before: Queue, x: PacketLink, at: nat)
      requires before.Shaped() && Distinct(before.all) && x !in before.all && at <= |before.all|
      requires all == Inserted(before.all, at, x) && cut == before.cut
      requires skip == if before.all != [] && at <= before.skip then before.skip + 1 else before.skip
      requires before.all != [] && at <= before.skip ==> x.source == before.all[before.skip].source
      requires x.source in sources && Known(before.all)
      requires Linked(all, Gap()) && SourceList(x.source, Restrict(all, x.source))
      requires Others(before.all, x.source)
      ensures Threaded()
    {
      hide Linked, Restrict, Inserted, SourceList;
      InsertedAt(before.all, at, x);
      forall y | y in all ensures y.source in sources {
        assert y in before.all || y == x;
      }
      forall t | t in sources && t != x.source ensures SourceList(t, Restrict(all, t)) {
        RestrictInserted(before.all, at, x, t);
      }
    }

    /** A packet that may be inserted: new to the queue, unlinked, from a known source. */
    ghost predicate Insertable(x: PacketLink)
      reads this, x
    {
      && x !in all && x.source in sources
      && x.prev == null && x.next == null && x.srcPrev == null && x.srcNext == null
    }

    /** The list of its source takes x at its end; no other list changes. */
    method SourceAppend(x: PacketLink)
      requires Sound() && Insertable(x)
      requires var mine := Restrict(all, x.source); mine != [] ==> mine[|mine| - 1].seqNum <= x.seqNum
      modifies x.source, all`srcNext, x`srcPrev
      ensures SourceList(x.source, Restrict(all, x.source) + [x]) && Others(all, x.source)
    {
      hide Linked, Distinct, Restrict, InOrder, SourceList, HeadClear, Queue.Shaped;
      ghost var s := x.source;
      RestrictDistinct(all, s);
      SrcAppend(Restrict(all, s), x);
      forall t | t in sources && t != s ensures SourceList(t, Restrict(all, t)) {
        assert old(SourceList(t, Restrict(all, t)));
      }
    }

    /** The list of its source takes x in front of the packet returned; no other list changes. */
    method SourceInsert(x: PacketLink, plink: PacketLink?) returns (place: PacketLink)
      requires Sound() && Insertable(x)
      requires var mine := Restrict(all, x.source);
        var k := Place(mine, x.seqNum); k < |mine| && plink == At(mine, k - 1)
      modifies x.source, all`srcNext, all`srcPrev, x`srcNext, x`srcPrev
      ensures var mine := Restrict(all, x.source);
        var k := Place(mine, x.seqNum);
        place == mine[k] && SourceList(x.source, Inserted(mine, k, x))
      ensures Others(all, x.source)
    {
      hide Linked, Distinct, Restrict, InOrder, SourceList, HeadClear, Inserted, Queue.Shaped, Place;
      ghost var s := x.source;
      RestrictDistinct(all, s);
      place := SrcInsert(Restrict(all, s), Place(Restrict(all, s), x.seqNum), plink, x);
      forall t | t in sources && t != s ensures SourceList(t, Restrict(all, t)) {
        assert old(SourceList(t, Restrict(all, t)));
      }
    }

    /** The global list takes x at its end. */
    method GlobalAppend(x: PacketLink)
      requires Distinct(all) && Linked(all, Gap()) && HeadClear(all, Gap()) && x !in all
      requires recvLast == At(all, |all| - 1) && recvFirst == At(all, skip) && (skip < |all| || (all == [] && skip == 0))
      requires cut ==> skip > 0
      requires x.prev == null && x.next == null
      modifies this`recvFirst, this`recvLast, this`all, all`next, x`prev
      ensures all == old(all) + [x] && Linked(all, Gap()) && HeadClear(all, Gap())
      ensures recvLast == At(all, |all| - 1) && recvFirst == At(all, skip)
      ensures old(recvFirst) != null ==> recvFirst == old(recvFirst)
    {
      hide Linked, Distinct, HeadClear;
      LinkLast(all, Gap(), recvLast, x);
      recvLast := x;
      if recvFirst == null {
        recvFirst := x;
      }
      all := all + [x];
    }

    /** The global list takes x in front of place; the head pointer stays on its packet. */
    method GlobalInsert(x: PacketLink, place: PacketLink, ghost at: nat)
      requires Distinct(all) && Linked(all, Gap()) && HeadClear(all, Gap()) && x !in all && x.prev == null
      requires at < |all| && all[at] == place && skip < |all| && (cut ==> skip > 0 && at != skip)
      requires recvLast == At(all, |all| - 1) && recvFirst == At(all, skip)
      modifies this`all, this`skip, all`next, all`prev, x`next, x`prev
      ensures all == Inserted(old(all), at, x) && Linked(all, Gap()) && HeadClear(all, Gap())
      ensures skip == if at <= old(skip) then old(skip) + 1 else old(skip)
      ensures recvLast == At(all, |all| - 1) && recvFirst == At(all, skip)
    {
      hide Linked, Distinct, HeadClear, Inserted, At;
      EndsKept(all, at, x, skip);
      LinkBefore(all, Gap(), at, place, x);
      all := Inserted(all, at, x);
      skip := if at <= skip then skip + 1 else skip;
    }

    /** Behind the last packet of its source and behind everything else. */
    method InsertOrdered(x: PacketLink)
      requires Sound() && Insertable(x)
      requires var mine := Restrict(all, x.source); mine != [] ==> mine[|mine| - 1].seqNum <= x.seqNum
      modifies this`recvFirst, this`recvLast, this`all, x.source, all`next, all`srcNext
      modifies x`prev, x`srcPrev
      ensures Sound() && all == old(all) + [x]
      ensures old(recvFirst) != null ==> recvFirst == old(recvFirst)
      ensures Restrict(all, x.source) == old(Restrict(all, x.source)) + [x]
    {
      hide Linked, Distinct, Restrict, SourceList, HeadClear, Queue.Shaped, Others, Threaded, Known, InOrder, Inserted;
      ghost var before := State();
      Parts(x.source);
      ShapedHead(before);
      RestrictAppended(before.all, x, x.source);
      SourceAppend(x);
      GlobalAppend(x);
      Reestablish(before, x, |before.all|);
    }

    /**
     In front of the first packet of its source that is newer, in both lists. The head
     pointer of the global list is not moved, so what belongs in front of it is hidden.
     */
    method InsertDisordered(x: PacketLink, plink: PacketLink?)
      requires Sound() && Insertable(x) && !State().Torn(x)
      requires var mine := Restrict(all, x.source);
        var k := Place(mine, x.seqNum); k < |mine| && plink == At(mine, k - 1)
      modifies x.source, all`next, all`prev, all`srcNext, all`srcPrev
      modifies this`all, this`skip, x`prev, x`next, x`srcPrev, x`srcNext
      ensures Sound() && all == Inserted(old(all), FirstNewer(old(all), x), x)
      ensures skip == if old(State().BeforeHead(x)) then old(skip) + 1 else old(skip)
      ensures var mine := old(Restrict(all, x.source));
        Restrict(all, x.source) == Inserted(mine, Place(mine, x.seqNum), x)
    {
      hide Linked, Distinct, Restrict, SourceList, HeadClear, Inserted, Place, At, FirstNewer, Others;
      hide Threaded, Known, InOrder, Queue.Shaped, Queue.BeforeHead, Queue.Torn;
      ghost var before := State();
      Parts(x.source);
      DisorderedPlace(before, x);
      var place := SourceInsert(x, plink);
      ghost var mine := Restrict(before.all, x.source);
      ghost var grown := Inserted(mine, Place(mine, x.seqNum), x);
      assert SourceList(x.source, grown);
      GlobalInsert(x, place, FirstNewer(before.all, x));
      assert SourceList(x.source, grown);
      Reestablish(before, x, FirstNewer(before.all, x));
    }

    /**
     A packet is refused exactly when it repeats the newest number of its source. Any other
     packet enters both lists at the place its number calls for, an older duplicate included.
     */
    method InsertRecvPacket(x: PacketLink) returns (ok: bool)
      requires Sound() && Insertable(x) && !State().Torn(x)
      modifies this`recvFirst, this`recvLast, this`all, this`skip
      modifies x.source, all`next, all`prev, all`srcNext, all`srcPrev, x`prev, x`next, x`srcPrev, x`srcNext
      ensures Sound() && State() == AfterArrival(old(State()), x)
      ensures ok == !Refused(old(all), x) == !RepeatsNewest(old(all), x)
      ensures ok ==> exists i :: BelongsAt(old(all), i, x) && all == Inserted(old(all), i, x)
      ensures old(recvFirst) != null ==> recvFirst == old(recvFirst)
      ensures var mine := old(Restrict(all, x.source));
        ok ==> Restrict(all, x.source) == Inserted(mine, Place(mine, x.seqNum), x)
    {
      hide Linked, Distinct, Restrict, HeadClear, Inserted, InOrder, Threaded, Known, Queue.Shaped, FirstNewer;
      hide BelongsAt, RepeatsNewest;
      ghost var mine := Restrict(all, x.source);
      Parts(x.source);
      RefusedExactly(all, x);
      BelongsThere(all, x);
      PlaceOfLast(mine, x.seqNum);
      var plink := x.source.last;
      if plink != null && x.seqNum < plink.seqNum {
        plink := Scan(mine, plink, x.seqNum);
        InsertDisordered(x, plink);
        ok := true;
      } else if plink != null && x.seqNum == plink.seqNum {
        ok := false;
      } else {
        OrderedPlace(State(), x);
        InsertOrdered(x);
        ok := true;
      }
    }

    /**
     Take the visible head out of both lists. Its source's list begins behind it from now
     on, so what was hidden is lost; the new head's prev still points at the old one.
     */
    method DropHead() returns (l: PacketLink)
      requires Threaded() && skip < |all| && recvFirst == all[skip]
      modifies this`recvFirst, this`all, this`skip, this`cut, sources, all`srcPrev
      ensures Threaded() && l == old(all)[old(skip)] && State() == Queue(old(all)[old(skip) + 1..], 0, false)
      ensures recvFirst == At(all, 0)
    {
      hide Distinct, SourceList, Restrict, Linked, At, SrcLinked, InOrder;
      ghost var before, h := all, skip;
      l := recvFirst;
      ghost var s := l.source;
      ghost var mine := Restrict(all, s);
      TailLinked(all, Gap(), h);
      RestrictTail(all, h, s, s);
      RestrictDistinct(all, s);
      HeadInSource(mine, all, h);
      recvFirst := recvFirst.next;
      SrcDropHead(mine, h, l);
      all, skip, cut := all[h + 1..], 0, false;
      forall t | t in sources && t != s ensures SourceList(t, Restrict(all, t)) {
        RestrictTail(before, h, s, t);
        assert old(SourceList(t, Restrict(all, t)));
      }
    }

    /** How many packets from the head on are too old. */
    method CountOld(timestamp: uint32, delayed: PacketLink -> bool) returns (nold: nat, l: PacketLink?)
      requires Threaded() && recvFirst == At(all, skip)
      ensures nold == HeadRun(State().Visible(), timestamp, delayed) && l == At(all, skip + nold)
    {
      hide Distinct, SourceList, Restrict, Linked, Threaded, At, Queue.Visible, Old, HeadRun;
      ghost var q := State();
      ghost var v := q.Visible();
      LinkedHere();
      nold, l := 0, recvFirst;
      RunFrom(q, 0, timestamp, delayed);
      assert v[0..] == v;
      while l != null && Old(l, timestamp, delayed)
        invariant nold <= |v| && l == At(all, skip + nold)
        invariant HeadRun(v, timestamp, delayed) == nold + HeadRun(v[nold..], timestamp, delayed)
        decreases |v| - nold
      {
        RunFrom(q, nold, timestamp, delayed);
        NextOf(all, Gap(), skip + nold);
        nold := nold + 1;
        l := l.next;
      }
      RunFrom(q, nold, timestamp, delayed);
    }

    lemma LinkedHere()
      requires Threaded()
      ensures Linked(all, Gap()) && State().Shaped()
    {
    }

    /** Drop packets from the head. */
    method Expire(nold: nat) returns (expired: seq<PacketLink>)
      requires Threaded() && nold <= |State().Visible()| && recvFirst == At(all, skip)
      modifies this`recvFirst, this`all, this`skip, this`cut, sources, all`srcPrev
      ensures Threaded() && recvFirst == At(all, skip)
      ensures var v := old(State().Visible());
        && expired == v[..nold]
        && State() == if nold == 0 then old(State()) else Queue(v[nold..], 0, false)
    {
      hide Threaded, At;
      ghost var v, q := State().Visible(), State();
      expired := [];
      for i := 0 to nold
        invariant Threaded() && recvFirst == At(all, skip) && expired == v[..i]
        invariant State() == if i == 0 then q else Queue(v[i..], 0, false)
        invariant all == if i == 0 then q.all else v[i..]
      {
        ShapedHere();
        NextVisible(q, i);
        var head := DropHead();
        expired := expired + [head];
      }
    }

    lemma ShapedHere()
      requires Threaded()
      ensures State().Shaped() && (recvFirst == At(all, skip) && skip < |all| ==> recvFirst == all[skip])
    {
      hide Linked, Distinct, SourceList, Known;
    }

    /** The new head points at nothing in front of it; what is hidden there is cut off. */
    method ClearHead()
      requires Threaded() && skip < |all| && recvFirst == all[skip] && recvLast == all[|all| - 1]
      requires skip > 0 ==> all[0].prev == null
      modifies recvFirst`prev, this`cut
      ensures Sound() && State() == old(State()).(cut := skip > 0)
    {
      hide SourceList, Restrict;
      recvFirst.prev := null;
      cut := skip > 0;
    }

    /** The packet at the head, when it is not for later. */
    method TakeDue(timestamp: uint32) returns (result: PacketLink?)
      requires Threaded() && recvFirst == At(all, skip)
      requires all != [] ==> skip < |all| && recvLast == all[|all| - 1] && timestamp <= all[skip].timestamp
      requires skip > 0 ==> all[0].prev == null
      modifies this`recvFirst, this`recvLast, this`all, this`skip, this`cut, sources, all`srcPrev, all`prev
      ensures Sound()
      ensures var v := old(State().Visible());
        if v != [] && v[0].timestamp == timestamp
        then result == v[0] && State() == Queue(v[1..], 0, false)
        else result == null && State() == old(State()).(cut := old(skip) > 0)
    {
      hide Distinct, SourceList, Restrict, Linked;
      if recvFirst == null {
        recvLast := null;
        result := null;
      } else if recvFirst.timestamp > timestamp {
        ClearHead();
        result := null;
      } else {
        result := DropHead();
        if recvFirst != null {
          ClearHead();
        } else {
          recvLast := null;
        }
      }
    }

    /**
     The packet due at `timestamp`. The maximal run of old packets at the head expires; the
     next packet is taken out and returned when its timestamp is the one asked for.
     */
    method GetWaiting(timestamp: uint32, delayed: PacketLink -> bool)
      returns (result: PacketLink?, expired: seq<PacketLink>)
      requires Sound()
      modifies this`recvFirst, this`recvLast, this`all, this`skip, this`cut, sources, all`srcPrev, all`prev
      ensures Sound() && State() == AfterRequest(old(State()), timestamp, delayed)
      ensures var v := old(State().Visible());
        var n := HeadRun(v, timestamp, delayed);
        && expired == v[..n]
        && result == if n < |v| && v[n].timestamp == timestamp then v[n] else null
      ensures forall x :: x in expired ==> x.timestamp < timestamp || delayed(x)
      ensures var v := old(State().Visible());
        forall k: nat :: Asked(v, k, timestamp, delayed) <==> k < |v| && k == |expired| && result == v[k]
      ensures result != null ==> Asked(old(State().Visible()), |expired|, timestamp, delayed)
    {
      hide Distinct, SourceList, Restrict, Linked, HeadRun, Known, Threaded, Queue.Visible, AfterRequest;
      ghost var q := State();
      ShapedHere();
      var nold, l := CountOld(timestamp, delayed);
      Remaining(q, timestamp, delayed);
      HeadRunMaximal(q.Visible(), timestamp, delayed);
      AskedIsNext(q.Visible(), timestamp, delayed, nold);
      VisibleIn(q, nold);
      expired := Expire(nold);
      assert all == if nold == 0 then q.all else q.Visible()[nold..];
      forall i | 0 <= i < |all| ensures all[i] in q.all {
        assert all[i] in all;
      }
      result := TakeDue(timestamp);
    }

    lemma InSourceOrder()
      requires Sound()
      ensures State().Shaped() && State().Ordered()
    {
      hide Linked, HeadClear, Restrict, Queue.Shaped, InOrder;
      forall i, j | 0 <= i < j < |all| && all[i].source == all[j].source ensures all[i].seqNum <= all[j].seqNum {
        assert all[i] in all;
        Parts(all[i].source);
        OrderAt(all, all[i].source, i, j);
      }
    }

    /** The arrivals from the i-th event on are new packets, and distinct. */
    ghost predicate Incoming(es: seq<Event>, i: nat)
      reads this, Packets(es)
    {
      && (forall k :: i <= k < |es| && es[k].Arrival? ==> Insertable(es[k].x))
      && (forall j, k :: i <= j < k < |es| && es[j].Arrival? && es[k].Arrival? ==> es[j].x != es[k].x)
    }

    /** One event does to the queue what AfterEvent says. */
    method Perform(e: Event, ghost o: Outcome) returns (left: seq<Departure>, accepted: seq<PacketLink>)
      requires Sound() && State() == o.queue
      requires e.Arrival? ==> Insertable(e.x) && !State().Torn(e.x)
      modifies this`recvFirst, this`recvLast, this`all, this`skip, this`cut, sources
      modifies all`next, all`prev, all`srcNext, all`srcPrev
      modifies Packets([e])`next, Packets([e])`prev, Packets([e])`srcNext, Packets([e])`srcPrev
      ensures Sound() && State() == AfterEvent(o, e).queue
      ensures o.left + left == AfterEvent(o, e).left && o.accepted + accepted == AfterEvent(o, e).accepted
    {
      hide Sound, Refused, AfterArrival, AfterRequest, Queue.Torn, Queue.BeforeHead, HeadRun;
      match e
      case Arrival(x) =>
        assert [e][0] == e;
        var ok := InsertRecvPacket(x);
        left, accepted := [], if ok then [x] else [];
      case Request(timestamp, delayed) =>
        var result, expired := GetWaiting(timestamp, delayed);
        left := seq(|expired|, i requires 0 <= i < |expired| => Departure(expired[i], timestamp, delayed(expired[i]), false))
          + (if result != null then [Departure(result, timestamp, delayed(result), true)] else []);
        accepted := [];
    }

    /**
     Any run of events does to the queue what AfterRun says, as long as no arrival meets a
     torn place; and nothing is hidden at the end of an orderly run.
     */
    method Serve(es: seq<Event>) returns (left: seq<Departure>, accepted: seq<PacketLink>)
      requires Sound() && Incoming(es, 0) && Followable(State(), es)
      modifies this`recvFirst, this`recvLast, this`all, this`skip, this`cut, sources
      modifies all`next, all`prev, all`srcNext, all`srcPrev
      modifies Packets(es)`next, Packets(es)`prev, Packets(es)`srcNext, Packets(es)`srcPrev
      ensures var o := AfterRun(old(State()), es);
        Sound() && State() == o.queue && left == o.left && accepted == o.accepted
      ensures old(Valid()) && Orderly(old(State()), es) ==> Valid()
    {
      hide Sound, AfterEvent, Queue.Torn, Queue.Shaped, Queue.Ordered;
      ghost var start := State();
      InSourceOrder();
      left, accepted := [], [];
      for i := 0 to |es|
        invariant Sound() && Incoming(es, i)
        invariant var o := AfterRun(start, es[..i]); State() == o.queue && left == o.left && accepted == o.accepted
        invariant forall x :: x in all ==> x in old(all) || x in Packets(es)
      {
        assert es[..i + 1][..i] == es[..i];
        FollowableAt(start, es, i);
        Members(AfterRun(start, es[..i]), es[i]);
        ghost var before := all;
        assert es[i].Arrival? ==> es[i].x in Packets(es);
        assert forall x :: x in Packets([es[i]]) ==> es[i].Arrival? && x == es[i].x;
        var l, a := Perform(es[i], AfterRun(start, es[..i]));
        left, accepted := left + l, accepted + a;
        forall k | i + 1 <= k < |es| && es[k].Arrival? ensures Insertable(es[k].x) {
          assert es[k].x !in before && es[k].x !in Packets([es[i]]);
        }
      }
      assert es[..|es|] == es;
      OrderlyHidesNothing(start, es);
    }
  }
}
