/**
 The table of synchronisation sources: a hash table with sorted collision chains, and a
 list of all sources in the order in which they were first asked for.
 */
module Memberships {
  import opened Basics
  import opened Octets

  /** The part of a source's record that the table itself uses. */
  class SourceRecord {
    const ssrc: uint32
    var next: SourceRecord?
    var nextCollis: SourceRecord?

    constructor (ssrc: uint32)
      ensures this.ssrc == ssrc && next == null && nextCollis == null
    {
      this.ssrc := ssrc;
      next, nextCollis := null, null;
    }
  }

  type Size = n: int | 0 < n < 0x1_0000_0000 witness 1

  /** Bucket of an identifier; the sum is taken in 32 bits. */
  function Hash(a: uint32, buckets: Size): (h: nat)
    ensures h < buckets
  {
    (a + a / 0x100) % TWO32 % buckets
  }

  function At(q: seq<SourceRecord>, i: int): SourceRecord? {
    if 0 <= i < |q| then q[i] else null
  }

  /** Following nextCollis walks q. */
  ghost predicate Chained(q: seq<SourceRecord>)
    reads q`nextCollis
  {
    && (forall i, j {:trigger q[i], q[j]} :: 0 <= i && i + 1 == j && j < |q| ==> q[i].nextCollis == q[j])
    && (q != [] ==> q[|q| - 1].nextCollis == null)
  }

  /** Following next walks q. */
  ghost predicate Listed(q: seq<SourceRecord>)
    reads q`next
  {
    && (forall i, j {:trigger q[i], q[j]} :: 0 <= i && i + 1 == j && j < |q| ==> q[i].next == q[j])
    && (q != [] ==> q[|q| - 1].next == null)
  }

  predicate Ascending(q: seq<SourceRecord>) {
    forall i, j :: 0 <= i < j < |q| ==> q[i].ssrc < q[j].ssrc
  }

  predicate AllIn(q: seq<SourceRecord>, h: nat, buckets: Size) {
    forall i :: 0 <= i < |q| ==> Hash(q[i].ssrc, buckets) == h
  }

  predicate DistinctIds(q: seq<SourceRecord>) {
    forall i, j :: 0 <= i < j < |q| ==> q[i].ssrc != q[j].ssrc
  }

  /** The identifiers of q, in its order. */
  function Ids(q: seq<SourceRecord>): (r: seq<uint32>)
    ensures |r| == |q| && forall i :: 0 <= i < |q| ==> r[i] == q[i].ssrc
  {
    seq(|q|, i requires 0 <= i < |q| => q[i].ssrc)
  }

  /** A new record takes its place in an ascending chain. */
  lemma InsertAscending(q: seq<SourceRecord>, k: nat, x: SourceRecord)
    requires Ascending(q) && k <= |q|
    requires k > 0 ==> q[k - 1].ssrc < x.ssrc
    requires k < |q| ==> x.ssrc < q[k].ssrc
    ensures Ascending(Inserted(q, k, x))
  {
    hide Inserted;
    InsertedAt(q, k, x);
  }

  /** Past a larger identifier an ascending chain does not hold the one sought. */
  lemma NotBeyond(q: seq<SourceRecord>, k: nat, ssrc: uint32)
    requires Ascending(q) && k <= |q|
    requires k > 0 ==> q[k - 1].ssrc < ssrc
    requires k < |q| ==> ssrc < q[k].ssrc
    ensures forall i :: 0 <= i < |q| ==> q[i].ssrc != ssrc
  {
  }

  /** A chain starts at its bucket's pointer, ascends, and holds what hashes to the bucket. */
  ghost predicate ChainIs(q: seq<SourceRecord>, head: SourceRecord?, h: nat, buckets: Size)
    reads q`nextCollis
  {
    head == At(q, 0) && Chained(q) && Ascending(q) && AllIn(q, h, buckets)
  }

  class Membership {
    const sourceBucketsNum: Size
    const sourceLinks: array<SourceRecord?>
    var first: SourceRecord?
    var last: SourceRecord?
    var members: uint32
    /** All records in the order of creation, and the chain of every bucket. */
    ghost var links: seq<SourceRecord>
    ghost var chains: seq<seq<SourceRecord>>

    ghost predicate ChainAt(h: nat)
      reads this`chains, this`links, sourceLinks, links`nextCollis
      requires h < |chains| == sourceLinks.Length == sourceBucketsNum
    {
      (forall i :: 0 <= i < |chains[h]| ==> chains[h][i] in links)
      && ChainIs(chains[h], sourceLinks[h], h, sourceBucketsNum)
    }

    ghost predicate Valid()
      reads this, sourceLinks, links
    {
      && |chains| == sourceLinks.Length == sourceBucketsNum
      && (forall h :: 0 <= h < |chains| ==> ChainAt(h))
      && (forall x :: x in links ==> x in chains[Hash(x.ssrc, sourceBucketsNum)])
      && DistinctIds(links) && Listed(links)
      && first == At(links, 0) && last == At(links, |links| - 1)
      && members == |links| % TWO32
    }

    constructor (initialSize: Size)
      ensures Valid() && links == [] && sourceBucketsNum == initialSize && fresh(sourceLinks)
    {
      sourceBucketsNum := initialSize;
      sourceLinks := new SourceRecord?[initialSize](_ => null);
      first, last, members := null, null, 0;
      links, chains := [], seq(initialSize, _ => []);
    }

    ghost function ChainFor(ssrc: uint32): seq<SourceRecord>
      reads this
      requires |chains| == sourceBucketsNum
    {
      chains[Hash(ssrc, sourceBucketsNum)]
    }

    /** In an ascending chain the place k decides whether the identifier is registered. */
    lemma Decided(ssrc: uint32, k: nat)
      requires Valid() && k <= |ChainFor(ssrc)|
      requires k > 0 ==> ChainFor(ssrc)[k - 1].ssrc < ssrc
      requires k < |ChainFor(ssrc)| ==> ssrc <= ChainFor(ssrc)[k].ssrc
      ensures ssrc in Ids(links) <==> k < |ChainFor(ssrc)| && ssrc == ChainFor(ssrc)[k].ssrc
    {
      hide Chained, Listed, Ascending, Hash, AllIn, DistinctIds;
      var q := ChainFor(ssrc);
      assert ChainAt(Hash(ssrc, sourceBucketsNum));
      if k < |q| && ssrc == q[k].ssrc {
        var i :| 0 <= i < |links| && links[i] == q[k];
        assert Ids(links)[i] == ssrc;
      } else {
        forall i | 0 <= i < |links| ensures links[i].ssrc == ssrc ==> links[i] in q {
          assert links[i] in links;
        }
        NotBeyond(q, k, ssrc);
      }
    }

    /** Is there a record for this identifier? The walk stops at a larger one. */
    method IsRegistered(ssrc: uint32) returns (result: bool)
      requires Valid()
      ensures result <==> ssrc in Ids(links)
    {
      hide Chained, Listed, Ascending, Hash, AllIn, DistinctIds, Ids;
      var h := Hash(ssrc, sourceBucketsNum);
      ghost var q := ChainFor(ssrc);
      assert ChainAt(h);
      ghost var k := 0;
      var sl := sourceLinks[h];
      result := false;
      while sl != null
        invariant k <= |q| && sl == At(q, k) && !result
        invariant k > 0 ==> q[k - 1].ssrc < ssrc
        decreases |q| - k
      {
        if ssrc == sl.ssrc {
          result := true;
          break;
        } else if ssrc < sl.ssrc {
          break;
        } else {
          ChainNext(q, k);
          sl := sl.nextCollis;
          k := k + 1;
        }
      }
      Decided(ssrc, k);
    }

    /** Along the chain of the identifier's bucket, up to the first one not smaller. */
    method Walk(ssrc: uint32) returns (prev: SourceRecord?, result: SourceRecord?, ghost k: nat)
      requires Valid()
      ensures k <= |ChainFor(ssrc)| && prev == At(ChainFor(ssrc), k - 1) && result == At(ChainFor(ssrc), k)
      ensures prev != null ==> prev.ssrc < ssrc
      ensures result != null ==> ssrc <= result.ssrc
    {
      hide Chained, Listed, Ascending, Hash, AllIn, DistinctIds, Ids;
      var hashing := Hash(ssrc, sourceBucketsNum);
      ghost var q := ChainFor(ssrc);
      assert ChainAt(hashing);
      prev, result, k := null, sourceLinks[hashing], 0;
      while result != null && ssrc > result.ssrc
        invariant k <= |q| && result == At(q, k) && prev == At(q, k - 1)
        invariant prev != null ==> prev.ssrc < ssrc
        decreases |q| - k
      {
        ChainNext(q, k);
        prev := result;
        result := result.nextCollis;
        k := k + 1;
      }
    }

    /** Put a record between prev and next in the chain of its bucket. */
    method Enter(x: SourceRecord, prev: SourceRecord?, next: SourceRecord?, ghost k: nat)
      requires Valid() && x !in links && x.nextCollis == null
      requires k <= |ChainFor(x.ssrc)| && prev == At(ChainFor(x.ssrc), k - 1) && next == At(ChainFor(x.ssrc), k)
      requires prev != null ==> prev.ssrc < x.ssrc
      requires next != null ==> x.ssrc < next.ssrc
      modifies sourceLinks, links`nextCollis, x`nextCollis
      ensures var h := Hash(x.ssrc, sourceBucketsNum);
        ChainIs(Inserted(chains[h], k, x), sourceLinks[h], h, sourceBucketsNum)
      ensures forall g :: 0 <= g < |chains| && g != Hash(x.ssrc, sourceBucketsNum) ==> ChainAt(g)
    {
      hide Listed, Hash, DistinctIds, Ids, Inserted, Ascending, Chained;
      var h := Hash(x.ssrc, sourceBucketsNum);
      ghost var q := chains[h];
      assert ChainAt(h);
      InsertedAt(q, k, x);
      InsertAscending(q, k, x);
      ChainInsert(q, k, prev, next, x);
      if prev == null {
        sourceLinks[h] := x;
      }
      forall g | 0 <= g < |chains| && g != h ensures ChainAt(g) {
        assert old(ChainAt(g));
        Apart(chains[g], q, g, h, sourceBucketsNum);
      }
    }

    /** Put a record at the end of the list of all sources and count it. */
    method Append(x: SourceRecord)
      requires Listed(links) && DistinctIds(links) && first == At(links, 0) && last == At(links, |links| - 1)
      requires x !in links && x.next == null && members == |links| % TWO32
      modifies this`first, this`last, this`members, links`next
      ensures Listed(links + [x]) && first == At(links + [x], 0) && last == x
      ensures members == (|links| + 1) % TWO32
    {
      if first != null {
        last.next := x;
      } else {
        first := x;
      }
      last := x;
      members := (members + 1) % TWO32;
    }

    /** Put a new record in its chain and in the list of all sources. */
    method Record(x: SourceRecord, prev: SourceRecord?, next: SourceRecord?, ghost k: nat)
      requires Valid() && x.ssrc !in Ids(links) && x !in links && x.next == null && x.nextCollis == null
      requires k <= |ChainFor(x.ssrc)| && prev == At(ChainFor(x.ssrc), k - 1) && next == At(ChainFor(x.ssrc), k)
      requires prev != null ==> prev.ssrc < x.ssrc
      requires next != null ==> x.ssrc < next.ssrc
      modifies this`first, this`last, this`members, this`links, this`chains, sourceLinks
      modifies links`next, links`nextCollis, x`nextCollis
      ensures Valid() && links == old(links) + [x]
    {
      hide Listed, Hash, DistinctIds, Ids, Inserted, ChainIs, At, ChainAt;
      ghost var h, records := Hash(x.ssrc, sourceBucketsNum), links;
      InLinks(h);
      Enter(x, prev, next, k);
      ghost var grown := Inserted(chains[h], k, x);
      assert ChainIs(grown, sourceLinks[h], h, sourceBucketsNum);
      Append(x);
      assert ChainIs(grown, sourceLinks[h], h, sourceBucketsNum);
      DistinctOneMore(links, x);
      Index(x, k);
      EndsOf(records, x);
    }

    lemma InLinks(h: nat)
      requires Valid() && h < |chains|
      ensures forall i :: 0 <= i < |chains[h]| ==> chains[h][i] in links
    {
      hide Listed, Hash, DistinctIds, Ids, ChainIs, At;
      assert ChainAt(h);
    }

    /** A record that was linked in is in its chain and among all records. */
    ghost method Index(x: SourceRecord, k: nat)
      requires |chains| == sourceLinks.Length == sourceBucketsNum
      requires var h := Hash(x.ssrc, sourceBucketsNum);
        && k <= |chains[h]| && ChainIs(Inserted(chains[h], k, x), sourceLinks[h], h, sourceBucketsNum)
        && (forall i :: 0 <= i < |chains[h]| ==> chains[h][i] in links)
        && (forall g :: 0 <= g < |chains| && g != h ==> ChainAt(g))
      requires forall y :: y in links ==> y in chains[Hash(y.ssrc, sourceBucketsNum)]
      modifies this`links, this`chains
      ensures links == old(links) + [x] && |chains| == sourceBucketsNum
      ensures forall h :: 0 <= h < |chains| ==> ChainAt(h)
      ensures forall y :: y in links ==> y in chains[Hash(y.ssrc, sourceBucketsNum)]
    {
      hide Hash, Inserted, ChainIs;
      var h, before := Hash(x.ssrc, sourceBucketsNum), chains;
      InsertedAt(before[h], k, x);
      links := links + [x];
      chains := before[h := Inserted(before[h], k, x)];
      forall i | 0 <= i < |chains[h]| ensures chains[h][i] in links {
        assert chains[h][i] in chains[h];
      }
      forall g | 0 <= g < |chains| && g != h ensures ChainAt(g) {
        assert old(ChainAt(g));
      }
    }

    /** The record of a source, created when the identifier was not asked for before. */
    method GetSourceBySSRC(ssrc: uint32) returns (result: SourceRecord, created: bool)
      requires Valid()
      modifies this`first, this`last, this`members, this`links, this`chains, sourceLinks, links`next, links`nextCollis
      ensures Valid() && result in links && result.ssrc == ssrc
      ensures created <==> ssrc !in old(Ids(links))
      ensures links == if created then old(links) + [result] else old(links)
      ensures Ids(links) == AfterRequest(old(Ids(links)), ssrc)
      ensures created ==> fresh(result)
    {
      hide Listed, Hash, DistinctIds, Ids, ChainIs;
      var prev, found;
      ghost var k;
      prev, found, k := Walk(ssrc);
      Decided(ssrc, k);
      if found != null && found.ssrc == ssrc {
        assert ChainAt(Hash(ssrc, sourceBucketsNum));
        return found, false;
      }
      result := new SourceRecord(ssrc);
      created := true;
      IdsOneMore(links, result);
      Record(result, prev, found, k);
    }

    /** An identifier has one record for good: later lookups return the same link. */
    lemma OneRecord(x: SourceRecord, y: SourceRecord)
      requires Valid() && x in links && y in links && x.ssrc == y.ssrc
      ensures x == y
    {
      var i :| 0 <= i < |links| && links[i] == x;
      var j :| 0 <= j < |links| && links[j] == y;
    }
  }

  lemma IdsOneMore(q: seq<SourceRecord>, x: SourceRecord)
    ensures Ids(q + [x]) == Ids(q) + [x.ssrc]
  {
  }

  lemma EndsOf(q: seq<SourceRecord>, x: SourceRecord)
    ensures At(q + [x], |q + [x]| - 1) == x
  {
  }

  lemma DistinctOneMore(q: seq<SourceRecord>, x: SourceRecord)
    requires DistinctIds(q) && x.ssrc !in Ids(q)
    ensures DistinctIds(q + [x])
  {
    assert forall i :: 0 <= i < |q| ==> q[i].ssrc == Ids(q)[i];
  }

  /** Chains of different buckets share no record. */
  lemma Apart(p: seq<SourceRecord>, q: seq<SourceRecord>, g: nat, h: nat, buckets: Size)
    requires AllIn(p, g, buckets) && AllIn(q, h, buckets) && g != h
    ensures forall i :: 0 <= i < |p| ==> p[i] !in q
  {
  }

  method ChainInsert(ghost q: seq<SourceRecord>, ghost k: nat, prev: SourceRecord?, next: SourceRecord?, x: SourceRecord)
    requires Chained(q) && Ascending(q) && x !in q && k <= |q| && prev == At(q, k - 1) && next == At(q, k)
    modifies q`nextCollis, x`nextCollis
    ensures Chained(Inserted(q, k, x))
  {
    hide Inserted;
    InsertedAt(q, k, x);
    if prev != null {
      prev.nextCollis := x;
    }
    x.nextCollis := next;
  }

  lemma ChainNext(q: seq<SourceRecord>, i: nat)
    requires Chained(q) && i < |q|
    ensures q[i].nextCollis == At(q, i + 1)
  {
    if i + 1 < |q| {
      assert q[i].nextCollis == q[i + 1];
    }
  }

  // ---- Runs of requests ----

  function AfterRequest(ids: seq<uint32>, ssrc: uint32): seq<uint32> {
    if ssrc in ids then ids else ids + [ssrc]
  }

  /** The identifiers of the table after a run of requests on an empty one. */
  function AfterRequests(requests: seq<uint32>): seq<uint32> {
    if requests == [] then []
    else AfterRequest(AfterRequests(requests[..|requests| - 1]), requests[|requests| - 1])
  }

  /** Where an identifier was asked for first. */
  function FirstRequest(requests: seq<uint32>, ssrc: uint32): (i: nat)
    requires ssrc in requests
    ensures i < |requests| && requests[i] == ssrc && ssrc !in requests[..i]
  {
    if requests[0] == ssrc then 0 else 1 + FirstRequest(requests[1..], ssrc)
  }

  lemma {:induction false} FirstRequestIn(requests: seq<uint32>, more: uint32, ssrc: uint32)
    requires ssrc in requests
    ensures FirstRequest(requests + [more], ssrc) == FirstRequest(requests, ssrc)
  {
    if requests[0] != ssrc {
      assert (requests + [more])[1..] == requests[1..] + [more];
      FirstRequestIn(requests[1..], more, ssrc);
    }
  }

  lemma {:induction false} FirstRequestLast(requests: seq<uint32>, ssrc: uint32)
    requires ssrc !in requests
    ensures FirstRequest(requests + [ssrc], ssrc) == |requests|
  {
    if requests != [] {
      assert (requests + [ssrc])[1..] == requests[1..] + [ssrc];
      FirstRequestLast(requests[1..], ssrc);
    }
  }

  /**
   After any run the table holds exactly what was asked for, each once, in the order of
   the first requests; so a request creates a record just when it is the first of its kind.
   */
  lemma {:induction false} TableIsRequests(requests: seq<uint32>)
    ensures var ids := AfterRequests(requests);
      && (forall x :: x in ids <==> x in requests)
      && (forall i, j :: 0 <= i < j < |ids| ==> FirstRequest(requests, ids[i]) < FirstRequest(requests, ids[j]))
  {
    if requests != [] {
      var n := |requests| - 1;
      var front, last := requests[..n], requests[n];
      TableIsRequests(front);
      assert requests == front + [last];
      var ids := AfterRequests(front);
      forall x | x in front ensures FirstRequest(requests, x) == FirstRequest(front, x) < n {
        FirstRequestIn(front, last, x);
      }
      if last !in front {
        FirstRequestLast(front, last);
      }
    }
  }
}
