/**
 What the receiver keeps of a source's sequence numbers (appendix A.1 of RFC 3550): the
 highest 16-bit number, and an accumulator that turns it into an extended number.
 */
module SequenceTracking {
  import opened Octets

  /** A source is valid when its probation has run down to 0. */
  datatype Reception = Reception(
    maxSeqNum: uint16,
    seqNumAccum: uint32,
    badSeqNum: uint32,
    probation: octet,
    observed: uint32)
  {
    function Extended(): uint32 {
      (maxSeqNum + seqNumAccum) % TWO32
    }
  }

  datatype Limits = Limits(maxDropout: uint16, maxMisorder: uint16, minValidSequence: octet)

  /** How far ahead of the highest number a packet is, modulo 2^16. */
  function StepOf(r: Reception, seqNum: uint16): uint16 {
    (seqNum - r.maxSeqNum) % TWO16
  }

  function InitSequence(r: Reception, seqNum: uint16): Reception {
    r.(maxSeqNum := seqNum, seqNumAccum := seqNum)
  }

  /** A packet of a source on probation. */
  function OnProbation(r: Reception, l: Limits, seqNum: uint16): (Reception, bool) {
    if seqNum == r.maxSeqNum + 1 then
      var p := (r.probation - 1) % 0x100;
      (r.(probation := p, maxSeqNum := seqNum, seqNumAccum := if p == 0 then seqNum else r.seqNumAccum), p == 0)
    else
      (r.(probation := (l.minValidSequence - 1) % 0x100, maxSeqNum := seqNum), false)
  }

  /** A packet of a valid source. */
  function FromValid(r: Reception, l: Limits, seqNum: uint16): (Reception, bool) {
    var step := StepOf(r, seqNum);
    if step < l.maxDropout then
      var accum := if seqNum < r.maxSeqNum then (r.seqNumAccum + TWO16) % TWO32 else r.seqNumAccum;
      (r.(maxSeqNum := seqNum, seqNumAccum := accum), true)
    else if step <= TWO16 - l.maxMisorder then
      if seqNum == r.badSeqNum then (InitSequence(r, seqNum), true)
      else
        var marked := r.(badSeqNum := (seqNum + 1) % TWO16);
        if 0 < r.observed then (marked, false) else (marked.(maxSeqNum := seqNum), true)
    else (r, true)
  }

  function Received(r: Reception, l: Limits, seqNum: uint16): (Reception, bool) {
    var (s, ok) := if r.probation != 0 then OnProbation(r, l, seqNum) else FromValid(r, l, seqNum);
    (if ok then s.(observed := (s.observed + 1) % TWO32) else s, ok)
  }

  class SourceStatistics {
    var maxSeqNum: uint16
    var seqNumAccum: uint32
    var badSeqNum: uint32
    var probation: octet
    var obsPacketCount: uint32

    function Tracked(): Reception
      reads this
    {
      Reception(maxSeqNum, seqNumAccum, badSeqNum, probation, obsPacketCount)
    }

    constructor (minValidSequence: octet)
      ensures Tracked() == Reception(0, 0, 0x1_0001, minValidSequence, 0)
    {
      maxSeqNum, seqNumAccum, badSeqNum, probation, obsPacketCount := 0, 0, 0x1_0001, minValidSequence, 0;
    }

    /** Is the packet accepted, and what does it change? */
    method RecordReception(l: Limits, seqNum: uint16) returns (result: bool)
      modifies this
      ensures (Tracked(), result) == Received(old(Tracked()), l, seqNum)
    {
      result := true;
      if probation != 0 {
        if seqNum == maxSeqNum + 1 {
          probation := (probation - 1) % 0x100;
          if probation == 0 {
            maxSeqNum, seqNumAccum := seqNum, seqNum;
          } else {
            result := false;
          }
        } else {
          probation := (l.minValidSequence - 1) % 0x100;
          result := false;
        }
        maxSeqNum := seqNum;
      } else {
        var step: uint16 := (seqNum - maxSeqNum) % TWO16;
        if step < l.maxDropout {
          if seqNum < maxSeqNum {
            seqNumAccum := (seqNumAccum + TWO16) % TWO32;
          }
          maxSeqNum := seqNum;
        } else if step <= TWO16 - l.maxMisorder {
          if seqNum == badSeqNum {
            maxSeqNum, seqNumAccum := seqNum, seqNum;
          } else {
            badSeqNum := (seqNum + 1) % TWO16;
            if 0 < obsPacketCount {
              result := false;
            } else {
              maxSeqNum := seqNum;
            }
          }
        }
      }
      if result {
        obsPacketCount := (obsPacketCount + 1) % TWO32;
      }
    }
  }

  // ---- The extended number ----

  lemma StepOver(m: uint16, n: uint16)
    ensures (n - m) % TWO16 == if n < m then n - m + TWO16 else n - m
  {
  }

  lemma SumsWrap(a: nat, b: int, c: int)
    requires 0 <= a + b
    ensures ((a + b) % TWO32 + c) % TWO32 == (a + (b + c)) % TWO32
  {
  }

  lemma AccumulatorAdds(m: uint16, n: uint16, accum: uint32)
    ensures (n + (if n < m then (accum + TWO16) % TWO32 else accum)) % TWO32
         == ((m + accum) % TWO32 + (n - m) % TWO16) % TWO32
  {
    StepOver(m, n);
    SumsWrap(m, accum, (n - m) % TWO16);
    SumsWrap(accum, TWO16, n);
  }

  /** A packet ahead by less than the dropout limit advances the extended number by exactly that much. */
  lemma StepAdvances(r: Reception, l: Limits, seqNum: uint16)
    requires r.probation == 0 && StepOf(r, seqNum) < l.maxDropout
    ensures var (s, ok) := Received(r, l, seqNum);
      ok && s.maxSeqNum == seqNum && s.Extended() == (r.Extended() + StepOf(r, seqNum)) % TWO32
  {
    AccumulatorAdds(r.maxSeqNum, seqNum, r.seqNumAccum);
  }

  /** A refused packet of a valid source leaves the extended number and the source's validity alone. */
  lemma RefusedKeeps(r: Reception, l: Limits, seqNum: uint16)
    requires r.probation == 0 && !Received(r, l, seqNum).1
    ensures var s := Received(r, l, seqNum).0;
      s.maxSeqNum == r.maxSeqNum && s.seqNumAccum == r.seqNumAccum && s.probation == 0 && s.observed == r.observed
  {
  }

  /** A step too large, repeated by its successor: the sequence starts anew. */
  predicate Resyncs(r: Reception, l: Limits, seqNum: uint16) {
    r.probation == 0 && l.maxDropout <= StepOf(r, seqNum) <= TWO16 - l.maxMisorder && seqNum == r.badSeqNum
  }

  /**
   The new sequence adds the number to itself, so the extended number is the packet's own
   number only for number 0.
   */
  lemma ResyncDoubles(r: Reception, l: Limits, seqNum: uint16)
    requires Resyncs(r, l, seqNum)
    ensures var (s, ok) := Received(r, l, seqNum);
      ok && s.Extended() == 2 * seqNum && (s.Extended() == seqNum <==> seqNum == 0)
  {
  }

  /** Neither near enough nor late: the packet is far. */
  predicate Far(r: Reception, l: Limits, seqNum: uint16) {
    l.maxDropout <= StepOf(r, seqNum) <= TWO16 - l.maxMisorder
  }

  /**
   Of two far packets the first is refused, unless it was awaited itself, and the second
   restarts the sequence if and only if its number is the next one; then only it counts.
   */
  lemma SuccessorRestarts(r: Reception, l: Limits, first: uint16, second: uint16)
    requires r.probation == 0 && r.observed > 0 && first != r.badSeqNum
    requires Far(r, l, first) && Far(r, l, second)
    ensures var (s, ok) := Received(r, l, first);
      var (t, again) := Received(s, l, second);
      && !ok && s.maxSeqNum == r.maxSeqNum && s.seqNumAccum == r.seqNumAccum
      && (again <==> second == (first + 1) % TWO16)
      && (again ==> t.maxSeqNum == second && t.seqNumAccum == second)
      && (!again ==> t.maxSeqNum == r.maxSeqNum && t.seqNumAccum == r.seqNumAccum)
  {
  }

  /** A packet k behind the highest is accepted just when k is below the misorder limit. */
  lemma LateAccepted(r: Reception, l: Limits, k: nat)
    requires r.probation == 0 && r.observed > 0 && 1 <= k <= TWO16 - l.maxDropout && k < TWO16
    requires !Resyncs(r, l, (r.maxSeqNum - k) % TWO16)
    ensures Received(r, l, (r.maxSeqNum - k) % TWO16).1 <==> k < l.maxMisorder
  {
    assert StepOf(r, (r.maxSeqNum - k) % TWO16) == TWO16 - k;
  }

  // ---- Runs ----

  /** The highest packet after one more, counted without wrapping. */
  function Top(top: nat, packet: nat, l: Limits): nat {
    if top <= packet < top + l.maxDropout then packet else top
  }

  /** A packet whose 16-bit number does not pass for a near one while the packet is far. */
  predicate Telling(top: nat, packet: nat, l: Limits) {
    (packet - top) % TWO16 < l.maxDropout ==> top <= packet < top + l.maxDropout
  }

  function After(r: Reception, l: Limits, packets: seq<nat>): Reception {
    if packets == [] then r
    else Received(After(r, l, packets[..|packets| - 1]), l, packets[|packets| - 1] % TWO16).0
  }

  function TopAfter(top: nat, packets: seq<nat>, l: Limits): nat {
    if packets == [] then top
    else Top(TopAfter(top, packets[..|packets| - 1], l), packets[|packets| - 1], l)
  }

  /** Numbers one after the other. */
  function From(n: nat, k: nat): (r: seq<nat>)
    ensures |r| == k
  {
    seq(k, i => n + i)
  }

  lemma AfterFrom(r: Reception, l: Limits, n: nat, k: nat)
    requires n + k < TWO16
    ensures After(r, l, From(n, k + 1)) == Received(After(r, l, From(n, k)), l, n + k).0
    ensures After(r, l, From(n, 0)) == r
  {
    hide Received;
    assert From(n, k + 1)[..k] == From(n, k) && From(n, k + 1)[k] == n + k;
    assert From(n, 0) == [];
  }

  /** A source nothing was received from. */
  function Unheard(minValidSequence: octet): Reception {
    Reception(0, 0, 0x1_0001, minValidSequence, 0)
  }

  /**
   A new source becomes valid with exactly the required number of consecutive packets,
   whatever number they begin with, and the last of them is the first accepted; but where
   one packet is enough, that one is accepted only if its number is 1.
   */
  lemma {:induction false} BecomesValid(l: Limits, n: nat, k: nat)
    requires 1 <= k <= l.minValidSequence && n + k <= TWO16
    ensures var before := After(Unheard(l.minValidSequence), l, From(n, k - 1));
      var (r, ok) := Received(before, l, n + k - 1);
      && After(Unheard(l.minValidSequence), l, From(n, k)) == r
      && r.probation == l.minValidSequence - k && r.maxSeqNum == n + k - 1
      && (ok <==> k == l.minValidSequence && (k > 1 || n == 1))
  {
    hide Received, After, From;
    var before := After(Unheard(l.minValidSequence), l, From(n, k - 1));
    AfterFrom(Unheard(l.minValidSequence), l, n, k - 1);
    if k == 1 {
      FirstHeard(l, n);
    } else {
      BecomesValid(l, n, k - 1);
      NextHeard(before, l, n + k - 1);
    }
  }

  lemma FirstHeard(l: Limits, seqNum: uint16)
    requires l.minValidSequence >= 1
    ensures var (r, ok) := Received(Unheard(l.minValidSequence), l, seqNum);
      r.probation == l.minValidSequence - 1 && r.maxSeqNum == seqNum
      && (ok <==> l.minValidSequence == 1 && seqNum == 1)
  {
  }

  lemma NextHeard(r: Reception, l: Limits, seqNum: uint16)
    requires r.probation != 0 && seqNum == r.maxSeqNum + 1
    ensures var (s, ok) := Received(r, l, seqNum);
      s.probation == r.probation - 1 && s.maxSeqNum == seqNum && (ok <==> r.probation == 1)
  {
  }

  /** A packet out of sequence makes the count begin with itself. */
  lemma GapStartsAnew(r: Reception, l: Limits, seqNum: uint16)
    requires r.probation != 0 && l.minValidSequence > 0 && seqNum != r.maxSeqNum + 1
    ensures var (s, ok) := Received(r, l, seqNum);
      !ok && s.probation == l.minValidSequence - 1 && s.maxSeqNum == seqNum && s.observed == r.observed
  {
  }

  /** A run of telling packets that never starts the sequence anew. */
  predicate Steady(r: Reception, l: Limits, top: nat, packets: seq<nat>) {
    packets == [] ||
    var front, last := packets[..|packets| - 1], packets[|packets| - 1];
    && Steady(r, l, top, front)
    && Telling(TopAfter(top, front, l), last, l)
    && !Resyncs(After(r, l, front), l, last % TWO16)
  }

  lemma StepIsDistance(top: nat, packet: nat)
    ensures (packet % TWO16 - top % TWO16) % TWO16 == (packet - top) % TWO16
  {
  }

  /**
   Over any number of 16-bit wraps the extended number moves as far as the highest packet
   does, whatever late, repeated or refused packets come between.
   */
  lemma {:induction false} RunFollowsPackets(r: Reception, l: Limits, top: nat, packets: seq<nat>)
    requires r.probation == 0 && r.observed > 0 && r.maxSeqNum == top % TWO16
    requires r.observed + |packets| < TWO32
    requires Steady(r, l, top, packets)
    ensures var s := After(r, l, packets);
      var high := TopAfter(top, packets, l);
      && s.probation == 0 && 0 < s.observed <= r.observed + |packets|
      && high >= top && s.maxSeqNum == high % TWO16
      && s.Extended() == (r.Extended() + (high - top)) % TWO32
  {
    hide Received, Resyncs, Top, Telling;
    if packets != [] {
      var front, packet := packets[..|packets| - 1], packets[|packets| - 1];
      RunFollowsPackets(r, l, top, front);
      OnePacket(After(r, l, front), l, TopAfter(top, front, l), packet);
      SumsWrap(r.Extended(), TopAfter(top, front, l) - top, TopAfter(top, packets, l) - TopAfter(top, front, l));
    }
  }

  /** A far packet that does not start the sequence anew changes neither number. */
  lemma FarKeeps(r: Reception, l: Limits, seqNum: uint16)
    requires r.probation == 0 && 0 < r.observed < TWO32 - 1
    requires StepOf(r, seqNum) >= l.maxDropout && !Resyncs(r, l, seqNum)
    ensures var s := Received(r, l, seqNum).0;
      && s.probation == 0 && 0 < s.observed <= r.observed + 1
      && s.maxSeqNum == r.maxSeqNum && s.seqNumAccum == r.seqNumAccum
  {
  }

  lemma OnePacket(r: Reception, l: Limits, top: nat, packet: nat)
    requires r.probation == 0 && 0 < r.observed < TWO32 - 1 && r.maxSeqNum == top % TWO16
    requires Telling(top, packet, l) && !Resyncs(r, l, packet % TWO16)
    ensures var s := Received(r, l, packet % TWO16).0;
      var high := Top(top, packet, l);
      && s.probation == 0 && 0 < s.observed <= r.observed + 1
      && high >= top && s.maxSeqNum == high % TWO16
      && s.Extended() == (r.Extended() + (high - top)) % TWO32
  {
    hide Resyncs, Received;
    StepIsDistance(top, packet);
    if StepOf(r, packet % TWO16) < l.maxDropout {
      StepAdvances(r, l, packet % TWO16);
      NearDistance(top, packet, l);
      NearKeeps(r, l, packet % TWO16);
    } else {
      FarDistance(top, packet, l);
      FarKeeps(r, l, packet % TWO16);
    }
  }

  lemma NearKeeps(r: Reception, l: Limits, seqNum: uint16)
    requires r.probation == 0 && 0 < r.observed < TWO32 - 1 && StepOf(r, seqNum) < l.maxDropout
    ensures var s := Received(r, l, seqNum).0; s.probation == 0 && 0 < s.observed <= r.observed + 1
  {
  }

  lemma NearDistance(top: nat, packet: nat, l: Limits)
    requires Telling(top, packet, l) && (packet - top) % TWO16 < l.maxDropout
    ensures Top(top, packet, l) == packet && packet - top == (packet - top) % TWO16
  {
  }

  lemma FarDistance(top: nat, packet: nat, l: Limits)
    requires (packet - top) % TWO16 >= l.maxDropout
    ensures Top(top, packet, l) == top
  {
  }
}
