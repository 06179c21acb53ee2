/**
 The queue of packets waiting to be sent: data is cut into packets at its tail, and its
 head is sent, waited for, or dropped when it is too late.
 */
module OutgoingQueues {
  import opened Octets
  import opened RtpFormat
  import opened Words

  datatype Packet = Packet(header: Header, payload: seq<octet>)

  class PacketLink {
    const packet: Packet
    var prev: PacketLink?
    var next: PacketLink?

    constructor (packet: Packet, prev: PacketLink?, next: PacketLink?)
      ensures this.packet == packet && this.prev == prev && this.next == next
    {
      this.packet, this.prev, this.next := packet, prev, next;
    }
  }

  // ---- Segmentation ----

  type SegmentSize = n: nat | n >= 1 witness 1

  /** Segments of the largest size, and what remains. */
  function Segments(data: seq<octet>, size: SegmentSize): seq<seq<octet>> {
    if data == [] then []
    else if |data| <= size then [data]
    else [data[..size]] + Segments(data[size..], size)
  }

  function Flat(parts: seq<seq<octet>>): seq<octet> {
    if parts == [] then [] else parts[0] + Flat(parts[1..])
  }

  /** Segments put together are the data; all are full but the last, and none is empty. */
  lemma {:induction false} SegmentsRejoin(data: seq<octet>, size: SegmentSize)
    ensures var parts := Segments(data, size);
      && Flat(parts) == data
      && (forall i :: 0 <= i < |parts| ==> 1 <= |parts[i]| <= size && (i < |parts| - 1 ==> |parts[i]| == size))
      && (data != [] ==> parts != [])
  {
    if |data| > size {
      SegmentsRejoin(data[size..], size);
      assert data == data[..size] + data[size..];
    } else if data != [] {
      assert Flat([data]) == data + Flat([]);
    }
  }

  // ---- Time ----

  datatype Time = Time(sec: int, usec: int)

  const MILLION: int := 1_000_000

  function TimeAdd(a: Time, b: Time): Time {
    var usec := a.usec + b.usec;
    if usec >= MILLION then Time(a.sec + b.sec + 1, usec - MILLION) else Time(a.sec + b.sec, usec)
  }

  function TimeSub(a: Time, b: Time): Time {
    var usec := a.usec - b.usec;
    if usec < 0 then Time(a.sec - b.sec - 1, usec + MILLION) else Time(a.sec - b.sec, usec)
  }

  function Micros(t: Time): int {
    t.sec * MILLION + t.usec
  }

  lemma SumOfTimes(a: Time, b: Time)
    ensures Micros(TimeAdd(a, b)) == Micros(a) + Micros(b)
    ensures Micros(TimeSub(a, b)) == Micros(a) - Micros(b)
  {
  }

  type Rate = n: int | 1000 <= n < 0x1_0000_0000 witness 8000

  /** A timestamp, counted from the initial one, as a time. */
  function StampTime(stamp: uint32, rate: Rate): Time {
    Time(stamp / rate, 1000 * (stamp % rate) / (rate / 1000))
  }

  /** Common factors cancel. */
  lemma CancelFactor(k: nat, x: nat, q: nat)
    requires k > 0 && q > 0
    ensures k * q > 0 && k * x / (k * q) == x / q
  {
    var d, r := x / q, x % q;
    MulOrdered(k, q);
    MulOrdered(k - 1, q);
    MulOrdered(q - 1 - r, k);
    assert k * x == d * (k * q) + k * r by {
      assert k * (d * q) == d * (k * q);
    }
    MulOrdered(r, k);
    assert k * r < k * q by {
      assert (q - 1 - r) * k == k * q - k - k * r;
    }
    DivModOf(d, k * r, k * q);
  }

  lemma WholeKilohertz(stamp: uint32, rate: Rate)
    requires rate % 1000 == 0
    ensures Micros(StampTime(stamp, rate)) == stamp * MILLION / rate
  {
    var d, r, q := stamp / rate, stamp % rate, rate / 1000;
    CancelFactor(1000, 1000 * r, q);
    var rest := 1000 * r / q;
    assert MILLION * r / rate == rest;
    SplitQuotient(d, r, rate);
    assert stamp == d * rate + r;
  }

  /** At any other rate the last sample of the first second is put into the next. */
  lemma OtherRateOvershoots(rate: Rate)
    requires rate % 1000 != 0
    ensures (rate - 1) * MILLION / rate < MILLION <= Micros(StampTime(rate - 1, rate))
  {
    hide StampTime;
    var q := rate / 1000;
    LastSample(rate);
    QuotientAtLeast(1000 * (rate - 1), q, MILLION);
    QuotientBelow((rate - 1) * MILLION, rate, MILLION);
  }

  lemma LastSample(rate: Rate)
    ensures StampTime(rate - 1, rate) == Time(0, 1000 * (rate - 1) / (rate / 1000))
  {
    Below(rate - 1, rate);
  }

  lemma Below(x: nat, q: nat)
    requires x < q
    ensures x / q == 0 && x % q == x
  {
    DivModOf(0, x, q);
  }

  lemma QuotientAtLeast(x: nat, q: nat, n: nat)
    requires q > 0 && x >= n * q
    ensures x / q >= n
  {
    var d := n - x / q;
    MulOrdered(d - 1, q);
    assert x == x / q * q + x % q;
    assert d * q == n * q - x / q * q;
    assert (d - 1) * q == d * q - q;
  }

  lemma QuotientBelow(x: nat, q: nat, n: nat)
    requires q > 0 && x < n * q
    ensures x / q < n
  {
    var d := x / q - n;
    MulOrdered(d, q);
    assert d * q == x / q * q - n * q;
  }

  /** Every timestamp is translated to the microsecond exactly at rates of whole kilohertz. */
  lemma StampTimeExact(rate: Rate)
    ensures (forall stamp: uint32 :: Micros(StampTime(stamp, rate)) == stamp * MILLION / rate) <==> rate % 1000 == 0
  {
    hide StampTime;
    if rate % 1000 == 0 {
      forall stamp: uint32 ensures Micros(StampTime(stamp, rate)) == stamp * MILLION / rate {
        WholeKilohertz(stamp, rate);
      }
    } else {
      OtherRateOvershoots(rate);
    }
  }

  lemma AddMultiple(y: nat, x: nat, q: nat)
    requires q > 0
    ensures (y * q + x) / q == y + x / q
  {
    var h, l := x / q, x % q;
    assert y * q + x == (y + h) * q + l;
    DivModOf(y + h, l, q);
  }

  lemma Regroup(d: nat, q: nat, r: nat, k: nat)
    ensures (d * q + r) * k == d * k * q + k * r
  {
    assert d * q * k == d * k * q;
  }

  lemma SplitQuotient(d: nat, r: nat, rate: Rate)
    ensures (d * rate + r) * MILLION / rate == d * MILLION + MILLION * r / rate
  {
    Regroup(d, rate, r, MILLION);
    AddMultiple(d * MILLION, MILLION * r, rate);
  }

  /** The time a full cycle of timestamps lasts. */
  function Cycle(rate: Rate): (t: Time)
    ensures t.sec >= 1 && 0 <= t.usec
  {
    CycleLasts(rate);
    Time(0xFFFF_FFFF / rate, 0xFFFF_FFFF % rate * MILLION / rate)
  }

  lemma CycleLasts(rate: Rate)
    ensures 0xFFFF_FFFF / rate >= 1 && 0xFFFF_FFFF % rate * MILLION / rate >= 0
  {
    var q := 0xFFFF_FFFF / rate;
    assert 0xFFFF_FFFF == rate * q + 0xFFFF_FFFF % rate;
  }

  /** How many cycles a due time must be moved to be at most 5000 seconds in the past. */
  function CyclesLost(send: Time, now: Time, cycle: Time): nat
    requires cycle.sec >= 1 && 0 <= cycle.usec
    decreases now.sec - send.sec
  {
    if now.sec - send.sec > 5000 then 1 + CyclesLost(TimeAdd(send, cycle), now, cycle) else 0
  }

  function AddCycles(t: Time, cycle: Time, n: nat): Time {
    if n == 0 then t else TimeAdd(AddCycles(t, cycle, n - 1), cycle)
  }

  lemma {:induction false} AddCyclesFront(t: Time, cycle: Time, n: nat)
    ensures AddCycles(TimeAdd(t, cycle), cycle, n) == AddCycles(t, cycle, n + 1)
  {
    if n > 0 {
      AddCyclesFront(t, cycle, n - 1);
    }
  }

  /** The cycles lost are just enough: with them the packet is at most 5000 seconds late, with fewer it is later. */
  lemma {:induction false} CyclesLostEnough(send: Time, now: Time, cycle: Time)
    requires cycle.sec >= 1 && 0 <= cycle.usec
    ensures var n := CyclesLost(send, now, cycle);
      && now.sec - AddCycles(send, cycle, n).sec <= 5000
      && forall k :: 0 <= k < n ==> now.sec - AddCycles(send, cycle, k).sec > 5000
    decreases now.sec - send.sec
  {
    if now.sec - send.sec > 5000 {
      var next := TimeAdd(send, cycle);
      CyclesLostEnough(next, now, cycle);
      var n := CyclesLost(next, now, cycle);
      AddCyclesFront(send, cycle, n);
      forall k | 0 <= k < n + 1 ensures now.sec - AddCycles(send, cycle, k).sec > 5000 {
        if k > 0 {
          AddCyclesFront(send, cycle, k - 1);
        }
      }
    }
  }

  /** A due time more than 20000 seconds ahead belongs to the cycle before. */
  function TurnedBack(send: Time, now: Time, cycle: Time): Time {
    if send.sec - now.sec > 20000 then TimeSub(send, cycle) else send
  }

  /** Conversion to a 32-bit signed integer. */
  function Int32(x: int): (r: int)
    ensures -0x8000_0000 <= r < 0x8000_0000 && (x - r) % TWO32 == 0
  {
    (x + 0x8000_0000) % TWO32 - 0x8000_0000
  }

  datatype Decision = Wait(timeout: uint32) | Expire

  const HOUR: uint32 := 3_600_000_000

  /** What becomes of the head of the queue, due at `send`. */
  function Decide(send: Time, now: Time, expireTimeout: uint32): Decision {
    if send.sec - now.sec > 3600 then Wait(HOUR)
    else
      var diff := Int32(Micros(send) - Micros(now));
      if diff >= 0 then Wait(diff)
      else if -diff <= expireTimeout then Wait(0)
      else Expire
  }

  /** The same decision on the true distance. */
  function Intended(send: Time, now: Time, expireTimeout: uint32): Decision {
    var diff := Micros(send) - Micros(now);
    if send.sec - now.sec > 3600 then Wait(HOUR)
    else if diff >= 0 then Wait(Min(diff, TWO32 - 1))
    else if -diff <= expireTimeout then Wait(0)
    else Expire
  }

  /**
   For all times, the decision is the intended one exactly when the hour's cap applies, or
   the distance fits 32 bits, or it is a lateness beyond 32 bits whose 32-bit residue is
   again a lateness of more than the limit.
   */
  lemma DecisionRight(send: Time, now: Time, expireTimeout: uint32)
    ensures var diff := Micros(send) - Micros(now);
      Decide(send, now, expireTimeout) == Intended(send, now, expireTimeout)
      <==> || send.sec - now.sec > 3600
           || -0x8000_0000 <= diff < 0x8000_0000
           || (diff < 0 && Int32(diff) + expireTimeout < 0)
  {
    hide Int32, Micros;
    var diff := Micros(send) - Micros(now);
    Residue(diff);
  }

  lemma Residue(x: int)
    ensures Int32(x) == x <==> -0x8000_0000 <= x < 0x8000_0000
    ensures x < -0x8000_0000 ==> Int32(x) >= x + TWO32
    ensures x >= 0x8000_0000 ==> Int32(x) <= x - TWO32
  {
  }

  /**
   The correction for a due time far ahead can leave it later than the 32 bits hold: at
   90 kHz a packet due 22722 seconds ahead becomes one that is 25000 seconds late and,
   instead of being dropped, is waited for.
   */
  lemma TurnedBackWaits()
    ensures var due := TurnedBack(Time(22722, 0), Time(0, 0), Cycle(90000));
      && due.sec - 0 < -24999
      && Intended(due, Time(0, 0), 1_000_000) == Expire
      && Decide(due, Time(0, 0), 1_000_000).Wait?
      && Decide(due, Time(0, 0), 1_000_000).timeout > 700_000_000
  {
    assert Cycle(90000) == Time(47721, 858833);
  }

  /** A packet due in 50 minutes is dropped at once: the distance wraps to a large lateness. */
  lemma FarPacketExpires()
    ensures Decide(Time(3000, 0), Time(0, 0), 1_000_000) == Expire
    ensures Intended(Time(3000, 0), Time(0, 0), 1_000_000) == Wait(3_000_000_000)
  {
  }

  // ---- Scheduling the head of the queue ----

  /** What one look at the queue yields: packets dropped, lost cycles in all, and the timeout. */
  datatype Outcome = Outcome(expired: nat, overflowTime: Time, timeout: uint32)

  datatype Timing = Timing(initialTimestamp: uint32, rate: Rate, schedulingTimeout: uint32, expireTimeout: uint32)

  /** When a packet is due, before any correction for lost cycles. */
  function Due(p: Packet, overflowTime: Time, t: Timing): Time {
    TimeAdd(StampTime((p.header.timestamp - t.initialTimestamp) % TWO32, t.rate), overflowTime)
  }

  /** Correct for lost cycles, turn a far due time back, decide; drop and go on while packets expire. */
  function Schedule(q: seq<Packet>, overflowTime: Time, t: Timing, clock: nat -> Time, i: nat): (r: Outcome)
    ensures r.expired <= |q|
  {
    if q == [] then Outcome(0, overflowTime, t.schedulingTimeout)
    else
      var now, cycle := clock(i), Cycle(t.rate);
      var due := Due(q[0], overflowTime, t);
      var n := CyclesLost(due, now, cycle);
      var over := AddCycles(overflowTime, cycle, n);
      match Decide(TurnedBack(AddCycles(due, cycle, n), now, cycle), now, t.expireTimeout)
      case Wait(timeout) => Outcome(0, over, timeout)
      case Expire =>
        var r := Schedule(q[1..], over, t, clock, i + 1);
        r.(expired := r.expired + 1)
  }

  /** A clock's reading: less than a second of microseconds. */
  predicate Normal(t: Time) {
    0 <= t.usec < MILLION
  }

  /** How far ahead a packet is due, in microseconds; negative when it is late. */
  function Ahead(p: Packet, overflowTime: Time, t: Timing, now: Time): int {
    Micros(Due(p, overflowTime, t)) - Micros(now)
  }

  lemma StampMicros(stamp: uint32, rate: Rate)
    ensures 0 <= StampTime(stamp, rate).usec < 2 * MILLION
  {
    var q := rate / 1000;
    assert 1 <= q && rate < 1000 * q + 1000;
    WithinSecond(stamp % rate, q);
  }

  lemma WithinSecond(r: nat, q: nat)
    requires r < 1000 * q + 1000 && q >= 1
    ensures 0 <= 1000 * r / q < 2 * MILLION
  {
    QuotientBelow(1000 * r, q, 2 * MILLION);
  }

  lemma DueMicros(p: Packet, overflowTime: Time, t: Timing)
    requires Normal(overflowTime)
    ensures 0 <= Due(p, overflowTime, t).usec < 2 * MILLION
  {
    hide StampTime;
    StampMicros((p.header.timestamp - t.initialTimestamp) % TWO32, t.rate);
  }

  /**
   A due time from 5000 seconds behind to 20000 seconds ahead is not corrected: whether the
   head is waited for or dropped is decided on it as it is.
   */
  lemma HeadAsItIs(q: seq<Packet>, overflowTime: Time, t: Timing, clock: nat -> Time, i: nat)
    requires q != [] && -5000 <= Due(q[0], overflowTime, t).sec - clock(i).sec <= 20000
    ensures var rest := Schedule(q[1..], overflowTime, t, clock, i + 1);
      Schedule(q, overflowTime, t, clock, i)
      == match Decide(Due(q[0], overflowTime, t), clock(i), t.expireTimeout)
         case Wait(timeout) => Outcome(0, overflowTime, timeout)
         case Expire => Outcome(rest.expired + 1, rest.overflowTime, rest.timeout)
  {
    hide Due, Decide, Cycle;
  }

  /** From more than an hour to 20000 seconds ahead it is waited for, an hour at a time. */
  lemma HeadFarAhead(q: seq<Packet>, overflowTime: Time, t: Timing, clock: nat -> Time, i: nat)
    requires q != [] && 3600 < Due(q[0], overflowTime, t).sec - clock(i).sec <= 20000
    ensures Schedule(q, overflowTime, t, clock, i) == Outcome(0, overflowTime, 3_600_000_000)
  {
    hide Schedule, Due;
    HeadAsItIs(q, overflowTime, t, clock, i);
  }

  /** Beyond that it is taken back by one full cycle of timestamps before it is decided on. */
  lemma HeadTurnedBack(q: seq<Packet>, overflowTime: Time, t: Timing, clock: nat -> Time, i: nat)
    requires q != [] && Due(q[0], overflowTime, t).sec - clock(i).sec > 20000
    ensures var rest := Schedule(q[1..], overflowTime, t, clock, i + 1);
      exists due ::
        && Micros(due) == Micros(Due(q[0], overflowTime, t)) - Micros(Cycle(t.rate))
        && Schedule(q, overflowTime, t, clock, i)
           == match Decide(due, clock(i), t.expireTimeout)
              case Wait(timeout) => Outcome(0, overflowTime, timeout)
              case Expire => Outcome(rest.expired + 1, rest.overflowTime, rest.timeout)
  {
    hide Due, Decide, Cycle, Micros;
    var due := TimeSub(Due(q[0], overflowTime, t), Cycle(t.rate));
    SumOfTimes(Due(q[0], overflowTime, t), Cycle(t.rate));
    assert Micros(due) == Micros(Due(q[0], overflowTime, t)) - Micros(Cycle(t.rate));
  }

  /** A due time within 2147 seconds of now, in microseconds and so in seconds. */
  lemma NearInSeconds(due: Time, now: Time)
    requires 0 <= due.usec < 2 * MILLION && Normal(now)
    requires -0x8000_0000 <= Micros(due) - Micros(now) < 0x8000_0000
    ensures -2200 <= due.sec - now.sec <= 2200
  {
  }

  /**
   The head of the queue when its due time, as the timestamp gives it, is less than 2^31
   microseconds away. Ahead of time it is waited for, exactly that long; late by up to the
   limit it is sent at once; later, and only then, it is dropped and the next one looked at.
   The count of lost cycles does not change.
   */
  lemma HeadOnTime(q: seq<Packet>, overflowTime: Time, t: Timing, clock: nat -> Time, i: nat)
    requires q != [] && Normal(overflowTime) && Normal(clock(i))
    requires -0x8000_0000 <= Ahead(q[0], overflowTime, t, clock(i)) < 0x8000_0000
    ensures var ahead := Ahead(q[0], overflowTime, t, clock(i));
      var rest := Schedule(q[1..], overflowTime, t, clock, i + 1);
      Schedule(q, overflowTime, t, clock, i)
      == if ahead >= 0 then Outcome(0, overflowTime, ahead)
         else if -ahead <= t.expireTimeout then Outcome(0, overflowTime, 0)
         else Outcome(rest.expired + 1, rest.overflowTime, rest.timeout)
  {
    hide Schedule, Due, Micros, Int32;
    DueMicros(q[0], overflowTime, t);
    NearInSeconds(Due(q[0], overflowTime, t), clock(i));
    HeadAsItIs(q, overflowTime, t, clock, i);
    Residue(Ahead(q[0], overflowTime, t, clock(i)));
  }

  /** The distances of all packets, each from the clock reading it would be held against. */
  function Distances(q: seq<Packet>, overflowTime: Time, t: Timing, clock: nat -> Time, i: nat): (r: seq<int>)
    ensures |r| == |q|
  {
    seq(|q|, k requires 0 <= k < |q| => Ahead(q[k], overflowTime, t, clock(i + k)))
  }

  lemma DistancesTail(q: seq<Packet>, overflowTime: Time, t: Timing, clock: nat -> Time, i: nat)
    requires q != []
    ensures var r := Distances(q, overflowTime, t, clock, i);
      r[0] == Ahead(q[0], overflowTime, t, clock(i)) && r[1..] == Distances(q[1..], overflowTime, t, clock, i + 1)
  {
    hide Ahead;
    var r, rest := Distances(q, overflowTime, t, clock, i), Distances(q[1..], overflowTime, t, clock, i + 1);
    forall k | 0 <= k < |q| - 1 ensures r[1..][k] == rest[k] {
      assert i + (k + 1) == i + 1 + k;
    }
  }

  predicate Near(r: seq<int>) {
    forall k :: 0 <= k < |r| ==> -0x8000_0000 <= r[k] < 0x8000_0000
  }

  /** n is how many in front are late by more than the limit. */
  predicate LateFront(r: seq<int>, limit: uint32, n: nat) {
    && n <= |r|
    && (forall k :: 0 <= k < n ==> r[k] + limit < 0)
    && (n < |r| ==> r[n] + limit >= 0)
  }

  lemma LateFrontCons(r: seq<int>, limit: uint32, n: nat)
    requires r != [] && r[0] + limit < 0 && LateFront(r[1..], limit, n)
    ensures LateFront(r, limit, n + 1) && (n + 1 < |r| ==> r[n + 1] == r[1..][n])
  {
    assert forall k :: 1 <= k < |r| ==> r[k] == r[1..][k - 1];
  }

  /**
   The whole of one look at the queue, when no due time is 2^31 microseconds or more away
   from the clock that it is held against. Exactly the packets in front that are late by more
   than the limit are dropped; the timeout is the distance of the first that is not.
   */
  lemma {:induction false} LateOnesExpire(q: seq<Packet>, overflowTime: Time, t: Timing, clock: nat -> Time, i: nat)
    requires Normal(overflowTime) && forall k :: i <= k < i + |q| ==> Normal(clock(k))
    requires Near(Distances(q, overflowTime, t, clock, i))
    ensures var r := Schedule(q, overflowTime, t, clock, i);
      var ahead := Distances(q, overflowTime, t, clock, i);
      && r.overflowTime == overflowTime && LateFront(ahead, t.expireTimeout, r.expired)
      && r.timeout == if r.expired < |q| then Max(0, ahead[r.expired]) else t.schedulingTimeout
  {
    hide Ahead, Distances, Due;
    if q != [] {
      var ahead := Distances(q, overflowTime, t, clock, i);
      DistancesTail(q, overflowTime, t, clock, i);
      HeadOnTime(q, overflowTime, t, clock, i);
      LateOnesExpire(q[1..], overflowTime, t, clock, i + 1);
      var n := Schedule(q[1..], overflowTime, t, clock, i + 1).expired;
      hide Schedule;
      if ahead[0] + t.expireTimeout < 0 {
        LateFrontCons(ahead, t.expireTimeout, n);
      }
    }
  }

  function At(q: seq<PacketLink>, i: int): PacketLink? {
    if 0 <= i < |q| then q[i] else null
  }

  ghost predicate Linked(q: seq<PacketLink>)
    reads q
  {
    && (forall i, j {:trigger q[i], q[j]} :: 0 <= i && i + 1 == j && j < |q| ==> q[i].next == q[j] && q[j].prev == q[i])
    && (q != [] ==> q[0].prev == null && q[|q| - 1].next == null)
  }

  predicate Distinct(q: seq<PacketLink>) {
    forall i, j :: 0 <= i < j < |q| ==> q[i] != q[j]
  }

  function Packets(q: seq<PacketLink>): (r: seq<Packet>)
    ensures |r| == |q| && forall i :: 0 <= i < |q| ==> r[i] == q[i].packet
  {
    seq(|q|, i requires 0 <= i < |q| => q[i].packet)
  }

  /** Payload octets of packets, as the 32-bit counter sees them. */
  function OctetCount(ps: seq<Packet>): uint32 {
    if ps == [] then 0 else (OctetCount(ps[..|ps| - 1]) + |ps[|ps| - 1].payload|) % TWO32
  }

  /** It is the number of octets of all payloads together, modulo 2^32. */
  lemma {:induction false} OctetCountIs(ps: seq<Packet>)
    ensures OctetCount(ps) == |Flat(Payloads(ps))| % TWO32
  {
    if ps != [] {
      var front, last := ps[..|ps| - 1], ps[|ps| - 1];
      OctetCountIs(front);
      assert Payloads(ps) == Payloads(front) + [last.payload];
      FlatLast(Payloads(front), last.payload);
      ModShift(-(|Flat(Payloads(front))| / TWO32), |Flat(Payloads(front))| + |last.payload|, TWO32);
    }
  }

  lemma {:induction false} FlatLast(parts: seq<seq<octet>>, last: seq<octet>)
    ensures Flat(parts + [last]) == Flat(parts) + last
  {
    if parts == [] {
      assert parts + [last] == [last] && Flat([last]) == last + Flat([]);
    } else {
      assert (parts + [last])[1..] == parts[1..] + [last];
      FlatLast(parts[1..], last);
    }
  }

  /** The contributing sources; packets that carry them carry the first fifteen. */
  type SourceTable = s: seq<uint32> | |s| == 16 witness seq(16, _ => 0)

  /** The settings that go into every packet. */
  datatype Settings = Settings(payloadType: Bits7, ssrc: uint32, initialTimestamp: uint32,
                               sendSources: SourceTable, sendCC: bool, maxSegment: SegmentSize)

  /** The i-th packet that putData makes of some data. */
  function DataPacket(c: Settings, stamp: uint32, seqNum: uint16, marked: bool, payload: seq<octet>, i: nat): Packet {
    Packet(Header(marked && i == 0, c.payloadType, (seqNum + i) % TWO16, (stamp + c.initialTimestamp) % TWO32,
                  c.ssrc, if c.sendCC then c.sendSources[..15] else [], []), payload)
  }

  function DataPackets(c: Settings, stamp: uint32, seqNum: uint16, marked: bool, parts: seq<seq<octet>>): (r: seq<Packet>)
    ensures |r| == |parts|
  {
    seq(|parts|, i requires 0 <= i < |parts| => DataPacket(c, stamp, seqNum, marked, parts[i], i))
  }

  function Payloads(ps: seq<Packet>): (r: seq<seq<octet>>)
    ensures |r| == |ps|
  {
    seq(|ps|, i requires 0 <= i < |ps| => ps[i].payload)
  }

  lemma NoSegments(data: seq<octet>, size: SegmentSize)
    ensures data == [] ==> Segments(data, size) == []
  {
  }

  /**
   The payloads of one call rejoin to its data, the sequence numbers are consecutive, only
   the first packet is marked, when a mark was asked for, and all else is as the settings say.
   */
  lemma DataPacketsCarry(c: Settings, stamp: uint32, seqNum: uint16, marked: bool, data: seq<octet>)
    ensures var ps := DataPackets(c, stamp, seqNum, marked, Segments(data, c.maxSegment));
      && Flat(Payloads(ps)) == data
      && (data != [] <==> ps != [])
      && (forall i :: 0 <= i < |ps| ==>
            && ps[i].header.seqNum == (seqNum + i) % TWO16
            && ps[i].header.marker == (marked && i == 0)
            && (ps[i].header.timestamp - c.initialTimestamp) % TWO32 == stamp
            && ps[i].header.payloadType == c.payloadType && ps[i].header.ssrc == c.ssrc
            && ps[i].header.csrcs == (if c.sendCC then c.sendSources[..15] else []) && ps[i].header.extension == []
            && 1 <= |ps[i].payload| <= c.maxSegment)
  {
    hide Segments, Flat;
    var parts := Segments(data, c.maxSegment);
    SegmentsRejoin(data, c.maxSegment);
    NoSegments(data, c.maxSegment);
    assert Payloads(DataPackets(c, stamp, seqNum, marked, parts)) == parts;
    StampBack(stamp, c.initialTimestamp);
  }

  lemma StampBack(stamp: uint32, initial: uint32)
    ensures ((stamp + initial) % TWO32 - initial) % TWO32 == stamp
  {
    if stamp + initial < TWO32 {
      assert (stamp + initial) % TWO32 == stamp + initial;
    } else {
      assert (stamp + initial) % TWO32 == stamp + initial - TWO32;
    }
  }

  /** Every packet of a call is due when its timestamp says, counted from the time the queue started. */
  lemma DueAtStamp(c: Settings, stamp: uint32, seqNum: uint16, marked: bool, data: seq<octet>, i: nat,
                   overflowTime: Time, t: Timing)
    requires i < |Segments(data, c.maxSegment)| && t.initialTimestamp == c.initialTimestamp
    ensures var p := DataPackets(c, stamp, seqNum, marked, Segments(data, c.maxSegment))[i];
      Micros(Due(p, overflowTime, t)) == Micros(StampTime(stamp, t.rate)) + Micros(overflowTime)
  {
    hide StampTime, Segments;
    StampBack(stamp, c.initialTimestamp);
    SumOfTimes(StampTime(stamp, t.rate), overflowTime);
  }

  // ---- Runs of calls ----

  datatype Call =
    | Put(stamp: uint32, data: seq<octet>, settings: Settings)
    | Dispatch
    | Poll(timing: Timing, clock: nat -> Time)

  /** What the calls read and change of a queue. */
  datatype Sending = Sending(pending: seq<Packet>, seqNum: uint16, marked: bool, overflowTime: Time)

  /** A queue after some calls, the packets they queued, and those they sent or dropped. */
  datatype Effect = Effect(after: Sending, queued: seq<Packet>, out: seq<Packet>)

  function AfterCall(s: Sending, c: Call): Effect {
    match c
    case Put(stamp, data, settings) =>
      var parts := Segments(data, settings.maxSegment);
      var ps := DataPackets(settings, stamp, s.seqNum, s.marked, parts);
      Effect(s.(pending := s.pending + ps, seqNum := (s.seqNum + |parts|) % TWO16,
                marked := s.marked && data == []), ps, [])
    case Dispatch =>
      var n := Min(1, |s.pending|);
      Effect(s.(pending := s.pending[n..]), [], s.pending[..n])
    case Poll(timing, clock) =>
      var r := Schedule(s.pending, s.overflowTime, timing, clock, 0);
      Effect(s.(pending := s.pending[r.expired..], overflowTime := r.overflowTime), [], s.pending[..r.expired])
  }

  function AfterCalls(s: Sending, cs: seq<Call>): Effect {
    if cs == [] then Effect(s, [], [])
    else
      var e := AfterCalls(s, cs[..|cs| - 1]);
      var f := AfterCall(e.after, cs[|cs| - 1]);
      Effect(f.after, e.queued + f.queued, e.out + f.out)
  }

  /** All data of the calls of putData, in order. */
  function DataOf(cs: seq<Call>): seq<octet> {
    if cs == [] then []
    else
      var last := cs[|cs| - 1];
      DataOf(cs[..|cs| - 1]) + (if last.Put? then last.data else [])
  }

  /** One call neither loses nor reorders a packet. */
  lemma CallConserves(s: Sending, c: Call)
    ensures var e := AfterCall(s, c); s.pending + e.queued == e.out + e.after.pending
  {
    hide Segments, DataPackets, Schedule;
  }

  /**
   Over every run of calls, first in first out: what was sent or dropped, in order, and
   what is pending, in order, are what was pending and what was queued.
   */
  lemma {:induction false} RunConserves(s: Sending, cs: seq<Call>)
    ensures var e := AfterCalls(s, cs); s.pending + e.queued == e.out + e.after.pending
  {
    hide AfterCall;
    if cs != [] {
      var e := AfterCalls(s, cs[..|cs| - 1]);
      var f := AfterCall(e.after, cs[|cs| - 1]);
      RunConserves(s, cs[..|cs| - 1]);
      CallConserves(e.after, cs[|cs| - 1]);
      Stitch(s.pending, e.queued, e.out, e.after.pending, f.queued, f.out, f.after.pending);
    }
  }

  lemma Stitch<T>(p: seq<T>, in1: seq<T>, out1: seq<T>, m: seq<T>, in2: seq<T>, out2: seq<T>, r: seq<T>)
    requires p + in1 == out1 + m && m + in2 == out2 + r
    ensures p + (in1 + in2) == (out1 + out2) + r
  {
    assert p + (in1 + in2) == p + in1 + in2;
    assert out1 + m + in2 == out1 + (m + in2);
    assert out1 + (out2 + r) == out1 + out2 + r;
  }

  lemma {:induction false} FlatSum(p: seq<seq<octet>>, q: seq<seq<octet>>)
    ensures Flat(p + q) == Flat(p) + Flat(q)
  {
    if p == [] {
      assert p + q == q;
    } else {
      assert (p + q)[1..] == p[1..] + q;
      FlatSum(p[1..], q);
    }
  }

  /** Over every run the queued packets carry the data of all calls, numbered consecutively modulo 2^16. */
  lemma {:induction false} RunCarries(s: Sending, cs: seq<Call>)
    ensures var e := AfterCalls(s, cs);
      && Flat(Payloads(e.queued)) == DataOf(cs)
      && e.after.seqNum == (s.seqNum + |e.queued|) % TWO16
      && Consecutive(s.seqNum, e.queued)
  {
    hide AfterCall, Consecutive;
    if cs == [] {
      NothingQueued(s.seqNum);
    } else {
      var e := AfterCalls(s, cs[..|cs| - 1]);
      RunCarries(s, cs[..|cs| - 1]);
      CallCarries(e.after, cs[|cs| - 1]);
      var f := AfterCall(e.after, cs[|cs| - 1]);
      LastData(cs);
      PayloadsSum(e.queued, f.queued);
      FlatSum(Payloads(e.queued), Payloads(f.queued));
      ConsecutiveTogether(s.seqNum, e.queued, f.queued);
    }
  }

  lemma NothingQueued(seqNum: uint16)
    ensures Payloads([]) == [] && Consecutive(seqNum, [])
  {
  }

  lemma PayloadsSum(p: seq<Packet>, q: seq<Packet>)
    ensures Payloads(p + q) == Payloads(p) + Payloads(q)
  {
  }

  lemma LastData(cs: seq<Call>)
    requires cs != []
    ensures DataOf(cs) == DataOf(cs[..|cs| - 1]) + DataOf([cs[|cs| - 1]])
  {
    var last := cs[|cs| - 1];
    assert [last][..0] == [] && DataOf([]) == [];
  }

  lemma CallCarries(s: Sending, c: Call)
    ensures var e := AfterCall(s, c);
      && Flat(Payloads(e.queued)) == DataOf([c])
      && e.after.seqNum == (s.seqNum + |e.queued|) % TWO16
      && Consecutive(s.seqNum, e.queued)
  {
    hide Segments, DataPackets, Schedule;
    assert [c][..0] == [] && DataOf([]) == [] && Payloads([]) == [];
    if c.Put? {
      DataPacketsCarry(c.settings, c.stamp, s.seqNum, s.marked, c.data);
    }
  }

  predicate Consecutive(seqNum: uint16, ps: seq<Packet>) {
    forall i :: 0 <= i < |ps| ==> ps[i].header.seqNum == (seqNum + i) % TWO16
  }

  lemma ConsecutiveTogether(seqNum: uint16, p: seq<Packet>, q: seq<Packet>)
    requires Consecutive(seqNum, p) && Consecutive((seqNum + |p|) % TWO16, q)
    ensures Consecutive(seqNum, p + q)
    ensures ((seqNum + |p|) % TWO16 + |q|) % TWO16 == (seqNum + |p + q|) % TWO16
  {
    forall i | 0 <= i < |p + q| ensures (p + q)[i].header.seqNum == (seqNum + i) % TWO16 {
      if i >= |p| {
        assert (p + q)[i] == q[i - |p|];
      }
    }
  }

  lemma SeqAfter(seqNum: uint16, n: nat)
    ensures ((seqNum + n) % TWO16 + 1) % TWO16 == (seqNum + (n + 1)) % TWO16
  {
    ModShift(-((seqNum + n) / TWO16), seqNum + n + 1, TWO16);
  }

  class OutgoingQueue {
    var sendFirst: PacketLink?
    var sendLast: PacketLink?
    var sendSeq: uint16
    var marked: bool
    var packetCount: uint32
    var octetCount: uint32
    var overflowTime: Time
    /** The queue, and the packets that were sent. */
    ghost var pending: seq<PacketLink>
    ghost var dispatched: seq<Packet>

    ghost predicate Threaded()
      reads this`sendFirst, this`sendLast, this`pending, pending
    {
      Distinct(pending) && Linked(pending) && sendFirst == At(pending, 0) && sendLast == At(pending, |pending| - 1)
    }

    /** The list is well linked, and the counters for reports follow what was sent. */
    ghost predicate Valid()
      reads this`sendFirst, this`sendLast, this`pending, pending
      reads this`dispatched, this`packetCount, this`octetCount
    {
      && Threaded()
      && packetCount == |dispatched| % TWO32 && octetCount == OctetCount(dispatched)
    }

    constructor (seqNum: uint16, start: Time)
      ensures Valid() && pending == [] && dispatched == [] && sendSeq == seqNum && !marked && overflowTime == start
    {
      sendFirst, sendLast, sendSeq, marked := null, null, seqNum, false;
      packetCount, octetCount, overflowTime := 0, 0, start;
      pending, dispatched := [], [];
    }

    method LinkTail(packet: Packet) returns (link: PacketLink)
      requires Threaded()
      modifies this`sendFirst, this`sendLast, this`pending, pending
      ensures Threaded() && pending == old(pending) + [link] && fresh(link) && link.packet == packet
    {
      link := new PacketLink(packet, sendLast, null);
      if sendLast != null {
        sendLast.next := link;
      } else {
        sendFirst := link;
      }
      sendLast := link;
      pending := pending + [link];
    }

    /** Put a packet at the tail. */
    method Append(packet: Packet)
      requires Valid()
      modifies this`sendFirst, this`sendLast, this`pending, pending
      ensures Valid() && Packets(pending) == old(Packets(pending)) + [packet]
      ensures |pending| == |old(pending)| + 1 && pending[..|old(pending)|] == old(pending)
      ensures fresh(pending[|old(pending)|])
    {
      hide OctetCount, Packets, Linked, Distinct, At;
      ghost var q := pending;
      var link := LinkTail(packet);
      PacketsOneMore(q, link);
    }

    method Unlink()
      requires Threaded() && pending != []
      modifies this`sendFirst, this`sendLast, this`pending, pending
      ensures Threaded() && pending == old(pending)[1..]
    {
      if |pending| > 1 {
        assert pending[0].next == pending[1];
      }
      sendFirst := sendFirst.next;
      if sendFirst != null {
        sendFirst.prev := null;
      } else {
        sendLast := null;
      }
      ghost var q := pending;
      pending := pending[1..];
      assert forall i :: 0 <= i < |pending| ==> pending[i] == q[i + 1];
    }

    /** Take the head off the queue. */
    method DropHead() returns (packet: Packet)
      requires Valid() && pending != []
      modifies this`sendFirst, this`sendLast, this`pending, pending
      ensures Valid() && packet == old(pending)[0].packet && pending == old(pending)[1..]
      ensures Packets(pending) == old(Packets(pending))[1..]
    {
      hide OctetCount, Packets, Linked, Distinct;
      packet := sendFirst.packet;
      PacketsTail(pending);
      Unlink();
    }

    /** The packet of one segment; only the first segment takes the mark. */
    method PutSegment(stamp: uint32, part: seq<octet>, c: Settings, first: bool) returns (packet: Packet)
      requires Valid()
      modifies this`sendFirst, this`sendLast, this`sendSeq, this`marked, this`pending, pending
      ensures Valid() && packet == DataPacket(c, stamp, old(sendSeq), old(marked) && first, part, 0)
      ensures Packets(pending) == old(Packets(pending)) + [packet]
      ensures |pending| == |old(pending)| + 1 && pending[..|old(pending)|] == old(pending)
      ensures fresh(pending[|old(pending)|])
      ensures sendSeq == (old(sendSeq) + 1) % TWO16 && marked == (old(marked) && !first)
    {
      hide Valid, Packets;
      var marker := first && marked;
      if marker {
        marked := false;
      }
      packet := DataPacket(c, stamp, sendSeq, marker, part, 0);
      sendSeq := (sendSeq + 1) % TWO16;
      Append(packet);
    }

    /** Cut data into packets at the tail of the queue; the first one takes the mark. */
    method PutData(stamp: uint32, data: seq<octet>, c: Settings)
      requires Valid()
      modifies this`sendFirst, this`sendLast, this`sendSeq, this`marked, this`pending, pending
      ensures Valid()
      ensures var parts := Segments(data, c.maxSegment);
        var ps := DataPackets(c, stamp, old(sendSeq), old(marked), parts);
        && Packets(pending) == old(Packets(pending)) + ps
        && sendSeq == (old(sendSeq) + |parts|) % TWO16
      ensures marked == (old(marked) && data == [])
      ensures forall i :: 0 <= i < |pending| ==> pending[i] in old(pending) || fresh(pending[i])
    {
      hide Valid, Packets, DataPackets, DataPacket, Segments;
      WholeData(data, c.maxSegment);
      ghost var parts, before := Segments(data, c.maxSegment), Packets(pending);
      ghost var done: seq<seq<octet>>, ps: seq<Packet> := [], [];
      NoDataPackets(c, stamp, sendSeq, marked);
      var offset := 0;
      while offset < |data|
        invariant 0 <= offset <= |data| && Valid()
        invariant parts == done + Segments(data[offset..], c.maxSegment)
        invariant ps == DataPackets(c, stamp, old(sendSeq), old(marked), done)
        invariant Packets(pending) == before + ps
        invariant sendSeq == (old(sendSeq) + |done|) % TWO16
        invariant offset == 0 <==> done == []
        invariant marked == (old(marked) && offset == 0)
        invariant forall i :: 0 <= i < |pending| ==> pending[i] in old(pending) || fresh(pending[i])
      {
        var remainder := |data| - offset;
        var step := if remainder > c.maxSegment then c.maxSegment else remainder;
        var part := data[offset..offset + step];
        NextSegment(data, offset, c.maxSegment);
        MorePackets(c, stamp, old(sendSeq), old(marked), done, part);
        SeqAfter(old(sendSeq), |done|);
        ghost var q := pending;
        var packet := PutSegment(stamp, part, c, offset == 0);
        assert forall i :: 0 <= i < |q| ==> pending[i] == pending[..|q|][i] == q[i];
        OneMore(before, ps, packet);
        OneAhead(done, part, Segments(data[offset + step..], c.maxSegment));
        done, ps, offset := done + [part], ps + [packet], offset + step;
      }
      assert done + [] == done;
    }

    lemma HeadOrEmpty()
      requires Valid()
      ensures sendFirst == null <==> pending == []
      ensures pending == [] <==> Packets(pending) == []
    {
    }

    /** Send the head of the queue; the counters for reports follow what was sent. */
    method DispatchDataPacket() returns (size: nat, sent: seq<Packet>)
      requires Valid()
      modifies this`sendFirst, this`sendLast, this`pending, this`dispatched
      modifies this`packetCount, this`octetCount, pending
      ensures Valid() && |sent| <= |old(pending)| && pending == old(pending)[|sent|..]
      ensures sent == (if old(pending) == [] then [] else [old(pending)[0].packet])
      ensures size == if sent == [] then 0 else |sent[0].payload|
      ensures dispatched == old(dispatched) + sent
      ensures Packets(pending) == old(Packets(pending))[|sent|..]
    {
      hide Packets, OctetCount, Linked, Distinct, Threaded;
      PacketsFrom(pending);
      HeadOrEmpty();
      if sendFirst == null {
        return 0, [];
      }
      var packet := DropHead();
      size, sent := |packet.payload|, [packet];
      CountOne(dispatched, packet);
      packetCount := (packetCount + 1) % TWO32;
      octetCount := (octetCount + size) % TWO32;
      dispatched := dispatched + [packet];
    }

    /** Move a due time by whole cycles until it is at most 5000 seconds in the past. */
    method CatchUp(due: Time, now: Time, cycle: Time) returns (send: Time)
      requires cycle.sec >= 1 && 0 <= cycle.usec
      modifies this`overflowTime
      ensures var n := CyclesLost(due, now, cycle);
        send == AddCycles(due, cycle, n) && overflowTime == AddCycles(old(overflowTime), cycle, n)
    {
      send := due;
      ghost var k := 0;
      while now.sec - send.sec > 5000
        invariant k + CyclesLost(send, now, cycle) == CyclesLost(due, now, cycle)
        invariant send == AddCycles(due, cycle, k) && overflowTime == AddCycles(old(overflowTime), cycle, k)
        decreases now.sec - send.sec
      {
        send := TimeAdd(send, cycle);
        overflowTime := TimeAdd(overflowTime, cycle);
        k := k + 1;
      }
    }

    /** What to do about the head of the queue now. */
    method Consider(t: Timing, now: Time) returns (decision: Decision)
      requires Valid() && pending != []
      modifies this`overflowTime
      ensures var cycle := Cycle(t.rate);
        var due := Due(pending[0].packet, old(overflowTime), t);
        var n := CyclesLost(due, now, cycle);
        && overflowTime == AddCycles(old(overflowTime), cycle, n)
        && decision == Decide(TurnedBack(AddCycles(due, cycle, n), now, cycle), now, t.expireTimeout)
    {
      hide Packets, OctetCount, Linked, Distinct, CyclesLost, AddCycles, Decide, StampTime, TurnedBack, Cycle;
      var stamp := (sendFirst.packet.header.timestamp - t.initialTimestamp) % TWO32;
      var send := TimeAdd(StampTime(stamp, t.rate), overflowTime);
      send := CatchUp(send, now, Cycle(t.rate));
      decision := Decide(TurnedBack(send, now, Cycle(t.rate)), now, t.expireTimeout);
    }

    /**
     How long to wait before the head of the queue is sent. Expired packets are dropped on
     the way; every look at the clock drops one packet or ends the loop.
     */
    method GetSchedulingTimeout(t: Timing, clock: nat -> Time) returns (timeout: uint32, expired: seq<Packet>)
      requires Valid()
      modifies this`sendFirst, this`sendLast, this`pending, this`overflowTime, pending
      ensures Valid() && |expired| <= |old(pending)| && pending == old(pending)[|expired|..]
      ensures var q := old(Packets(pending));
        var r := Schedule(q, old(overflowTime), t, clock, 0);
        && timeout == r.timeout && overflowTime == r.overflowTime
        && expired == q[..r.expired] && Packets(pending) == q[r.expired..]
    {
      hide Packets, Valid, Cycle, CyclesLost, AddCycles, Decide, Due, TurnedBack, Schedule;
      ghost var q, r := Packets(pending), Schedule(Packets(pending), overflowTime, t, clock, 0);
      var i := 0;
      expired := [];
      while true
        invariant Valid()
        invariant i <= |q| && expired == q[..i] && Packets(pending) == q[i..]
        invariant i <= |old(pending)| && pending == old(pending)[i..]
        invariant ScheduledFrom(q[i..], overflowTime, t, clock, i, r)
        decreases |pending|
      {
        ScheduleUnfolds(q[i..], overflowTime, t, clock, i);
        HeadOrEmpty();
        if sendFirst == null {
          return t.schedulingTimeout, expired;
        }
        PacketsFrom(pending);
        var decision := Consider(t, clock(i));
        match decision
        case Wait(us) =>
          return us, expired;
        case Expire =>
          var packet := DropHead();
          expired := expired + [packet];
          OneMoreOf(q, i);
          i := i + 1;
      }
    }

    ghost function State(): Sending
      reads this`pending, this`sendSeq, this`marked, this`overflowTime
    {
      Sending(Packets(pending), sendSeq, marked, overflowTime)
    }

    method Perform(c: Call) returns (ghost queued: seq<Packet>, out: seq<Packet>)
      requires Valid()
      modifies this, pending
      ensures Valid() && Effect(State(), queued, out) == AfterCall(old(State()), c)
      ensures forall i :: 0 <= i < |pending| ==> pending[i] in old(pending) || fresh(pending[i])
    {
      hide Valid, Packets, Segments, DataPackets, Schedule;
      queued, out := [], [];
      match c
      case Put(stamp, data, settings) =>
        queued := DataPackets(settings, stamp, sendSeq, marked, Segments(data, settings.maxSegment));
        PutData(stamp, data, settings);
      case Dispatch =>
        HeadOrEmpty();
        var size;
        size, out := DispatchDataPacket();
      case Poll(timing, clock) =>
        var timeout;
        timeout, out := GetSchedulingTimeout(timing, clock);
    }

    /** Any run of calls does to the queue what AfterCalls says. */
    method Serve(cs: seq<Call>) returns (ghost queued: seq<Packet>, out: seq<Packet>)
      requires Valid()
      modifies this, pending
      ensures Valid() && Effect(State(), queued, out) == AfterCalls(old(State()), cs)
      ensures old(Packets(pending)) + queued == out + Packets(pending)
    {
      hide Valid, Packets, AfterCall;
      queued, out := [], [];
      ghost var start := State();
      RunConserves(start, cs);
      for i := 0 to |cs|
        invariant Valid() && Effect(State(), queued, out) == AfterCalls(start, cs[..i])
        invariant forall k :: 0 <= k < |pending| ==> pending[k] in old(pending) || fresh(pending[k])
      {
        assert cs[..i + 1][..i] == cs[..i];
        ghost var q;
        var o;
        q, o := Perform(cs[i]);
        queued, out := queued + q, out + o;
      }
      assert cs[..|cs|] == cs;
    }

    /** Delete all pending packets. */
    method PurgeOutgoingQueue()
      requires Valid()
      modifies this`sendFirst, this`sendLast, this`pending
      ensures Valid() && pending == [] && dispatched == old(dispatched)
    {
      hide OctetCount;
      ghost var q, k := pending, 0;
      while sendFirst != null
        invariant k <= |q| && sendFirst == At(q, k) && pending == q && Linked(q)
        decreases |q| - k
      {
        if k + 1 < |q| {
          assert q[k].next == q[k + 1];
        }
        var sendnext := sendFirst.next;
        sendFirst := sendnext;
        k := k + 1;
      }
      sendLast := null;
      pending := [];
    }
  }

  /** After i packets expired, the rest of the outcome is the outcome for what is left. */
  predicate ScheduledFrom(q: seq<Packet>, overflowTime: Time, t: Timing, clock: nat -> Time, i: nat, r: Outcome) {
    var s := Schedule(q, overflowTime, t, clock, i);
    r == s.(expired := i + s.expired)
  }

  lemma ScheduleUnfolds(q: seq<Packet>, overflowTime: Time, t: Timing, clock: nat -> Time, i: nat)
    ensures q == [] ==> Schedule(q, overflowTime, t, clock, i) == Outcome(0, overflowTime, t.schedulingTimeout)
    ensures q != [] ==>
      var now, cycle := clock(i), Cycle(t.rate);
      var due := Due(q[0], overflowTime, t);
      var n := CyclesLost(due, now, cycle);
      var over := AddCycles(overflowTime, cycle, n);
      var decision := Decide(TurnedBack(AddCycles(due, cycle, n), now, cycle), now, t.expireTimeout);
      && (decision.Wait? ==> Schedule(q, overflowTime, t, clock, i) == Outcome(0, over, decision.timeout))
      && (decision.Expire? ==>
            var s := Schedule(q[1..], over, t, clock, i + 1);
            Schedule(q, overflowTime, t, clock, i) == s.(expired := s.expired + 1))
  {
    hide Cycle, CyclesLost, AddCycles, Decide, Due, TurnedBack;
  }

  lemma OneMoreOf<T>(q: seq<T>, i: nat)
    requires i < |q|
    ensures q[..i] + [q[i]] == q[..i + 1] && q[i..][0] == q[i] && q[i..][1..] == q[i + 1..]
  {
  }

  lemma PacketsFrom(q: seq<PacketLink>)
    ensures Packets(q)[0..] == Packets(q)
    ensures q != [] ==> Packets(q)[1..] == Packets(q[1..])
  {
  }

  lemma CountOne(ps: seq<Packet>, p: Packet)
    ensures OctetCount(ps + [p]) == (OctetCount(ps) + |p.payload|) % TWO32
  {
    assert (ps + [p])[..|ps|] == ps;
  }

  lemma OneMore<T>(a: seq<T>, b: seq<T>, x: T)
    ensures a + b + [x] == a + (b + [x])
  {
  }

  lemma OneAhead<T>(a: seq<T>, x: T, b: seq<T>)
    ensures a + ([x] + b) == a + [x] + b
  {
  }

  lemma WholeData(data: seq<octet>, size: SegmentSize)
    ensures data[0..] == data && Segments(data[|data|..], size) == []
  {
  }

  lemma NoDataPackets(c: Settings, stamp: uint32, seqNum: uint16, marked: bool)
    ensures DataPackets(c, stamp, seqNum, marked, []) == []
  {
  }

  lemma NextSegment(data: seq<octet>, offset: nat, size: SegmentSize)
    requires offset < |data|
    ensures var step := if |data| - offset > size then size else |data| - offset;
      Segments(data[offset..], size) == [data[offset..offset + step]] + Segments(data[offset + step..], size)
  {
    var rest := data[offset..];
    if |rest| <= size {
      assert data[offset..offset + |rest|] == rest && data[offset + |rest|..] == [];
    } else {
      assert rest[..size] == data[offset..offset + size] && rest[size..] == data[offset + size..];
    }
  }

  lemma MorePackets(c: Settings, stamp: uint32, seqNum: uint16, marked: bool, parts: seq<seq<octet>>, part: seq<octet>)
    ensures DataPackets(c, stamp, seqNum, marked, parts + [part])
         == DataPackets(c, stamp, seqNum, marked, parts) + [DataPacket(c, stamp, seqNum, marked, part, |parts|)]
    ensures DataPacket(c, stamp, seqNum, marked, part, |parts|)
         == DataPacket(c, stamp, (seqNum + |parts|) % TWO16, marked && parts == [], part, 0)
  {
  }

  lemma PacketsOneMore(q: seq<PacketLink>, x: PacketLink)
    ensures Packets(q + [x]) == Packets(q) + [x.packet]
  {
  }

  lemma PacketsTail(q: seq<PacketLink>)
    requires q != []
    ensures Packets(q) == [q[0].packet] + Packets(q[1..])
  {
  }
}
