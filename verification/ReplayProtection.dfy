/**
 The packet numbering of SRTP as CryptoContext keeps it: the receiver's guess of
 the 48-bit packet index from a 16-bit sequence number (section 3.3.1 and
 Appendix A of RFC 3711), the 64-packet replay window (section 3.3.2) and the
 sender's rollover counter. The object is CryptoContexts.CryptoContext; this
 module holds its state as a value, so that whole runs can be discussed.

 A shift whose C meaning is undefined (a count that is negative, or not smaller
 than the word) yields an arbitrary value, which the caller of these functions
 supplies: what is proved without constraining it holds on every platform.
 */
module ReplayProtection {
  import opened Octets
  import opened Words

  const WINDOW_SIZE: nat := 64

  /** A 64-bit mask, bit k at position k. */
  type Word64 = w: seq<bool> | |w| == 64 witness seq(64, _ => false)

  function ShiftLeft(w: Word64, n: nat): Word64
    requires n < 64
  {
    seq(64, k requires 0 <= k < 64 => k >= n && w[k - n])
  }

  function Or(v: Word64, w: Word64): Word64 {
    seq(64, k requires 0 <= k < 64 => v[k] || w[k])
  }

  datatype Receiver = Receiver(
    roc: uint32,
    guessedRoc: uint32,
    sL: uint16,
    window: Word64,
    seqNumSet: bool)
  {
    /** The highest accepted index, as the pair (roc, s_l) encodes it. */
    function Highest(): uint48 {
      Index(roc, sL)
    }
  }

  function Index(roc: uint32, seqNum: uint16): (index: uint48)
    ensures index / TWO16 == roc && index % TWO16 == seqNum
  {
    roc * TWO16 + seqNum
  }

  function SeqNum(index: uint48): uint16 {
    index % TWO16
  }

  // ---- The three receiver operations ----

  function GuessedRoc(roc: uint32, sL: uint16, seqNum: uint16): uint32 {
    if sL < 32768 then
      if seqNum - sL > 32768 then (roc - 1) % TWO32 else roc
    else
      if sL - 32768 > seqNum then (roc + 1) % TWO32 else roc
  }

  /** The first call that sees a sequence number adopts it. */
  function Latch(r: Receiver, seqNum: uint16): Receiver {
    if r.seqNumSet then r else r.(seqNumSet := true, sL := seqNum)
  }

  function AfterGuess(r: Receiver, seqNum: uint16): Receiver {
    var l := Latch(r, seqNum);
    l.(guessedRoc := GuessedRoc(l.roc, l.sL, seqNum))
  }

  function GuessIndex(r: Receiver, seqNum: uint16): uint48 {
    Index(AfterGuess(r, seqNum).guessedRoc, seqNum)
  }

  /** Distance of the guessed index from the highest accepted one. */
  function Delta(r: Receiver, seqNum: uint16): int {
    GuessIndex(r, seqNum) - AfterGuess(r, seqNum).Highest()
  }

  /** The verdict of checkReplay; `undefinedBit` is what a shift by 64 yields. */
  predicate Fresh(r: Receiver, seqNum: uint16, undefinedBit: bool) {
    var delta := Delta(r, seqNum);
    if delta > 0 then true
    else if -delta > WINDOW_SIZE then false
    else if -delta == WINDOW_SIZE then !undefinedBit
    else !r.window[-delta]
  }

  function UpdatedWindow(w: Word64, delta: int, undefinedWord: Word64): Word64 {
    if delta > 0 then
      (if delta < 64 then ShiftLeft(w, delta) else undefinedWord)[0 := true]
    else if delta == 0 then
      w[0 := true]
    else
      Or(w, undefinedWord)
  }

  function Updated(r: Receiver, seqNum: uint16, undefinedWord: Word64): Receiver {
    var g := AfterGuess(r, seqNum);
    var u := g.(window := UpdatedWindow(g.window, Delta(r, seqNum), undefinedWord),
                sL := Max(g.sL, seqNum));
    if u.guessedRoc > u.roc then u.(roc := u.guessedRoc, sL := seqNum) else u
  }

  // ---- Exactly when a guess is right, and when an update keeps the maximum ----

  /** The lowest of the 65536 consecutive indices that are guessed right. */
  function WindowStart(r: Receiver): int {
    r.Highest() - 32767 - (if r.sL < 32768 then 0 else 1)
  }

  /**
   The guess recovers the true index exactly for the 65536 indices, modulo 2^48,
   that start at WindowStart: those from 32767 or 32768 below the highest
   accepted index to 32768 or 32767 above it.
   */
  lemma GuessExact(r: Receiver, index: uint48)
    requires r.seqNumSet
    ensures GuessIndex(r, SeqNum(index)) == index
       <==> (index - WindowStart(r)) % TWO48 < TWO16
  {
    var g := GuessIndex(r, SeqNum(index));
    var lo := WindowStart(r);
    GuessStaysInWindow(r, SeqNum(index));
    hide GuessIndex, GuessedRoc, AfterGuess, WindowStart, Receiver.Highest;
    if (index - lo) % TWO48 < TWO16 {
      InSameWindow(index, g, lo);
    }
  }

  lemma InSameWindow(i: uint48, j: uint48, lo: int)
    requires i % TWO16 == j % TWO16 && (i - lo) % TWO48 < TWO16 && (j - lo) % TWO48 < TWO16
    ensures i == j
  {
    CongruentOffsets(i, j, lo);
    SameOffset(i, j, lo);
  }

  lemma GuessStaysInWindow(r: Receiver, seqNum: uint16)
    requires r.seqNumSet
    ensures (GuessIndex(r, seqNum) - WindowStart(r)) % TWO48 < TWO16
    ensures SeqNum(GuessIndex(r, seqNum)) == seqNum
  {
  }

  lemma CongruentOffsets(i: uint48, j: uint48, lo: int)
    requires i % TWO16 == j % TWO16
    ensures (i - lo) % TWO48 % TWO16 == (j - lo) % TWO48 % TWO16
  {
    var a, b := (i - lo) % TWO48, (j - lo) % TWO48;
    var cycles := (i - lo) / TWO48 - (j - lo) / TWO48;
    assert a - b == (i / TWO16 - j / TWO16 - cycles * TWO32) * TWO16;
    ModShift(i / TWO16 - j / TWO16 - cycles * TWO32, b, TWO16);
  }

  lemma SameOffset(i: uint48, j: uint48, lo: int)
    requires (i - lo) % TWO48 == (j - lo) % TWO48
    ensures i == j
  {
  }

  /**
   After a correct guess, update leaves (roc, s_l) encoding the larger of the old
   maximum and the new index, except exactly when the packet is a late one of the
   previous rollover epoch: then s_l is moved although the packet is old.
   */
  lemma UpdateTracksHighest(r: Receiver, index: uint48, undefinedWord: Word64)
    requires r.seqNumSet && GuessIndex(r, SeqNum(index)) == index
    ensures Updated(r, SeqNum(index), undefinedWord).Highest() == Max(r.Highest(), index)
       <==> index / TWO16 + 1 != r.roc
  {
    GuessExact(r, index);
  }

  function OneEpochIn(): Receiver {
    Receiver(1, 1, 4464, seq(64, _ => false), true)
  }

  /** A packet that is one epoch late, and the maximum it fakes: 70000 becomes 125000. */
  lemma LateEpochMovesHighest(undefinedWord: Word64)
    ensures OneEpochIn().Highest() == 70000
    ensures GuessIndex(OneEpochIn(), SeqNum(59464)) == 59464
    ensures Updated(OneEpochIn(), SeqNum(59464), undefinedWord).Highest() == 125000
  {
  }

  // ---- Runs of a receiver ----

  /** One packet reaching unprotect, with the values its undefined shifts take. */
  datatype Arrival = Arrival(index: uint48, undefinedBit: bool, undefinedWord: Word64)

  predicate Accepts(r: Receiver, a: Arrival) {
    Fresh(r, SeqNum(a.index), a.undefinedBit)
  }

  /** checkReplay, then guessIndex again, then update if the packet was fresh. */
  function Deliver(r: Receiver, a: Arrival): Receiver {
    var checked := AfterGuess(r, SeqNum(a.index));
    if Accepts(r, a) then
      Updated(AfterGuess(checked, SeqNum(a.index)), SeqNum(a.index), a.undefinedWord)
    else
      checked
  }

  function Run(r: Receiver, s: seq<Arrival>): Receiver {
    if s == [] then r else Deliver(Run(r, s[..|s| - 1]), s[|s| - 1])
  }

  /** A context before its first packet. */
  predicate Unused(r: Receiver) {
    !r.seqNumSet && r.window == seq(64, _ => false)
  }

  function Top(s: seq<Arrival>): uint48
    requires s != []
  {
    if |s| == 1 then s[0].index
    else Max(Top(s[..|s| - 1]), s[|s| - 1].index)
  }

  /** How far packet k may stray from the highest before it. */
  predicate NearTop(s: seq<Arrival>, k: nat)
    requires 0 < k < |s|
  {
    var top := Top(s[..k]);
    && -32767 <= s[k].index - top <= 32767
    && (s[k].index < top ==> s[k].index / TWO16 == top / TWO16)
  }

  predicate Orderly(r: Receiver, s: seq<Arrival>) {
    && (s != [] ==> s[0].index / TWO16 == r.roc)
    && forall k :: 0 < k < |s| ==> NearTop(s, k)
  }

  lemma OrderlyPrefix(r: Receiver, s: seq<Arrival>, n: nat)
    requires Orderly(r, s) && n <= |s|
    ensures Orderly(r, s[..n])
  {
    forall k | 0 < k < n ensures NearTop(s[..n], k) {
      assert NearTop(s, k);
      assert s[..n][..k] == s[..k];
    }
  }

  lemma RepeatedGuess(r: Receiver, seqNum: uint16)
    ensures AfterGuess(AfterGuess(r, seqNum), seqNum) == AfterGuess(r, seqNum)
  {
  }

  /** A single delivery whose guess is right and whose epoch is not the previous one. */
  lemma DeliverTracks(r: Receiver, a: Arrival)
    requires r.seqNumSet && GuessIndex(r, SeqNum(a.index)) == a.index
    requires a.index / TWO16 + 1 != r.roc
    ensures Deliver(r, a).seqNumSet && Deliver(r, a).Highest() == Max(r.Highest(), a.index)
  {
    var c := AfterGuess(r, SeqNum(a.index));
    RepeatedGuess(r, SeqNum(a.index));
    assert c.Highest() == r.Highest();
    UpdateTracksHighest(c, a.index, a.undefinedWord);
  }

  /** After any orderly run, (roc, s_l) encodes the highest index that arrived. */
  lemma {:induction false} RunTracksTop(r: Receiver, s: seq<Arrival>)
    requires Unused(r) && Orderly(r, s) && s != []
    ensures Run(r, s).seqNumSet && Run(r, s).Highest() == Top(s)
  {
    var n := |s| - 1;
    var a := s[n];
    if n == 0 {
      assert s[..0] == [];
      FirstDelivery(r, a);
    } else {
      OrderlyPrefix(r, s, n);
      RunTracksTop(r, s[..n]);
      assert NearTop(s, n);
      NearIndexGuessed(Run(r, s[..n]), a.index);
      DeliverTracks(Run(r, s[..n]), a);
    }
  }

  lemma FirstDelivery(r: Receiver, a: Arrival)
    requires Unused(r) && a.index / TWO16 == r.roc
    ensures Accepts(r, a) && GuessIndex(r, SeqNum(a.index)) == a.index
    ensures Deliver(r, a).seqNumSet && Deliver(r, a).Highest() == a.index
    ensures Deliver(r, a).window == seq(64, _ => false)[0 := true]
  {
    RepeatedGuess(r, SeqNum(a.index));
    var c := AfterGuess(r, SeqNum(a.index));
    assert c.Highest() == a.index && c.guessedRoc == c.roc;
  }

  lemma NearIndexGuessed(r: Receiver, index: uint48)
    requires r.seqNumSet && -32767 <= index - r.Highest() <= 32767
    ensures GuessIndex(r, SeqNum(index)) == index
  {
    GuessExact(r, index);
  }

  /** Every packet of an orderly run is guessed right. */
  lemma EveryGuessRight(r: Receiver, s: seq<Arrival>, k: nat)
    requires Unused(r) && Orderly(r, s) && k < |s|
    ensures GuessIndex(Run(r, s[..k]), SeqNum(s[k].index)) == s[k].index
  {
    if k == 0 {
      FirstDelivery(r, s[0]);
    } else {
      OrderlyPrefix(r, s, k);
      RunTracksTop(r, s[..k]);
      assert NearTop(s, k);
      NearIndexGuessed(Run(r, s[..k]), s[k].index);
    }
  }

  // ---- The sender ----

  datatype Sender = Sender(roc: uint32, sendSeq: uint16)
  {
    /** The index protect computes for the packet about to be sent. */
    function PacketIndex(): uint48 {
      Index(roc, sendSeq)
    }

    /** putData increments the sequence number; protect counts the rollover. */
    function Next(): Sender {
      Sender(if sendSeq == 0xFFFF then (roc + 1) % TWO32 else roc, (sendSeq + 1) % TWO16)
    }

    function After(n: nat): Sender {
      if n == 0 then this else After(n - 1).Next()
    }
  }

  /** Sender indices are consecutive modulo 2^48, across every sequence wrap. */
  lemma {:induction false} SenderConsecutive(s: Sender, n: nat)
    ensures s.After(n).PacketIndex() == (s.PacketIndex() + n) % TWO48
  {
    if n > 0 {
      SenderConsecutive(s, n - 1);
      NextIndex(s.After(n - 1));
      ModStep(s.PacketIndex() + n - 1);
    }
  }

  /** Until the 48 bits are used up, packet n has index start + n. */
  lemma SenderCounts(s: Sender, n: nat)
    requires s.PacketIndex() + n < TWO48
    ensures s.After(n).PacketIndex() == s.PacketIndex() + n
  {
    SenderConsecutive(s, n);
  }

  lemma NextIndex(p: Sender)
    ensures p.Next().PacketIndex() == (p.PacketIndex() + 1) % TWO48
  {
    if p.sendSeq == 0xFFFF && p.roc == TWO32 - 1 {
      assert p.PacketIndex() + 1 == TWO48;
    } else {
      assert p.PacketIndex() + 1 < TWO48;
    }
  }

  lemma ModStep(x: nat)
    ensures (x % TWO48 + 1) % TWO48 == (x + 1) % TWO48
  {
    assert x + 1 == x / TWO48 * TWO48 + (x % TWO48 + 1);
  }

  /**
   The two parties agree: whatever packets of the sender's stream arrive, in
   whatever orderly arrangement, with losses and repetitions, the receiver, which
   sees 16-bit sequence numbers only, recovers the sender's own 48-bit index of
   every one of them.
   */
  lemma TwoPartyAgreement(sender: Sender, r: Receiver, sent: seq<nat>, s: seq<Arrival>, k: nat)
    requires |sent| == |s| && k < |s|
    requires forall j :: 0 <= j < |s| ==> s[j].index == sender.After(sent[j]).PacketIndex()
    requires Unused(r) && Orderly(r, s)
    ensures GuessIndex(Run(r, s[..k]), sender.After(sent[k]).sendSeq)
         == sender.After(sent[k]).PacketIndex()
  {
    EveryGuessRight(r, s, k);
  }

  // ---- What the replay window means ----

  predicate Arrived(s: seq<Arrival>, index: int) {
    exists j :: 0 <= j < |s| && s[j].index == index
  }

  /** Bit k of the window says whether the index k below the highest has arrived. */
  predicate WindowMeans(r: Receiver, s: seq<Arrival>) {
    && r.seqNumSet
    && Arrived(s, r.Highest())
    && (forall k :: 0 <= k < 64 ==> (r.window[k] <==> Arrived(s, r.Highest() - k)))
    && (forall j :: 0 <= j < |s| ==> s[j].index <= r.Highest())
  }

  /**
   Packet k advances the highest index by 1 to 63, or repeats one within 63 of it, or is
   more than 64 behind it, new or not, as long as its index is still guessed right.
   */
  predicate InWindow(r: Receiver, s: seq<Arrival>, k: nat)
    requires 0 < k < |s|
  {
    var d := s[k].index - Top(s[..k]);
    || 1 <= d <= 63
    || (-63 <= d <= 0 && Arrived(s[..k], s[k].index))
    || (d < -64 && GuessIndex(Run(r, s[..k]), SeqNum(s[k].index)) == s[k].index)
  }

  predicate Windowed(r: Receiver, s: seq<Arrival>) {
    && (s != [] ==> s[0].index / TWO16 == r.roc)
    && forall k :: 0 < k < |s| ==> InWindow(r, s, k)
  }

  lemma WindowedPrefix(r: Receiver, s: seq<Arrival>, n: nat)
    requires Windowed(r, s) && n <= |s|
    ensures Windowed(r, s[..n])
  {
    forall k | 0 < k < n ensures InWindow(r, s[..n], k) {
      assert InWindow(r, s, k);
      assert s[..n][..k] == s[..k];
    }
  }

  lemma TopOfWindow(r: Receiver, s: seq<Arrival>)
    requires s != [] && WindowMeans(r, s)
    ensures Top(s) == r.Highest()
  {
    TopIsMax(s);
  }

  lemma {:induction false} TopIsMax(s: seq<Arrival>)
    requires s != []
    ensures Arrived(s, Top(s)) && forall j :: 0 <= j < |s| ==> s[j].index <= Top(s)
  {
    var n := |s| - 1;
    if n > 0 {
      TopIsMax(s[..n]);
      var j :| 0 <= j < n && s[..n][j].index == Top(s[..n]);
      assert s[j].index == Top(s[..n]);
      forall i | 0 <= i < |s| ensures s[i].index <= Top(s) {
        if i < n {
          assert s[..n][i] == s[i];
        }
      }
      assert s[n].index == Top(s) || s[j].index == Top(s);
    } else {
      assert s[0].index == Top(s);
    }
  }

  lemma ArrivedAppend(s: seq<Arrival>, a: Arrival, index: int)
    ensures Arrived(s + [a], index) <==> Arrived(s, index) || a.index == index
  {
    var t := s + [a];
    if Arrived(s, index) {
      var j :| 0 <= j < |s| && s[j].index == index;
      assert t[j].index == index;
    }
    if a.index == index {
      assert t[|s|].index == index;
    }
  }

  /** An advance by 1 to 63 shifts the window and sets its lowest bit. */
  lemma AdvanceKeepsWindow(r: Receiver, s: seq<Arrival>, a: Arrival)
    requires WindowMeans(r, s) && 1 <= a.index - r.Highest() <= 63
    ensures Accepts(r, a) && WindowMeans(Deliver(r, a), s + [a])
  {
    NearIndexGuessed(r, a.index);
    RepeatedGuess(r, SeqNum(a.index));
    var t := Deliver(r, a);
    var d := a.index - r.Highest();
    assert a.index / TWO16 + 1 != r.roc;
    DeliverTracks(r, a);
    assert t.window == ShiftLeft(r.window, d)[0 := true];
    ArrivedAppend(s, a, t.Highest());
    forall k | 0 <= k < 64 ensures t.window[k] <==> Arrived(s + [a], t.Highest() - k) {
      ArrivedAppend(s, a, t.Highest() - k);
      if k >= d {
        assert t.Highest() - k == r.Highest() - (k - d);
      }
    }
  }

  /** A repetition within the window is refused and changes nothing but the last guess. */
  lemma ReplayRefused(r: Receiver, s: seq<Arrival>, a: Arrival)
    requires WindowMeans(r, s) && -63 <= a.index - r.Highest() <= 0 && Arrived(s, a.index)
    ensures !Accepts(r, a) && WindowMeans(Deliver(r, a), s + [a])
  {
    NearIndexGuessed(r, a.index);
    assert r.window[r.Highest() - a.index];
    var t := Deliver(r, a);
    ArrivedAppend(s, a, t.Highest());
    forall k | 0 <= k < 64 ensures t.window[k] <==> Arrived(s + [a], t.Highest() - k) {
      ArrivedAppend(s, a, t.Highest() - k);
    }
  }

  /** A packet more than 64 behind the highest is refused, whatever was received, and changes nothing but the last guess. */
  lemma TooOldRefused(r: Receiver, a: Arrival)
    requires r.seqNumSet && r.Highest() - a.index > 64 && GuessIndex(r, SeqNum(a.index)) == a.index
    ensures !Accepts(r, a) && Deliver(r, a) == r.(guessedRoc := a.index / TWO16)
  {
  }

  lemma TooOldKeepsWindow(r: Receiver, s: seq<Arrival>, a: Arrival)
    requires WindowMeans(r, s) && r.Highest() - a.index > 64 && GuessIndex(r, SeqNum(a.index)) == a.index
    ensures !Accepts(r, a) && WindowMeans(Deliver(r, a), s + [a])
  {
    hide Accepts, Deliver, GuessIndex;
    TooOldRefused(r, a);
    var t := Deliver(r, a);
    ArrivedAppend(s, a, t.Highest());
    forall k | 0 <= k < 64 ensures t.window[k] <==> Arrived(s + [a], t.Highest() - k) {
      ArrivedAppend(s, a, t.Highest() - k);
    }
  }

  /** Over every windowed run the mask is exactly the recent history. */
  lemma {:induction false} WindowIsHistory(r: Receiver, s: seq<Arrival>)
    requires Unused(r) && Windowed(r, s) && s != []
    ensures WindowMeans(Run(r, s), s)
  {
    var n := |s| - 1;
    var a := s[n];
    assert s == s[..n] + [a];
    if n == 0 {
      assert s[..0] == [];
      FirstDelivery(r, a);
      var t := Deliver(r, a);
      assert s[0].index == t.Highest();
      assert forall k :: 0 <= k < 64 ==> (t.window[k] <==> k == 0);
    } else {
      WindowedPrefix(r, s, n);
      WindowIsHistory(r, s[..n]);
      TopOfWindow(Run(r, s[..n]), s[..n]);
      assert InWindow(r, s, n);
      if a.index > Top(s[..n]) {
        AdvanceKeepsWindow(Run(r, s[..n]), s[..n], a);
      } else if a.index >= Top(s[..n]) - 63 {
        ReplayRefused(Run(r, s[..n]), s[..n], a);
      } else {
        TooOldKeepsWindow(Run(r, s[..n]), s[..n], a);
      }
    }
  }

  /**
   So a packet is accepted exactly when it has not arrived before and is not too far behind:
   no index is accepted twice, however late its copy comes.
   */
  lemma AcceptedOnce(r: Receiver, s: seq<Arrival>, k: nat)
    requires Unused(r) && Windowed(r, s) && k < |s|
    ensures Accepts(Run(r, s[..k]), s[k])
       <==> !Arrived(s[..k], s[k].index) && (k > 0 ==> s[k].index >= Top(s[..k]) - 64)
  {
    if k == 0 {
      FirstDelivery(r, s[0]);
    } else {
      WindowedPrefix(r, s, k);
      WindowIsHistory(r, s[..k]);
      TopOfWindow(Run(r, s[..k]), s[..k]);
      assert InWindow(r, s, k);
      if s[k].index > Top(s[..k]) {
        TopIsMax(s[..k]);
        AdvanceKeepsWindow(Run(r, s[..k]), s[..k], s[k]);
      } else if s[k].index >= Top(s[..k]) - 63 {
        ReplayRefused(Run(r, s[..k]), s[..k], s[k]);
      } else {
        TooOldKeepsWindow(Run(r, s[..k]), s[..k], s[k]);
      }
    }
  }

  /**
   Where the guarantee stops. A packet up to 63 behind the highest that has not
   arrived is accepted, but its bit is set with an undefined shift; a second copy
   is then refused exactly when that shift happened to produce the bit.
   */
  lemma LateArrivalRecordedByChance(r: Receiver, s: seq<Arrival>, a: Arrival, again: Arrival)
    requires WindowMeans(r, s) && !Arrived(s, a.index)
    requires 1 <= r.Highest() - a.index <= 63 && a.index / TWO16 == r.roc
    requires again.index == a.index
    ensures Accepts(r, a)
    ensures Accepts(Deliver(r, a), again) <==> !a.undefinedWord[r.Highest() - a.index]
  {
    NearIndexGuessed(r, a.index);
    RepeatedGuess(r, SeqNum(a.index));
    assert !r.window[r.Highest() - a.index];
    var t := Deliver(r, a);
    DeliverTracks(r, a);
    NearIndexGuessed(t, a.index);
    assert t.window == Or(r.window, a.undefinedWord);
  }

  /**
   An advance of 64 or more should leave the new packet's bit alone. The shift it is done
   with is undefined, and the mask is the history afterwards exactly when that shift
   happened to produce zeros; any other bit stands for a packet that never arrived.
   */
  lemma FarAdvanceClearsByChance(r: Receiver, s: seq<Arrival>, a: Arrival)
    requires WindowMeans(r, s) && a.index - r.Highest() >= 64
    requires GuessIndex(r, SeqNum(a.index)) == a.index
    ensures Accepts(r, a)
    ensures WindowMeans(Deliver(r, a), s + [a]) <==> forall k :: 1 <= k < 64 ==> !a.undefinedWord[k]
  {
    RepeatedGuess(r, SeqNum(a.index));
    var t := Deliver(r, a);
    DeliverTracks(r, a);
    assert t.window == a.undefinedWord[0 := true];
    ArrivedAppend(s, a, t.Highest());
    forall k | 0 <= k < 64 ensures t.window[k] <==> (k == 0 || a.undefinedWord[k])
      ensures Arrived(s + [a], t.Highest() - k) <==> k == 0
    {
      ArrivedAppend(s, a, t.Highest() - k);
    }
    if WindowMeans(t, s + [a]) {
      forall k | 1 <= k < 64 ensures !a.undefinedWord[k] {
        assert t.window[k] == a.undefinedWord[k];
      }
    }
  }

  /** Exactly 64 behind, the verdict is the undefined bit, whatever was received. */
  lemma DistanceOf64Undecided(r: Receiver, a: Arrival)
    requires r.seqNumSet && r.Highest() - a.index == 64
    ensures Accepts(r, a) <==> !a.undefinedBit
  {
    NearIndexGuessed(r, a.index);
  }
}
