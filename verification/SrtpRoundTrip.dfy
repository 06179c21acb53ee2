/**
 What protection and unprotection are for: a packet that was built, protected and
 received by a receiver that accepts it comes back exactly, for one packet and for
 every packet of every orderly run between two contexts.
 */
module SrtpRoundTrip {
  import opened Octets
  import opened CounterMode
  import opened CryptoContexts
  import opened ReplayProtection
  import opened RtpFormat
  import opened RtpPackets

  predicate HasPolicy(e: Encryption, a: Authentication) {
    !(a.NullAuthentication? && e.NullEncryption?)
  }

  /** unprotect undoes protect, whatever the cipher, the MAC and the tag length. */
  lemma ProtectThenUnprotect(plain: seq<octet>, hdrSize: nat, e: Encryption, a: Authentication, ssrc: uint32,
                             index: uint48, r: Receiver, undefinedBit: bool, undefinedWord: Word64)
    requires hdrSize <= |plain| && |plain| - hdrSize + TagSize(a) < MAX_LENGTH
    requires GuessIndex(r, SeqNum(index)) == index
    requires HasPolicy(e, a) ==> Fresh(r, SeqNum(index), undefinedBit)
    ensures var wire := Protected(plain, hdrSize, e, a, ssrc, index);
      var u := Unprotect(wire, hdrSize, e, a, ssrc, SeqNum(index), r, undefinedBit, undefinedWord);
      && u.code == 1
      && u.octets == plain + wire[|plain|..]
      && u.receiver == Updated(AfterGuess(r, SeqNum(index)), SeqNum(index), undefinedWord)
  {
    hide Crypt, Tag, GuessedRoc, Updated;
    RepeatedGuess(r, SeqNum(index));
    var cipherText := Crypt(e, ssrc, index, plain[hdrSize..]);
    var body := plain[..hdrSize] + cipherText;
    var wire := body + Tag(a, body, index / TWO16);
    assert wire == Protected(plain, hdrSize, e, a, ssrc, index);
    assert |wire| - TagSize(a) == |body|;
    assert wire[..|body|] == body && wire[|body|..] == Tag(a, body, index / TWO16);
    assert wire[hdrSize..|body|] == cipherText;
    CryptTwice(e, ssrc, index, plain[hdrSize..]);
    assert wire[..hdrSize] + plain[hdrSize..] == plain;
  }

  /** An octet of the payload on the wire: masked with the cipher of this packet's own input. */
  lemma WireOctet(plain: seq<octet>, hdrSize: nat, cipher: BlockCipher, salt: Salt, a: Authentication, ssrc: uint32,
                  index: uint48, j: nat)
    requires hdrSize + j < |plain| && |plain| - hdrSize < MAX_LENGTH
    ensures Protected(plain, hdrSize, AesCounterMode(cipher, salt), a, ssrc, index)[hdrSize + j]
         == Xor(plain[hdrSize + j], cipher(CipherInput(salt, ssrc, index, j / 16))[j % 16])
  {
    hide Crypt, Tag, Xor, CipherInput;
    CryptOctet(cipher, salt, ssrc, index, plain[hdrSize..], j);
  }

  /** The tag stands behind the packet and covers all octets in front of it as they are on the wire. */
  lemma WireTag(plain: seq<octet>, hdrSize: nat, e: Encryption, a: Authentication, ssrc: uint32, index: uint48)
    requires hdrSize <= |plain| && |plain| - hdrSize < MAX_LENGTH
    ensures var wire := Protected(plain, hdrSize, e, a, ssrc, index);
      && wire[..hdrSize] == plain[..hdrSize]
      && wire[|plain|..] == Tag(a, wire[..|plain|], index / TWO16)
  {
    hide Crypt, Tag;
    var body := plain[..hdrSize] + Crypt(e, ssrc, index, plain[hdrSize..]);
    var wire := Protected(plain, hdrSize, e, a, ssrc, index);
    assert wire[..|plain|] == body && wire[|plain|..] == Tag(a, body, index / TWO16);
  }

  /**
   No part of the key stream is used twice: each payload octet of packets p and q of one
   sender is masked with an octet of the cipher, and the two are drawn from one input of the
   cipher if and only if they lie in one 16-octet block of one packet.
   */
  lemma NoKeyStreamRepeats(sender: Sender, p: nat, q: nat, plainP: seq<octet>, plainQ: seq<octet>, hdrP: nat, hdrQ: nat,
                           posP: nat, posQ: nat, cipher: BlockCipher, salt: Salt, a: Authentication, ssrc: uint32)
    requires sender.PacketIndex() + p < TWO48 && sender.PacketIndex() + q < TWO48
    requires hdrP + posP < |plainP| && |plainP| - hdrP < MAX_LENGTH
    requires hdrQ + posQ < |plainQ| && |plainQ| - hdrQ < MAX_LENGTH
    ensures var i, j := sender.After(p).PacketIndex(), sender.After(q).PacketIndex();
      var e := AesCounterMode(cipher, salt);
      var x, y := CipherInput(salt, ssrc, i, posP / 16), CipherInput(salt, ssrc, j, posQ / 16);
      && Protected(plainP, hdrP, e, a, ssrc, i)[hdrP + posP] == Xor(plainP[hdrP + posP], cipher(x)[posP % 16])
      && Protected(plainQ, hdrQ, e, a, ssrc, j)[hdrQ + posQ] == Xor(plainQ[hdrQ + posQ], cipher(y)[posQ % 16])
      && (x == y <==> p == q && posP / 16 == posQ / 16)
  {
    hide Protected, Xor, CipherInput;
    WireOctet(plainP, hdrP, cipher, salt, a, ssrc, sender.After(p).PacketIndex(), posP);
    WireOctet(plainQ, hdrQ, cipher, salt, a, ssrc, sender.After(q).PacketIndex(), posQ);
    NoCipherInputRepeats(salt, ssrc, sender, p, q, |plainP| - hdrP, |plainQ| - hdrQ, posP, posQ);
  }

  /**
   The rollover counter is authenticated: under a digest that shows what it is given, a
   receiver that admits the packet accepts it if and only if the counter it guessed is the
   one the packet was protected under.
   */
  lemma RolloverDecides(plain: seq<octet>, hdrSize: nat, e: Encryption, ssrc: uint32, index: uint48, r: Receiver,
                        undefinedBit: bool, undefinedWord: Word64)
    requires hdrSize <= |plain| && |plain| - hdrSize + 20 < MAX_LENGTH
    requires Fresh(r, SeqNum(index), undefinedBit)
    ensures var wire := Protected(plain, hdrSize, e, SHOWING, ssrc, index);
      var u := Unprotect(wire, hdrSize, e, SHOWING, ssrc, SeqNum(index), r, undefinedBit, undefinedWord);
      && (u.code == 1 <==> GuessIndex(r, SeqNum(index)) / TWO16 == index / TWO16)
      && (u.code != 1 ==> u.code == -1 && u.octets == wire)
  {
    hide Crypt, Tag, GuessedRoc, Updated, LastOctets;
    RepeatedGuess(r, SeqNum(index));
    var body := plain[..hdrSize] + Crypt(e, ssrc, index, plain[hdrSize..]);
    var wire := Protected(plain, hdrSize, e, SHOWING, ssrc, index);
    assert wire == body + Tag(SHOWING, body, index / TWO16);
    assert wire[..|body|] == body && wire[|body|..] == Tag(SHOWING, body, index / TWO16);
    TagBindsRollover(body, GuessIndex(r, SeqNum(index)) / TWO16, index / TWO16);
  }

  /** With any other tag the packet is refused and nothing but the context's last guess changes. */
  lemma OtherTagRefused(plain: seq<octet>, hdrSize: nat, e: Encryption, a: Authentication, ssrc: uint32, index: uint48,
                        r: Receiver, undefinedBit: bool, undefinedWord: Word64, other: seq<octet>)
    requires hdrSize <= |plain| && |plain| - hdrSize + TagSize(a) < MAX_LENGTH
    requires GuessIndex(r, SeqNum(index)) == index
    requires HasPolicy(e, a) ==> Fresh(r, SeqNum(index), undefinedBit)
    requires |other| == TagSize(a) && other != Protected(plain, hdrSize, e, a, ssrc, index)[|plain|..]
    ensures var wire := Protected(plain, hdrSize, e, a, ssrc, index)[..|plain|] + other;
      Unprotect(wire, hdrSize, e, a, ssrc, SeqNum(index), r, undefinedBit, undefinedWord)
      == Unprotected(-1, wire, AfterGuess(r, SeqNum(index)))
  {
    hide Crypt, Tag, GuessedRoc, Updated;
    RepeatedGuess(r, SeqNum(index));
    WireTag(plain, hdrSize, e, a, ssrc, index);
    var body := Protected(plain, hdrSize, e, a, ssrc, index)[..|plain|];
    assert (body + other)[..|plain|] == body && (body + other)[|plain|..] == other;
  }

  /** A replay is refused before anything is touched. */
  lemma ReplayUntouched(wire: seq<octet>, hdrSize: nat, e: Encryption, a: Authentication, ssrc: uint32,
                        seqNum: uint16, r: Receiver, undefinedBit: bool, undefinedWord: Word64)
    requires hdrSize + TagSize(a) <= |wire| && |wire| - hdrSize < MAX_LENGTH
    requires HasPolicy(e, a) && !Fresh(r, seqNum, undefinedBit)
    ensures Unprotect(wire, hdrSize, e, a, ssrc, seqNum, r, undefinedBit, undefinedWord)
         == Unprotected(-2, wire, AfterGuess(r, seqNum))
  {
  }

  /**
   Over every orderly run of the sender's stream, packet k is either refused as a
   replay or restored exactly, and the context moves on as the run says.
   */
  lemma EveryPacketRestored(sender: Sender, r: Receiver, sent: seq<nat>, s: seq<Arrival>, k: nat,
                            plain: seq<octet>, hdrSize: nat, e: Encryption, a: Authentication, ssrc: uint32)
    requires |sent| == |s| && k < |s| && HasPolicy(e, a)
    requires forall j :: 0 <= j < |s| ==> s[j].index == sender.After(sent[j]).PacketIndex()
    requires Unused(r) && Orderly(r, s)
    requires hdrSize <= |plain| && |plain| - hdrSize + TagSize(a) < MAX_LENGTH
    ensures var packet := sender.After(sent[k]);
      var wire := Protected(plain, hdrSize, e, a, ssrc, packet.PacketIndex());
      var before := Run(r, s[..k]);
      var u := Unprotect(wire, hdrSize, e, a, ssrc, packet.sendSeq, before, s[k].undefinedBit, s[k].undefinedWord);
      && u.receiver == Run(r, s[..k + 1])
      && (Accepts(before, s[k]) ==> u.code == 1 && u.octets[..|plain|] == plain)
      && (!Accepts(before, s[k]) ==> u.code == -2 && u.octets == wire)
  {
    hide Protected, Unprotect, GuessedRoc, Orderly, ReplayProtection.GuessIndex, Updated, AfterGuess;
    var index := s[k].index;
    var before := Run(r, s[..k]);
    EveryGuessRight(r, s, k);
    assert s[..k + 1][..k] == s[..k];
    assert Run(r, s[..k + 1]) == Deliver(before, s[k]);
    if Accepts(before, s[k]) {
      ProtectThenUnprotect(plain, hdrSize, e, a, ssrc, index, before, s[k].undefinedBit, s[k].undefinedWord);
      RepeatedGuess(before, SeqNum(index));
    } else {
      ReplayUntouched(Protected(plain, hdrSize, e, a, ssrc, index), hdrSize, e, a, ssrc, SeqNum(index),
                      before, s[k].undefinedBit, s[k].undefinedWord);
    }
  }

  /** Protection leaves everything the parser reads as it was; only the length grows. */
  lemma WireParses(plain: seq<octet>, h: Header, payload: seq<octet>, e: Encryption, a: Authentication, index: uint48)
    requires Carries(plain, h, payload, 0) && |payload| + TagSize(a) < MAX_LENGTH
    requires |h.csrcs| <= 15 && WellFormedExtension(h.extension) && |plain| + 20 < TWO32
    ensures var wire := Protected(plain, h.Size(), e, a, h.ssrc, index);
      && Readable(wire) && HeaderSize(wire) == h.Size() && !PaddingBit(wire[0])
      && PayloadSize(wire) == |payload| + TagSize(a)
      && (HeaderValid(wire) <==> h.payloadType != 72 && h.payloadType != 73)
      && Read16(wire, 2) == h.seqNum && Read32(wire, 8) == h.ssrc
  {
    hide Crypt, Tag, Carries, Body, WellFormedExtension, Readable, HeaderSize, Read16, Read32;
    hide PaddingBit, ExtensionBit, CcOf, VersionOf, PayloadTypeOf, MarkerBit;
    BodyParts(plain, h, payload, 0);
    BuildThenParse(plain, h, payload, 0);
    var wire := Protected(plain, h.Size(), e, a, h.ssrc, index);
    assert wire[..h.Size()] == plain[..h.Size()];
    SamePrefixParses(plain, wire, h.Size());
  }

  lemma SamePrefixParses(b: seq<octet>, c: seq<octet>, n: nat)
    requires Readable(b) && HeaderSize(b) == n && n <= |b| <= |c| && b[..n] == c[..n]
    ensures Readable(c) && HeaderSize(c) == n
    ensures b[0] == c[0] && b[1] == c[1] && Read16(c, 2) == Read16(b, 2) && Read32(c, 8) == Read32(b, 8)
  {
    assert forall k :: 0 <= k < n ==> b[k] == b[..n][k] == c[..n][k] == c[k];
  }

  /**
   From the application's payload back to it: the wire octets parse to the sender's
   header, and unprotecting with what was parsed restores the packet.
   */
  lemma PacketSurvives(plain: seq<octet>, h: Header, payload: seq<octet>, e: Encryption, a: Authentication,
                       index: uint48, r: Receiver, undefinedBit: bool, undefinedWord: Word64)
    requires Carries(plain, h, payload, 0) && |payload| + TagSize(a) < MAX_LENGTH
    requires |h.csrcs| <= 15 && WellFormedExtension(h.extension) && |plain| + 20 < TWO32
    requires h.seqNum == SeqNum(index) && GuessIndex(r, h.seqNum) == index
    requires HasPolicy(e, a) ==> Fresh(r, h.seqNum, undefinedBit)
    ensures var wire := Protected(plain, h.Size(), e, a, h.ssrc, index);
      && Readable(wire) && HeaderSize(wire) == h.Size()
      && PayloadSize(wire) == |wire| - h.Size() == |payload| + TagSize(a)
      && var u := Unprotect(wire, HeaderSize(wire), e, a, Read32(wire, 8), Read16(wire, 2), r,
                            undefinedBit, undefinedWord);
      && u.code == 1
      && u.octets[..|plain|] == plain
      && u.octets[h.Size()..h.Size() + |payload|] == payload
  {
    hide Protected, Unprotect, Carries, Body, ReplayProtection.GuessIndex, Readable, HeaderSize, PayloadSize, Fresh;
    BodyParts(plain, h, payload, 0);
    WireParses(plain, h, payload, e, a, index);
    var wire := Protected(plain, h.Size(), e, a, h.ssrc, index);
    ProtectThenUnprotect(plain, h.Size(), e, a, h.ssrc, index, r, undefinedBit, undefinedWord);
    assert (plain + wire[|plain|..])[..|plain|] == plain;
    assert (plain + wire[|plain|..])[h.Size()..h.Size() + |payload|] == plain[h.Size()..h.Size() + |payload|];
  }

  // ---- Padded packets ----

  /** What takeInDataPacket makes of the octets before anything else looks at them. */
  function PaddingCleared(b: seq<octet>): (c: seq<octet>)
    requires b != []
    ensures |c| == |b|
  {
    b[0 := SetPaddingBit(b[0], false)]
  }

  /** The octets that are authenticated when a packet is protected. */
  function Authenticated(plain: seq<octet>, hdrSize: nat, e: Encryption, ssrc: uint32, index: uint48): (r: seq<octet>)
    requires hdrSize <= |plain| && |plain| - hdrSize < MAX_LENGTH
    ensures |r| == |plain|
  {
    plain[..hdrSize] + Crypt(e, ssrc, index, plain[hdrSize..])
  }

  lemma ClearedApart(plain: seq<octet>, hdrSize: nat, cipherText: seq<octet>, tag: seq<octet>)
    requires 0 < hdrSize <= |plain| == hdrSize + |cipherText|
    ensures var body := plain[..hdrSize] + cipherText;
      var seen := PaddingCleared(body + tag);
      && seen[..|plain|] == PaddingCleared(body) && seen[|plain|..] == tag
      && seen[hdrSize..|plain|] == cipherText
      && seen[..hdrSize] + plain[hdrSize..] == PaddingCleared(plain)
  {
    hide SetPaddingBit;
  }

  /**
   Protection authenticates the padding bit, and the receiver clears it first. So a
   packet that would be accepted is accepted if and only if its tag does not tell the two
   first octets apart; and then all of it but the padding bit is restored.
   */
  lemma ClearedThenUnprotect(plain: seq<octet>, hdrSize: nat, e: Encryption, a: Authentication, ssrc: uint32,
                             index: uint48, r: Receiver, undefinedBit: bool, undefinedWord: Word64)
    requires 0 < hdrSize <= |plain| && |plain| - hdrSize + TagSize(a) < MAX_LENGTH
    requires GuessIndex(r, SeqNum(index)) == index
    requires HasPolicy(e, a) ==> Fresh(r, SeqNum(index), undefinedBit)
    ensures var seen := PaddingCleared(Protected(plain, hdrSize, e, a, ssrc, index));
      var u := Unprotect(seen, hdrSize, e, a, ssrc, SeqNum(index), r, undefinedBit, undefinedWord);
      var body := Authenticated(plain, hdrSize, e, ssrc, index);
      && (u.code == 1 <==> Tag(a, PaddingCleared(body), index / TWO16) == Tag(a, body, index / TWO16))
      && (u.code == 1 ==> u.octets[..|plain|] == PaddingCleared(plain))
      && (u.code != 1 ==> u.code == -1 && u.octets == seen)
  {
    hide Crypt, Tag, GuessedRoc, Updated, SetPaddingBit, PaddingCleared;
    RepeatedGuess(r, SeqNum(index));
    var cipherText := Crypt(e, ssrc, index, plain[hdrSize..]);
    var body := plain[..hdrSize] + cipherText;
    var tag := Tag(a, body, index / TWO16);
    ClearedApart(plain, hdrSize, cipherText, tag);
    CryptTwice(e, ssrc, index, plain[hdrSize..]);
  }

  /** With its padding bit cleared, a protected padded packet parses to the sender's header. */
  lemma PaddedParses(plain: seq<octet>, h: Header, payload: seq<octet>, padding: octet, e: Encryption,
                     a: Authentication, index: uint48)
    requires Carries(plain, h, payload, padding) && |plain| + 20 < TWO32
    requires |h.csrcs| <= 15 && WellFormedExtension(h.extension)
    requires h.Size() <= |plain| && |plain| - h.Size() < MAX_LENGTH
    ensures var seen := PaddingCleared(Protected(plain, h.Size(), e, a, h.ssrc, index));
      && Readable(seen) && HeaderSize(seen) == h.Size() && PayloadSize(seen) == |seen| - h.Size()
      && Read16(seen, 2) == h.seqNum && Read32(seen, 8) == h.ssrc
  {
    hide Protected, Carries, Body, Readable, HeaderSize, PayloadSize, PaddingCleared, Read16, Read32;
    BuildThenParse(plain, h, payload, padding);
    var wire := Protected(plain, h.Size(), e, a, h.ssrc, index);
    HeaderKept(plain, h.Size(), e, a, h.ssrc, index);
    ClearedParses(plain, wire, PaddingCleared(wire), h.Size());
  }

  lemma WasPadded(plain: seq<octet>, h: Header, payload: seq<octet>, padding: octet)
    requires Carries(plain, h, payload, padding) && padding != 0
    ensures SetPaddingBit(SetPaddingBit(plain[0], false), true) == plain[0]
  {
    hide Body, SetPaddingBit, BigEndian16, BigEndian32, Octet1;
    OctetFields(true, h.extension != [], |h.csrcs|, h.marker, h.payloadType);
    PaddingBitCleared(plain[0]);
  }

  /**
   For a padded packet of the application: the header still parses, the payload comes back
   exactly when the tags agree, and setting the padding bit again restores the packet.
   */
  lemma PaddedPacketSurvives(plain: seq<octet>, h: Header, payload: seq<octet>, padding: octet, e: Encryption,
                             a: Authentication, index: uint48, r: Receiver, undefinedBit: bool, undefinedWord: Word64)
    requires Carries(plain, h, payload, padding) && padding != 0 && |plain| + 20 < TWO32
    requires |h.csrcs| <= 15 && WellFormedExtension(h.extension)
    requires |plain| - h.Size() + TagSize(a) < MAX_LENGTH
    requires h.seqNum == SeqNum(index) && GuessIndex(r, h.seqNum) == index
    requires HasPolicy(e, a) ==> Fresh(r, h.seqNum, undefinedBit)
    ensures h.Size() <= |plain|
    ensures var seen := PaddingCleared(Protected(plain, h.Size(), e, a, h.ssrc, index));
      && Readable(seen) && HeaderSize(seen) == h.Size() && PayloadSize(seen) == |seen| - h.Size()
      && var u := Unprotect(seen, HeaderSize(seen), e, a, Read32(seen, 8), Read16(seen, 2), r, undefinedBit, undefinedWord);
      var body := Authenticated(plain, h.Size(), e, h.ssrc, index);
      && (u.code == 1 <==> Tag(a, PaddingCleared(body), index / TWO16) == Tag(a, body, index / TWO16))
      && (u.code == 1 ==>
            && u.octets[h.Size()..h.Size() + |payload|] == payload
            && u.octets[0 := SetPaddingBit(u.octets[0], true)][..|plain|] == plain)
  {
    hide Protected, Unprotect, Carries, Body, ReplayProtection.GuessIndex, Readable, HeaderSize, PayloadSize, Fresh;
    hide SetPaddingBit, Authenticated, Tag, PaddingCleared, PaddingBit, VersionOf, ExtensionBit, CcOf, Read16, Read32;
    BodyParts(plain, h, payload, padding);
    PaddedParses(plain, h, payload, padding, e, a, index);
    var seen := PaddingCleared(Protected(plain, h.Size(), e, a, h.ssrc, index));
    ClearedThenUnprotect(plain, h.Size(), e, a, h.ssrc, index, r, undefinedBit, undefinedWord);
    var u := Unprotect(seen, h.Size(), e, a, h.ssrc, h.seqNum, r, undefinedBit, undefinedWord);
    if u.code == 1 {
      WasPadded(plain, h, payload, padding);
      SetAgain(plain, u.octets, h.Size(), h.Size() + |payload|);
    }
  }

  lemma HeaderKept(plain: seq<octet>, hdrSize: nat, e: Encryption, a: Authentication, ssrc: uint32, index: uint48)
    requires hdrSize <= |plain| && |plain| - hdrSize < MAX_LENGTH
    ensures Protected(plain, hdrSize, e, a, ssrc, index)[..hdrSize] == plain[..hdrSize]
  {
    hide Crypt, Tag;
  }

  lemma ClearedParses(plain: seq<octet>, wire: seq<octet>, seen: seq<octet>, n: nat)
    requires Readable(plain) && HeaderSize(plain) == n && n <= |plain| <= |wire| < TWO32
    requires wire[..n] == plain[..n] && seen == PaddingCleared(wire)
    ensures Readable(seen) && HeaderSize(seen) == n && PayloadSize(seen) == |seen| - n
    ensures Read16(seen, 2) == Read16(plain, 2) && Read32(seen, 8) == Read32(plain, 8)
  {
    hide SetPaddingBit, ExtensionBit, CcOf, PaddingBit;
    PaddingBitCleared(plain[0]);
    forall k | 0 <= k < n ensures plain[k] == wire[k] {
      assert plain[k] == plain[..n][k] && wire[k] == wire[..n][k];
    }
  }

  lemma SetAgain(plain: seq<octet>, octets: seq<octet>, i: nat, j: nat)
    requires 0 < i <= j <= |plain| <= |octets| && octets[..|plain|] == PaddingCleared(plain)
    requires SetPaddingBit(SetPaddingBit(plain[0], false), true) == plain[0]
    ensures octets[i..j] == plain[i..j]
    ensures octets[0 := SetPaddingBit(octets[0], true)][..|plain|] == plain
  {
    hide SetPaddingBit;
    assert octets[i..j] == octets[..|plain|][i..j];
    assert octets[0] == octets[..|plain|][0];
  }

  /**
   Without a crypto context a padded packet arrives with its padding counted as payload,
   and reComputePayLength then makes the count larger: it is right for no padded packet.
   */
  lemma PaddingNeverDiscounted(plain: seq<octet>, h: Header, payload: seq<octet>, padding: octet)
    requires Carries(plain, h, payload, padding) && padding != 0 && |plain| + 255 < TWO32
    requires |h.csrcs| <= 15 && WellFormedExtension(h.extension)
    ensures var seen := PaddingCleared(plain);
      && Readable(seen) && PayloadSize(seen) == |payload| + padding
      && Recomputed(seen[0 := SetPaddingBit(seen[0], true)], PayloadSize(seen)) >= |payload| + padding
  {
    hide Carries, Body, Readable, HeaderSize, PayloadSize, SetPaddingBit, Recomputed;
    BodyParts(plain, h, payload, padding);
    BuildThenParse(plain, h, payload, padding);
    var seen := PaddingCleared(plain);
    ClearedParses(plain, plain, seen, h.Size());
    RecomputedGrows(seen[0 := SetPaddingBit(seen[0], true)], PayloadSize(seen));
  }

  lemma RecomputedGrows(b: seq<octet>, payloadSize: uint32)
    requires 0 < payloadSize <= |b| && payloadSize + 255 < TWO32
    ensures Recomputed(b, payloadSize) == payloadSize + b[payloadSize - 1]
  {
  }
}
