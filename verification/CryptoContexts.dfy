/**
 CryptoContext: the per-source SRTP state. The index arithmetic is specified in
 ReplayProtection, the counter mode in CounterMode; here they meet the object that
 packets are protected and unprotected with.
 */
module CryptoContexts {
  import opened Octets
  import opened CounterMode
  import opened ReplayProtection

  type Digest = s: seq<octet> | |s| == 20 witness seq(20, _ => 0)

  datatype Encryption =
    | NullEncryption
    | AesCounterMode(cipher: BlockCipher, salt: Salt)

  /** The tag is the leading tagLength octets of a 20-octet digest. */
  datatype Authentication =
    | NullAuthentication
    | KeyedMac(mac: seq<octet> -> Digest, tagLength: TagLength)

  type TagLength = n: nat | n <= 20

  /** What srtpEncrypt makes of a payload; decryption is the same operation. */
  function Crypt(e: Encryption, ssrc: uint32, index: uint48, data: seq<octet>): (r: seq<octet>)
    requires |data| < MAX_LENGTH
    ensures |r| == |data|
  {
    match e
    case NullEncryption => data
    case AesCounterMode(cipher, salt) =>
      XorAll(data, KeyStream(cipher, SrtpIv(salt, ssrc, index), |data|))
  }

  /** Under counter mode, octet j is masked with octet j % 16 of the cipher of input j / 16 of this very packet. */
  lemma CryptOctet(cipher: BlockCipher, salt: Salt, ssrc: uint32, index: uint48, data: seq<octet>, j: nat)
    requires j < |data| < MAX_LENGTH
    ensures Crypt(AesCounterMode(cipher, salt), ssrc, index, data)[j]
         == Xor(data[j], cipher(CipherInput(salt, ssrc, index, j / 16))[j % 16])
  {
    hide Xor, SrtpIv;
  }

  /**
   Under the identity in the place of the cipher the key stream shows its inputs: from 14
   octets on, equal payloads of one source encrypt alike if and only if the packets have
   one 48-bit index.
   */
  lemma IndicesApart(salt: Salt, ssrc: uint32, i: uint48, j: uint48, data: seq<octet>)
    requires 14 <= |data| < MAX_LENGTH
    ensures var e := AesCounterMode((b: Block) => b, salt);
      Crypt(e, ssrc, i, data) == Crypt(e, ssrc, j, data) <==> i == j
  {
    hide Xor, SrtpIv, Crypt, CipherInput;
    var cipher := (b: Block) => b;
    var e := AesCounterMode(cipher, salt);
    if Crypt(e, ssrc, i, data) == Crypt(e, ssrc, j, data) {
      var a, b := CipherInput(salt, ssrc, i, 0), CipherInput(salt, ssrc, j, 0);
      forall k | 0 <= k < 14 ensures a[k] == b[k] {
        CryptOctet(cipher, salt, ssrc, i, data, k);
        CryptOctet(cipher, salt, ssrc, j, data, k);
        MaskCancel(data[k], a[k], b[k]);
      }
      InputTails(salt, ssrc, i, j);
      assert a == b;
      CipherInputInjective(salt, ssrc, i, 0, j, 0);
    }
  }

  lemma InputTails(salt: Salt, ssrc: uint32, i: uint48, j: uint48)
    ensures var a, b := CipherInput(salt, ssrc, i, 0), CipherInput(salt, ssrc, j, 0);
      a[14] == b[14] && a[15] == b[15]
  {
    hide SrtpIv;
  }

  /** Two masks that do the same to an octet are one. */
  lemma MaskCancel(a: octet, x: octet, y: octet)
    requires Xor(a, x) == Xor(a, y)
    ensures x == y
  {
    XorSwap(a, x);
    XorSwap(a, y);
    XorCancel(x, y, a);
  }

  lemma CryptTwice(e: Encryption, ssrc: uint32, index: uint48, data: seq<octet>)
    requires |data| < MAX_LENGTH
    ensures Crypt(e, ssrc, index, Crypt(e, ssrc, index, data)) == data
  {
    match e
    case NullEncryption =>
    case AesCounterMode(cipher, salt) =>
      XorAllTwice(data, KeyStream(cipher, SrtpIv(salt, ssrc, index), |data|));
  }

  function TagSize(a: Authentication): TagLength {
    if a.KeyedMac? then a.tagLength else 0
  }

  /** The tag over a message and the rollover counter in network order. */
  function Tag(a: Authentication, message: seq<octet>, roc: uint32): (t: seq<octet>)
    ensures |t| == TagSize(a)
  {
    match a
    case NullAuthentication => []
    case KeyedMac(mac, n) => mac(message + BigEndian32(roc))[..n]
  }

  /** The tag written out: what is digested is the message and the four octets of the rollover counter. */
  lemma TagOctets(mac: seq<octet> -> Digest, n: TagLength, message: seq<octet>, roc: uint32)
    ensures Tag(KeyedMac(mac, n), message, roc)
         == mac(message + [roc / 0x100_0000, roc / 0x1_0000 % 0x100, roc / 0x100 % 0x100, roc % 0x100])[..n]
  {
  }

  /** A digest that shows what it was given: its last 20 octets. */
  function LastOctets(s: seq<octet>): Digest {
    (seq(20, _ => 0) + s)[|s|..]
  }

  const SHOWING: Authentication := KeyedMac(LastOctets, 20)

  /** Under it the tag tells rollover counters apart. */
  lemma TagBindsRollover(message: seq<octet>, roc: uint32, other: uint32)
    ensures Tag(SHOWING, message, roc) == Tag(SHOWING, message, other) <==> roc == other
  {
    LastFour(message, roc);
    LastFour(message, other);
    BigEndian32Value(roc);
    BigEndian32Value(other);
  }

  lemma LastFour(message: seq<octet>, roc: uint32)
    ensures Tag(SHOWING, message, roc)[16..20] == BigEndian32(roc)
  {
    hide BigEndian32;
    var s := message + BigEndian32(roc);
    assert Tag(SHOWING, message, roc) == LastOctets(s);
    assert forall k :: 0 <= k < 4 ==> s[|s| - 4 + k] == BigEndian32(roc)[k];
  }

  class CryptoContext {
    const ssrc: uint32
    const encryption: Encryption
    const authentication: Authentication
    var roc: uint32
    var guessedRoc: uint32
    var sL: uint16
    var replayWindow: Word64
    var seqNumSet: bool

    constructor (ssrc: uint32, roc: uint32, encryption: Encryption, authentication: Authentication)
      ensures this.ssrc == ssrc
      ensures this.encryption == encryption && this.authentication == authentication
      ensures State() == Receiver(roc, 0, 0, seq(64, _ => false), false) && Unused(State())
    {
      this.ssrc, this.encryption, this.authentication := ssrc, encryption, authentication;
      this.roc, guessedRoc, sL := roc, 0, 0;
      replayWindow, seqNumSet := seq(64, _ => false), false;
    }

    ghost function State(): Receiver
      reads this
    {
      Receiver(roc, guessedRoc, sL, replayWindow, seqNumSet)
    }

    /** Without a security policy the replay check is skipped. */
    predicate HasPolicy() {
      !(authentication.NullAuthentication? && encryption.NullEncryption?)
    }

    method GuessIndex(newSeqNb: uint16) returns (index: uint48)
      modifies this
      ensures index == ReplayProtection.GuessIndex(old(State()), newSeqNb)
      ensures State() == AfterGuess(old(State()), newSeqNb)
    {
      if !seqNumSet {
        seqNumSet := true;
        sL := newSeqNb;
      }
      if sL < 32768 {
        if newSeqNb - sL > 32768 {
          guessedRoc := (roc - 1) % TWO32;
        } else {
          guessedRoc := roc;
        }
      } else {
        if sL - 32768 > newSeqNb {
          guessedRoc := (roc + 1) % TWO32;
        } else {
          guessedRoc := roc;
        }
      }
      index := Index(guessedRoc, newSeqNb);
    }

    method CheckReplay(newSeqNb: uint16, undefinedBit: bool) returns (isNew: bool)
      modifies this
      ensures !HasPolicy() ==> isNew && State() == old(State())
      ensures HasPolicy() ==> isNew == Fresh(old(State()), newSeqNb, undefinedBit)
      ensures HasPolicy() ==> State() == AfterGuess(old(State()), newSeqNb)
    {
      if authentication.NullAuthentication? && encryption.NullEncryption? {
        return true;
      }
      if !seqNumSet {
        seqNumSet := true;
        sL := newSeqNb;
      }
      var guessedIndex: int := GuessIndex(newSeqNb);
      var localIndex := Index(roc, sL);
      var delta := guessedIndex - localIndex;
      if delta > 0 {
        return true;
      }
      if -delta > WINDOW_SIZE {
        return false;
      }
      var received := if -delta < 64 then replayWindow[-delta] else undefinedBit;
      return !received;
    }

    method Update(newSeqNb: uint16, undefinedWord: Word64)
      modifies this
      ensures State() == Updated(old(State()), newSeqNb, undefinedWord)
    {
      hide ShiftLeft, Or, GuessedRoc, Index, Latch;
      var guessed: int := GuessIndex(newSeqNb);
      var delta := guessed - Index(roc, sL);
      if delta > 0 {
        replayWindow := if delta < 64 then ShiftLeft(replayWindow, delta) else undefinedWord;
        replayWindow := replayWindow[0 := true];
      } else if delta == 0 {
        replayWindow := replayWindow[0 := true];
      } else {
        replayWindow := Or(replayWindow, undefinedWord);
      }
      if newSeqNb > sL {
        sL := newSeqNb;
      }
      if guessedRoc > roc {
        roc := guessedRoc;
        sL := newSeqNb;
      }
    }

    /** srtpEncrypt on a stretch of a packet buffer. */
    method SrtpEncrypt(buffer: array<octet>, start: nat, length: nat, index: uint48, ssrc: uint32)
      requires start + length <= buffer.Length && length < MAX_LENGTH
      modifies buffer
      ensures buffer[..] == Splice(old(buffer[..]), start,
                                   Crypt(encryption, ssrc, index, old(buffer[start..start + length])))
    {
      match encryption
      case NullEncryption =>
        assert buffer[..] == Splice(buffer[..], start, buffer[start..start + length]);
      case AesCounterMode(cipher, salt) =>
        var iv := ComputeIv(salt, ssrc, index);
        CtrEncrypt(cipher, buffer, start, length, iv);
    }

    /** srtpAuthenticate: the tag of buffer[..total] and roc goes to tag[at..]. */
    method SrtpAuthenticate(buffer: array<octet>, total: nat, roc: uint32, tag: array<octet>, at: nat)
      requires total <= buffer.Length && at + TagSize(authentication) <= tag.Length
      modifies tag
      ensures tag[..] == Splice(old(tag[..]), at, Tag(authentication, old(buffer[..total]), roc))
    {
      match authentication
      case NullAuthentication =>
        assert tag[..] == Splice(tag[..], at, []);
      case KeyedMac(mac, tagLength) =>
        var temp := mac(buffer[..total] + BigEndian32(roc));
        CopyInto(tag, at, temp[..tagLength]);
    }
  }
}
