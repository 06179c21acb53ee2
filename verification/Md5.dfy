/** The MD5 accumulator of the source: 64-bit registers, a 64-octet buffer, arbitrary chunks. */
module Md5 {
  import opened Basics
  import opened Octets
  import opened Words
  import opened Md5Spec

  function Lows(a: Word, b: Word, c: Word, d: Word): Registers {
    Registers(Low(a), Low(b), Low(c), Low(d))
  }

  /** One of FF, GG, HH and II, on full registers. */
  function Op64(f: Auxiliary, a: Word, b: Word, c: Word, d: Word, x: Word, s: Shift, ac: uint32): Word {
    (RotateLeft((a + Aux64(f, b, c, d) + x + ac) % TWO64, s) + b) % TWO64
  }

  lemma SumsLow(a: Word, f: Word, x: Word, ac: uint32)
    ensures Low((a + f + x + ac) % TWO64) == (Low(a) + Low(f) + Low(x) + ac) % TWO32
  {
    var sum, lows := a + f + x + ac, Low(a) + Low(f) + Low(x) + ac;
    var carries := a / TWO32 + f / TWO32 + x / TWO32;
    assert sum % TWO64 == sum - sum / TWO64 * TWO64;
    assert sum == carries * TWO32 + lows;
    ModShift(carries - sum / TWO64 * TWO32, lows, TWO32);
  }

  lemma SumLow2(r: Word, b: Word)
    ensures Low((r + b) % TWO64) == (Low(r) + Low(b)) % TWO32
  {
    var sum, carries := r + b, r / TWO32 + b / TWO32;
    assert sum % TWO64 == sum - sum / TWO64 * TWO64;
    assert sum == carries * TWO32 + (Low(r) + Low(b));
    ModShift(carries - sum / TWO64 * TWO32, Low(r) + Low(b), TWO32);
  }

  /** Whatever the upper halves hold, the lower half of the result is the standard's word. */
  lemma OpTracks(f: Auxiliary, a: Word, b: Word, c: Word, d: Word, x: Word, s: Shift, ac: uint32)
    ensures Low(Op64(f, a, b, c, d, x, s, ac)) == Op32(f, Low(a), Low(b), Low(c), Low(d), Low(x), s, ac)
  {
    hide RotateLeft, Rotate32, Aux64, Aux32, Low;
    var sum := (a + Aux64(f, b, c, d) + x + ac) % TWO64;
    AuxTracks(f, b, c, d);
    SumsLow(a, Aux64(f, b, c, d), x, ac);
    RotateTracks(sum, s);
    SumLow2(RotateLeft(sum, s), b);
  }

  ghost predicate Holds(x: array<Word>, block: Block)
    reads x
  {
    x.Length == 16 && forall i :: 0 <= i < 16 ==> Low(x[i]) == block[i]
  }

  method Step(x: array<Word>, ghost block: Block, ghost start: Registers, round: nat, ghost i: nat,
              a: Word, b: Word, c: Word, d: Word, k: nat, s: Shift, ac: uint32) returns (r: Word)
    requires Holds(x, block)
    requires round < 4 && i < 16
    requires k == WordRead(round, i) && s == SHIFTS[round][i % 4] && ac == TABLE[round][i]
    requires Lows(a, b, c, d) == Steps(block, start, round, i)
    ensures r == Op64(Function(round), a, b, c, d, x[k], s, ac)
    ensures Lows(d, r, b, c) == Steps(block, start, round, i + 1)
  {
    hide Op32, Low, Aux64, RotateLeft;
    r := (a + Aux64(Function(round), b, c, d) + x[k] + ac) % TWO64;
    r := (RotateLeft(r, s) + b) % TWO64;
    OpTracks(Function(round), a, b, c, d, x[k], s, ac);
  }

  lemma NoSteps(block: Block, s: Registers, round: nat)
    requires round < 4
    ensures Steps(block, s, round, 0) == s
  {
  }

  method FirstRound(x: array<Word>, ghost block: Block, a0: Word, b0: Word, c0: Word, d0: Word)
    returns (a: Word, b: Word, c: Word, d: Word)
    requires Holds(x, block)
    ensures Lows(a, b, c, d) == Steps(block, Lows(a0, b0, c0, d0), 0, 16)
  {
    hide Steps, Lows, Holds, Op64;
    a, b, c, d := a0, b0, c0, d0;
    ghost var s := Lows(a, b, c, d);
    NoSteps(block, s, 0);
    a := Step(x, block, s, 0, 0, a, b, c, d, 0, 7, 0xd76aa478);
    d := Step(x, block, s, 0, 1, d, a, b, c, 1, 12, 0xe8c7b756);
    c := Step(x, block, s, 0, 2, c, d, a, b, 2, 17, 0x242070db);
    b := Step(x, block, s, 0, 3, b, c, d, a, 3, 22, 0xc1bdceee);
    a := Step(x, block, s, 0, 4, a, b, c, d, 4, 7, 0xf57c0faf);
    d := Step(x, block, s, 0, 5, d, a, b, c, 5, 12, 0x4787c62a);
    c := Step(x, block, s, 0, 6, c, d, a, b, 6, 17, 0xa8304613);
    b := Step(x, block, s, 0, 7, b, c, d, a, 7, 22, 0xfd469501);
    a := Step(x, block, s, 0, 8, a, b, c, d, 8, 7, 0x698098d8);
    d := Step(x, block, s, 0, 9, d, a, b, c, 9, 12, 0x8b44f7af);
    c := Step(x, block, s, 0, 10, c, d, a, b, 10, 17, 0xffff5bb1);
    b := Step(x, block, s, 0, 11, b, c, d, a, 11, 22, 0x895cd7be);
    a := Step(x, block, s, 0, 12, a, b, c, d, 12, 7, 0x6b901122);
    d := Step(x, block, s, 0, 13, d, a, b, c, 13, 12, 0xfd987193);
    c := Step(x, block, s, 0, 14, c, d, a, b, 14, 17, 0xa679438e);
    b := Step(x, block, s, 0, 15, b, c, d, a, 15, 22, 0x49b40821);
  }

  method SecondRound(x: array<Word>, ghost block: Block, a0: Word, b0: Word, c0: Word, d0: Word)
    returns (a: Word, b: Word, c: Word, d: Word)
    requires Holds(x, block)
    ensures Lows(a, b, c, d) == Steps(block, Lows(a0, b0, c0, d0), 1, 16)
  {
    hide Steps, Lows, Holds, Op64;
    a, b, c, d := a0, b0, c0, d0;
    ghost var s := Lows(a, b, c, d);
    NoSteps(block, s, 1);
    a := Step(x, block, s, 1, 0, a, b, c, d, 1, 5, 0xf61e2562);
    d := Step(x, block, s, 1, 1, d, a, b, c, 6, 9, 0xc040b340);
    c := Step(x, block, s, 1, 2, c, d, a, b, 11, 14, 0x265e5a51);
    b := Step(x, block, s, 1, 3, b, c, d, a, 0, 20, 0xe9b6c7aa);
    a := Step(x, block, s, 1, 4, a, b, c, d, 5, 5, 0xd62f105d);
    d := Step(x, block, s, 1, 5, d, a, b, c, 10, 9, 0x2441453);
    c := Step(x, block, s, 1, 6, c, d, a, b, 15, 14, 0xd8a1e681);
    b := Step(x, block, s, 1, 7, b, c, d, a, 4, 20, 0xe7d3fbc8);
    a := Step(x, block, s, 1, 8, a, b, c, d, 9, 5, 0x21e1cde6);
    d := Step(x, block, s, 1, 9, d, a, b, c, 14, 9, 0xc33707d6);
    c := Step(x, block, s, 1, 10, c, d, a, b, 3, 14, 0xf4d50d87);
    b := Step(x, block, s, 1, 11, b, c, d, a, 8, 20, 0x455a14ed);
    a := Step(x, block, s, 1, 12, a, b, c, d, 13, 5, 0xa9e3e905);
    d := Step(x, block, s, 1, 13, d, a, b, c, 2, 9, 0xfcefa3f8);
    c := Step(x, block, s, 1, 14, c, d, a, b, 7, 14, 0x676f02d9);
    b := Step(x, block, s, 1, 15, b, c, d, a, 12, 20, 0x8d2a4c8a);
  }

  method ThirdRound(x: array<Word>, ghost block: Block, a0: Word, b0: Word, c0: Word, d0: Word)
    returns (a: Word, b: Word, c: Word, d: Word)
    requires Holds(x, block)
    ensures Lows(a, b, c, d) == Steps(block, Lows(a0, b0, c0, d0), 2, 16)
  {
    hide Steps, Lows, Holds, Op64;
    a, b, c, d := a0, b0, c0, d0;
    ghost var s := Lows(a, b, c, d);
    NoSteps(block, s, 2);
    a := Step(x, block, s, 2, 0, a, b, c, d, 5, 4, 0xfffa3942);
    d := Step(x, block, s, 2, 1, d, a, b, c, 8, 11, 0x8771f681);
    c := Step(x, block, s, 2, 2, c, d, a, b, 11, 16, 0x6d9d6122);
    b := Step(x, block, s, 2, 3, b, c, d, a, 14, 23, 0xfde5380c);
    a := Step(x, block, s, 2, 4, a, b, c, d, 1, 4, 0xa4beea44);
    d := Step(x, block, s, 2, 5, d, a, b, c, 4, 11, 0x4bdecfa9);
    c := Step(x, block, s, 2, 6, c, d, a, b, 7, 16, 0xf6bb4b60);
    b := Step(x, block, s, 2, 7, b, c, d, a, 10, 23, 0xbebfbc70);
    a := Step(x, block, s, 2, 8, a, b, c, d, 13, 4, 0x289b7ec6);
    d := Step(x, block, s, 2, 9, d, a, b, c, 0, 11, 0xeaa127fa);
    c := Step(x, block, s, 2, 10, c, d, a, b, 3, 16, 0xd4ef3085);
    b := Step(x, block, s, 2, 11, b, c, d, a, 6, 23, 0x4881d05);
    a := Step(x, block, s, 2, 12, a, b, c, d, 9, 4, 0xd9d4d039);
    d := Step(x, block, s, 2, 13, d, a, b, c, 12, 11, 0xe6db99e5);
    c := Step(x, block, s, 2, 14, c, d, a, b, 15, 16, 0x1fa27cf8);
    b := Step(x, block, s, 2, 15, b, c, d, a, 2, 23, 0xc4ac5665);
  }

  method FourthRound(x: array<Word>, ghost block: Block, a0: Word, b0: Word, c0: Word, d0: Word)
    returns (a: Word, b: Word, c: Word, d: Word)
    requires Holds(x, block)
    ensures Lows(a, b, c, d) == Steps(block, Lows(a0, b0, c0, d0), 3, 16)
  {
    hide Steps, Lows, Holds, Op64;
    a, b, c, d := a0, b0, c0, d0;
    ghost var s := Lows(a, b, c, d);
    NoSteps(block, s, 3);
    a := Step(x, block, s, 3, 0, a, b, c, d, 0, 6, 0xf4292244);
    d := Step(x, block, s, 3, 1, d, a, b, c, 7, 10, 0x432aff97);
    c := Step(x, block, s, 3, 2, c, d, a, b, 14, 15, 0xab9423a7);
    b := Step(x, block, s, 3, 3, b, c, d, a, 5, 21, 0xfc93a039);
    a := Step(x, block, s, 3, 4, a, b, c, d, 12, 6, 0x655b59c3);
    d := Step(x, block, s, 3, 5, d, a, b, c, 3, 10, 0x8f0ccc92);
    c := Step(x, block, s, 3, 6, c, d, a, b, 10, 15, 0xffeff47d);
    b := Step(x, block, s, 3, 7, b, c, d, a, 1, 21, 0x85845dd1);
    a := Step(x, block, s, 3, 8, a, b, c, d, 8, 6, 0x6fa87e4f);
    d := Step(x, block, s, 3, 9, d, a, b, c, 15, 10, 0xfe2ce6e0);
    c := Step(x, block, s, 3, 10, c, d, a, b, 6, 15, 0xa3014314);
    b := Step(x, block, s, 3, 11, b, c, d, a, 13, 21, 0x4e0811a1);
    a := Step(x, block, s, 3, 12, a, b, c, d, 4, 6, 0xf7537e82);
    d := Step(x, block, s, 3, 13, d, a, b, c, 11, 10, 0xbd3af235);
    c := Step(x, block, s, 3, 14, c, d, a, b, 2, 15, 0x2ad7d2bb);
    b := Step(x, block, s, 3, 15, b, c, d, a, 9, 21, 0xeb86d391);
  }

  // ---- The octets of a word, and the bit counter ----

  /** Four octets shifted into place; the last is shifted as a signed int, so its top bit fills the upper half. */
  function LoadWord(b: seq<octet>, at: nat): Word
    requires at + 4 <= |b|
  {
    var w := b[at] as int + 0x100 * b[at + 1] as int + 0x1_0000 * b[at + 2] as int + 0x100_0000 * b[at + 3] as int;
    if b[at + 3] < 0x80 then w else TWO64 - TWO32 + w
  }

  lemma LoadWordLow(b: seq<octet>, at: nat)
    requires at + 4 <= |b|
    ensures Low(LoadWord(b, at)) == Little32(b, at)
  {
  }

  /** The four octets that a register contributes to the digest or the length field. */
  function OctetsOfWord(w: Word): (s: seq<octet>)
    ensures |s| == 4
  {
    [w % 0x100, w / 0x100 % 0x100, w / 0x1_0000 % 0x100, w / 0x100_0000 % 0x100]
  }

  /** Octets of a number do not see multiples of 256 p added above them. */
  lemma OctetBelow(m: nat, l: nat, p: nat)
    requires p > 0
    ensures (m * 0x100 * p + l) / p % 0x100 == l / p % 0x100
  {
    assert l == l / p * p + l % p;
    assert m * 0x100 * p + l == (m * 0x100 + l / p) * p + l % p;
    DivModOf(m * 0x100 + l / p, l % p, p);
    ModShift(m, l / p, 0x100);
  }

  lemma SecondOctet(w: Word)
    ensures w / 0x100 % 0x100 == Low(w) / 0x100 % 0x100
  {
    OctetBelow(0x1_0000 * (w / TWO32), Low(w), 0x100);
  }

  lemma ThirdOctet(w: Word)
    ensures w / 0x1_0000 % 0x100 == Low(w) / 0x1_0000 % 0x100
  {
    OctetBelow(0x100 * (w / TWO32), Low(w), 0x1_0000);
  }

  lemma FourthOctet(w: Word)
    ensures w / 0x100_0000 % 0x100 == Low(w) / 0x100_0000
  {
    OctetBelow(w / TWO32, Low(w), 0x100_0000);
  }

  lemma OctetsOfWordLow(w: Word)
    ensures OctetsOfWord(w) == LittleEndian32(Low(w))
  {
    assert w == w / TWO32 * 0x100_0000 * 0x100 + Low(w);
    ModShift(w / TWO32 * 0x100_0000, Low(w), 0x100);
    hide Low;
    SecondOctet(w);
    ThirdOctet(w);
    FourthOctet(w);
  }

  lemma LittleBack(x: uint32)
    ensures Little32(LittleEndian32(x), 0) == x
  {
    var h := x / 0x100;
    assert x / 0x1_0000 == h / 0x100;
    assert x / 0x100_0000 == h / 0x100 / 0x100;
    assert x == 0x100 * h + x % 0x100;
  }

  /** A padded message: the message, one bit, zeros, and 64 bits of length, in whole blocks. */
  lemma PaddedShape(m: seq<octet>)
    ensures var p := Padded(m);
      && |p| % 64 == 0 && |m| + 9 <= |p| <= |m| + 72
      && p[..|m|] == m && p[|m|] == 0x80 && (forall i :: |m| < i < |p| - 8 ==> p[i] == 0)
      && Little32(p, |p| - 8) + TWO32 * Little32(p, |p| - 4) == 8 * |m| % TWO64
  {
    hide LittleEndian32, Little32;
    var p, length := Padded(m), LengthOctets(|m|);
    var low, high := 8 * |m| % TWO32, 8 * |m| / TWO32 % TWO32;
    assert p[|p| - 8..] == length;
    FieldBack(p, |p| - 8, low);
    FieldBack(p, |p| - 4, high);
    WordHalves(8 * |m|);
  }

  lemma FieldBack(p: seq<octet>, at: nat, x: uint32)
    requires at + 4 <= |p| && p[at..at + 4] == LittleEndian32(x)
    ensures Little32(p, at) == x
  {
    LittleBack(x);
    hide LittleEndian32;
    var t := p[at..at + 4];
    assert p[at] == t[0] && p[at + 1] == t[1] && p[at + 2] == t[2] && p[at + 3] == t[3];
  }

  lemma WordHalves(x: nat)
    ensures x % TWO32 + TWO32 * (x / TWO32 % TWO32) == x % TWO64
  {
    var h := x / TWO32;
    assert x == h * TWO32 + x % TWO32;
    assert x == h / TWO32 * TWO64 + (h % TWO32 * TWO32 + x % TWO32);
    DivModOf(h / TWO32, h % TWO32 * TWO32 + x % TWO32, TWO64);
  }

  /** The two counters after n octets: bits below 2^64, and how often they passed it. */
  function Counters(n: nat): seq<Word> {
    [8 * n % TWO64, 8 * n / TWO64 % TWO64]
  }

  lemma CarryOut(q: nat, r: Word, more: nat)
    requires more <= 512
    ensures var x := q * TWO64 + r + more;
      x % TWO64 == (r + more) % TWO64 && x / TWO64 == if (r + more) % TWO64 < more then q + 1 else q
  {
    if r + more < TWO64 {
      DivModOf(q, r + more, TWO64);
    } else {
      DivModOf(q + 1, r + more - TWO64, TWO64);
    }
  }

  lemma CountersAdd(n: nat, k: nat)
    requires k <= 64
    ensures var c := Counters(n);
      var low := (c[0] + 8 * k) % TWO64;
      Counters(n + k) == [low, if low < 8 * k then (c[1] + 1) % TWO64 else c[1]]
  {
    var q, r := 8 * n / TWO64, 8 * n % TWO64;
    CarryOut(q, r, 8 * k);
    assert 8 * (n + k) == q * TWO64 + r + 8 * k;
    ModShift(q / TWO64, q % TWO64 + 1, TWO64);
  }

  /** The length field as the source writes it: the low 32 bits of each counter. */
  function CodedLength(n: nat): (s: seq<octet>)
    ensures |s| == 8
  {
    OctetsOfWord(Counters(n)[0]) + OctetsOfWord(Counters(n)[1])
  }

  /**
   The length field is the standard's exactly when bits 64 to 95 of the bit length
   repeat bits 32 to 63; below 2^61 octets that means below 2^29.
   */
  lemma LengthRight(n: nat)
    ensures CodedLength(n) == LengthOctets(n) <==> 8 * n / TWO64 % TWO32 == 8 * n / TWO32 % TWO32
    ensures n < 0x2000_0000_0000_0000 ==> (CodedLength(n) == LengthOctets(n) <==> n < 0x2000_0000)
  {
    hide LittleEndian32, Little32, OctetsOfWord;
    var c := Counters(n);
    OctetsOfWordLow(c[0]);
    OctetsOfWordLow(c[1]);
    assert Low(c[0]) == 8 * n % TWO32;
    var coded, right := 8 * n / TWO64 % TWO32, 8 * n / TWO32 % TWO32;
    assert Low(c[1]) == coded;
    assert CodedLength(n)[4..] == LittleEndian32(coded);
    assert LengthOctets(n)[4..] == LittleEndian32(right);
    LittleBack(coded);
    LittleBack(right);
  }

  /** The pad: one set bit, then zeros. */
  const PAD: seq<octet> := [0x80] + seq(63, _ => 0)

  /** What the source digests: the message, the pad and the length field. */
  function CodedMessage(m: seq<octet>): (r: seq<octet>)
    ensures |r| % 64 == 0
  {
    Closed(m, CodedLength(|m|))
  }

  /** The pad length is found from the counter alone, since 2^64 bits are whole blocks. */
  lemma PadFromCounter(n: nat)
    ensures Counters(n)[0] / 8 % 64 == n % 64
    ensures PAD[..PadLength(n)] == Padding(n)
  {
    EighthOf(n);
    assert PAD[..PadLength(n)] == Padding(n);
  }

  lemma EighthOf(n: nat)
    ensures 8 * n % TWO64 / 8 % 64 == n % 64
  {
    var c, q := 8 * n % TWO64 / 8, 8 * n / TWO64;
    assert n == q * (TWO64 / 8) + c;
    assert n == q * (TWO64 / 512) * 64 + c;
    ModShift(q * (TWO64 / 512), c, 64);
  }

  /** Below 2^29 octets the source digests what the standard digests. */
  lemma CodedIsPadded(m: seq<octet>)
    ensures |m| < 0x2000_0000_0000_0000 ==> (CodedMessage(m) == Padded(m) <==> |m| < 0x2000_0000)
  {
    hide CodedLength, LengthOctets;
    LengthRight(|m|);
    var k := |m + Padding(|m|)|;
    assert CodedMessage(m)[k..] == CodedLength(|m|) && Padded(m)[k..] == LengthOctets(|m|);
  }

  method LoadBlock(buf: array<octet>) returns (x: array<Word>)
    requires buf.Length == 64
    ensures fresh(x) && Holds(x, BlockOf(buf[..]))
  {
    hide LoadWord;
    x := new Word[16];
    for i := 0 to 16
      invariant forall k :: 0 <= k < i ==> Low(x[k]) == Little32(buf[..], 4 * k)
    {
      x[i] := LoadWord(buf[..], 4 * i);
      LoadWordLow(buf[..], 4 * i);
    }
  }

  /** The 64 steps on one block. */
  method AllRounds(x: array<Word>, ghost block: Block, a0: Word, b0: Word, c0: Word, d0: Word)
    returns (a: Word, b: Word, c: Word, d: Word)
    requires Holds(x, block)
    ensures Lows(a, b, c, d) == Rounds(block, Lows(a0, b0, c0, d0), 4)
  {
    hide Holds, Lows, Steps;
    ghost var s := Lows(a0, b0, c0, d0);
    a, b, c, d := FirstRound(x, block, a0, b0, c0, d0);
    RoundsStep(block, s, 0);
    a, b, c, d := SecondRound(x, block, a, b, c, d);
    RoundsStep(block, s, 1);
    a, b, c, d := ThirdRound(x, block, a, b, c, d);
    RoundsStep(block, s, 2);
    a, b, c, d := FourthRound(x, block, a, b, c, d);
    RoundsStep(block, s, 3);
  }

  lemma RoundsStep(x: Block, s: Registers, n: nat)
    requires n < 4
    ensures Rounds(x, s, 0) == s
    ensures Rounds(x, s, n + 1) == Steps(x, Rounds(x, s, n), n, 16)
  {
  }

  /** What the zero-filling loop makes of a partly filled buffer. */
  function Filled(s: seq<octet>): (r: Chunk)
    requires |s| <= 64
  {
    s + seq(64 - |s|, _ => 0)
  }

  lemma PlusTracks(a: Word, b: Word, c: Word, d: Word, s: Registers, t: Registers,
                   p: Word, q: Word, u: Word, v: Word)
    requires s == Lows(a, b, c, d) && t == Lows(p, q, u, v)
    ensures Lows((a + p) % TWO64, (b + q) % TWO64, (c + u) % TWO64, (d + v) % TWO64) == Plus(s, t)
  {
    hide Low;
    SumLow2(a, p);
    SumLow2(b, q);
    SumLow2(c, u);
    SumLow2(d, v);
  }

  lemma AbsorbBlock(s: Registers, m: seq<octet>, block: Chunk)
    requires |m| % 64 == 0
    ensures Absorb(s, m + block) == Transform(Absorb(s, m), BlockOf(block))
  {
    hide Transform, BlockOf;
    var r := m + block;
    assert r[..|r| - 64] == m && r[|r| - 64..] == block;
  }

  /** The octets of m that no whole block has taken yet: the last `held` ones. */
  predicate Pending(m: seq<octet>, held: seq<octet>) {
    |held| <= |m| && (|m| - |held|) % 64 == 0 && m[|m| - |held|..] == held
  }

  function Taken(m: seq<octet>, held: seq<octet>): (r: seq<octet>)
    requires Pending(m, held)
    ensures |r| % 64 == 0
  {
    m[..|m| - |held|]
  }

  lemma PendingOne(m: seq<octet>, held: seq<octet>, x: octet)
    requires Pending(m, held)
    ensures Pending(m + [x], held + [x]) && Taken(m + [x], held + [x]) == Taken(m, held)
  {
    assert (m + [x])[|m| - |held|..] == m[|m| - |held|..] + [x];
  }

  lemma PendingBlock(m: seq<octet>, held: seq<octet>)
    requires Pending(m, held) && |held| == 64
    ensures Pending(m, []) && Taken(m, []) == Taken(m, held) + held
  {
  }

  lemma NoneHeld(n: nat, k: nat)
    requires n % 64 == 0 && k < 64 && (n - k) % 64 == 0
    ensures k == 0
  {
  }

  /** After the length field nothing is left pending. */
  lemma ClosingBlock(m: seq<octet>, held: seq<octet>)
    requires |held| < 64 && Pending(CodedMessage(m), held)
    ensures held == [] && Taken(CodedMessage(m), held) == CodedMessage(m)
  {
    hide CodedMessage;
    NoneHeld(|CodedMessage(m)|, |held|);
  }

  class MD5Digest {
    const state: array<Word>
    const count: array<Word>
    const buf: array<octet>
    const md5: array<octet>
    /** Octets in the buffer; the stream's put pointer stands here after every call. */
    var bpos: nat
    var updated: bool
    /** Everything put since the last reset. */
    ghost var message: seq<octet>

    ghost predicate Shape()
      reads this
    {
      && state.Length == 4 && count.Length == 2 && buf.Length == 64 && md5.Length == 16
      && state != count && buf != md5 && bpos <= 64
    }

    ghost function Registers(): Registers
      reads this, state
      requires Shape()
    {
      Lows(state[0], state[1], state[2], state[3])
    }

    /** The buffer holds the tail of the message and the registers have absorbed the rest. */
    ghost predicate Absorbed()
      reads this, state, buf
    {
      && Shape()
      && Pending(message, buf[..bpos])
      && Registers() == Absorb(START, Taken(message, buf[..bpos]))
    }

    ghost predicate Counted()
      reads this, count
    {
      Shape() && bpos <= |message| && count[..] == Counters(|message| - bpos)
    }

    ghost predicate Valid()
      reads this, state, count, buf
    {
      Absorbed() && Counted() && updated
    }

    constructor ()
      ensures Valid() && message == []
      ensures fresh(state) && fresh(count) && fresh(buf) && fresh(md5)
    {
      state := new Word[4];
      count := new Word[2];
      buf := new octet[64];
      md5 := new octet[16];
      bpos, updated := 0, true;
      new;
      InitDigest();
    }

    method InitDigest()
      requires Shape()
      modifies this`bpos, this`updated, this`message, state, count
      ensures Valid() && message == []
    {
      count[0], count[1] := 0, 0;
      state[0], state[1], state[2], state[3] := 0x67452301, 0xefcdab89, 0x98badcfe, 0x10325476;
      bpos, updated := 0, true;
      message := [];
      assert count[..] == Counters(0);
    }

    /** Zero-fill the rest of the buffer. */
    method Fill()
      requires Shape()
      modifies buf, this`bpos
      ensures Shape() && bpos == 64 && buf[..] == Filled(old(buf[..bpos]))
    {
      ghost var s, n := buf[..bpos], bpos;
      while bpos < 64
        invariant n <= bpos <= 64
        invariant buf[..n] == s && forall k :: n <= k < bpos ==> buf[k] == 0
      {
        buf[bpos] := 0;
        bpos := bpos + 1;
      }
    }

    method Bump()
      requires Shape()
      modifies count
      ensures forall n: nat :: old(count[..]) == Counters(n) ==> count[..] == Counters(n + 64)
    {
      hide Counters;
      ghost var c := count[..];
      count[0] := (count[0] + 512) % TWO64;
      if count[0] < 512 {
        count[1] := (count[1] + 1) % TWO64;
      }
      forall n: nat | c == Counters(n) ensures count[..] == Counters(n + 64) {
        CountersAdd(n, 64);
      }
    }

    /** Absorb the buffer as one block and empty it. */
    method Update()
      requires Shape() && bpos > 0
      modifies buf, state, count, this`bpos, this`updated
      ensures Shape() && bpos == 0 && updated
      ensures Registers() == Transform(old(Registers()), BlockOf(Filled(old(buf[..bpos]))))
      ensures forall n: nat :: old(count[..]) == Counters(n) ==> count[..] == Counters(n + 64)
    {
      hide Filled, Lows, BlockOf, Rounds, Holds, Counters, Plus;
      Fill();
      bpos := 0;
      Bump();
      var x := LoadBlock(buf);
      ghost var block := BlockOf(buf[..]);
      var a, b, c, d := AllRounds(x, block, state[0], state[1], state[2], state[3]);
      PlusTracks(state[0], state[1], state[2], state[3], Registers(), Rounds(block, Registers(), 4), a, b, c, d);
      state[0] := (state[0] + a) % TWO64;
      state[1] := (state[1] + b) % TWO64;
      state[2] := (state[2] + c) % TWO64;
      state[3] := (state[3] + d) % TWO64;
      updated := true;
    }

    method Store(x: octet)
      requires Absorbed() && bpos < 64
      modifies buf, this`bpos, this`message
      ensures Absorbed() && bpos == old(bpos) + 1 && message == old(message) + [x]
      ensures old(Counted()) ==> Counted()
    {
      hide Counters, Absorb, Pending, Taken;
      PendingOne(message, buf[..bpos], x);
      assert [] + buf[..bpos] == buf[..bpos];
      ghost var held := buf[..bpos];
      buf[bpos] := x;
      bpos := bpos + 1;
      message := message + [x];
      assert buf[..bpos] == held + [x];
    }

    method UpdateFull()
      requires Absorbed() && bpos == 64
      modifies buf, state, count, this`bpos, this`updated
      ensures Absorbed() && bpos == 0 && updated
      ensures old(Counted()) ==> Counted()
    {
      hide Counters, Absorb, Pending, Taken, Lows, Transform, BlockOf;
      ghost var held := buf[..];
      assert buf[..bpos] == held && Filled(held) == held;
      PendingBlock(message, held);
      AbsorbBlock(START, Taken(message, held), held);
      Update();
      assert buf[..bpos] == [];
    }

    /** Take a chunk of the message. */
    method PutDigest(buffer: seq<octet>)
      requires Absorbed()
      modifies buf, state, count, this`bpos, this`updated, this`message
      ensures Absorbed() && bpos < 64 && message == old(message) + buffer
      ensures old(updated) ==> updated
      ensures old(Counted()) ==> Counted()
    {
      hide Pending, Taken, Absorb, Lows, Counters;
      if bpos >= 64 {
        UpdateFull();
      }
      for i := 0 to |buffer|
        invariant Absorbed() && bpos < 64 && message == old(message) + buffer[..i]
        invariant old(updated) ==> updated
        invariant old(Counted()) ==> Counted()
      {
        Store(buffer[i]);
        if bpos >= 64 {
          UpdateFull();
        }
      }
    }

    /** The stream interface: absorb a full buffer first, then store, unless it is EOF that was passed. */
    method Overflow(c: Option<octet>)
      requires Absorbed()
      modifies buf, state, count, this`bpos, this`updated, this`message
      ensures Absorbed() && updated
      ensures message == old(message) + if c.Some? then [c.value] else []
      ensures bpos == (if old(bpos) >= 64 then 0 else old(bpos)) + (if c.Some? then 1 else 0)
      ensures old(Counted()) ==> Counted()
    {
      hide Pending, Taken, Absorb, Lows, Counters;
      updated := true;
      if bpos >= 64 {
        UpdateFull();
      }
      if c.Some? {
        Store(c.value);
      }
    }

    method CodeLength(ghost n: nat) returns (cbuf: seq<octet>)
      requires Shape() && count[..] == Counters(n)
      ensures cbuf == CodedLength(n)
    {
      hide OctetsOfWord;
      cbuf := [];
      for i := 0 to 2
        invariant i == 0 ==> cbuf == []
        invariant i == 1 ==> cbuf == OctetsOfWord(Counters(n)[0])
        invariant i == 2 ==> cbuf == CodedLength(n)
      {
        cbuf := cbuf + OctetsOfWord(count[i]);
      }
    }

    method StoreDigest()
      requires Shape()
      modifies md5
      ensures md5[..] == DigestOctets(Registers())
    {
      hide OctetsOfWord, LittleEndian32, Low;
      ghost var r := Registers();
      for i := 0 to 4
        invariant md5[..4 * i] == DigestOctets(r)[..4 * i]
      {
        OctetsOfWordLow(state[i]);
        forall k | 0 <= k < 4 {
          md5[4 * i + k] := OctetsOfWord(state[i])[k];
        }
      }
    }

    method AddHeld()
      requires Counted()
      modifies count
      ensures Shape() && count[..] == Counters(|message|)
    {
      hide Counters;
      ghost var c, n := count[..], |message| - bpos;
      assert c == Counters(n);
      CountersAdd(n, bpos);
      count[0] := (count[0] + 8 * bpos) % TWO64;
      if count[0] < 8 * bpos {
        count[1] := (count[1] + 1) % TWO64;
      }
      assert n + bpos == |message|;
    }

    /** Put the pad and the length field that the counters call for. */
    method PutClosing()
      requires Absorbed() && count[..] == Counters(|message|)
      modifies buf, state, count, this`bpos, this`updated, this`message
      ensures Absorbed() && bpos < 64 && message == CodedMessage(old(message))
    {
      hide Counters, CodedLength, Padding, Pending, Taken, Absorb, Lows;
      ghost var m := message;
      
      var cbuf := CodeLength(|m|);
      PadFromCounter(|m|);
      var i := count[0] / 8 % 64;
      var len := if i < 56 then 56 - i else 120 - i;
      assert len == PadLength(|m|);
      PutDigest(PAD[..len]);
      PutDigest(cbuf);
    }

    /** Nothing is pending after the length field. */
    lemma AllTaken(m: seq<octet>)
      requires Absorbed() && bpos < 64 && message == CodedMessage(m)
      ensures Shape() && Registers() == Absorb(START, CodedMessage(m))
    {
      hide Absorb, Lows, CodedMessage, Pending, Taken;
      ClosingBlock(m, buf[..bpos]);
    }

    /** Finish the message: pad it, append its length, keep the digest and start over. */
    method Commit()
      requires Absorbed() && Counted()
      modifies buf, state, count, md5, this`bpos, this`updated, this`message
      ensures old(updated || bpos != 0) ==>
        && Valid() && message == []
        && md5[..] == DigestOctets(Absorb(START, CodedMessage(old(message))))
      ensures !old(updated || bpos != 0) ==> message == old(message) && md5[..] == old(md5[..])
    {
      hide Counters, Pending, DigestOctets, Taken, Absorb, CodedMessage, Lows;
      if !updated && bpos == 0 {
        return;
      }
      AddHeld();
      PutClosing();
      AllTaken(old(message));
      StoreDigest();
      InitDigest();
    }

    /**
     The digest of everything put since the last reset, for messages the length field
     can describe; the accumulator then starts over, so asking again digests nothing.
     */
    method GetDigest() returns (buffer: seq<octet>)
      requires Valid()
      modifies buf, state, count, md5, this`bpos, this`updated, this`message
      ensures Valid() && message == []
      ensures buffer == DigestOctets(Absorb(START, CodedMessage(old(message))))
      ensures |old(message)| < 0x2000_0000 ==> buffer == Digest(old(message))
    {
      hide Counters, Pending, DigestOctets, Taken, Absorb, CodedMessage, Lows, Padded;
      CodedIsPadded(message);
      Commit();
      buffer := md5[..];
    }
  }
}
