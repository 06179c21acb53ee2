/**
 Skein as its specification defines it, apart from the buffering code: UBI over a whole
 message with the tweak of every block written out (section 3.4 of the Skein 1.3
 specification), and hashing and MAC on top of it (section 3.5). The functions of
 SkeinSpec, which follow the code, are shown to compute it.
 */
module SkeinStandard {
  import opened Octets
  import opened Words
  import opened Threefish
  import opened SkeinSpec

  // ---- The calls of the cipher ----

  /** One call of the cipher but for its key: the two tweak words and the plain text. */
  datatype Call = Call(t0: Word, t1: Word, block: seq<octet>)

  /** A message whose length fits the position field, in octets. */
  type Message = s: seq<octet> | |s| < 0x1_0000_0000_0000_0000

  type BlockType = n: nat | n < 64

  const TYPE_UNIT: int := 0x100_0000_0000_0000

  /** The second tweak word: the type from bit 56 on, bit 62 for the first block and bit 63 for the last. */
  function Flags(kind: BlockType, first: bool, last: bool): Word {
    kind * TYPE_UNIT + (if first then 0x4000_0000_0000_0000 else 0) + (if last then 0x8000_0000_0000_0000 else 0)
  }

  /** The block of n octets that starts at octet p, filled up with zeros. */
  function BlockFrom(data: Message, n: nat, p: nat): (b: seq<octet>)
    requires p <= |data|
    ensures |b| == n
  {
    var end := Min(p + n, |data|);
    data[p..end] + seq(n - (end - p), _ => 0)
  }

  /** Its call: the position counts the octets of the message up to its end. */
  function CallFrom(data: Message, kind: BlockType, n: nat, p: nat): Call
    requires p <= |data|
  {
    Call(Min(p + n, |data|), Flags(kind, p == 0, p + n >= |data|), BlockFrom(data, n, p))
  }

  /** All calls for a message, from octet p on. */
  function Calls(data: Message, kind: BlockType, n: nat, p: nat): (r: seq<Call>)
    requires p <= |data| && n > 0
    ensures r != []
    decreases |data| - p
  {
    [CallFrom(data, kind, n, p)] + if p + n >= |data| then [] else Calls(data, kind, n, p + n)
  }

  /** What one call makes of a chaining value: the cipher of the block, with the block added bit by bit. */
  function Chained(m: Mode, h: seq<Word>, c: Call): (r: seq<Word>)
    requires |h| == m.words && |c.block| == BlockOctets(m)
    ensures |r| == m.words
  {
    var w := WordsOf(c.block, m.words);
    var y := m.encrypt(h, c.t0, c.t1, w);
    seq(m.words, i requires 0 <= i < m.words => XorWord(y[i], w[i]))
  }

  /** UBI from octet p on. */
  function UbiFrom(m: Mode, h: seq<Word>, data: Message, kind: BlockType, p: nat): (r: seq<Word>)
    requires |h| == m.words && p <= |data|
    ensures |r| == m.words
    decreases |data| - p
  {
    WordCounts(m);
    var n := BlockOctets(m);
    var g := Chained(m, h, CallFrom(data, kind, n, p));
    if p + n >= |data| then g else UbiFrom(m, g, data, kind, p + n)
  }

  function Ubi(m: Mode, h: seq<Word>, data: Message, kind: BlockType): (r: seq<Word>)
    requires |h| == m.words
    ensures |r| == m.words
  {
    UbiFrom(m, h, data, kind, 0)
  }

  /** Call i of a message: its position, its flags, its octets. */
  lemma {:induction false} NthCall(data: Message, kind: BlockType, n: nat, p: nat, i: nat)
    requires p <= |data| && n > 0 && i < |Calls(data, kind, n, p)|
    ensures var calls := Calls(data, kind, n, p);
      && p + i * n <= |data| && calls[i] == CallFrom(data, kind, n, p + i * n)
      && (i == |calls| - 1 <==> p + (i + 1) * n >= |data|)
    decreases i
  {
    hide CallFrom;
    assert (i + 1) * n == i * n + n;
    if i == 0 {
      assert p + 0 * n == p && 1 * n == n;
    } else {
      NthCall(data, kind, n, p + n, i - 1);
      assert i * n == (i - 1) * n + n;
    }
  }

  /**
   The calls of a message: call i is made at position min((i + 1) n, length), marked as the
   first exactly when i is 0 and as the last exactly when no call follows.
   */
  lemma CallsCount(data: Message, kind: BlockType, n: nat, i: nat)
    requires n > 0 && i < |Calls(data, kind, n, 0)|
    ensures var calls := Calls(data, kind, n, 0);
      && calls[i].t0 == Min((i + 1) * n, |data|)
      && calls[i].t1 == Flags(kind, i == 0, i == |calls| - 1)
  {
    hide Flags, BlockFrom;
    NthCall(data, kind, n, 0, i);
    assert (i + 1) * n == i * n + n;
    if i > 0 {
      MulOrdered(i - 1, n);
      assert i * n == (i - 1) * n + n;
    }
  }

  lemma FlagsApart(kind: BlockType, other: BlockType, first: bool, last: bool, also: bool, end: bool)
    requires Flags(kind, first, last) == Flags(other, also, end)
    ensures kind == other && first == also && last == end
  {
  }

  lemma SamePart(a: Message, b: Message, n: nat, p: nat)
    requires n > 0 && p <= |a| == |b| && BlockFrom(a, n, p) == BlockFrom(b, n, p)
    ensures a[p..Min(p + n, |a|)] == b[p..Min(p + n, |a|)]
  {
    var end := Min(p + n, |a|);
    assert BlockFrom(a, n, p)[..end - p] == a[p..end];
    assert BlockFrom(b, n, p)[..end - p] == b[p..end];
  }

  lemma {:induction false} CallsLength(data: Message, kind: BlockType, n: nat, p: nat)
    requires p <= |data| && n > 0
    ensures var calls := Calls(data, kind, n, p); calls[|calls| - 1].t0 == |data|
    decreases |data| - p
  {
    hide Flags, BlockFrom;
    if p + n < |data| {
      CallsLength(data, kind, n, p + n);
    }
  }

  lemma {:induction false} SameFrom(a: Message, b: Message, kind: BlockType, other: BlockType, n: nat, p: nat)
    requires n > 0 && p <= |a| == |b| && Calls(a, kind, n, p) == Calls(b, other, n, p)
    ensures a[p..] == b[p..]
    decreases |a| - p
  {
    hide Flags, BlockFrom;
    var c, d := Calls(a, kind, n, p), Calls(b, other, n, p);
    assert c[0] == CallFrom(a, kind, n, p) && d[0] == CallFrom(b, other, n, p);
    SamePart(a, b, n, p);
    if p + n < |a| {
      assert c[1..] == Calls(a, kind, n, p + n) && d[1..] == Calls(b, other, n, p + n);
      SameFrom(a, b, kind, other, n, p + n);
      assert a[p..] == a[p..p + n] + a[p + n..] && b[p..] == b[p..p + n] + b[p + n..];
    } else {
      assert a[p..] == a[p..|a|] && b[p..] == b[p..|a|];
    }
  }

  /** Two messages, of whatever types, that lead to the same calls of the cipher are one message of one type. */
  lemma CallsDetermine(a: Message, b: Message, kind: BlockType, other: BlockType, n: nat)
    requires n > 0 && Calls(a, kind, n, 0) == Calls(b, other, n, 0)
    ensures a == b && kind == other
  {
    hide Flags, BlockFrom, Calls;
    CallsLength(a, kind, n, 0);
    CallsLength(b, other, n, 0);
    SameFrom(a, b, kind, other, n, 0);
    CallsCount(a, kind, n, 0);
    CallsCount(b, other, n, 0);
    var last := |Calls(a, kind, n, 0)| == 1;
    FlagsApart(kind, other, true, last, true, last);
    assert a[0..] == a && b[0..] == b;
  }

  // ---- The code's tweak ----

  /** The tweak as the code carries it in front of the block at octet p. */
  function TweakAt(kind: BlockType, p: nat): (t1: Word) {
    Flags(kind, p == 0, false)
  }

  lemma FlagSteps(kind: BlockType, first: bool)
    ensures ClearFirst(Flags(kind, first, false)) == Flags(kind, false, false)
    ensures SetFinal(Flags(kind, first, false)) == Flags(kind, first, true)
  {
    var t := kind * TYPE_UNIT;
    assert 0 <= t < FLAG_FIRST;
  }

  lemma MiddleBlock(data: Message, n: nat, p: nat)
    requires p + n <= |data|
    ensures BlockFrom(data, n, p) == data[p..][..n] == data[p..p + n]
  {
  }

  lemma LastBlock(m: Mode, data: Message, p: nat)
    requires p <= |data| <= p + BlockOctets(m)
    ensures BlockFrom(data, BlockOctets(m), p) == Padded(m, data[p..])
  {
    hide BlockOctets;
    assert data[p..|data|] == data[p..];
  }

  /** One step of the code is one call. */
  lemma StepIsCall(m: Mode, c: Chain, block: seq<octet>, add: Word)
    requires IsChain(m, c) && |block| == BlockOctets(m) && c.t0 + add < TWO64
    ensures var d := Step(m, c, block, add);
      d.x == Chained(m, c.x, Call(c.t0 + add, c.t1, block)) && d.t0 == c.t0 + add && d.t1 == ClearFirst(c.t1)
  {
    hide WordsOf, XorWord, ClearFirst, BlockOctets;
    assert Add(c.t0, add) == c.t0 + add;
  }

  /** From octet p on, absorbing and finishing is UBI, and the count ends at the length of the message. */
  lemma {:induction false} AbsorbIsUbi(m: Mode, h: seq<Word>, data: Message, kind: BlockType, p: nat)
    requires |h| == m.words && p <= |data|
    ensures var d := Finished(m, Absorb(m, Chain(h, p, TweakAt(kind, p)), data[p..]));
      d.x == UbiFrom(m, h, data, kind, p) && d.t0 == |data|
    decreases |data| - p
  {
    hide Step, ClearFirst, SetFinal, Flags, Padded, BlockFrom, Chained;
    WordCounts(m);
    var n := BlockOctets(m);
    var c := Chain(h, p, TweakAt(kind, p));
    FlagSteps(kind, p == 0);
    if p + n < |data| {
      MiddleBlock(data, n, p);
      StepIsCall(m, c, data[p..p + n], n);
      assert data[p..][n..] == data[p + n..];
      AbsorbIsUbi(m, Chained(m, h, CallFrom(data, kind, n, p)), data, kind, p + n);
    } else {
      LastBlock(m, data, p);
      AbsorbShort(m, c, data[p..]);
      StepIsCall(m, c.(t1 := SetFinal(c.t1)), Padded(m, data[p..]), |data| - p);
    }
  }

  /**
   A message absorbed from the start of a type and finished: the chaining value of the
   standard, and a count of all its octets and no more.
   */
  lemma FinishedIsUbi(m: Mode, h: seq<Word>, data: Message, kind: BlockType)
    requires |h| == m.words
    ensures var d := Finished(m, Absorb(m, StartType(h, kind * TYPE_UNIT), data));
      d.x == Ubi(m, h, data, kind) && d.t0 == |data|
  {
    hide Absorb, Finished, UbiFrom;
    assert data[0..] == data;
    AbsorbIsUbi(m, h, data, kind, 0);
  }

  // ---- Hash and MAC ----

  const KEY: BlockType := 0
  const CFG: BlockType := 4
  const MSG: BlockType := 48
  const OUT: BlockType := 63

  /** The configuration string: "SHA3", version 1, the output length in bits, no tree. */
  function Configuration(hashBitLen: uint32): (s: seq<octet>)
    ensures |s| == 32
  {
    [0x53, 0x48, 0x41, 0x33, 1, 0, 0, 0]
    + [hashBitLen % 0x100, hashBitLen / 0x100 % 0x100, hashBitLen / 0x1_0000 % 0x100, hashBitLen / 0x100_0000, 0, 0, 0, 0]
    + seq(16, _ => 0)
  }

  /** The counter of an output block, least significant octet first. */
  function Counter(i: Word): (s: seq<octet>)
    ensures |s| == 8
  {
    ToLittleEndian(i, 8)
  }

  /** Octet k of the output. */
  function StandardOctet(m: Mode, g: seq<Word>, k: Word): octet
    requires |g| == m.words
  {
    WordCounts(m);
    var n := BlockOctets(m);
    OctetsOf(Ubi(m, g, Counter(Quotient(k, n)), OUT))[Remainder(k, n)]
  }

  /** Skein-MAC: key, configuration, message and output stage. */
  function StandardMac(m: Mode, key: Message, hashBitLen: uint32, message: Message): (t: seq<octet>) {
    var h := if key == [] then Zeros(m.words) else Ubi(m, Zeros(m.words), key, KEY);
    var g := Ubi(m, Ubi(m, h, Configuration(hashBitLen), CFG), message, MSG);
    seq((hashBitLen + 7) / 8, k requires 0 <= k < (hashBitLen + 7) / 8 => StandardOctet(m, g, k))
  }

  // ---- The code computes it ----

  /** A message of at most one block is one call, first and last. */
  lemma ShortUbi(m: Mode, h: seq<Word>, data: Message, kind: BlockType)
    requires |h| == m.words && |data| <= BlockOctets(m)
    ensures Ubi(m, h, data, kind) == Chained(m, h, Call(|data|, Flags(kind, true, true), Padded(m, data)))
  {
    hide Chained, Flags, Padded, BlockFrom;
    LastBlock(m, data, 0);
    assert data[0..] == data;
  }

  /** A step from the start of a type that is marked final from the start. */
  lemma FinalStep(m: Mode, h: seq<Word>, data: Message, kind: BlockType)
    requires |h| == m.words && |data| <= BlockOctets(m)
    ensures kind * TYPE_UNIT + FLAG_FINAL + FLAG_FIRST < TWO64
    ensures Step(m, StartType(h, kind * TYPE_UNIT + FLAG_FINAL), Padded(m, data), |data|).x == Ubi(m, h, data, kind)
  {
    hide Step, Chained, Padded, Ubi;
    ShortUbi(m, h, data, kind);
    StepIsCall(m, StartType(h, kind * TYPE_UNIT + FLAG_FINAL), Padded(m, data), |data|);
  }

  lemma {:induction false} ZeroOctets(n: nat)
    ensures OctetsOf(Zeros(n)) == seq(8 * n, _ => 0)
  {
    if n > 0 {
      ZeroOctets(n - 1);
      assert Zeros(n)[1..] == Zeros(n - 1);
      assert ToLittleEndian(0, 8) == [0, 0, 0, 0, 0, 0, 0, 0];
    }
  }

  lemma SmallOctets(x: uint32)
    ensures ToLittleEndian(x, 8) == [x % 0x100, x / 0x100 % 0x100, x / 0x1_0000 % 0x100, x / 0x100_0000, 0, 0, 0, 0]
  {
    var a := x / 0x100;
    var b := a / 0x100;
    var c := b / 0x100;
    assert b == x / 0x1_0000 && c == x / 0x100_0000 && c / 0x100 == 0;
    assert ToLittleEndian(0, 4) == [0, 0, 0, 0];
    assert ToLittleEndian(c, 5) == [c] + ToLittleEndian(0, 4);
    assert ToLittleEndian(b, 6) == [b % 0x100] + ToLittleEndian(c, 5);
    assert ToLittleEndian(a, 7) == [a % 0x100] + ToLittleEndian(b, 6);
  }

  lemma SchemaOctets()
    ensures ToLittleEndian(SCHEMA_VER, 8) == [0x53, 0x48, 0x41, 0x33, 1, 0, 0, 0]
    ensures ToLittleEndian(0, 8) == [0, 0, 0, 0, 0, 0, 0, 0]
  {
  }

  lemma FirstWords(x: Word, y: Word, z: Word, rest: seq<Word>)
    ensures OctetsOf([x, y, z] + rest)
         == ToLittleEndian(x, 8) + ToLittleEndian(y, 8) + ToLittleEndian(z, 8) + OctetsOf(rest)
  {
    hide ToLittleEndian;
    assert ([x, y, z] + rest)[1..] == [y, z] + rest && ([y, z] + rest)[1..] == [z] + rest && ([z] + rest)[1..] == rest;
    assert OctetsOf([z] + rest) == ToLittleEndian(z, 8) + OctetsOf(rest);
    assert OctetsOf([y, z] + rest) == ToLittleEndian(y, 8) + OctetsOf([z] + rest);
  }

  /** The configuration block of the code is the standard's string, filled up. */
  lemma ConfigIsStandard(m: Mode, hashBitLen: uint32)
    ensures |Configuration(hashBitLen)| <= BlockOctets(m)
    ensures ConfigBlock(m, hashBitLen, TREE_SEQUENTIAL) == Padded(m, Configuration(hashBitLen))
  {
    hide OctetsOf, ToLittleEndian, Zeros;
    WordCounts(m);
    FirstWords(SCHEMA_VER, hashBitLen, TREE_SEQUENTIAL, Zeros(m.words - 3));
    SchemaOctets();
    SmallOctets(hashBitLen);
    ZeroOctets(m.words - 3);
  }

  lemma KeyIsStandard(m: Mode, key: Message)
    ensures KeyWords(m, key) == if key == [] then Zeros(m.words) else Ubi(m, Zeros(m.words), key, KEY)
  {
    hide Absorb, Finished, Ubi;
    FinishedIsUbi(m, Zeros(m.words), key, KEY);
  }

  lemma StartIsStandard(m: Mode, key: Message, hashBitLen: uint32)
    ensures MacStart(m, key, hashBitLen) == Ubi(m, KeyWords(m, key), Configuration(hashBitLen), CFG)
  {
    hide Step, Ubi, KeyWords, ConfigBlock, Configuration, Padded;
    ConfigIsStandard(m, hashBitLen);
    FinalStep(m, KeyWords(m, key), Configuration(hashBitLen), CFG);
  }

  lemma OutputIsStandard(m: Mode, g: seq<Word>, k: Word)
    requires |g| == m.words
    ensures OutputOctet(m, g, k) == StandardOctet(m, g, k)
  {
    hide Step, Ubi, Padded, OctetsOf, Remainder;
    WordCounts(m);
    FinalStep(m, g, Counter(Quotient(k, BlockOctets(m))), OUT);
  }

  /** For every key, output length and message, the MAC of the code is that of the standard. */
  lemma MacIsStandard(m: Mode, key: Message, hashBitLen: uint32, message: Message)
    ensures Mac(m, key, hashBitLen, message) == StandardMac(m, key, hashBitLen, message)
  {
    hide Absorb, Finished, Ubi, MacStart, KeyWords, OutputOctet, StandardOctet, Configuration;
    KeyIsStandard(m, key);
    StartIsStandard(m, key, hashBitLen);
    var start := MacStart(m, key, hashBitLen);
    FinishedIsUbi(m, start, message, MSG);
    var g := Ubi(m, start, message, MSG);
    assert Finished(m, Absorb(m, StartType(start, TYPE_MSG), message)).x == g;
    forall k | 0 <= k < ByteCount(hashBitLen) ensures OutputOctet(m, g, k) == StandardOctet(m, g, k) {
      OutputIsStandard(m, g, k);
    }
  }
}
