/**
 Skein as functions (section 3.5 of the Skein 1.3 specification): the UBI step that
 chains Threefish over blocks, absorbing a message with its last 1 to BLOCK octets
 held back, padding, the output transform, and the MAC made of them.
 */
module SkeinSpec {
  import opened Octets
  import opened Words
  import opened Threefish

  // ---- Words and octets, least significant first ----

  function FromLittleEndian(s: seq<octet>): (x: nat)
    ensures x < Pow2(8 * |s|)
  {
    if s == [] then 0
    else
      Pow2Byte(|s| - 1);
      s[0] + 0x100 * FromLittleEndian(s[1..])
  }

  lemma Pow2Byte(n: nat)
    ensures Pow2(8 * (n + 1)) == 0x100 * Pow2(8 * n)
  {
    Pow2Sum(8, 8 * n);
    assert Pow2(8) == 0x100;
  }

  function ToLittleEndian(x: nat, n: nat): (s: seq<octet>)
    ensures |s| == n
  {
    if n == 0 then [] else [x % 0x100] + ToLittleEndian(x / 0x100, n - 1)
  }

  lemma {:induction false} LittleEndianBack(x: nat, n: nat)
    requires x < Pow2(8 * n)
    ensures FromLittleEndian(ToLittleEndian(x, n)) == x
  {
    if n > 0 {
      Pow2Byte(n - 1);
      LittleEndianBack(x / 0x100, n - 1);
      assert ToLittleEndian(x, n)[1..] == ToLittleEndian(x / 0x100, n - 1);
    }
  }

  function ToWord(s: seq<octet>): Word
    requires |s| == 8
  {
    Pow2Of64();
    FromLittleEndian(s)
  }

  /** Skein_Get64_LSB_First */
  function WordsOf(b: seq<octet>, n: nat): (x: seq<Word>)
    requires |b| == 8 * n
    ensures |x| == n
  {
    if n == 0 then [] else [ToWord(b[..8])] + WordsOf(b[8..], n - 1)
  }

  /** Skein_Put64_LSB_First */
  function OctetsOf(x: seq<Word>): (b: seq<octet>)
    ensures |b| == 8 * |x|
  {
    if x == [] then [] else ToLittleEndian(x[0], 8) + OctetsOf(x[1..])
  }

  lemma {:induction false} WordsBack(x: seq<Word>)
    ensures WordsOf(OctetsOf(x), |x|) == x
  {
    if x != [] {
      Pow2Of64();
      LittleEndianBack(x[0], 8);
      WordsBack(x[1..]);
      assert OctetsOf(x)[..8] == ToLittleEndian(x[0], 8) && OctetsOf(x)[8..] == OctetsOf(x[1..]);
    }
  }

  // ---- Tweak flags and block types ----

  const FLAG_FIRST: Word := 0x4000_0000_0000_0000
  const FLAG_FINAL: Word := 0x8000_0000_0000_0000
  const TYPE_KEY: Word := 0
  const TYPE_CFG_FINAL: Word := 0x8400_0000_0000_0000
  const TYPE_MSG: Word := 0x3000_0000_0000_0000
  const TYPE_OUT_FINAL: Word := 0xBF00_0000_0000_0000
  /** SKEIN_CFG_TREE_INFO_SEQUENTIAL */
  const TREE_SEQUENTIAL: Word := 0
  const SCHEMA_VER: Word := 0x1_3341_4853

  function SetFinal(t1: Word): Word {
    if t1 < FLAG_FINAL then t1 + FLAG_FINAL else t1
  }

  function ClearFirst(t1: Word): Word {
    if t1 / FLAG_FIRST % 2 == 1 then t1 - FLAG_FIRST else t1
  }

  // ---- Chaining ----

  datatype Chain = Chain(x: seq<Word>, t0: Word, t1: Word)

  /** A tweakable block cipher on `words` words: key, two tweak words, plain text. */
  datatype Tweakable = Tweakable(
    words: nat,
    encrypt: (seq<Word>, Word, Word, seq<Word>) -> seq<Word>)

  ghost predicate KeepsLength(c: Tweakable) {
    && 4 <= c.words <= 16
    && forall x, t0, t1, w :: |w| == c.words ==> |c.encrypt(x, t0, t1, w)| == c.words
  }

  type Mode = c: Tweakable | KeepsLength(c) ghost witness Tweakable(4, (x, t0, t1, w) => w)

  /** The mode Skein runs: Threefish of one of its three sizes. */
  function ThreefishMode(s: Size): Mode {
    SizeBounds(s);
    Tweakable(s.words, (x: seq<Word>, t0: Word, t1: Word, w: seq<Word>) =>
      if |x| == |w| == s.words then Encrypt(s, x, t0, t1, w) else w)
  }

  function BlockOctets(m: Mode): nat {
    8 * m.words
  }

  predicate IsChain(m: Mode, c: Chain) {
    |c.x| == m.words
  }

  function StartType(x: seq<Word>, blkType: Word): Chain
    requires blkType + FLAG_FIRST < TWO64
  {
    Chain(x, 0, FLAG_FIRST + blkType)
  }

  function XorEach(x: seq<Word>, y: seq<Word>): (z: seq<Word>)
    requires |x| == |y|
    ensures |z| == |x|
  {
    seq(|x|, i requires 0 <= i < |x| => XorWord(x[i], y[i]))
  }

  /** One block: count its octets, encrypt it under the chaining words, feed it forward. */
  function Step(m: Mode, c: Chain, block: seq<octet>, add: Word): (d: Chain)
    requires IsChain(m, c) && |block| == BlockOctets(m)
    ensures IsChain(m, d)
  {
    var t0 := Add(c.t0, add);
    var w := WordsOf(block, m.words);
    Chain(XorEach(m.encrypt(c.x, t0, c.t1, w), w), t0, ClearFirst(c.t1))
  }

  /** n blocks fit into this many octets. */
  predicate Fits(m: Mode, length: nat, n: nat) {
    n == 0 || (BlockOctets(m) <= length && Fits(m, length - BlockOctets(m), n - 1))
  }

  function Rest(m: Mode, data: seq<octet>, n: nat): seq<octet>
    requires Fits(m, |data|, n)
  {
    if n == 0 then data else Rest(m, data[BlockOctets(m)..], n - 1)
  }

  function Steps(m: Mode, c: Chain, data: seq<octet>, n: nat, add: Word): (d: Chain)
    requires IsChain(m, c) && Fits(m, |data|, n)
    ensures IsChain(m, d)
    decreases n
  {
    if n == 0 then c
    else
      Steps(m, Step(m, c, data[..BlockOctets(m)], add), data[BlockOctets(m)..], n - 1, add)
  }

  lemma {:induction false} FitsProduct(m: Mode, length: nat, n: nat)
    requires n * BlockOctets(m) <= length
    ensures Fits(m, length, n)
  {
    hide BlockOctets;
    if n > 0 {
      var b := BlockOctets(m);
      assert (n - 1) * b == n * b - b;
      MulOrdered(n - 1, b);
      FitsProduct(m, length - b, n - 1);
    }
  }

  lemma {:induction false} RestProduct(m: Mode, data: seq<octet>, n: nat)
    requires Fits(m, |data|, n)
    ensures n * BlockOctets(m) <= |data| && Rest(m, data, n) == data[n * BlockOctets(m)..]
  {
    hide BlockOctets;
    var b := BlockOctets(m);
    if n == 0 {
      assert data[0 * b..] == data;
    } else {
      RestProduct(m, data[b..], n - 1);
      assert (n - 1) * b + b == n * b;
      assert data[b..][(n - 1) * b..] == data[n * b..];
    }
  }

  // ---- Absorbing ----

  datatype Stream = Stream(chain: Chain, pending: seq<octet>)

  /** Full blocks are processed only when more follows, so some octets stay pending. */
  function Absorb(m: Mode, c: Chain, data: seq<octet>): (r: Stream)
    requires IsChain(m, c)
    ensures |r.chain.x| == m.words && |r.pending| <= BlockOctets(m)
    decreases |data|
  {
    if |data| <= BlockOctets(m) then Stream(c, data)
    else Absorb(m, Step(m, c, data[..BlockOctets(m)], BlockOctets(m)), data[BlockOctets(m)..])
  }

  /** The octets held back: the last 1 to BLOCK of the data, none only when there were none. */
  lemma {:induction false} HeldBack(m: Mode, c: Chain, data: seq<octet>)
    requires IsChain(m, c)
    ensures var p := Absorb(m, c, data).pending;
      && (data != [] ==> 1 <= |p|) && |p| <= BlockOctets(m)
      && |p| <= |data| && p == data[|data| - |p|..]
    decreases |data|
  {
    hide Step;
    WordCounts(m);
    var n := BlockOctets(m);
    if |data| > n {
      var d := Step(m, c, data[..n], n);
      HeldBack(m, d, data[n..]);
      var p := Absorb(m, d, data[n..]).pending;
      assert data[n..][|data| - n - |p|..] == data[|data| - |p|..];
    }
  }

  /** Absorbing in two pieces is absorbing their concatenation. */
  lemma {:induction false} AbsorbTwice(m: Mode, c: Chain, data: seq<octet>, more: seq<octet>)
    requires IsChain(m, c)
    ensures var r := Absorb(m, c, data);
      Absorb(m, r.chain, r.pending + more) == Absorb(m, c, data + more)
    decreases |data|
  {
    hide Step;
    WordCounts(m);
    var n := BlockOctets(m);
    if |data| > n {
      var d := Step(m, c, data[..n], n);
      AbsorbTwice(m, d, data[n..], more);
      assert (data + more)[..n] == data[..n];
      assert (data + more)[n..] == data[n..] + more;
    }
  }

  function Concat(chunks: seq<seq<octet>>): seq<octet> {
    if chunks == [] then [] else Concat(chunks[..|chunks| - 1]) + chunks[|chunks| - 1]
  }

  /** A state after a sequence of updates. */
  function AbsorbAll(m: Mode, r: Stream, chunks: seq<seq<octet>>): (t: Stream)
    requires IsChain(m, r.chain)
    ensures |t.chain.x| == m.words
  {
    if chunks == [] then r
    else
      var t := AbsorbAll(m, r, chunks[..|chunks| - 1]);
      Absorb(m, t.chain, t.pending + chunks[|chunks| - 1])
  }

  /** Any chunking of a message leaves the same chaining words, tweak and pending octets. */
  lemma {:induction false} ChunkIndependent(m: Mode, c: Chain, chunks: seq<seq<octet>>)
    requires IsChain(m, c)
    ensures AbsorbAll(m, Stream(c, []), chunks) == Absorb(m, c, Concat(chunks))
  {
    if chunks != [] {
      var init := chunks[..|chunks| - 1];
      ChunkIndependent(m, c, init);
      AbsorbTwice(m, c, Concat(init), chunks[|chunks| - 1]);
    }
  }

  /** Processing n blocks at once in front of further data changes nothing. */
  lemma {:induction false} AbsorbSteps(m: Mode, c: Chain, data: seq<octet>, n: nat)
    requires IsChain(m, c) && Fits(m, |data|, n) && Rest(m, data, n) != []
    ensures Absorb(m, c, data) == Absorb(m, Steps(m, c, data, n, BlockOctets(m)), Rest(m, data, n))
    decreases n
  {
    hide Step;
    WordCounts(m);
    if n > 0 {
      var b := BlockOctets(m);
      RestProduct(m, data[b..], n - 1);
      MulOrdered(n - 1, b);
      AbsorbSteps(m, Step(m, c, data[..b], b), data[b..], n - 1);
    }
  }

  lemma OneStep(m: Mode, c: Chain, block: seq<octet>, add: Word)
    requires IsChain(m, c) && |block| == BlockOctets(m)
    ensures Fits(m, |block|, 1) && Steps(m, c, block, 1, add) == Step(m, c, block, add)
  {
    hide Step;
    assert block[..BlockOctets(m)] == block;
    assert Steps(m, Step(m, c, block, add), block[BlockOctets(m)..], 0, add) == Step(m, c, block, add);
  }

  lemma AbsorbShort(m: Mode, c: Chain, data: seq<octet>)
    requires IsChain(m, c) && |data| <= BlockOctets(m)
    ensures Absorb(m, c, data) == Stream(c, data)
  {
  }

  lemma AbsorbFirst(m: Mode, c: Chain, data: seq<octet>)
    requires IsChain(m, c) && |data| > BlockOctets(m)
    ensures var n := BlockOctets(m);
      && Fits(m, n, 1)
      && Absorb(m, c, data) == Absorb(m, Steps(m, c, data[..n], 1, n), data[n..])
  {
    hide Step;
    WordCounts(m);
    OneStep(m, c, data[..BlockOctets(m)], BlockOctets(m));
  }

  /** A buffer filled up with the front of a message is the first block of both together. */
  lemma AbsorbBuffered(m: Mode, c: Chain, pending: seq<octet>, message: seq<octet>)
    requires IsChain(m, c) && |pending| <= BlockOctets(m) < |pending| + |message|
    ensures var n := BlockOctets(m);
      var k := n - |pending|;
      && Fits(m, n, 1)
      && Absorb(m, c, pending + message) == Absorb(m, Steps(m, c, pending + message[..k], 1, n), message[k..])
  {
    hide *;
    SplitAt(pending, message, BlockOctets(m));
    AbsorbFirst(m, c, pending + message);
  }

  lemma SplitAt<T>(p: seq<T>, q: seq<T>, n: nat)
    requires |p| <= n <= |p| + |q|
    ensures (p + q)[..n] == p + q[..n - |p|] && (p + q)[n..] == q[n - |p|..]
  {
  }

  lemma WholeBlocks(length: nat, block: nat)
    requires block > 0 && length > block
    ensures var n := (length - 1) / block; n >= 1 && n * block < length <= n * block + block
  {
    var n := (length - 1) / block;
    assert length - 1 == n * block + (length - 1) % block;
    MulOrdered(-n, block);
  }

  // ---- The last block and the output ----

  function Padded(m: Mode, pending: seq<octet>): (b: seq<octet>)
    requires |pending| <= BlockOctets(m)
    ensures |b| == BlockOctets(m)
  {
    pending + seq(BlockOctets(m) - |pending|, _ => 0)
  }

  function Finished(m: Mode, r: Stream): (d: Chain)
    requires IsChain(m, r.chain) && |r.pending| <= BlockOctets(m)
    ensures |d.x| == m.words
  {
    WordCounts(m);
    Step(m, r.chain.(t1 := SetFinal(r.chain.t1)), Padded(m, r.pending), |r.pending|)
  }

  lemma WordCounts(m: Mode)
    ensures 4 <= m.words <= 16 && 32 <= BlockOctets(m) <= 128
  {
  }

  /** Block i of the output: Threefish in counter mode. */
  function OutputBlock(m: Mode, x: seq<Word>, i: nat): (b: seq<octet>)
    requires |x| == m.words
    ensures |b| == BlockOctets(m)
  {
    WordCounts(m);
    OctetsOf(Step(m, StartType(x, TYPE_OUT_FINAL), Padded(m, ToLittleEndian(i, 8)), 8).x)
  }

  /** The block an octet is in, and its place there. */
  function Quotient(k: nat, n: nat): nat
    requires n > 0
  {
    k / n
  }

  function Remainder(k: nat, n: nat): (r: nat)
    requires n > 0
    ensures r < n
  {
    k % n
  }

  function OutputOctet(m: Mode, x: seq<Word>, k: nat): octet
    requires |x| == m.words
  {
    WordCounts(m);
    OutputBlock(m, x, Quotient(k, BlockOctets(m)))[Remainder(k, BlockOctets(m))]
  }

  function Output(m: Mode, x: seq<Word>, byteCnt: nat): (b: seq<octet>)
    requires |x| == m.words
    ensures |b| == byteCnt
  {
    seq(byteCnt, k requires 0 <= k < byteCnt => OutputOctet(m, x, k))
  }

  lemma BlockIndex(m: Mode, x: seq<Word>, i: nat, r: nat)
    requires |x| == m.words && r < BlockOctets(m)
    ensures OutputOctet(m, x, i * BlockOctets(m) + r) == OutputBlock(m, x, i)[r]
  {
    hide OutputBlock, BlockOctets;
    DivModOf(i, r, BlockOctets(m));
  }

  // ---- The MAC ----

  function Zeros(n: nat): (x: seq<Word>)
    ensures |x| == n
  {
    seq(n, _ => 0)
  }

  /** The chaining words a key leaves; an empty key is not processed at all. */
  function KeyWords(m: Mode, key: seq<octet>): (x: seq<Word>)
    ensures |x| == m.words
  {
    if key == [] then Zeros(m.words)
    else Finished(m, Absorb(m, StartType(Zeros(m.words), TYPE_KEY), key)).x
  }

  function ConfigBlock(m: Mode, hashBitLen: uint32, treeInfo: Word): (b: seq<octet>)
    ensures |b| == BlockOctets(m)
  {
    WordCounts(m);
    OctetsOf([SCHEMA_VER, hashBitLen, treeInfo] + Zeros(m.words - 3))
  }

  /** The words every message under this key and configuration starts from. */
  function KeyedStart(m: Mode, key: seq<octet>, hashBitLen: uint32, treeInfo: Word): (x: seq<Word>)
    ensures |x| == m.words
  {
    Step(m, StartType(KeyWords(m, key), TYPE_CFG_FINAL), ConfigBlock(m, hashBitLen, treeInfo), 32).x
  }

  function MacStart(m: Mode, key: seq<octet>, hashBitLen: uint32): (x: seq<Word>)
    ensures |x| == m.words
  {
    KeyedStart(m, key, hashBitLen, TREE_SEQUENTIAL)
  }

  function ByteCount(hashBitLen: uint32): nat {
    (hashBitLen + 7) / 8
  }

  function TagFrom(m: Mode, start: seq<Word>, hashBitLen: uint32, message: seq<octet>): (t: seq<octet>)
    requires |start| == m.words
    ensures |t| == ByteCount(hashBitLen)
  {
    Output(m, Finished(m, Absorb(m, StartType(start, TYPE_MSG), message)).x, ByteCount(hashBitLen))
  }

  function Mac(m: Mode, key: seq<octet>, hashBitLen: uint32, message: seq<octet>): seq<octet>
  {
    TagFrom(m, MacStart(m, key, hashBitLen), hashBitLen, message)
  }
}
