/**
 The incremental Skein context of the source: Skein_NNN_Update, _Final, _Final_Pad and
 _InitExt, and on top of them the MAC interface of skeinApi and macSkein. One class
 serves the three sizes, whose code differs in constants only. Every operation is
 tied to the functions of SkeinSpec under the mode Threefish gives.
 */
module Skein {
  import opened Octets
  import opened Words
  import opened Threefish
  import opened SkeinBlock
  import opened SkeinSpec

  lemma ModeWords(s: Size)
    ensures ThreefishMode(s).words == s.words
  {
  }

  /** A step of the mode, with the cipher written out. */
  lemma StepOfMode(s: Size, c: Chain, block: seq<octet>, add: Word)
    requires |c.x| == s.words && |block| == 8 * s.words
    ensures var w := WordsOf(block, s.words); var t0 := Add(c.t0, add);
      Step(ThreefishMode(s), c, block, add)
      == Chain(XorEach(Encrypt(s, c.x, t0, c.t1, w), w), t0, ClearFirst(c.t1))
  {
    hide Encrypt, WordsOf, WellFormed, Add, ClearFirst;
  }

  class SkeinCtx {
    const size: Size
    /** SKEIN_UNROLL_NNN: 0 for the unrolled form, else eight-round steps per pass. */
    const unroll: nat
    const X: array<Word>
    const b: array<octet>
    const XSave: array<Word>
    var bCnt: nat
    var t0: Word
    var t1: Word
    var hashBitLen: uint32

    ghost predicate Valid()
      reads this
    {
      && X.Length == size.words && XSave.Length == size.words && X != XSave
      && b.Length == 8 * size.words
      && bCnt <= b.Length
      && (unroll != 0 ==> Divides(unroll, size.rcnt))
    }

    ghost function Mode(): Mode
    {
      ThreefishMode(size)
    }

    ghost function Chaining(): Chain
      reads this, X
    {
      Chain(X[..], t0, t1)
    }

    ghost function State(): Stream
      requires bCnt <= b.Length
      reads this, X, b
    {
      Stream(Chaining(), b[..bCnt])
    }

    /** Ready for a message under the saved words. */
    ghost predicate Ready()
      reads this, X, XSave
    {
      Valid() && bCnt == 0 && Chaining() == StartType(XSave[..], TYPE_MSG)
    }

    /** Skein_Start_New_Type */
    method StartNewType(blkType: Word)
      requires blkType + FLAG_FIRST < TWO64
      modifies this`t0, this`t1, this`bCnt
      ensures t0 == 0 && t1 == FLAG_FIRST + blkType && bCnt == 0
    {
      t0, t1 := 0, FLAG_FIRST + blkType;
      bCnt := 0;
    }

    /** The rounds of one block, on registers of their own. */
    method RunRounds(R: array<Word>, kw: array<Word>, w: seq<Word>)
      requires Valid() && R.Length == size.words == |w| && R != X && kw != X && R != kw
      requires kw.Length == size.words + 4 + (if unroll == 0 then 0 else 2 * size.rcnt)
      modifies R, kw
      ensures R[..] == Encrypt(size, X[..], old(kw[0]), old(kw[1]), w)
      ensures kw[0] == old(kw[0]) && kw[1] == old(kw[1])
    {
      hide Groups, Loaded, WellFormed, ExtendedKey, ExtendedTweak;
      LoadSchedule(size, kw, X);
      ghost var key, tweak := ExtendedKey(X[..]), ExtendedTweak(kw[0], kw[1]);
      if unroll == 0 {
        RoundsModular(size, R, kw, w, key, tweak);
      } else {
        RoundsLooping(size, R, kw, w, unroll, key, tweak);
      }
    }

    /** The body of the do loop of Skein_NNN_Process_Block. */
    method OneBlock(R: array<Word>, kw: array<Word>, block: seq<octet>, byteCntAdd: Word)
      requires Valid() && R.Length == size.words && |block| == 8 * size.words
      requires kw.Length == size.words + 4 + (if unroll == 0 then 0 else 2 * size.rcnt)
      requires R != X && kw != X && R != kw
      modifies R, kw, X
      ensures Chain(X[..], kw[0], kw[1])
           == Step(Mode(), Chain(old(X[..]), old(kw[0]), old(kw[1])), block, byteCntAdd)
    {
      hide Encrypt, WordsOf, WellFormed, Add, ClearFirst, Step, ThreefishMode;
      ModeWords(size);
      StepOfMode(size, Chain(X[..], kw[0], kw[1]), block, byteCntAdd);
      kw[0] := Add(kw[0], byteCntAdd);
      var w := WordsOf(block, size.words);
      RunRounds(R, kw, w);
      FeedForward(R, w);
      kw[1] := ClearFirst(kw[1]);
    }

    /** Skein_NNN_Process_Block: blkCnt blocks from blkPtr on, each counted as byteCntAdd. */
    method ProcessBlock(blkPtr: seq<octet>, blkCnt: nat, byteCntAdd: Word)
      requires Valid() && blkCnt > 0 && Fits(Mode(), |blkPtr|, blkCnt)
      modifies this`t0, this`t1, X
      ensures Chaining() == Steps(Mode(), old(Chaining()), blkPtr, blkCnt, byteCntAdd)
    {
      hide Step, ThreefishMode, WellFormed;
      ModeWords(size);
      var n := size.words;
      var kw := new Word[n + 4 + (if unroll == 0 then 0 else 2 * size.rcnt)];
      var R := new Word[n];
      kw[0], kw[1] := t0, t1;
      var data, left := blkPtr, blkCnt;
      while left > 0
        invariant Fits(Mode(), |data|, left)
        invariant Steps(Mode(), Chain(X[..], kw[0], kw[1]), data, left, byteCntAdd)
               == Steps(Mode(), old(Chaining()), blkPtr, blkCnt, byteCntAdd)
      {
        OneBlock(R, kw, data[..8 * n], byteCntAdd);
        data, left := data[8 * n..], left - 1;
      }
      t0, t1 := kw[0], kw[1];
    }

    /** ctx->X[i] = Xi ^ w[i] */
    method FeedForward(R: array<Word>, w: seq<Word>)
      requires Valid() && R.Length == size.words == |w| && R != X
      modifies X
      ensures X[..] == XorEach(R[..], w)
    {
      hide XorWord, WellFormed;
      for i := 0 to size.words
        invariant forall k :: 0 <= k < i ==> X[k] == XorWord(R[k], w[k])
      {
        X[i] := XorWord(R[i], w[i]);
      }
    }

    lemma ModeBlocks()
      requires Valid()
      ensures Mode().words == size.words && BlockOctets(Mode()) == 8 * size.words < TWO64
      ensures IsChain(Mode(), Chaining())
    {
      ModeWords(size);
      SizeBounds(size);
    }

    // ---- Absorbing ----

    /** memcpy behind the octets that are pending. */
    method Append(msg: seq<octet>)
      requires Valid() && bCnt + |msg| <= b.Length
      modifies this`bCnt, b
      ensures bCnt == old(bCnt) + |msg| && b[..bCnt] == old(b[..bCnt]) + msg
    {
      forall k | 0 <= k < |msg| {
        b[bCnt + k] := msg[k];
      }
      bCnt := bCnt + |msg|;
      assert b[..bCnt] == b[..old(bCnt)] + b[old(bCnt)..bCnt];
    }

    /** Fill the buffer up from the message and process it: returns what of the message is left. */
    method FinishBuffered(message: seq<octet>) returns (msg: seq<octet>)
      requires Valid() && bCnt > 0 && bCnt + |message| > 8 * size.words
      modifies this`bCnt, this`t0, this`t1, X, b
      ensures Valid() && bCnt == 0
      ensures Absorb(Mode(), Chaining(), msg) == Absorb(Mode(), old(Chaining()), old(b[..bCnt]) + message)
    {
      hide Step, Steps, ThreefishMode, WellFormed, Absorb, Fits, Rest, Mode, BlockOctets;
      ModeBlocks();
      var block := 8 * size.words;
      var n := block - bCnt;
      AbsorbBuffered(Mode(), Chaining(), b[..bCnt], message);
      ghost var full := b[..bCnt] + message[..n];
      msg := message;
      if n > 0 {
        Append(msg[..n]);
        msg := msg[n..];
      }
      assert b[..] == full;
      ProcessBlock(b[..], 1, block);
      bCnt := 0;
    }

    /** Blocks that need no buffering are processed where they lie in the message. */
    method ProcessWhole(message: seq<octet>) returns (msg: seq<octet>)
      requires Valid() && |message| > 8 * size.words
      modifies this`t0, this`t1, X
      ensures |msg| <= 8 * size.words
      ensures Absorb(Mode(), Chaining(), msg) == Absorb(Mode(), old(Chaining()), message)
    {
      hide Step, Steps, ThreefishMode, WellFormed, Absorb, Fits, Rest;
      ModeWords(size);
      SizeBounds(size);
      var block := 8 * size.words;
      var n := (|message| - 1) / block;
      WholeBlocks(|message|, block);
      FitsProduct(Mode(), |message|, n);
      RestProduct(Mode(), message, n);
      AbsorbSteps(Mode(), Chaining(), message, n);
      ProcessBlock(message, n, block);
      msg := message[n * block..];
    }

    /** Skein_NNN_Update: full blocks are processed while at least one octet remains. */
    method Update(message: seq<octet>)
      requires Valid()
      modifies this`bCnt, this`t0, this`t1, X, b
      ensures Valid()
      ensures State() == Absorb(Mode(), old(Chaining()), old(b[..bCnt]) + message)
    {
      hide Step, ThreefishMode, WellFormed, Absorb;
      ModeWords(size);
      var block := 8 * size.words;
      ghost var data := b[..bCnt] + message;
      var msg := message;
      if |msg| + bCnt > block {
        if bCnt > 0 {
          msg := FinishBuffered(msg);
        }
        assert b[..0] + message == message;
        if |msg| > block {
          msg := ProcessWhole(msg);
        }
        assert b[..bCnt] + msg == msg;
      }
      AbsorbShort(Mode(), Chaining(), b[..bCnt] + msg);
      if |msg| > 0 {
        Append(msg);
      }
    }

    // ---- The last block ----

    /** Tag as final, pad with zeros whatever the buffer holds behind bCnt, process. */
    method FinalBlock()
      requires Valid()
      modifies this`t0, this`t1, X, b
      ensures Valid() && Chaining() == Finished(Mode(), old(State()))
    {
      hide Step, ThreefishMode, WellFormed, SetFinal;
      ModeWords(size);
      SizeBounds(size);
      t1 := SetFinal(t1);
      if bCnt < b.Length {
        forall k | bCnt <= k < b.Length {
          b[k] := 0;
        }
      }
      ghost var r := old(State());
      assert b[..] == Padded(Mode(), r.pending);
      assert Chaining() == r.chain.(t1 := SetFinal(r.chain.t1));
      OneStep(Mode(), Chaining(), b[..], bCnt);
      ProcessBlock(b[..], 1, bCnt);
    }

    /** Skein_NNN_Final_Pad: the state octets, without the output stage. */
    method FinalPad() returns (hashVal: seq<octet>)
      requires Valid()
      modifies this`t0, this`t1, X, b
      ensures Valid() && Chaining() == Finished(Mode(), old(State()))
      ensures hashVal == OctetsOf(X[..])
    {
      FinalBlock();
      hashVal := OctetsOf(X[..]);
    }

    /** Counter block i under the final words; the octets behind the counter are zero. */
    method CounterBlock(i: nat, ghost key: seq<Word>)
      requires Valid() && X[..] == key && b[8..] == seq(8 * size.words - 8, _ => 0)
      modifies this`bCnt, this`t0, this`t1, X, b
      ensures Valid() && b[8..] == old(b[8..])
      ensures |key| == Mode().words && OctetsOf(X[..]) == OutputBlock(Mode(), key, i)
    {
      hide Step, ThreefishMode, WellFormed, OctetsOf, ToLittleEndian;
      ModeWords(size);
      SizeBounds(size);
      var counter := ToLittleEndian(i, 8);
      forall k | 0 <= k < 8 {
        b[k] := counter[k];
      }
      assert b[..] == Padded(Mode(), counter);
      StartNewType(TYPE_OUT_FINAL);
      assert Chaining() == StartType(key, TYPE_OUT_FINAL);
      OneStep(Mode(), Chaining(), b[..], 8);
      ProcessBlock(b[..], 1, 8);
    }

    /** Skein_NNN_Final */
    method Final(hashVal: array<octet>)
      requires Valid() && hashVal.Length == ByteCount(hashBitLen) && hashVal != b
      modifies this`bCnt, this`t0, this`t1, X, b, hashVal
      ensures Valid()
      ensures hashVal[..] == Output(Mode(), Finished(Mode(), old(State())).x, ByteCount(hashBitLen))
    {
      hide Step, ThreefishMode, WellFormed, OutputBlock, OctetsOf, OutputOctet, Finished;
      ModeWords(size);
      SizeBounds(size);
      FinalBlock();
      var block := 8 * size.words;
      var byteCnt := (hashBitLen + 7) / 8;
      forall k | 0 <= k < b.Length {
        b[k] := 0;
      }
      var key := X[..];
      assert key == Finished(Mode(), old(State())).x;
      var i, done := 0, 0;
      while done < byteCnt
        invariant done == i * block && X[..] == key && Valid()
        invariant b[8..] == seq(block - 8, _ => 0)
        invariant forall k :: 0 <= k < done && k < byteCnt ==> hashVal[k] == OutputOctet(Mode(), key, k)
        decreases byteCnt - done
      {
        CounterBlock(i, key);
        PutBlock(hashVal, done, i, key);
        CopyWords(X, key);
        i, done := i + 1, done + block;
      }
      assert hashVal[..] == Output(Mode(), key, byteCnt);
    }

    /** Skein_Put64_LSB_First of as many octets as are still wanted. */
    method PutBlock(hashVal: array<octet>, done: nat, i: nat, ghost key: seq<Word>)
      requires Valid() && hashVal != b && |key| == Mode().words
      requires done == i * (8 * size.words) && done < hashVal.Length
      requires OctetsOf(X[..]) == OutputBlock(Mode(), key, i)
      modifies hashVal
      ensures forall k :: 0 <= k < done ==> hashVal[k] == old(hashVal[k])
      ensures forall k :: done <= k < done + 8 * size.words && k < hashVal.Length ==>
                hashVal[k] == OutputOctet(Mode(), key, k)
    {
      hide ThreefishMode, WellFormed, OutputBlock, OctetsOf, OutputOctet;
      ModeWords(size);
      var block := 8 * size.words;
      var n := if hashVal.Length - done >= block then block else hashVal.Length - done;
      var out := OctetsOf(X[..]);
      forall k | 0 <= k < n {
        hashVal[done + k] := out[k];
      }
      forall k | done <= k < done + n ensures hashVal[k] == OutputOctet(Mode(), key, k) {
        BlockIndex(Mode(), key, i, k - done);
        assert hashVal[done + (k - done)] == out[k - done];
      }
    }

    // ---- Keys ----

    /** Skein_NNN_InitExt */
    method InitExt(hashBitLen: uint32, treeInfo: Word, key: seq<octet>)
      requires Valid()
      modifies this`hashBitLen, this`bCnt, this`t0, this`t1, X, b
      ensures Valid() && bCnt == 0 && this.hashBitLen == hashBitLen
      ensures Chaining() == StartType(KeyedStart(Mode(), key, hashBitLen, treeInfo), TYPE_MSG)
    {
      hide Step, ThreefishMode, WellFormed, Absorb, Finished, OctetsOf, WordsOf;
      ModeWords(size);
      SizeBounds(size);
      if key == [] {
        CopyWords(X, Zeros(size.words));
      } else {
        this.hashBitLen := 64 * size.words;
        StartNewType(TYPE_KEY);
        CopyWords(X, Zeros(size.words));
        assert b[..bCnt] + key == key;
        Update(key);
        var cfg := FinalPad();
        WordsBack(X[..]);
        CopyWords(X, WordsOf(cfg, size.words));
      }
      assert X[..] == KeyWords(Mode(), key);
      this.hashBitLen := hashBitLen;
      StartNewType(TYPE_CFG_FINAL);
      assert Chaining() == StartType(KeyWords(Mode(), key), TYPE_CFG_FINAL);
      var cfg := OctetsOf([SCHEMA_VER, hashBitLen, treeInfo] + Zeros(size.words - 3));
      assert cfg == ConfigBlock(Mode(), hashBitLen, treeInfo);
      OneStep(Mode(), Chaining(), cfg, 32);
      ProcessBlock(cfg, 1, 32);
      assert X[..] == KeyedStart(Mode(), key, hashBitLen, treeInfo);
      StartNewType(TYPE_MSG);
    }

    /** The context serves messages under this key. */
    ghost predicate KeyedWith(key: seq<octet>, hashBitLen: uint32)
      reads this, X, XSave
    {
      Ready() && this.hashBitLen == hashBitLen && XSave[..] == MacStart(Mode(), key, hashBitLen)
    }

    /** skeinMacInit: 2 is SKEIN_BAD_HASHLEN. */
    method MacInit(key: seq<octet>, hashBitLen: uint32) returns (code: int)
      requires Valid()
      modifies this`hashBitLen, this`bCnt, this`t0, this`t1, X, b, XSave
      ensures Valid() && code == (if hashBitLen == 0 then 2 else 0)
      ensures code == 0 ==> KeyedWith(key, hashBitLen)
    {
      hide ThreefishMode, WellFormed, KeyedStart;
      ModeWords(size);
      if hashBitLen == 0 {
        return 2;
      }
      InitExt(hashBitLen, TREE_SEQUENTIAL, key);
      CopyWords(XSave, X[..]);
      return 0;
    }

    /** skeinCtxPrepare and skeinMacInit, as createSkeinMacContext runs them. */
    constructor (size: Size, unroll: nat, key: seq<octet>, hashBitLen: uint32)
      requires unroll != 0 ==> Divides(unroll, size.rcnt)
      ensures this.size == size && this.unroll == unroll && Valid()
      ensures fresh(X) && fresh(b) && fresh(XSave)
      ensures hashBitLen > 0 ==> KeyedWith(key, hashBitLen)
    {
      this.size, this.unroll := size, unroll;
      SizeBounds(size);
      X := new Word[size.words](_ => 0);
      XSave := new Word[size.words](_ => 0);
      b := new octet[8 * size.words](_ => 0);
      bCnt, t0, t1 := 0, 0, 0;
      this.hashBitLen := 0;
      new;
      var code := MacInit(key, hashBitLen);
    }

    /** skeinReset: the saved words, a fresh message tweak, nothing pending. */
    method Reset()
      requires Valid()
      modifies this`bCnt, this`t0, this`t1, X
      ensures Ready()
    {
      hide ThreefishMode, WellFormed;
      CopyWords(X, XSave[..]);
      StartNewType(TYPE_MSG);
    }

    /** The loop over the chunks, and skeinFinal. */
    method UpdateAndFinal(data: seq<seq<octet>>, mac: array<octet>, ghost key: seq<octet>)
      requires KeyedWith(key, hashBitLen) && mac.Length == ByteCount(hashBitLen) && mac != b
      modifies this`bCnt, this`t0, this`t1, X, b, mac
      ensures Valid() && XSave[..] == old(XSave[..])
      ensures mac[..] == Mac(Mode(), key, hashBitLen, Concat(data))
    {
      hide ThreefishMode, WellFormed, MacStart, Absorb, Finished, Output;
      ModeWords(size);
      ghost var start := Chaining();
      assert State() == Stream(start, []);
      for i := 0 to |data|
        invariant Valid() && XSave[..] == old(XSave[..])
        invariant State() == AbsorbAll(Mode(), Stream(start, []), data[..i])
      {
        assert data[..i + 1][..i] == data[..i];
        Update(data[i]);
      }
      assert data[..|data|] == data;
      ChunkIndependent(Mode(), start, data);
      Final(mac);
    }

    /**
     macSkeinCtx: the tag of the concatenated chunks under the context's key. The
     context is left as it was found, whatever stays behind in its buffer, so the
     next call computes the tag a freshly keyed context would.
     */
    method MacSkeinCtx(data: seq<seq<octet>>, mac: array<octet>, ghost key: seq<octet>)
      requires KeyedWith(key, hashBitLen) && mac.Length == ByteCount(hashBitLen) && mac != b
      modifies this`bCnt, this`t0, this`t1, X, b, mac
      ensures mac[..] == Mac(Mode(), key, hashBitLen, Concat(data))
      ensures KeyedWith(key, hashBitLen)
    {
      hide ThreefishMode, WellFormed, MacStart, SkeinSpec.Mac;
      UpdateAndFinal(data, mac, key);
      Reset();
    }
  }

  /** memcpy of a state's words. */
  method CopyWords(dst: array<Word>, src: seq<Word>)
    requires dst.Length == |src|
    modifies dst
    ensures dst[..] == src
  {
    forall k | 0 <= k < |src| {
      dst[k] := src[k];
    }
  }

  /** The one-shot macSkein: prepare, key, absorb, finish. */
  method MacSkein(size: Size, unroll: nat, key: seq<octet>, data: seq<seq<octet>>, hashBitLen: uint32)
      returns (mac: array<octet>)
    requires hashBitLen > 0 && (unroll != 0 ==> Divides(unroll, size.rcnt))
    ensures fresh(mac) && mac[..] == Mac(ThreefishMode(size), key, hashBitLen, Concat(data))
  {
    hide ThreefishMode, WellFormed, SkeinSpec.Mac;
    var ctx := new SkeinCtx(size, unroll, key, hashBitLen);
    mac := new octet[ByteCount(hashBitLen)];
    ctx.UpdateAndFinal(data, mac, key);
  }
}
