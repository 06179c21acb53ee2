/**
 The Threefish block cipher inside Skein (section 3.3 of the Skein 1.3
 specification): a reference definition with an explicit inverse, and the two forms
 the block functions of the source take. There the words live in registers that are
 never permuted: each round instead names the registers in a rotated order. The key
 schedule is either read modulo its length or slid through one shared array.
 */
module Threefish {
  import opened Octets
  import opened Words

  function Add(x: Word, y: Word): Word { (x + y) % TWO64 }
  function Sub(x: Word, y: Word): Word { (x - y) % TWO64 }

  function XorWord(x: Word, y: Word): Word {
    Pow2Of64();
    XorBits(x, y, 64)
  }

  type Rotation = n: nat | 0 < n < 64 witness 1

  /** RotL_64: what is shifted out at the top comes back at the bottom. */
  function RotL(x: Word, n: Rotation): Word {
    PowersMeet(n);
    DivBound(x, Pow2(64 - n), Pow2(n));
    x % Pow2(64 - n) * Pow2(n) + x / Pow2(64 - n)
  }

  function RotR(x: Word, n: Rotation): Word {
    RotL(x, 64 - n)
  }

  lemma PowersMeet(n: Rotation)
    ensures Pow2(64 - n) * Pow2(n) == TWO64 && Pow2(n) > 0 && Pow2(64 - n) > 0
  {
    Pow2Sum(64 - n, n);
    Pow2Of64();
    Pow2Positive(n);
    Pow2Positive(64 - n);
    assert 64 - n + n == 64;
  }

  lemma AddSub(x: Word, y: Word)
    ensures Sub(Add(x, y), y) == x && Add(Sub(x, y), y) == x
  {
  }

  lemma XorXor(x: Word, y: Word)
    ensures XorWord(XorWord(x, y), y) == x
  {
    Pow2Of64();
    XorBitsTwice(x, y, 64);
  }

  lemma RotLRotR(x: Word, n: Rotation)
    ensures RotR(RotL(x, n), n) == x
  {
    hide Pow2, RotL;
    var p, q := Pow2(n), Pow2(64 - n);
    PowersMeet(n);
    RotLIs(x, n, p, q);
    assert 64 - (64 - n) == n;
    RotLIs(RotL(x, n), 64 - n, q, p);
    TurnBack(x, p, q);
  }

  lemma TurnBack(x: nat, p: nat, q: nat)
    requires p > 0 && q > 0 && x < q * p
    ensures var y := x % q * p + x / q; y % p * q + y / p == x
  {
    DivBound(x, q, p);
    DivModOf(x % q, x / q, p);
  }

  lemma RotLIs(x: Word, n: Rotation, p: nat, q: nat)
    requires p == Pow2(n) > 0 && q == Pow2(64 - n) > 0
    ensures RotL(x, n) == x % q * p + x / q
  {
    hide Pow2;
  }

  /** A shift left by n; what leaves the 64 bits at the top comes in at the bottom. */
  lemma RotLShifts(x: Word, n: Rotation)
    ensures RotL(x, n) == x * Pow2(n) % TWO64 + x * Pow2(n) / TWO64
  {
    hide Pow2, RotL;
    var p, q := Pow2(n), Pow2(64 - n);
    PowersMeet(n);
    RotLIs(x, n, p, q);
    ShiftOut(x, p, q);
  }

  lemma ShiftOut(x: nat, p: nat, q: nat)
    requires p > 0 && q > 0 && x < q * p
    ensures q * p > 0 && x * p % (q * p) == x % q * p && x * p / (q * p) == x / q
  {
    var h, l := x / q, x % q;
    assert x == h * q + l;
    assert x * p == h * (q * p) + l * p;
    MulOrdered(q - 1 - l, p);
    assert l * p == q * p - p - (q - 1 - l) * p;
    MulOrdered(l, p);
    DivModOf(h, l * p, q * p);
  }

  lemma RotateBack(x: Word, n: Rotation)
    ensures RotR(RotL(x, n), n) == x && RotL(RotR(x, n), n) == x
  {
    RotLRotR(x, n);
    RotLRotR(x, 64 - n);
  }

  // ---- The three block sizes ----

  /**
   `perm` is the word permutation of the specification and `unperm` its inverse;
   `orders` lists, for each of four rounds, the registers the source names.
   */
  datatype Geometry = Geometry(
    words: nat,
    perm: seq<nat>,
    unperm: seq<nat>,
    orders: seq<seq<nat>>,
    rotations: seq<seq<Rotation>>,
    rcnt: nat)

  predicate Inverse(words: nat, p: seq<nat>, q: seq<nat>) {
    && |p| == words == |q|
    && (forall i :: 0 <= i < words ==> p[i] < words && q[p[i]] == i)
    && (forall i :: 0 <= i < words ==> q[i] < words && p[q[i]] == i)
  }

  /** The order of the next round is this round's order read through the permutation. */
  predicate Follows(s: Geometry, order: seq<nat>, next: seq<nat>)
    requires |s.perm| == s.words && (forall i :: 0 <= i < s.words ==> s.perm[i] < s.words)
    requires |order| == s.words == |next|
  {
    forall i :: 0 <= i < s.words ==> next[i] == order[s.perm[i]]
  }

  predicate IsOrder(s: Geometry, order: seq<nat>) {
    && |order| == s.words
    && (forall i :: 0 <= i < s.words ==> order[i] < s.words)
    && (forall i, j :: 0 <= i < j < s.words ==> order[i] != order[j])
  }

  predicate WellFormed(s: Geometry) {
    && 4 <= s.words <= 16 && s.words % 2 == 0 && s.rcnt >= 1 && s.rcnt < 16
    && Inverse(s.words, s.perm, s.unperm)
    && |s.rotations| == 8 && (forall d :: 0 <= d < 8 ==> |s.rotations[d]| == s.words / 2)
    && |s.orders| == 4 && (forall d :: 0 <= d < 4 ==> |s.orders[d]| == s.words)
    && (forall i :: 0 <= i < s.words ==> s.orders[0][i] == i)
    && Follows(s, s.orders[0], s.orders[1])
    && Follows(s, s.orders[1], s.orders[2])
    && Follows(s, s.orders[2], s.orders[3])
    && Follows(s, s.orders[3], s.orders[0])
  }

  const SKEIN256: Geometry := Geometry(4,
    [0, 3, 2, 1],
    [0, 3, 2, 1],
    [[0, 1, 2, 3], [0, 3, 2, 1], [0, 1, 2, 3], [0, 3, 2, 1]],
    [[14, 16], [52, 57], [23, 40], [5, 37], [25, 33], [46, 12], [58, 22], [32, 32]],
    9)

  const SKEIN512: Geometry := Geometry(8,
    [2, 1, 4, 7, 6, 5, 0, 3],
    [6, 1, 0, 7, 2, 5, 4, 3],
    [[0, 1, 2, 3, 4, 5, 6, 7], [2, 1, 4, 7, 6, 5, 0, 3], [4, 1, 6, 3, 0, 5, 2, 7], [6, 1, 0, 7, 2, 5, 4, 3]],
    [[46, 36, 19, 37], [33, 27, 14, 42], [17, 49, 36, 39], [44, 9, 54, 56],
     [39, 30, 34, 24], [13, 50, 10, 17], [25, 29, 39, 43], [8, 35, 56, 22]],
    9)

  const SKEIN1024: Geometry := Geometry(16,
    [0, 9, 2, 13, 6, 11, 4, 15, 10, 7, 12, 3, 14, 5, 8, 1],
    [0, 15, 2, 11, 6, 13, 4, 9, 14, 1, 8, 5, 10, 3, 12, 7],
    [[0, 1, 2, 3, 4, 5, 6, 7, 8, 9, 10, 11, 12, 13, 14, 15],
     [0, 9, 2, 13, 6, 11, 4, 15, 10, 7, 12, 3, 14, 5, 8, 1],
     [0, 7, 2, 5, 4, 3, 6, 1, 12, 15, 14, 13, 8, 11, 10, 9],
     [0, 15, 2, 11, 6, 13, 4, 9, 14, 1, 8, 5, 10, 3, 12, 7]],
    [[24, 13, 8, 47, 8, 17, 22, 37], [38, 19, 10, 55, 49, 18, 23, 52],
     [33, 4, 51, 13, 34, 41, 59, 17], [5, 20, 48, 41, 47, 28, 16, 25],
     [41, 9, 37, 31, 12, 47, 44, 30], [16, 34, 56, 51, 4, 53, 42, 41],
     [31, 44, 47, 46, 19, 42, 44, 25], [9, 48, 35, 52, 23, 31, 37, 20]],
    10)

  /** A block size of the source: 256, 512 or 1024 bits. */
  type Size = g: Geometry | WellFormed(g) witness (Size256(); SKEIN256)

  lemma SizeBounds(s: Size)
    ensures 4 <= s.words <= 16 && s.words % 2 == 0 && 1 <= s.rcnt < 16
  {
  }

  lemma Size256()
    ensures WellFormed(SKEIN256)
  {
  }

  lemma Size512()
    ensures WellFormed(SKEIN512)
  {
    var p, q, o := SKEIN512.perm, SKEIN512.unperm, SKEIN512.orders;
    Below8(p);
    Below8(q);
    Undoes8(p, q);
    Undoes8(q, p);
    Reads8(p, o[0], o[1]);
    Reads8(p, o[1], o[2]);
    Reads8(p, o[2], o[3]);
    Reads8(p, o[3], o[0]);
  }

  lemma Size1024()
    ensures WellFormed(SKEIN1024)
  {
    var p, q, o := SKEIN1024.perm, SKEIN1024.unperm, SKEIN1024.orders;
    Below16(p);
    Below16(q);
    Undoes16(p, q);
    Undoes16(q, p);
    Reads16(p, o[0], o[1]);
    Reads16(p, o[1], o[2]);
    Reads16(p, o[2], o[3]);
    Reads16(p, o[3], o[0]);
  }

  lemma Below8(p: seq<nat>)
    requires |p| == 8
    requires p[0] < 8 && p[1] < 8 && p[2] < 8 && p[3] < 8
    requires p[4] < 8 && p[5] < 8 && p[6] < 8 && p[7] < 8
    ensures forall i :: 0 <= i < 8 ==> p[i] < 8
  {
  }

  lemma Undoes8(p: seq<nat>, q: seq<nat>)
    requires |p| == |q| == 8 && forall i :: 0 <= i < 8 ==> p[i] < 8
    requires q[p[0]] == 0 && q[p[1]] == 1 && q[p[2]] == 2 && q[p[3]] == 3
    requires q[p[4]] == 4 && q[p[5]] == 5 && q[p[6]] == 6 && q[p[7]] == 7
    ensures forall i :: 0 <= i < 8 ==> q[p[i]] == i
  {
  }

  lemma Reads8(p: seq<nat>, o: seq<nat>, n: seq<nat>)
    requires |p| == |o| == |n| == 8 && forall i :: 0 <= i < 8 ==> p[i] < 8
    requires n[0] == o[p[0]] && n[1] == o[p[1]] && n[2] == o[p[2]] && n[3] == o[p[3]]
    requires n[4] == o[p[4]] && n[5] == o[p[5]] && n[6] == o[p[6]] && n[7] == o[p[7]]
    ensures forall i :: 0 <= i < 8 ==> n[i] == o[p[i]]
  {
  }

  lemma Below16(p: seq<nat>)
    requires |p| == 16
    requires p[0] < 16 && p[1] < 16 && p[2] < 16 && p[3] < 16
    requires p[4] < 16 && p[5] < 16 && p[6] < 16 && p[7] < 16
    requires p[8] < 16 && p[9] < 16 && p[10] < 16 && p[11] < 16
    requires p[12] < 16 && p[13] < 16 && p[14] < 16 && p[15] < 16
    ensures forall i :: 0 <= i < 16 ==> p[i] < 16
  {
  }

  lemma Undoes16(p: seq<nat>, q: seq<nat>)
    requires |p| == |q| == 16 && forall i :: 0 <= i < 16 ==> p[i] < 16
    requires q[p[0]] == 0 && q[p[1]] == 1 && q[p[2]] == 2 && q[p[3]] == 3
    requires q[p[4]] == 4 && q[p[5]] == 5 && q[p[6]] == 6 && q[p[7]] == 7
    requires q[p[8]] == 8 && q[p[9]] == 9 && q[p[10]] == 10 && q[p[11]] == 11
    requires q[p[12]] == 12 && q[p[13]] == 13 && q[p[14]] == 14 && q[p[15]] == 15
    ensures forall i :: 0 <= i < 16 ==> q[p[i]] == i
  {
  }

  lemma Reads16(p: seq<nat>, o: seq<nat>, n: seq<nat>)
    requires |p| == |o| == |n| == 16 && forall i :: 0 <= i < 16 ==> p[i] < 16
    requires n[0] == o[p[0]] && n[1] == o[p[1]] && n[2] == o[p[2]] && n[3] == o[p[3]]
    requires n[4] == o[p[4]] && n[5] == o[p[5]] && n[6] == o[p[6]] && n[7] == o[p[7]]
    requires n[8] == o[p[8]] && n[9] == o[p[9]] && n[10] == o[p[10]] && n[11] == o[p[11]]
    requires n[12] == o[p[12]] && n[13] == o[p[13]] && n[14] == o[p[14]] && n[15] == o[p[15]]
    ensures forall i :: 0 <= i < 16 ==> n[i] == o[p[i]]
  {
  }

  // ---- The cipher ----

  /** MIX on every pair of words: (a, b) becomes (a + b, RotL(b) ^ (a + b)). */
  function MixAll(x: seq<Word>, rots: seq<Rotation>): (y: seq<Word>)
    requires |x| == 2 * |rots|
    ensures |y| == |x|
  {
    seq(|x|, i requires 0 <= i < |x| =>
      if i % 2 == 0 then Add(x[i], x[i + 1])
      else XorWord(RotL(x[i], rots[i / 2]), Add(x[i - 1], x[i])))
  }

  function UnmixOdd(y: seq<Word>, rots: seq<Rotation>, i: nat): Word
    requires |y| == 2 * |rots| && i < |y| && i % 2 == 1
  {
    RotR(XorWord(y[i], y[i - 1]), rots[i / 2])
  }

  function UnmixAll(y: seq<Word>, rots: seq<Rotation>): (x: seq<Word>)
    requires |y| == 2 * |rots|
    ensures |x| == |y|
  {
    seq(|y|, i requires 0 <= i < |y| =>
      if i % 2 == 0 then Sub(y[i], UnmixOdd(y, rots, i + 1)) else UnmixOdd(y, rots, i))
  }

  lemma HalfOfPair(j: nat)
    ensures 2 * j / 2 == j && (2 * j + 1) / 2 == j && 2 * j % 2 == 0 && (2 * j + 1) % 2 == 1
  {
  }

  lemma MixAt(x: seq<Word>, rots: seq<Rotation>, j: nat)
    requires |x| == 2 * |rots| && j < |rots|
    ensures MixAll(x, rots)[2 * j] == Add(x[2 * j], x[2 * j + 1])
    ensures MixAll(x, rots)[2 * j + 1] == XorWord(RotL(x[2 * j + 1], rots[j]), Add(x[2 * j], x[2 * j + 1]))
  {
    hide Add, RotL, XorWord;
    HalfOfPair(j);
  }

  lemma UnmixAt(y: seq<Word>, rots: seq<Rotation>, j: nat)
    requires |y| == 2 * |rots| && j < |rots|
    ensures var b := RotR(XorWord(y[2 * j + 1], y[2 * j]), rots[j]);
      UnmixAll(y, rots)[2 * j + 1] == b && UnmixAll(y, rots)[2 * j] == Sub(y[2 * j], b)
  {
    hide Sub, RotR, XorWord;
    HalfOfPair(j);
  }

  lemma UnmixMixPair(x: seq<Word>, rots: seq<Rotation>, j: nat)
    requires |x| == 2 * |rots| && j < |rots|
    ensures var z := UnmixAll(MixAll(x, rots), rots); z[2 * j] == x[2 * j] && z[2 * j + 1] == x[2 * j + 1]
  {
    hide Add, Sub, RotL, RotR, XorWord, MixAll, UnmixAll;
    var a, b, n := x[2 * j], x[2 * j + 1], rots[j];
    MixAt(x, rots, j);
    UnmixAt(MixAll(x, rots), rots, j);
    XorXor(RotL(b, n), Add(a, b));
    RotateBack(b, n);
    AddSub(a, b);
  }

  lemma MixUnmixPair(y: seq<Word>, rots: seq<Rotation>, j: nat)
    requires |y| == 2 * |rots| && j < |rots|
    ensures var z := MixAll(UnmixAll(y, rots), rots); z[2 * j] == y[2 * j] && z[2 * j + 1] == y[2 * j + 1]
  {
    hide Add, Sub, RotL, RotR, XorWord, MixAll, UnmixAll;
    var x := UnmixAll(y, rots);
    var c, d, n := y[2 * j], y[2 * j + 1], rots[j];
    UnmixAt(y, rots, j);
    MixAt(x, rots, j);
    AddSub(c, x[2 * j + 1]);
    RotateBack(XorWord(d, c), n);
    XorXor(d, c);
  }

  lemma PairsAgree(x: seq<Word>, z: seq<Word>, n: nat)
    requires |x| == |z| == 2 * n
    requires forall j :: 0 <= j < n ==> z[2 * j] == x[2 * j] && z[2 * j + 1] == x[2 * j + 1]
    ensures z == x
  {
    forall i | 0 <= i < |x| ensures z[i] == x[i] {
      assert i == 2 * (i / 2) || i == 2 * (i / 2) + 1;
    }
  }

  lemma MixInverse(x: seq<Word>, rots: seq<Rotation>)
    requires |x| == 2 * |rots|
    ensures UnmixAll(MixAll(x, rots), rots) == x && MixAll(UnmixAll(x, rots), rots) == x
  {
    hide MixAll, UnmixAll;
    var y, z := UnmixAll(MixAll(x, rots), rots), MixAll(UnmixAll(x, rots), rots);
    forall j | 0 <= j < |rots|
      ensures y[2 * j] == x[2 * j] && y[2 * j + 1] == x[2 * j + 1]
      ensures z[2 * j] == x[2 * j] && z[2 * j + 1] == x[2 * j + 1]
    {
      UnmixMixPair(x, rots, j);
      MixUnmixPair(x, rots, j);
    }
    PairsAgree(x, y, |rots|);
    PairsAgree(x, z, |rots|);
  }

  function Through(x: seq<Word>, p: seq<nat>): (y: seq<Word>)
    requires forall i :: 0 <= i < |p| ==> p[i] < |x|
    ensures |y| == |p|
  {
    seq(|p|, i requires 0 <= i < |p| => x[p[i]])
  }

  lemma ThroughInverse(x: seq<Word>, p: seq<nat>, q: seq<nat>)
    requires Inverse(|x|, p, q)
    ensures Through(Through(x, p), q) == x && Through(Through(x, q), p) == x
  {
  }

  /** A round: MIX, then the word permutation. */
  function Round(s: Size, x: seq<Word>, d: nat): (y: seq<Word>)
    requires |x| == s.words && d < 8
    ensures |y| == |x|
  {
    Through(MixAll(x, s.rotations[d]), s.perm)
  }

  function Unround(s: Size, y: seq<Word>, d: nat): (x: seq<Word>)
    requires |y| == s.words && d < 8
    ensures |x| == |y|
  {
    UnmixAll(Through(y, s.unperm), s.rotations[d])
  }

  lemma RoundInverse(s: Size, x: seq<Word>, d: nat)
    requires |x| == s.words && d < 8
    ensures Unround(s, Round(s, x, d), d) == x && Round(s, Unround(s, x, d), d) == x
  {
    hide MixAll, UnmixAll, Through;
    MixInverse(x, s.rotations[d]);
    ThroughInverse(MixAll(x, s.rotations[d]), s.perm, s.unperm);
    MixInverse(Through(x, s.unperm), s.rotations[d]);
    ThroughInverse(x, s.perm, s.unperm);
  }

  /** The rotation table has eight rows, used four at a time. */
  function FourRounds(s: Size, x: seq<Word>, base: nat): (y: seq<Word>)
    requires |x| == s.words && base <= 4
    ensures |y| == |x|
  {
    Round(s, Round(s, Round(s, Round(s, x, base), base + 1), base + 2), base + 3)
  }

  function FourUnrounds(s: Size, y: seq<Word>, base: nat): (x: seq<Word>)
    requires |y| == s.words && base <= 4
    ensures |x| == |y|
  {
    Unround(s, Unround(s, Unround(s, Unround(s, y, base + 3), base + 2), base + 1), base)
  }

  lemma FourRoundsInverse(s: Size, x: seq<Word>, base: nat)
    requires |x| == s.words && base <= 4
    ensures FourUnrounds(s, FourRounds(s, x, base), base) == x
    ensures FourRounds(s, FourUnrounds(s, x, base), base) == x
  {
    hide Round, Unround;
    var a := Round(s, x, base);
    var b := Round(s, a, base + 1);
    var c := Round(s, b, base + 2);
    RoundInverse(s, x, base);
    RoundInverse(s, a, base + 1);
    RoundInverse(s, b, base + 2);
    RoundInverse(s, c, base + 3);
    var e := Unround(s, x, base + 3);
    var f := Unround(s, e, base + 2);
    var g := Unround(s, f, base + 1);
    RoundInverse(s, x, base + 3);
    RoundInverse(s, e, base + 2);
    RoundInverse(s, f, base + 1);
    RoundInverse(s, g, base);
  }

  // ---- The key schedule ----

  const KS_PARITY: Word := 0x1BD11BDA_A9FC1A22

  function XorFold(x: seq<Word>): Word {
    if x == [] then KS_PARITY else XorWord(XorFold(x[..|x| - 1]), x[|x| - 1])
  }

  /** The key words and their parity word; the tweak words and their exclusive or. */
  function ExtendedKey(key: seq<Word>): (k: seq<Word>)
    ensures |k| == |key| + 1
  {
    key + [XorFold(key)]
  }

  function ExtendedTweak(t0: Word, t1: Word): (t: seq<Word>)
    ensures |t| == 3
  {
    [t0, t1, XorWord(t0, t1)]
  }

  predicate IsSchedule(s: Size, key: seq<Word>, tweak: seq<Word>) {
    |key| == s.words + 1 && |tweak| == 3
  }

  /** Word i of subkey j. */
  function SubkeyWord(s: Size, key: seq<Word>, tweak: seq<Word>, j: nat, i: nat): Word
    requires IsSchedule(s, key, tweak) && i < s.words && j < TWO64
  {
    var k := key[(j + i) % (s.words + 1)];
    if i == s.words - 3 then Add(k, tweak[j % 3])
    else if i == s.words - 2 then Add(k, tweak[(j + 1) % 3])
    else if i == s.words - 1 then Add(k, j)
    else k
  }

  function AddSubkey(s: Size, key: seq<Word>, tweak: seq<Word>, x: seq<Word>, j: nat): (y: seq<Word>)
    requires IsSchedule(s, key, tweak) && |x| == s.words && j < TWO64
    ensures |y| == |x|
  {
    seq(|x|, i requires 0 <= i < |x| => Add(x[i], SubkeyWord(s, key, tweak, j, i)))
  }

  function SubSubkey(s: Size, key: seq<Word>, tweak: seq<Word>, y: seq<Word>, j: nat): (x: seq<Word>)
    requires IsSchedule(s, key, tweak) && |y| == s.words && j < TWO64
    ensures |x| == |y|
  {
    seq(|y|, i requires 0 <= i < |y| => Sub(y[i], SubkeyWord(s, key, tweak, j, i)))
  }

  lemma SubkeyInverse(s: Size, key: seq<Word>, tweak: seq<Word>, x: seq<Word>, j: nat)
    requires IsSchedule(s, key, tweak) && |x| == s.words && j < TWO64
    ensures SubSubkey(s, key, tweak, AddSubkey(s, key, tweak, x, j), j) == x
    ensures AddSubkey(s, key, tweak, SubSubkey(s, key, tweak, x, j), j) == x
  {
    hide Add, Sub, SubkeyWord;
    forall i | 0 <= i < |x|
      ensures SubSubkey(s, key, tweak, AddSubkey(s, key, tweak, x, j), j)[i] == x[i]
      ensures AddSubkey(s, key, tweak, SubSubkey(s, key, tweak, x, j), j)[i] == x[i]
    {
      AddSub(x[i], SubkeyWord(s, key, tweak, j, i));
    }
  }

  /** Subkey 0, then n times: four rounds, a subkey, the other four rounds, a subkey. */
  function Groups(s: Size, key: seq<Word>, tweak: seq<Word>, x: seq<Word>, n: nat): (y: seq<Word>)
    requires IsSchedule(s, key, tweak) && |x| == s.words && n < 16
    ensures |y| == |x|
    decreases n
  {
    if n == 0 then AddSubkey(s, key, tweak, x, 0)
    else EightRounds(s, key, tweak, Groups(s, key, tweak, x, n - 1), n)
  }

  function EightRounds(s: Size, key: seq<Word>, tweak: seq<Word>, x: seq<Word>, n: nat): (y: seq<Word>)
    requires IsSchedule(s, key, tweak) && |x| == s.words && 1 <= n < 16
    ensures |y| == |x|
  {
    var half := AddSubkey(s, key, tweak, FourRounds(s, x, 0), 2 * n - 1);
    AddSubkey(s, key, tweak, FourRounds(s, half, 4), 2 * n)
  }

  function Uneight(s: Size, key: seq<Word>, tweak: seq<Word>, y: seq<Word>, n: nat): (x: seq<Word>)
    requires IsSchedule(s, key, tweak) && |y| == s.words && 1 <= n < 16
    ensures |x| == |y|
  {
    var half := FourUnrounds(s, SubSubkey(s, key, tweak, y, 2 * n), 4);
    FourUnrounds(s, SubSubkey(s, key, tweak, half, 2 * n - 1), 0)
  }

  function Ungroups(s: Size, key: seq<Word>, tweak: seq<Word>, y: seq<Word>, n: nat): (x: seq<Word>)
    requires IsSchedule(s, key, tweak) && |y| == s.words && n < 16
    ensures |x| == |y|
    decreases n
  {
    if n == 0 then SubSubkey(s, key, tweak, y, 0)
    else Ungroups(s, key, tweak, Uneight(s, key, tweak, y, n), n - 1)
  }

  lemma EightInverse(s: Size, key: seq<Word>, tweak: seq<Word>, x: seq<Word>, n: nat)
    requires IsSchedule(s, key, tweak) && |x| == s.words && 1 <= n < 16
    ensures Uneight(s, key, tweak, EightRounds(s, key, tweak, x, n), n) == x
    ensures EightRounds(s, key, tweak, Uneight(s, key, tweak, x, n), n) == x
  {
    hide FourRounds, FourUnrounds, AddSubkey, SubSubkey;
    var a := FourRounds(s, x, 0);
    var b := AddSubkey(s, key, tweak, a, 2 * n - 1);
    FourRoundsInverse(s, x, 0);
    SubkeyInverse(s, key, tweak, a, 2 * n - 1);
    FourRoundsInverse(s, b, 4);
    SubkeyInverse(s, key, tweak, FourRounds(s, b, 4), 2 * n);
    var c := SubSubkey(s, key, tweak, x, 2 * n);
    var d := FourUnrounds(s, c, 4);
    SubkeyInverse(s, key, tweak, x, 2 * n);
    FourRoundsInverse(s, c, 4);
    SubkeyInverse(s, key, tweak, d, 2 * n - 1);
    FourRoundsInverse(s, SubSubkey(s, key, tweak, d, 2 * n - 1), 0);
  }

  lemma {:induction false} GroupsInverse(s: Size, key: seq<Word>, tweak: seq<Word>, x: seq<Word>, n: nat)
    requires IsSchedule(s, key, tweak) && |x| == s.words && n < 16
    ensures Ungroups(s, key, tweak, Groups(s, key, tweak, x, n), n) == x
    ensures Groups(s, key, tweak, Ungroups(s, key, tweak, x, n), n) == x
    decreases n
  {
    hide EightRounds, Uneight, AddSubkey, SubSubkey;
    if n == 0 {
      SubkeyInverse(s, key, tweak, x, 0);
    } else {
      EightInverse(s, key, tweak, Groups(s, key, tweak, x, n - 1), n);
      GroupsInverse(s, key, tweak, x, n - 1);
      EightInverse(s, key, tweak, x, n);
      GroupsInverse(s, key, tweak, Uneight(s, key, tweak, x, n), n - 1);
    }
  }

  function Encrypt(s: Size, key: seq<Word>, t0: Word, t1: Word, x: seq<Word>): (y: seq<Word>)
    requires |key| == |x| == s.words
    ensures |y| == |x|
  {
    Groups(s, ExtendedKey(key), ExtendedTweak(t0, t1), x, s.rcnt)
  }

  function Decrypt(s: Size, key: seq<Word>, t0: Word, t1: Word, y: seq<Word>): (x: seq<Word>)
    requires |key| == |y| == s.words
    ensures |x| == |y|
  {
    Ungroups(s, ExtendedKey(key), ExtendedTweak(t0, t1), y, s.rcnt)
  }

  /** For every key and tweak the transform before the feedforward is a bijection. */
  lemma EncryptBijective(s: Size, key: seq<Word>, t0: Word, t1: Word, x: seq<Word>)
    requires |key| == |x| == s.words
    ensures Decrypt(s, key, t0, t1, Encrypt(s, key, t0, t1, x)) == x
    ensures Encrypt(s, key, t0, t1, Decrypt(s, key, t0, t1, x)) == x
  {
    GroupsInverse(s, ExtendedKey(key), ExtendedTweak(t0, t1), x, s.rcnt);
  }
}
