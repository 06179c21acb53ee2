/**
 The block functions of Skein as the source runs them, for all three sizes: rounds
 on registers named in rotating orders, and the key schedule in its two forms. Both
 forms are proved to compute Threefish.Groups. `kw` holds the tweak words from cell
 0 on and the key words from cell 3 on, as the macros ts and ks say.
 */
module SkeinBlock {
  import opened Octets
  import opened Words
  import opened Threefish

  // ---- Rounds without permuting ----

  lemma OrdersInjective(s: Size, d: nat)
    requires d < 4
    ensures IsOrder(s, s.orders[d])
  {
    if d > 0 {
      OrdersInjective(s, d - 1);
      assert Follows(s, s.orders[d - 1], s.orders[d]);
      var p, q, prev, order := s.perm, s.unperm, s.orders[d - 1], s.orders[d];
      forall i, j | 0 <= i < j < s.words ensures order[i] != order[j] {
        assert q[p[i]] == i && q[p[j]] == j;
      }
      forall i | 0 <= i < s.words ensures order[i] < s.words {
        assert order[i] == prev[p[i]];
      }
    }
  }

  /** RoundNNN: the pairs of the order, one behind the other, each mixed in place. */
  method RoundInPlace(s: Size, X: array<Word>, order: seq<nat>, rots: seq<Rotation>)
    requires IsOrder(s, order) && X.Length == s.words == 2 * |rots|
    modifies X
    ensures Through(X[..], order) == MixAll(Through(old(X[..]), order), rots)
  {
    hide Add, RotL, XorWord, MixAll;
    ghost var g := Through(X[..], order);
    ghost var m := MixAll(g, rots);
    for j := 0 to |rots|
      invariant forall i :: 0 <= i < 2 * j ==> X[order[i]] == m[i]
      invariant forall i :: 2 * j <= i < s.words ==> X[order[i]] == g[i]
    {
      MixAt(g, rots, j);
      var a, b := order[2 * j], order[2 * j + 1];
      X[a] := Add(X[a], X[b]);
      X[b] := RotL(X[b], rots[j]);
      X[b] := XorWord(X[b], X[a]);
    }
  }

  /** Naming the registers in the next order is permuting what this order names. */
  lemma NextOrder(s: Size, x: seq<Word>, order: seq<nat>, next: seq<nat>)
    requires |x| == s.words && IsOrder(s, order) && IsOrder(s, next) && Follows(s, order, next)
    ensures Through(x, next) == Through(Through(x, order), s.perm)
  {
  }

  lemma FirstOrder(s: Size, x: seq<Word>)
    requires |x| == s.words
    ensures IsOrder(s, s.orders[0]) && Through(x, s.orders[0]) == x
  {
  }

  /** After four rounds every word is back in its own register. */
  method FourRoundsInPlace(s: Size, X: array<Word>, base: nat)
    requires X.Length == s.words && base <= 4
    modifies X
    ensures X[..] == FourRounds(s, old(X[..]), base)
  {
    hide MixAll, Through, WellFormed, IsOrder, Follows;
    OrdersAndRows(s, base);
    ghost var x0 := X[..];
    FirstOrder(s, x0);
    RoundInPlace(s, X, s.orders[0], s.rotations[base]);
    NextOrder(s, X[..], s.orders[0], s.orders[1]);
    RoundInPlace(s, X, s.orders[1], s.rotations[base + 1]);
    NextOrder(s, X[..], s.orders[1], s.orders[2]);
    RoundInPlace(s, X, s.orders[2], s.rotations[base + 2]);
    NextOrder(s, X[..], s.orders[2], s.orders[3]);
    RoundInPlace(s, X, s.orders[3], s.rotations[base + 3]);
    NextOrder(s, X[..], s.orders[3], s.orders[0]);
    FirstOrder(s, X[..]);
  }

  lemma OrdersAndRows(s: Size, base: nat)
    requires base <= 4
    ensures |s.orders| == 4 && |s.rotations| == 8 && |s.perm| == s.words
    ensures forall d :: 0 <= d < 4 ==> IsOrder(s, s.orders[d])
    ensures forall d :: 0 <= d < 8 ==> 2 * |s.rotations[d]| == s.words
    ensures forall i :: 0 <= i < s.words ==> s.perm[i] < s.words
    ensures Follows(s, s.orders[0], s.orders[1]) && Follows(s, s.orders[1], s.orders[2])
    ensures Follows(s, s.orders[2], s.orders[3]) && Follows(s, s.orders[3], s.orders[0])
  {
    OrdersInjective(s, 0);
    OrdersInjective(s, 1);
    OrdersInjective(s, 2);
    OrdersInjective(s, 3);
  }

  // ---- The schedule array ----

  /** Cells 0 to 2 and 3 to words + 3 hold the extended tweak and key. */
  predicate Loaded(s: Size, kw: seq<Word>, key: seq<Word>, tweak: seq<Word>) {
    && IsSchedule(s, key, tweak)
    && |kw| >= s.words + 4
    && kw[0..3] == tweak
    && kw[3..3 + s.words + 1] == key
  }

  /** Fill the schedule array: the key with its parity word, the tweak with its own. */
  method LoadSchedule(s: Size, kw: array<Word>, X: array<Word>)
    requires X.Length == s.words && kw.Length >= s.words + 4 && kw != X
    modifies kw
    ensures kw[0] == old(kw[0]) && kw[1] == old(kw[1])
    ensures Loaded(s, kw[..], ExtendedKey(X[..]), ExtendedTweak(kw[0], kw[1]))
  {
    hide XorWord;
    var parity := KS_PARITY;
    for i := 0 to s.words
      invariant kw[0] == old(kw[0]) && kw[1] == old(kw[1])
      invariant kw[3..3 + i] == X[..i]
      invariant parity == XorFold(X[..i])
    {
      kw[3 + i] := X[i];
      parity := XorWord(parity, X[i]);
      assert X[..i + 1][..i] == X[..i];
    }
    kw[3 + s.words] := parity;
    kw[2] := XorWord(kw[0], kw[1]);
    assert X[..s.words] == X[..];
  }

  // ---- The modular form ----

  lemma LoadedSize(s: Size, kw: seq<Word>, key: seq<Word>, tweak: seq<Word>)
    requires Loaded(s, kw, key, tweak)
    ensures |kw| >= s.words + 4 && IsSchedule(s, key, tweak)
  {
    hide WellFormed;
  }

  lemma LoadedReads(s: Size, kw: seq<Word>, key: seq<Word>, tweak: seq<Word>, k: nat, t: nat)
    requires Loaded(s, kw, key, tweak) && k <= s.words && t < 3
    ensures kw[3 + k] == key[k] && kw[t] == tweak[t]
  {
    hide WellFormed;
    assert kw[3 + k] == kw[3..3 + s.words + 1][k] && kw[t] == kw[0..3][t];
  }

  /** InnnR unrolled: subkey r + 1, the words read modulo words + 1 and modulo 3. */
  method InjectModular(s: Size, X: array<Word>, kw: array<Word>, r: nat,
                       ghost key: seq<Word>, ghost tweak: seq<Word>)
    requires Loaded(s, kw[..], key, tweak) && X.Length == s.words && X != kw && r + 1 < TWO64
    modifies X
    ensures X[..] == AddSubkey(s, key, tweak, old(X[..]), r + 1)
  {
    hide Add, WellFormed, Loaded;
    LoadedSize(s, kw[..], key, tweak);
    for i := 0 to s.words
      invariant forall k :: 0 <= k < i ==> X[k] == Add(old(X[k]), SubkeyWord(s, key, tweak, r + 1, k))
      invariant forall k :: i <= k < s.words ==> X[k] == old(X[k])
    {
      var k, t, u := (r + 1 + i) % (s.words + 1), (r + 1) % 3, (r + 2) % 3;
      LoadedReads(s, kw[..], key, tweak, k, t);
      LoadedReads(s, kw[..], key, tweak, k, u);
      X[i] := Add(X[i],
        if i == s.words - 3 then Add(kw[3 + k], kw[t])
        else if i == s.words - 2 then Add(kw[3 + k], kw[u])
        else if i == s.words - 1 then Add(kw[3 + k], r + 1)
        else kw[3 + k]);
    }
  }

  /** The first full injection: subkey 0, straight from the input words. */
  method FirstInjection(s: Size, X: array<Word>, w: seq<Word>, kw: array<Word>,
                        ghost key: seq<Word>, ghost tweak: seq<Word>)
    requires Loaded(s, kw[..], key, tweak) && X.Length == s.words == |w| && X != kw
    modifies X
    ensures X[..] == AddSubkey(s, key, tweak, w, 0)
  {
    hide Add, WellFormed, SubkeyWord;
    for i := 0 to s.words
      invariant forall k :: 0 <= k < i ==> X[k] == Add(w[k], SubkeyWord(s, key, tweak, 0, k))
    {
      assert kw[3 + i] == kw[..][3..3 + s.words + 1][i];
      assert kw[0] == kw[..][0..3][0] && kw[1] == kw[..][0..3][1];
      Subkey0(s, key, tweak, i);
      X[i] := Add(w[i],
        if i == s.words - 3 then Add(kw[3 + i], kw[0])
        else if i == s.words - 2 then Add(kw[3 + i], kw[1])
        else kw[3 + i]);
    }
  }

  lemma Subkey0(s: Size, key: seq<Word>, tweak: seq<Word>, i: nat)
    requires IsSchedule(s, key, tweak) && i < s.words
    ensures SubkeyWord(s, key, tweak, 0, i) ==
      if i == s.words - 3 then Add(key[i], tweak[0])
      else if i == s.words - 2 then Add(key[i], tweak[1])
      else key[i]
  {
    SmallMod(i, s.words + 1);
  }

  lemma SmallMod(x: nat, n: nat)
    requires x < n
    ensures x % n == x
  {
  }

  lemma NoRounds(s: Size, key: seq<Word>, tweak: seq<Word>, w: seq<Word>)
    requires IsSchedule(s, key, tweak) && |w| == s.words
    ensures Groups(s, key, tweak, w, 0) == AddSubkey(s, key, tweak, w, 0)
  {
  }

  method RoundsModular(s: Size, X: array<Word>, kw: array<Word>, w: seq<Word>,
                       ghost key: seq<Word>, ghost tweak: seq<Word>)
    requires Loaded(s, kw[..], key, tweak) && X.Length == s.words == |w| && X != kw
    modifies X
    ensures X[..] == Groups(s, key, tweak, w, s.rcnt)
  {
    hide AddSubkey, FourRounds;
    NoRounds(s, key, tweak, w);
    FirstInjection(s, X, w, kw, key, tweak);
    for r := 0 to s.rcnt
      invariant X[..] == Groups(s, key, tweak, w, r)
    {
      FourRoundsInPlace(s, X, 0);
      InjectModular(s, X, kw, 2 * r, key, tweak);
      FourRoundsInPlace(s, X, 4);
      InjectModular(s, X, kw, 2 * r + 1, key, tweak);
    }
  }

  // ---- The looping form ----

  /**
   Before injection j the cells from j - 1 on hold three tweak words and, right
   behind them, words + 1 key words: both windows have slid by j - 1.
   */
  predicate Window(s: Size, kw: seq<Word>, key: seq<Word>, tweak: seq<Word>, j: nat) {
    && IsSchedule(s, key, tweak) && j >= 1
    && j + 3 + s.words <= |kw|
    && (forall c :: j - 1 <= c < j + 2 ==> kw[c] == tweak[c % 3])
    && (forall c :: j + 2 <= c < j + 3 + s.words ==> kw[c] == key[(c - 3) % (s.words + 1)])
  }

  lemma WindowFacts(s: Size, kw: seq<Word>, key: seq<Word>, tweak: seq<Word>, j: nat)
    requires Window(s, kw, key, tweak, j)
    ensures IsSchedule(s, key, tweak) && j >= 1
  {
  }

  lemma LoadedFacts(s: Size, kw: seq<Word>, key: seq<Word>, tweak: seq<Word>)
    requires Loaded(s, kw, key, tweak)
    ensures IsSchedule(s, key, tweak) && s.rcnt < 16 && Window(s, kw, key, tweak, 1)
  {
    LoadedIsWindow(s, kw, key, tweak);
  }

  lemma LoadedIsWindow(s: Size, kw: seq<Word>, key: seq<Word>, tweak: seq<Word>)
    requires Loaded(s, kw, key, tweak)
    ensures Window(s, kw, key, tweak, 1)
  {
    hide WellFormed;
    forall c | 0 <= c < 3 ensures kw[c] == tweak[c % 3] {
      assert kw[c] == kw[0..3][c];
    }
    forall c | 3 <= c < 4 + s.words ensures kw[c] == key[(c - 3) % (s.words + 1)] {
      var k := kw[3..3 + s.words + 1];
      assert kw[c] == k[c - 3];
      SmallMod(c - 3, s.words + 1);
    }
  }

  /** What the source's window reads are, in terms of the original words. */
  lemma WindowReads(s: Size, kw: seq<Word>, key: seq<Word>, tweak: seq<Word>, j: nat, k: nat)
    requires Window(s, kw, key, tweak, j) && k < s.words
    ensures kw[3 + j + k] == key[(j + k) % (s.words + 1)]
    ensures kw[j] == tweak[j % 3] && kw[j + 1] == tweak[(j + 1) % 3]
  {
  }

  /** The two rotating writes, in the source's order; their cells overlap. */
  lemma WindowSlides(s: Size, kw: seq<Word>, key: seq<Word>, tweak: seq<Word>, j: nat)
    requires Window(s, kw, key, tweak, j) && j + 4 + s.words <= |kw|
    ensures var a := kw[3 + j + s.words := kw[3 + j - 1]];
      Window(s, a[j + 2 := a[j - 1]], key, tweak, j + 1)
  {
    hide WellFormed;
    var n := s.words + 1;
    var a := kw[3 + j + s.words := kw[3 + j - 1]];
    var b := a[j + 2 := a[j - 1]];
    assert b[j + 2] == kw[j - 1] == tweak[(j - 1) % 3];
    assert (j + 2) % 3 == (j - 1) % 3;
    assert b[j + 3 + s.words] == kw[j + 2] == key[(j - 1) % n];
    ModAdd(j - 1, n);
    forall c | j + 3 <= c < j + 4 + s.words ensures b[c] == key[(c - 3) % n] {
      if c < j + 3 + s.words {
        assert b[c] == kw[c];
      }
    }
  }

  lemma ModAdd(x: nat, n: nat)
    requires n > 0
    ensures (x + n) % n == x % n
  {
    DivModOf(x / n + 1, x % n, n);
    assert (x / n + 1) * n + x % n == x + n;
  }

  /** InnnR looping: subkey j from the window, then both windows slide by one cell. */
  method InjectLooping(s: Size, X: array<Word>, kw: array<Word>, j: nat,
                       ghost key: seq<Word>, ghost tweak: seq<Word>)
    requires Window(s, kw[..], key, tweak, j) && j + 4 + s.words <= kw.Length
    requires X.Length == s.words && X != kw && j < TWO64
    modifies X, kw
    ensures X[..] == AddSubkey(s, key, tweak, old(X[..]), j)
    ensures Window(s, kw[..], key, tweak, j + 1)
    ensures kw[..j + 2] == old(kw[..j + 2])
  {
    hide Add, WellFormed, Window;
    WindowFacts(s, kw[..], key, tweak, j);
    for i := 0 to s.words
      invariant kw[..] == old(kw[..])
      invariant forall k :: 0 <= k < i ==> X[k] == Add(old(X[k]), SubkeyWord(s, key, tweak, j, k))
      invariant forall k :: i <= k < s.words ==> X[k] == old(X[k])
    {
      WindowReads(s, kw[..], key, tweak, j, i);
      assert kw[..][3 + j + i] == kw[3 + j + i] && kw[..][j] == kw[j] && kw[..][j + 1] == kw[j + 1];
      X[i] := Add(X[i],
        if i == s.words - 3 then Add(kw[3 + j + i], kw[j])
        else if i == s.words - 2 then Add(kw[3 + j + i], kw[j + 1])
        else if i == s.words - 1 then Add(kw[3 + j + i], j)
        else kw[3 + j + i]);
    }
    WindowSlides(s, kw[..], key, tweak, j);
    kw[3 + j + s.words] := kw[3 + j - 1];
    kw[j + 2] := kw[j - 1];
  }

  /** RNNN_8_rounds: two groups of four rounds and injections j and j + 1. */
  method EightRoundsLooping(s: Size, X: array<Word>, kw: array<Word>, j: nat,
                            ghost w: seq<Word>, ghost key: seq<Word>, ghost tweak: seq<Word>, ghost half: nat)
    requires Window(s, kw[..], key, tweak, j) && kw.Length == s.words + 4 + 2 * s.rcnt
    requires X.Length == s.words == |w| && X != kw
    requires j == 2 * half + 1 && half < s.rcnt
    requires X[..] == Groups(s, key, tweak, w, half)
    modifies X, kw
    ensures Window(s, kw[..], key, tweak, j + 2)
    ensures X[..] == Groups(s, key, tweak, w, half + 1)
    ensures kw[0] == old(kw[0]) && kw[1] == old(kw[1])
  {
    hide AddSubkey, FourRounds, Window, WellFormed, IsSchedule;
    WindowFacts(s, kw[..], key, tweak, j);
    SizeBounds(s);
    ghost var k0, k1 := kw[..j + 2][0], kw[..j + 2][1];
    FourRoundsInPlace(s, X, 0);
    InjectLooping(s, X, kw, j, key, tweak);
    assert kw[..j + 2][0] == k0 && kw[..j + 2][1] == k1;
    label Middle:
    FourRoundsInPlace(s, X, 4);
    InjectLooping(s, X, kw, j + 1, key, tweak);
    assert kw[..j + 3][0] == old@Middle(kw[..j + 3])[0] && kw[..j + 3][1] == old@Middle(kw[..j + 3])[1];
  }

  /**
   The loop over r with `unroll` times eight rounds in its body. No write leaves the
   array, and cells 0 and 1, which carry the tweak to the next block, are kept.
   */
  method RoundsLooping(s: Size, X: array<Word>, kw: array<Word>, w: seq<Word>, unroll: nat,
                       ghost key: seq<Word>, ghost tweak: seq<Word>)
    requires Loaded(s, kw[..], key, tweak) && kw.Length == s.words + 4 + 2 * s.rcnt
    requires X.Length == s.words == |w| && X != kw
    requires Divides(unroll, s.rcnt)
    modifies X, kw
    ensures X[..] == Groups(s, key, tweak, w, s.rcnt)
    ensures kw[0] == old(kw[0]) && kw[1] == old(kw[1])
  {
    hide Groups, AddSubkey, Window, Loaded, WellFormed, IsSchedule, Divides;
    LoadedFacts(s, kw[..], key, tweak);
    NoRounds(s, key, tweak, w);
    DividesFacts(s.rcnt, unroll);
    FirstInjection(s, X, w, kw, key, tweak);
    var r := 1;
    ghost var half := 0;
    while if s.words == 16 then r <= 2 * s.rcnt else r < 2 * s.rcnt
      invariant r == 2 * half + 1 && half <= s.rcnt && Divides(unroll, half)
      invariant kw[0] == old(kw[0]) && kw[1] == old(kw[1])
      invariant Window(s, kw[..], key, tweak, r)
      invariant X[..] == Groups(s, key, tweak, w, half)
      decreases s.rcnt - half
    {
      StepsDivide(s.rcnt, unroll, half);
      for R := 0 to unroll
        invariant kw[0] == old(kw[0]) && kw[1] == old(kw[1])
        invariant Window(s, kw[..], key, tweak, r + 2 * R)
        invariant X[..] == Groups(s, key, tweak, w, half + R)
      {
        EightRoundsLooping(s, X, kw, r + 2 * R, w, key, tweak, half + R);
      }
      r := r + 2 * unroll;
      half := half + unroll;
    }
  }

  predicate Divides(unroll: nat, n: nat) {
    unroll >= 1 && n % unroll == 0
  }

  lemma DividesFacts(n: nat, unroll: nat)
    requires Divides(unroll, n)
    ensures unroll >= 1 && Divides(unroll, 0)
  {
  }

  /** A pass that starts below rcnt ends at or below it. */
  lemma StepsDivide(rcnt: nat, unroll: nat, half: nat)
    requires Divides(unroll, rcnt) && Divides(unroll, half) && half < rcnt
    ensures half + unroll <= rcnt && Divides(unroll, half + unroll)
  {
    var p, q := half / unroll, rcnt / unroll;
    assert half == p * unroll && rcnt == q * unroll;
    MulOrdered(p - q, unroll);
    assert (p - q) * unroll == half - rcnt;
    MulOrdered(q - p - 1, unroll);
    assert (q - p - 1) * unroll == rcnt - half - unroll;
    ModAdd(half, unroll);
  }
}
