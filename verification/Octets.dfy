/** Machine integers and octet strings, as the wire formats of the stack use them. */
module Octets {
  const TWO16: int := 0x1_0000
  const TWO32: int := 0x1_0000_0000
  const TWO48: int := 0x1_0000_0000_0000

  type octet = x: int | 0 <= x < 0x100
  type uint16 = x: int | 0 <= x < 0x1_0000
  type uint32 = x: int | 0 <= x < 0x1_0000_0000
  type uint48 = x: int | 0 <= x < 0x1_0000_0000_0000

  function Max(a: int, b: int): int {
    if a < b then b else a
  }

  function Min(a: int, b: int): int {
    if a < b then a else b
  }

  function Pow2(n: nat): nat {
    if n == 0 then 1 else 2 * Pow2(n - 1)
  }

  /** Exclusive or of the low n bits. */
  function XorBits(a: nat, b: nat, n: nat): (r: nat)
    ensures r < Pow2(n)
  {
    if n == 0 then 0
    else 2 * XorBits(a / 2, b / 2, n - 1) + (if a % 2 == b % 2 then 0 else 1)
  }

  lemma {:induction false} XorBitsTwice(a: nat, b: nat, n: nat)
    requires a < Pow2(n)
    ensures XorBits(XorBits(a, b, n), b, n) == a
  {
    if n > 0 {
      var r := XorBits(a, b, n);
      assert r / 2 == XorBits(a / 2, b / 2, n - 1);
      assert r % 2 == if a % 2 == b % 2 then 0 else 1;
      XorBitsTwice(a / 2, b / 2, n - 1);
    }
  }

  /** Bit k of a number. */
  predicate Bit(x: nat, k: nat) {
    if k == 0 then x % 2 == 1 else Bit(x / 2, k - 1)
  }

  /** Exclusive or, bit by bit. */
  lemma {:induction false} XorBitsAt(a: nat, b: nat, n: nat, k: nat)
    requires k < n
    ensures Bit(XorBits(a, b, n), k) <==> Bit(a, k) != Bit(b, k)
  {
    var r := XorBits(a, b, n);
    assert r / 2 == XorBits(a / 2, b / 2, n - 1);
    if k > 0 {
      XorBitsAt(a / 2, b / 2, n - 1, k - 1);
    }
  }

  const OCTET_BITS: nat := 8

  lemma Pow2Octet()
    ensures Pow2(OCTET_BITS) == 0x100
  {
    assert Pow2(8) == 0x100;
  }

  /** The C operator `^` on two unsigned chars. */
  function Xor(a: octet, b: octet): octet {
    Pow2Octet();
    XorBits(a, b, OCTET_BITS)
  }

  /** The operator on each of the eight bits. */
  lemma XorAt(a: octet, b: octet, k: nat)
    requires k < 8
    ensures Bit(Xor(a, b), k) <==> Bit(a, k) != Bit(b, k)
  {
    XorBitsAt(a, b, OCTET_BITS, k);
  }

  /** Applying the same mask twice restores the octet. */
  lemma XorTwice(a: octet, b: octet)
    ensures Xor(Xor(a, b), b) == a
  {
    Pow2Octet();
    XorBitsTwice(a, b, OCTET_BITS);
  }

  lemma {:induction false} XorBitsSwap(a: nat, b: nat, n: nat)
    ensures XorBits(a, b, n) == XorBits(b, a, n)
  {
    if n > 0 {
      XorBitsSwap(a / 2, b / 2, n - 1);
    }
  }

  lemma XorSwap(a: octet, b: octet)
    ensures Xor(a, b) == Xor(b, a)
  {
    XorBitsSwap(a, b, OCTET_BITS);
  }

  /** A mask is injective, so distinct octets stay distinct under it. */
  lemma XorCancel(a: octet, b: octet, mask: octet)
    requires Xor(a, mask) == Xor(b, mask)
    ensures a == b
  {
    XorTwice(a, mask);
    XorTwice(b, mask);
  }

  lemma SubSlice<T>(b: seq<T>, lo: nat, hi: nat, i: nat, j: nat)
    requires lo <= hi <= |b| && i <= j <= hi - lo
    ensures b[lo..hi][i..j] == b[lo + i..lo + j]
  {
    var s, t := b[lo..hi][i..j], b[lo + i..lo + j];
    forall k | 0 <= k < j - i ensures s[k] == t[k] {
      assert s[k] == b[lo..hi][i + k] == b[lo + i + k];
    }
  }

  /** `b` with `src` written over the octets from `at` on. */
  function Splice(b: seq<octet>, at: nat, src: seq<octet>): (s: seq<octet>)
    requires at + |src| <= |b|
    ensures |s| == |b|
  {
    b[..at] + src + b[at + |src|..]
  }

  /** memcpy into a buffer. */
  method CopyInto(dst: array<octet>, at: nat, src: seq<octet>)
    requires at + |src| <= dst.Length
    modifies dst
    ensures dst[..] == Splice(old(dst[..]), at, src)
    ensures dst[..at] == old(dst[..at]) && dst[at..at + |src|] == src
    ensures dst[at + |src|..] == old(dst[at + |src|..])
  {
    forall k | 0 <= k < |src| {
      dst[at + k] := src[k];
    }
    assert dst[..] == dst[..at] + dst[at..at + |src|] + dst[at + |src|..];
  }

  /** Network (big endian) byte order. */
  function BigEndian16(x: uint16): (s: seq<octet>)
    ensures |s| == 2
  {
    [x / 0x100, x % 0x100]
  }

  function BigEndian32(x: uint32): (s: seq<octet>)
    ensures |s| == 4
  {
    [x / 0x100_0000, x / 0x1_0000 % 0x100, x / 0x100 % 0x100, x % 0x100]
  }

  function Read16(s: seq<octet>, at: nat): uint16
    requires at + 2 <= |s|
  {
    s[at] as int * 0x100 + s[at + 1] as int
  }

  function Read32(s: seq<octet>, at: nat): uint32
    requires at + 4 <= |s|
  {
    s[at] as int * 0x100_0000 + s[at + 1] as int * 0x1_0000 + s[at + 2] as int * 0x100 + s[at + 3] as int
  }

  lemma Read16Back(s: seq<octet>, at: nat, x: uint16)
    requires at + 2 <= |s| && s[at..at + 2] == BigEndian16(x)
    ensures Read16(s, at) == x
  {
    assert s[at] == s[at..at + 2][0] && s[at + 1] == s[at..at + 2][1];
  }

  lemma BigEndian32Value(x: uint32)
    ensures var t := BigEndian32(x);
      x == t[0] as int * 0x100_0000 + t[1] as int * 0x1_0000 + t[2] as int * 0x100 + t[3] as int
  {
    var h := x / 0x100;
    var k := h / 0x100;
    assert x / 0x1_0000 == k && x / 0x100_0000 == k / 0x100;
    assert x == 0x100 * h + x % 0x100;
    assert h == 0x100 * k + h % 0x100;
    assert k == 0x100 * (k / 0x100) + k % 0x100;
  }

  lemma Read32Back(s: seq<octet>, at: nat, x: uint32)
    requires at + 4 <= |s| && s[at..at + 4] == BigEndian32(x)
    ensures Read32(s, at) == x
  {
    hide BigEndian32;
    var t := s[at..at + 4];
    assert s[at] == t[0] && s[at + 1] == t[1] && s[at + 2] == t[2] && s[at + 3] == t[3];
    BigEndian32Value(x);
  }

  /** A number read inside a part of b that is known as a whole. */
  lemma Read32Inside(b: seq<octet>, lo: nat, part: seq<octet>, i: nat, x: uint32)
    requires lo + |part| <= |b| && b[lo..lo + |part|] == part
    requires i + 4 <= |part| && part[i..i + 4] == BigEndian32(x)
    ensures Read32(b, lo + i) == x
  {
    SubSlice(b, lo, lo + |part|, i, i + 4);
    Read32Back(b, lo + i, x);
  }

  lemma Read16Inside(b: seq<octet>, lo: nat, part: seq<octet>, i: nat)
    requires lo + |part| <= |b| && b[lo..lo + |part|] == part
    requires i + 2 <= |part|
    ensures Read16(b, lo + i) == Read16(part, i)
  {
    var s := b[lo..lo + |part|];
    assert b[lo + i] == s[i] && b[lo + i + 1] == s[i + 1];
  }
}
