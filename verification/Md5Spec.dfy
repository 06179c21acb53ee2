/**
 MD5 as RFC 1321 defines it, on 32-bit words, and the 64-bit operations the source
 performs instead. The upper halves of its registers hold whatever carries and
 complements leave there; the lower halves are shown to be the words of the standard.
 */
module Md5Spec {
  import opened Octets
  import opened Words

  /** The four auxiliary functions of section 3.4, one bit at a time. */
  datatype Auxiliary = F | G | H | I {
    predicate Bit(x: bool, y: bool, z: bool) {
      match this
      case F => (x && y) || (!x && z)
      case G => (x && z) || (y && !z)
      case H => (x != y) != z
      case I => y != (x || !z)
    }
  }

  predicate Odd(x: nat) { x % 2 == 1 }

  /** An auxiliary function on the low n bits of three registers. */
  function Bitwise(f: Auxiliary, x: nat, y: nat, z: nat, n: nat): (r: nat)
    ensures r < Pow2(n)
  {
    if n == 0 then 0
    else 2 * Bitwise(f, x / 2, y / 2, z / 2, n - 1) + (if f.Bit(Odd(x), Odd(y), Odd(z)) then 1 else 0)
  }

  lemma ModHalf(x: nat, p: nat)
    requires p > 0
    ensures x % (2 * p) % 2 == x % 2 && x % (2 * p) / 2 == x / 2 % p
  {
    var k, m := x / 2 / p, x / 2 % p;
    assert x / 2 == k * p + m;
    DoubleMod(k, m, x % 2, p);
  }

  lemma DoubleMod(k: nat, m: nat, bit: nat, p: nat)
    requires m < p && bit < 2
    ensures (2 * (k * p + m) + bit) % (2 * p) == 2 * m + bit
  {
    assert k * (2 * p) == 2 * (k * p);
    DivModOf(k, 2 * m + bit, 2 * p);
  }

  /** The low k bits of the result depend on the low k bits of the operands alone. */
  lemma {:induction false} LowBits(f: Auxiliary, x: nat, y: nat, z: nat, n: nat, k: nat)
    requires k <= n
    ensures Pow2(k) > 0
    ensures Bitwise(f, x, y, z, n) % Pow2(k)
         == Bitwise(f, x % Pow2(k), y % Pow2(k), z % Pow2(k), k)
  {
    if k > 0 {
      LowBits(f, x / 2, y / 2, z / 2, n - 1, k - 1);
      var p := Pow2(k - 1);
      var r := Bitwise(f, x, y, z, n);
      ModHalf(x, p);
      ModHalf(y, p);
      ModHalf(z, p);
      ModHalf(r, p);
      assert r / 2 == Bitwise(f, x / 2, y / 2, z / 2, n - 1);
      assert r % (2 * p) == 2 * (r / 2 % p) + r % 2;
    }
  }

  // ---- The operators that the source composes them of ----

  /** The low n bits of a conjunction. */
  function And(x: nat, y: nat, n: nat): (r: nat)
    ensures r < Pow2(n)
  {
    if n == 0 then 0 else 2 * And(x / 2, y / 2, n - 1) + (if Odd(x) && Odd(y) then 1 else 0)
  }

  /** The low n bits of a disjunction. */
  function Or(x: nat, y: nat, n: nat): (r: nat)
    ensures r < Pow2(n)
  {
    if n == 0 then 0 else 2 * Or(x / 2, y / 2, n - 1) + (if Odd(x) || Odd(y) then 1 else 0)
  }

  /** The low n bits of a complement. */
  function Not(x: nat, n: nat): (r: nat)
    ensures r < Pow2(n)
  {
    if n == 0 then 0 else 2 * Not(x / 2, n - 1) + (if Odd(x) then 0 else 1)
  }

  function Composed(f: Auxiliary, x: nat, y: nat, z: nat, n: nat): (r: nat)
    ensures r < Pow2(n)
  {
    match f
    case F => Or(And(x, y, n), And(Not(x, n), z, n), n)
    case G => Or(And(x, z, n), And(y, Not(z, n), n), n)
    case H => XorBits(XorBits(x, y, n), z, n)
    case I => XorBits(y, Or(x, Not(z, n), n), n)
  }

  /** The compositions are the functions of the standard on every bit. */
  lemma {:induction false} ComposedIs(f: Auxiliary, x: nat, y: nat, z: nat, n: nat)
    ensures Composed(f, x, y, z, n) == Bitwise(f, x, y, z, n)
  {
    if n > 0 {
      ComposedIs(f, x / 2, y / 2, z / 2, n - 1);
      ComposedHalves(f, x, y, z, n);
    }
  }

  lemma ComposedHalves(f: Auxiliary, x: nat, y: nat, z: nat, n: nat)
    requires n > 0
    ensures Composed(f, x, y, z, n) / 2 == Composed(f, x / 2, y / 2, z / 2, n - 1)
    ensures Odd(Composed(f, x, y, z, n)) <==> f.Bit(Odd(x), Odd(y), Odd(z))
  {
    match f
    case F =>
      Halves(And(x, y, n), And(Not(x, n), z, n), n);
      Halves(x, y, n);
      Halves(Not(x, n), z, n);
      Halves(x, x, n);
    case G =>
      Halves(And(x, z, n), And(y, Not(z, n), n), n);
      Halves(x, z, n);
      Halves(y, Not(z, n), n);
      Halves(z, z, n);
    case H =>
      Halves(XorBits(x, y, n), z, n);
      Halves(x, y, n);
    case I =>
      Halves(y, Or(x, Not(z, n), n), n);
      Halves(x, Not(z, n), n);
      Halves(z, z, n);
  }

  /** Each operator works on the lowest bit and on the rest. */
  lemma Halves(x: nat, y: nat, n: nat)
    requires n > 0
    ensures And(x, y, n) / 2 == And(x / 2, y / 2, n - 1) && (Odd(And(x, y, n)) <==> Odd(x) && Odd(y))
    ensures Or(x, y, n) / 2 == Or(x / 2, y / 2, n - 1) && (Odd(Or(x, y, n)) <==> Odd(x) || Odd(y))
    ensures XorBits(x, y, n) / 2 == XorBits(x / 2, y / 2, n - 1) && (Odd(XorBits(x, y, n)) <==> Odd(x) != Odd(y))
    ensures Not(x, n) / 2 == Not(x / 2, n - 1) && (Odd(Not(x, n)) <==> !Odd(x))
  {
  }

  // ---- 32-bit operations of the standard ----

  function Aux32(f: Auxiliary, x: uint32, y: uint32, z: uint32): uint32 {
    Pow2Of32();
    Bitwise(f, x, y, z, 32)
  }

  /** F takes the bits of y where x has ones and those of z where it has zeros. */
  lemma {:induction false} Selects(y: nat, z: nat, n: nat)
    requires y < Pow2(n) && z < Pow2(n)
    ensures Bitwise(F, Pow2(n) - 1, y, z, n) == y && Bitwise(F, 0, y, z, n) == z
  {
    if n > 0 {
      assert (Pow2(n) - 1) / 2 == Pow2(n - 1) - 1 && Odd(Pow2(n) - 1);
      Selects(y / 2, z / 2, n - 1);
    }
  }

  lemma {:induction false} TurnedF(x: nat, y: nat, z: nat, n: nat)
    ensures Bitwise(G, x, y, z, n) == Bitwise(F, z, x, y, n)
  {
    if n > 0 {
      TurnedF(x / 2, y / 2, z / 2, n - 1);
    }
  }

  lemma {:induction false} AnyOrder(x: nat, y: nat, z: nat, n: nat)
    ensures Bitwise(H, x, y, z, n) == Bitwise(H, y, x, z, n) == Bitwise(H, x, z, y, n)
    ensures Bitwise(H, x, y, 0, n) == XorBits(x, y, n)
  {
    if n > 0 {
      AnyOrder(x / 2, y / 2, z / 2, n - 1);
    }
  }

  lemma {:induction false} Complements(y: nat, z: nat, n: nat)
    requires y < Pow2(n)
    ensures Bitwise(I, Pow2(n) - 1, y, z, n) == Pow2(n) - 1 - y
    ensures Bitwise(I, 0, y, z, n) == Pow2(n) - 1 - XorBits(y, z, n)
  {
    if n > 0 {
      assert (Pow2(n) - 1) / 2 == Pow2(n - 1) - 1 && Odd(Pow2(n) - 1);
      Complements(y / 2, z / 2, n - 1);
    }
  }

  /**
   The four functions by their laws: F selects, G is F with its operands turned, H is
   exclusive or in any order, I complements it or its second operand.
   */
  lemma AuxLaws(x: uint32, y: uint32, z: uint32)
    ensures Aux32(F, TWO32 - 1, y, z) == y && Aux32(F, 0, y, z) == z
    ensures Aux32(G, x, y, z) == Aux32(F, z, x, y)
    ensures Aux32(H, x, y, z) == Aux32(H, y, x, z) == Aux32(H, x, z, y) && Aux32(H, x, y, 0) == XorBits(x, y, 32)
    ensures Aux32(I, TWO32 - 1, y, z) == TWO32 - 1 - y
    ensures Aux32(I, 0, y, z) == TWO32 - 1 - Aux32(H, y, z, 0)
  {
    hide Bitwise, XorBits, Pow2;
    Pow2Of32();
    Selects(y, z, 32);
    TurnedF(x, y, z, 32);
    AnyOrder(x, y, z, 32);
    AnyOrder(y, z, 0, 32);
    Complements(y, z, 32);
  }

  type Shift = n: nat | 0 < n < 32 witness 1

  function RotateBy(x: uint32, p: nat, q: nat): uint32
    requires p > 0 && q > 0 && p * q == TWO32
  {
    DivBound(x, p, q);
    x % p * q + x / p
  }

  /** A left circular shift by s places. */
  function Rotate32(x: uint32, s: Shift): uint32 {
    HalvesMeet(s);
    RotateBy(x, Pow2(32 - s), Pow2(s))
  }

  /** b + ((a + f(b,c,d) + x + t) <<< s) */
  function Op32(f: Auxiliary, a: uint32, b: uint32, c: uint32, d: uint32, x: uint32, s: Shift, t: uint32): uint32 {
    (Rotate32((a + Aux32(f, b, c, d) + x + t) % TWO32, s) + b) % TWO32
  }

  // ---- 64-bit operations of the source ----

  function Low(x: Word): uint32 { x % TWO32 }

  function Aux64(f: Auxiliary, x: Word, y: Word, z: Word): Word {
    Pow2Of64();
    Composed(f, x, y, z, 64)
  }

  /** The shift left keeps 64 bits, the shift right sees 32; the two parts share no bit. */
  function RotateLeft(x: Word, s: Shift): Word {
    RotateLeftFits(x, s);
    x * Pow2(s) % TWO64 + x % TWO32 / Pow2(32 - s)
  }

  lemma Pow2Of32()
    ensures Pow2(32) == TWO32
  {
    assert Pow2(8) == 0x100;
    Pow2Sum(8, 8);
    Pow2Sum(16, 16);
  }

  lemma HalvesMeet(s: Shift)
    ensures Pow2(32 - s) * Pow2(s) == TWO32 && Pow2(s) > 0 && Pow2(32 - s) > 0
  {
    Pow2Sum(32 - s, s);
    Pow2Of32();
    Pow2Positive(s);
    Pow2Positive(32 - s);
    assert 32 - s + s == 32;
  }

  /** What a shift by q keeps of x below p * q. */
  lemma ShiftKeeps(x: nat, p: nat, q: nat)
    requires p > 0 && q > 0
    ensures p * q > 0 && x * q % (p * q) == x % p * q && x % p * q <= p * q - q
  {
    var h, l := x / p, x % p;
    MulOrdered(p - 1 - l, q);
    assert l * q == p * q - q - (p - 1 - l) * q;
    assert x * q == h * (p * q) + l * q by {
      assert x == h * p + l;
      assert h * (p * q) == h * p * q;
    }
    MulOrdered(l, q);
    MulOrdered(p - 1, q);
    DivModOf(h, l * q, p * q);
  }

  lemma SameLow(x: nat, p: nat, q: nat)
    requires p > 0 && p * q > 0
    ensures x % (p * q) % p == x % p
  {
    var n := p * q;
    var l, t := x % n, x / n;
    MulOrdered(t, q);
    assert t * n == t * q * p;
    DivModOf(t * q + l / p, l % p, p);
    assert x == (t * q + l / p) * p + l % p;
  }

  /** The part shifted left leaves room below for the part shifted right. */
  lemma ShiftedParts(x: Word, p: nat, q: nat)
    requires p > 0 && q > 0 && p * q == TWO32
    ensures x * q >= 0 && 0 <= x * q % TWO64 <= TWO64 - q
    ensures x * q % TWO32 == x % TWO32 % p * q <= TWO32 - q
    ensures 0 <= x % TWO32 / p < q
  {
    var n := p * TWO32;
    assert n * q == TWO64 by {
      assert n * q == p * q * TWO32;
    }
    ShiftKeeps(x, n, q);
    ShiftKeeps(x, p, q);
    SameLow(x, p, q);
    MulOrdered(x, q);
    DivBound(x % TWO32, p, q);
  }

  lemma RotateLeftFits(x: Word, s: Shift)
    ensures Pow2(32 - s) > 0 && x * Pow2(s) >= 0
    ensures 0 <= x * Pow2(s) % TWO64 + x % TWO32 / Pow2(32 - s) < TWO64
  {
    hide Pow2;
    HalvesMeet(s);
    ShiftedParts(x, Pow2(32 - s), Pow2(s));
  }

  lemma SumLow(high: nat, low: nat, q: nat)
    requires high % TWO32 <= TWO32 - q && low < q
    ensures (high % TWO64 + low) % TWO32 == high % TWO32 + low
  {
  }

  lemma RotateTracks(x: Word, s: Shift)
    ensures Low(RotateLeft(x, s)) == Rotate32(Low(x), s)
  {
    hide Pow2;
    var p, q := Pow2(32 - s), Pow2(s);
    HalvesMeet(s);
    ShiftedParts(x, p, q);
    SumLow(x * q, x % TWO32 / p, q);
  }

  lemma AuxTracks(f: Auxiliary, x: Word, y: Word, z: Word)
    ensures Low(Aux64(f, x, y, z)) == Aux32(f, Low(x), Low(y), Low(z))
  {
    hide Pow2, Bitwise, Composed;
    Pow2Of32();
    ComposedIs(f, x, y, z, 64);
    LowBits(f, x, y, z, 64, 32);
  }

  // ---- The standard's transform (section 3.4) ----

  datatype Registers = Registers(a: uint32, b: uint32, c: uint32, d: uint32)

  type Block = x: seq<uint32> | |x| == 16 witness seq(16, _ => 0)

  const SHIFTS: seq<seq<Shift>> := [[7, 12, 17, 22], [5, 9, 14, 20], [4, 11, 16, 23], [6, 10, 15, 21]]

  /** Element i of row r is the integer part of 2^32 times the sine of 16r + i + 1, made positive. */
  const TABLE: seq<seq<uint32>> :=
   [[0xd76aa478, 0xe8c7b756, 0x242070db, 0xc1bdceee, 0xf57c0faf, 0x4787c62a, 0xa8304613, 0xfd469501,
     0x698098d8, 0x8b44f7af, 0xffff5bb1, 0x895cd7be, 0x6b901122, 0xfd987193, 0xa679438e, 0x49b40821],
    [0xf61e2562, 0xc040b340, 0x265e5a51, 0xe9b6c7aa, 0xd62f105d, 0x2441453, 0xd8a1e681, 0xe7d3fbc8,
     0x21e1cde6, 0xc33707d6, 0xf4d50d87, 0x455a14ed, 0xa9e3e905, 0xfcefa3f8, 0x676f02d9, 0x8d2a4c8a],
    [0xfffa3942, 0x8771f681, 0x6d9d6122, 0xfde5380c, 0xa4beea44, 0x4bdecfa9, 0xf6bb4b60, 0xbebfbc70,
     0x289b7ec6, 0xeaa127fa, 0xd4ef3085, 0x4881d05, 0xd9d4d039, 0xe6db99e5, 0x1fa27cf8, 0xc4ac5665],
    [0xf4292244, 0x432aff97, 0xab9423a7, 0xfc93a039, 0x655b59c3, 0x8f0ccc92, 0xffeff47d, 0x85845dd1,
     0x6fa87e4f, 0xfe2ce6e0, 0xa3014314, 0x4e0811a1, 0xf7537e82, 0xbd3af235, 0x2ad7d2bb, 0xeb86d391]]

  function Function(round: nat): Auxiliary {
    if round == 0 then F else if round == 1 then G else if round == 2 then H else I
  }

  /** The message word that step i of a round reads. */
  function WordRead(round: nat, i: nat): nat {
    if round == 0 then i
    else if round == 1 then (1 + 5 * i) % 16
    else if round == 2 then (5 + 3 * i) % 16
    else 7 * i % 16
  }

  function StepOn(x: Block, s: Registers, round: nat, i: nat): Registers
    requires round < 4 && i < 16
  {
    Registers(s.d,
              Op32(Function(round), s.a, s.b, s.c, s.d, x[WordRead(round, i)], SHIFTS[round][i % 4], TABLE[round][i]),
              s.b, s.c)
  }

  /** The registers after the first i steps of a round. */
  function Steps(x: Block, s: Registers, round: nat, i: nat): Registers
    requires round < 4 && i <= 16
  {
    if i == 0 then s else StepOn(x, Steps(x, s, round, i - 1), round, i - 1)
  }

  function Rounds(x: Block, s: Registers, n: nat): Registers
    requires n <= 4
  {
    if n == 0 then s else Steps(x, Rounds(x, s, n - 1), n - 1, 16)
  }

  function Plus(s: Registers, t: Registers): Registers {
    Registers((s.a + t.a) % TWO32, (s.b + t.b) % TWO32, (s.c + t.c) % TWO32, (s.d + t.d) % TWO32)
  }

  function Transform(s: Registers, x: Block): Registers {
    Plus(s, Rounds(x, s, 4))
  }

  // ---- Messages (sections 3.1 to 3.5) ----

  function Little32(b: seq<octet>, at: nat): uint32
    requires at + 4 <= |b|
  {
    b[at] as int + 0x100 * b[at + 1] as int + 0x1_0000 * b[at + 2] as int + 0x100_0000 * b[at + 3] as int
  }

  function LittleEndian32(x: uint32): (s: seq<octet>)
    ensures |s| == 4
  {
    [x % 0x100, x / 0x100 % 0x100, x / 0x1_0000 % 0x100, x / 0x100_0000]
  }

  type Chunk = b: seq<octet> | |b| == 64 witness seq(64, _ => 0)

  function BlockOf(b: Chunk): Block {
    seq(16, i requires 0 <= i < 16 => Little32(b, 4 * i))
  }

  const START: Registers := Registers(0x67452301, 0xefcdab89, 0x98badcfe, 0x10325476)

  /** The registers after all whole blocks of m. */
  function Absorb(s: Registers, m: seq<octet>): Registers
    requires |m| % 64 == 0
  {
    if m == [] then s
    else
      Transform(Absorb(s, m[..|m| - 64]), BlockOf(m[|m| - 64..]))
  }

  function PadLength(n: nat): (p: nat)
    ensures 1 <= p <= 64 && (n + p) % 64 == 56
  {
    if n % 64 < 56 then 56 - n % 64 else 120 - n % 64
  }

  function Padding(n: nat): (p: seq<octet>)
    ensures |p| == PadLength(n)
  {
    [0x80] + seq(PadLength(n) - 1, _ => 0)
  }

  /** The length in bits as a 64-bit number, low word first. */
  function LengthOctets(n: nat): (s: seq<octet>)
    ensures |s| == 8
  {
    LittleEndian32(8 * n % TWO32) + LittleEndian32(8 * n / TWO32 % TWO32)
  }

  /** A message with its pad and a length field: whole blocks. */
  function Closed(m: seq<octet>, length: seq<octet>): (r: seq<octet>)
    requires |length| == 8
    ensures |r| % 64 == 0
  {
    m + Padding(|m|) + length
  }

  function Padded(m: seq<octet>): (r: seq<octet>)
    ensures |r| % 64 == 0
  {
    Closed(m, LengthOctets(|m|))
  }

  function DigestOctets(s: Registers): (r: seq<octet>)
    ensures |r| == 16
  {
    LittleEndian32(s.a) + LittleEndian32(s.b) + LittleEndian32(s.c) + LittleEndian32(s.d)
  }

  function Digest(m: seq<octet>): seq<octet> {
    DigestOctets(Absorb(START, Padded(m)))
  }
}
