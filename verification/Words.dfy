/** 64-bit words as numbers, and the arithmetic of powers and remainders they need. */
module Words {
  import opened Octets

  const TWO64: int := 0x1_0000_0000_0000_0000

  /** A 64-bit unsigned word; sums and differences wrap. */
  type Word = x: int | 0 <= x < 0x1_0000_0000_0000_0000

  lemma DoubleProduct(a: nat, b: nat)
    ensures 2 * a * b == 2 * (a * b)
  {
  }

  lemma {:induction false} Pow2Sum(m: nat, n: nat)
    ensures Pow2(m + n) == Pow2(m) * Pow2(n)
  {
    if m > 0 {
      Pow2Sum(m - 1, n);
      var a, b, c := Pow2(m - 1), Pow2(n), Pow2(m - 1 + n);
      assert Pow2(m) == 2 * a && Pow2(m + n) == 2 * c;
      hide Pow2;
      DoubleProduct(a, b);
    }
  }

  lemma Pow2Of64()
    ensures Pow2(64) == TWO64
  {
    assert Pow2(8) == 0x100;
    Pow2Sum(8, 8);
    Pow2Sum(16, 16);
    Pow2Sum(32, 32);
  }

  lemma Pow2Positive(n: nat)
    ensures Pow2(n) > 0
  {
  }

  lemma MulOrdered(a: int, b: nat)
    ensures a >= 0 ==> a * b >= 0
  {
  }

  /** x below q * p splits into x / q below p and x % q, and p * (x % q) + x / q is below q * p. */
  lemma DivBound(x: nat, q: nat, p: nat)
    requires q > 0 && p > 0 && x < q * p
    ensures x / q < p && x % q * p + x / q < q * p
  {
    var h, l := x / q, x % q;
    assert x == h * q + l;
    MulOrdered(h - p, q);
    assert h * q == (h - p) * q + p * q;
    MulOrdered(q - 1 - l, p);
    assert l * p == (q - 1) * p - (q - 1 - l) * p;
  }

  lemma DivModOf(h: int, l: nat, q: nat)
    requires l < q
    ensures (h * q + l) / q == h && (h * q + l) % q == l
  {
    var x := h * q + l;
    var d := x / q - h;
    assert d * q == l - x % q;
    MulOrdered(d - 1, q);
    MulOrdered(-d - 1, q);
    assert (d - 1) * q == d * q - q && (-d - 1) * q == -(d * q) - q;
  }

  /** Multiples of the modulus do not count. */
  lemma ModShift(h: int, x: int, q: nat)
    requires q > 0
    ensures (h * q + x) % q == x % q
  {
    assert x == x / q * q + x % q;
    assert h * q + x == (h + x / q) * q + x % q;
    DivModOf(h + x / q, x % q, q);
  }
}
