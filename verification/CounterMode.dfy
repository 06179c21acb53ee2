/**
 AES counter mode as SRTP uses it (section 4.1.1 of RFC 3711): the initial counter
 block, the key stream of AesSrtp and its application to a stretch of a packet.
 The block cipher under its current key is an arbitrary function.
 */
module CounterMode {
  import opened Octets
  import opened ReplayProtection

  const BLOCK_SIZE: nat := 16
  /** Lengths from here on make the 16-bit block counter wrap before it is done. */
  const MAX_LENGTH: nat := 0x10_0000

  type Block = s: seq<octet> | |s| == 16 witness seq(16, _ => 0)
  type BlockCipher = Block -> Block
  type Salt = s: seq<octet> | |s| >= 14 witness seq(14, _ => 0)

  function CounterBlock(iv: Block, ctr: uint16): Block {
    iv[..14] + [ctr / 0x100, ctr % 0x100]
  }

  function KeyStream(cipher: BlockCipher, iv: Block, length: nat): (s: seq<octet>)
    requires length < MAX_LENGTH
    ensures |s| == length
  {
    seq(length, j requires 0 <= j < length => cipher(CounterBlock(iv, j / 16))[j % 16])
  }

  function XorAll(data: seq<octet>, mask: seq<octet>): (s: seq<octet>)
    requires |data| == |mask|
    ensures |s| == |data|
  {
    seq(|data|, j requires 0 <= j < |data| => Xor(data[j], mask[j]))
  }

  lemma XorAllTwice(data: seq<octet>, mask: seq<octet>)
    requires |data| == |mask|
    ensures XorAll(XorAll(data, mask), mask) == data
  {
    forall j | 0 <= j < |data| ensures XorAll(XorAll(data, mask), mask)[j] == data[j] {
      XorTwice(data[j], mask[j]);
    }
  }

  // ---- AesSrtp ----

  /** get_ctr_cipher_stream: whole blocks, then the leading octets of one more. */
  method GetCtrCipherStream(cipher: BlockCipher, output: array<octet>, iv: Block)
    requires output.Length < MAX_LENGTH
    modifies output
    ensures output[..] == KeyStream(cipher, iv, output.Length)
  {
    var length := output.Length;
    var ctr: uint16 := 0;
    while ctr < length / BLOCK_SIZE
      invariant 0 <= ctr <= length / BLOCK_SIZE
      invariant output[..ctr * BLOCK_SIZE] == KeyStream(cipher, iv, length)[..ctr * BLOCK_SIZE]
    {
      var stream := cipher(CounterBlock(iv, ctr));
      StreamBlock(cipher, iv, length, ctr, BLOCK_SIZE);
      label L:
      CopyInto(output, ctr * BLOCK_SIZE, stream);
      assert output[..ctr * BLOCK_SIZE] == old@L(output[..ctr * BLOCK_SIZE]);
      ctr := ctr + 1;
    }
    if length % BLOCK_SIZE > 0 {
      var temp := cipher(CounterBlock(iv, ctr));
      StreamBlock(cipher, iv, length, ctr, length % BLOCK_SIZE);
      label M:
      CopyInto(output, ctr * BLOCK_SIZE, temp[..length % BLOCK_SIZE]);
      assert output[..ctr * BLOCK_SIZE] == old@M(output[..ctr * BLOCK_SIZE]);
    }
  }

  /** The 16-bit block counter after n passes. */
  function CounterAfter(n: nat): uint16 {
    n % TWO16
  }

  /** The loop over whole blocks ends, at some pass, exactly for lengths below MAX_LENGTH. */
  lemma BlockLoopEnds(length: nat)
    ensures (exists n: nat :: CounterAfter(n) >= length / BLOCK_SIZE) <==> length < MAX_LENGTH
  {
    if length < MAX_LENGTH {
      assert CounterAfter(length / BLOCK_SIZE) == length / BLOCK_SIZE;
    }
  }

  lemma StreamBlock(cipher: BlockCipher, iv: Block, length: nat, ctr: uint16, n: nat)
    requires length < MAX_LENGTH && n <= 16 && ctr * 16 + n <= length
    ensures KeyStream(cipher, iv, length)[ctr * 16..ctr * 16 + n]
         == cipher(CounterBlock(iv, ctr))[..n]
  {
    forall k | 0 <= k < n
      ensures KeyStream(cipher, iv, length)[ctr * 16 + k] == cipher(CounterBlock(iv, ctr))[k]
    {
      assert (ctr * 16 + k) / 16 == ctr && (ctr * 16 + k) % 16 == k;
    }
  }

  /** ctr_encrypt in place, on data[start..start + length]. */
  method CtrEncrypt(cipher: BlockCipher, data: array<octet>, start: nat, length: nat, iv: Block)
    requires start + length <= data.Length && length < MAX_LENGTH
    modifies data
    ensures data[..] == Splice(old(data[..]), start,
                               XorAll(old(data[start..start + length]), KeyStream(cipher, iv, length)))
  {
    hide Xor, KeyStream;
    var cipherStream := new octet[length];
    GetCtrCipherStream(cipher, cipherStream, iv);
    ghost var stream := KeyStream(cipher, iv, length);
    for i := 0 to length
      invariant cipherStream[..] == stream
      invariant forall k :: 0 <= k < i ==> data[start + k] == Xor(old(data[start + k]), stream[k])
      invariant forall k :: 0 <= k < start || start + i <= k < data.Length ==> data[k] == old(data[k])
    {
      assert cipherStream[i] == stream[i];
      data[start + i] := Xor(data[start + i], cipherStream[i]);
    }
  }

  // ---- The initial counter block of a packet ----

  function Byte(x: nat, k: nat): octet {
    if k == 0 then x % 0x100 else Byte(x / 0x100, k - 1)
  }

  /** The low n octets of x, most significant first, under the salt from `at` on. */
  function Masked(x: nat, n: nat, salt: Salt, at: nat): (s: seq<octet>)
    requires at + n <= |salt|
    ensures |s| == n
  {
    seq(n, i requires 0 <= i < n => Xor(Byte(x, n - 1 - i), salt[at + i]))
  }

  function SrtpIv(salt: Salt, ssrc: uint32, index: uint48): Block {
    salt[..4] + Masked(ssrc, 4, salt, 4) + Masked(index, 6, salt, 8) + [0, 0]
  }

  /** The loops of srtpEncrypt that fill iv[16]. */
  method ComputeIv(salt: Salt, ssrc: uint32, index: uint48) returns (r: Block)
    ensures r == SrtpIv(salt, ssrc, index)
  {
    hide SrtpIv, Byte, Xor, Splice;
    IvParts(salt, ssrc, index);
    ghost var whole := SrtpIv(salt, ssrc, index);
    var iv := new octet[16];
    CopyInto(iv, 0, salt[..4]);
    assert iv[..4] == iv[0..4] == whole[..4];
    var i := 4;
    while i < 8
      invariant 4 <= i <= 8
      invariant iv[..i] == whole[..i]
    {
      iv[i] := Xor(Byte(ssrc, 7 - i), salt[i]);
      i := i + 1;
    }
    while i < 14
      invariant 8 <= i <= 14
      invariant iv[..i] == whole[..i]
    {
      iv[i] := Xor(Byte(index, 13 - i), salt[i]);
      i := i + 1;
    }
    iv[14], iv[15] := 0, 0;
    r := iv[..];
  }

  lemma IvParts(salt: Salt, ssrc: uint32, index: uint48)
    ensures var whole := SrtpIv(salt, ssrc, index);
      && whole[..4] == salt[..4] && whole[14] == 0 && whole[15] == 0
      && (forall i :: 4 <= i < 8 ==> whole[i] == Xor(Byte(ssrc, 7 - i), salt[i]))
      && (forall i :: 8 <= i < 14 ==> whole[i] == Xor(Byte(index, 13 - i), salt[i]))
  {
    hide Byte, Xor;
  }

  /** The octets of a number below 256^n determine it. */
  lemma {:induction false} BytesDetermine(x: nat, y: nat, n: nat)
    requires x < Pow256(n) && y < Pow256(n)
    requires forall k :: 0 <= k < n ==> Byte(x, k) == Byte(y, k)
    ensures x == y
  {
    if n > 0 {
      forall k | 0 <= k < n - 1 ensures Byte(x / 0x100, k) == Byte(y / 0x100, k) {
        assert Byte(x, k + 1) == Byte(y, k + 1);
      }
      BytesDetermine(x / 0x100, y / 0x100, n - 1);
      assert Byte(x, 0) == Byte(y, 0);
    }
  }

  function Pow256(n: nat): nat {
    if n == 0 then 1 else 0x100 * Pow256(n - 1)
  }

  /** For a fixed salt and source, the initial counter block determines the index. */
  lemma IvInjective(salt: Salt, ssrc: uint32, i: uint48, j: uint48)
    requires SrtpIv(salt, ssrc, i)[..14] == SrtpIv(salt, ssrc, j)[..14]
    ensures i == j
  {
    var a, b := SrtpIv(salt, ssrc, i), SrtpIv(salt, ssrc, j);
    forall k | 0 <= k < 6 ensures Byte(i, k) == Byte(j, k) {
      var at := 13 - k;
      assert a[..14][at] == b[..14][at];
      assert a[at] == Xor(Byte(i, k), salt[at]) && b[at] == Xor(Byte(j, k), salt[at]);
      XorCancel(Byte(i, k), Byte(j, k), salt[at]);
    }
    assert Pow256(6) == TWO48 by {
      assert Pow256(2) == 0x1_0000;
      assert Pow256(4) == 0x1_0000_0000;
    }
    BytesDetermine(i, j, 6);
  }

  /** One cipher input: block `number` of the key stream of the packet with this index. */
  function CipherInput(salt: Salt, ssrc: uint32, index: uint48, number: uint16): Block {
    CounterBlock(SrtpIv(salt, ssrc, index), number)
  }

  lemma BytesOf(x: nat)
    ensures Byte(x, 0) == x % 0x100 && Byte(x, 1) == x / 0x100 % 0x100 && Byte(x, 2) == x / 0x1_0000 % 0x100
    ensures Byte(x, 3) == x / 0x100_0000 % 0x100 && Byte(x, 4) == x / 0x1_0000_0000 % 0x100
    ensures Byte(x, 5) == x / 0x100_0000_0000 % 0x100
  {
    var a := x / 0x100;
    var b := a / 0x100;
    var c := b / 0x100;
    var e := c / 0x100;
    assert b == x / 0x1_0000 && c == x / 0x100_0000 && e == x / 0x1_0000_0000 && e / 0x100 == x / 0x100_0000_0000;
    assert Byte(x, 2) == Byte(a, 1) == Byte(b, 0);
    assert Byte(x, 3) == Byte(a, 2) == Byte(b, 1) == Byte(c, 0);
    assert Byte(x, 4) == Byte(a, 3) == Byte(b, 2) == Byte(c, 1) == Byte(e, 0);
    assert Byte(x, 5) == Byte(a, 4) == Byte(b, 3) == Byte(c, 2) == Byte(e, 1) == Byte(e / 0x100, 0);
  }

  /**
   The cipher's input written out: the salt, masked with the source in octets 4 to 7 and
   with all six octets of the index in octets 8 to 13, both most significant first; then
   the block number.
   */
  lemma CipherInputOctets(salt: Salt, ssrc: uint32, index: uint48, number: uint16)
    ensures CipherInput(salt, ssrc, index, number) == [
      salt[0], salt[1], salt[2], salt[3],
      Xor(ssrc / 0x100_0000, salt[4]), Xor(ssrc / 0x1_0000 % 0x100, salt[5]),
      Xor(ssrc / 0x100 % 0x100, salt[6]), Xor(ssrc % 0x100, salt[7]),
      Xor(index / 0x100_0000_0000, salt[8]), Xor(index / 0x1_0000_0000 % 0x100, salt[9]),
      Xor(index / 0x100_0000 % 0x100, salt[10]), Xor(index / 0x1_0000 % 0x100, salt[11]),
      Xor(index / 0x100 % 0x100, salt[12]), Xor(index % 0x100, salt[13]),
      number / 0x100, number % 0x100]
  {
    hide Xor, SrtpIv, Byte;
    IvParts(salt, ssrc, index);
    BytesOf(ssrc);
    BytesOf(index);
    var whole := SrtpIv(salt, ssrc, index);
    assert forall k :: 0 <= k < 4 ==> whole[k] == whole[..4][k] == salt[..4][k];
    assert forall k :: 0 <= k < 14 ==> CipherInput(salt, ssrc, index, number)[k] == whole[k];
  }

  lemma CipherInputInjective(salt: Salt, ssrc: uint32, i: uint48, m: uint16, j: uint48, n: uint16)
    requires CipherInput(salt, ssrc, i, m) == CipherInput(salt, ssrc, j, n)
    ensures i == j && m == n
  {
    var a, b := CipherInput(salt, ssrc, i, m), CipherInput(salt, ssrc, j, n);
    assert a[..14] == SrtpIv(salt, ssrc, i)[..14];
    assert b[..14] == SrtpIv(salt, ssrc, j)[..14];
    IvInjective(salt, ssrc, i, j);
    assert a[14] == m / 0x100 && a[15] == m % 0x100;
    assert b[14] == n / 0x100 && b[15] == n % 0x100;
  }

  lemma CipherInputsAgree(salt: Salt, ssrc: uint32, i: uint48, m: uint16, j: uint48, n: uint16)
    ensures CipherInput(salt, ssrc, i, m) == CipherInput(salt, ssrc, j, n) <==> i == j && m == n
  {
    if CipherInput(salt, ssrc, i, m) == CipherInput(salt, ssrc, j, n) {
      CipherInputInjective(salt, ssrc, i, m, j, n);
    }
  }

  /**
   No cipher input ever repeats in the life of a sender context: two packets of the
   stream before the 48-bit index is used up, and two positions in their payloads,
   draw on the same cipher input only if they are the same packet and positions
   in the same 16-octet block.
   */
  lemma NoCipherInputRepeats(salt: Salt, ssrc: uint32, sender: Sender, p: nat, q: nat,
                             lengthP: nat, lengthQ: nat, posP: nat, posQ: nat)
    requires sender.PacketIndex() + p < TWO48 && sender.PacketIndex() + q < TWO48
    requires posP < lengthP < MAX_LENGTH && posQ < lengthQ < MAX_LENGTH
    ensures CipherInput(salt, ssrc, sender.After(p).PacketIndex(), posP / 16)
         == CipherInput(salt, ssrc, sender.After(q).PacketIndex(), posQ / 16)
       <==> p == q && posP / 16 == posQ / 16
  {
    SenderCounts(sender, p);
    SenderCounts(sender, q);
    CipherInputsAgree(salt, ssrc, sender.After(p).PacketIndex(), posP / 16,
                      sender.After(q).PacketIndex(), posQ / 16);
  }
}
