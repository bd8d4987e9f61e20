/** The two block-cipher modes of operation the engine uses, over any block
    function: CBC (section 6.2 of NIST SP 800-38A) and CTR (section 6.5)
    with the 64-bit big-endian counter of `ctr::Ctr64BE`. The block
    function stands for AES under one key; the modes never look inside it. */
module BlockModes {
  import opened Bytes

  // ---------------------------------------------------------------- CBC

  /** CBC encryption of whole blocks: C_i = E(P_i xor C_{i-1}), with the
      initialisation vector as C_0. */
  function CbcEncryptBlocks(encrypt: Block -> Block, p: Bytes, prev: Block): (c: Bytes)
    requires |p| % BLOCK_SIZE == 0
    ensures |c| == |p|
    decreases |p|
  {
    if |p| == 0 then []
    else
      var block := encrypt(XorInto(p[..BLOCK_SIZE], prev));
      block + CbcEncryptBlocks(encrypt, p[BLOCK_SIZE..], block)
  }

  /** CBC decryption of whole blocks: P_i = D(C_i) xor C_{i-1}. */
  function CbcDecryptBlocks(decrypt: Block -> Block, c: Bytes, prev: Block): (p: Bytes)
    requires |c| % BLOCK_SIZE == 0
    ensures |p| == |c|
    decreases |c|
  {
    if |c| == 0 then []
    else XorInto(decrypt(c[..BLOCK_SIZE]), prev) + CbcDecryptBlocks(decrypt, c[BLOCK_SIZE..], c[..BLOCK_SIZE])
  }

  /** With a block function and its inverse, CBC decryption undoes CBC
      encryption under the same initialisation vector. */
  lemma {:induction false} CbcRoundTrip(encrypt: Block -> Block, decrypt: Block -> Block, p: Bytes, prev: Block)
    requires forall b :: decrypt(encrypt(b)) == b
    requires |p| % BLOCK_SIZE == 0
    ensures CbcDecryptBlocks(decrypt, CbcEncryptBlocks(encrypt, p, prev), prev) == p
    decreases |p|
  {
    if |p| > 0 {
      var c := CbcEncryptBlocks(encrypt, p, prev);
      var block := encrypt(XorInto(p[..BLOCK_SIZE], prev));
      assert c[..BLOCK_SIZE] == block;
      assert c[BLOCK_SIZE..] == CbcEncryptBlocks(encrypt, p[BLOCK_SIZE..], block);
      CbcRoundTrip(encrypt, decrypt, p[BLOCK_SIZE..], block);
      XorIntoTwice(p[..BLOCK_SIZE], prev);
      assert p == p[..BLOCK_SIZE] + p[BLOCK_SIZE..];
    }
  }

  /** Decrypts `a` in place, block by block, keeping the previous ciphertext
      block aside before it is overwritten (what `decrypt_padded_mut` does to
      the ciphertext buffer before it removes the padding). */
  method CbcDecryptInPlace(decrypt: Block -> Block, a: array<byte>, iv: Block)
    requires a.Length % BLOCK_SIZE == 0
    modifies a
    ensures a[..] == CbcDecryptBlocks(decrypt, old(a[..]), iv)
  {
    ghost var c := a[..];
    var prev := iv;
    var i := 0;
    while i < a.Length
      invariant 0 <= i <= a.Length && i % BLOCK_SIZE == 0
      invariant a[i..] == c[i..]
      invariant a[..i] + CbcDecryptBlocks(decrypt, c[i..], prev) == CbcDecryptBlocks(decrypt, c, iv)
      decreases a.Length - i
    {
      NextBlockFits(a.Length, i);
      var current: Block := a[i..i + BLOCK_SIZE];
      var plain := XorInto(decrypt(current), prev);
      ghost var done := a[..i];
      assert c[i..i + BLOCK_SIZE] == current && a[i + BLOCK_SIZE..] == c[i + BLOCK_SIZE..] by {
        assert a[i..][..BLOCK_SIZE] == current && a[i..][BLOCK_SIZE..] == a[i + BLOCK_SIZE..];
        assert c[i..][..BLOCK_SIZE] == c[i..i + BLOCK_SIZE] && c[i..][BLOCK_SIZE..] == c[i + BLOCK_SIZE..];
      }
      CbcDecryptStep(decrypt, c, iv, i, prev, done);
      Overwrite(a, i, plain);
      Splice(done, plain, c[i + BLOCK_SIZE..]);
      prev := current;
      i := i + BLOCK_SIZE;
    }
    assert a[..] == a[..i];
  }

  /** A block offset short of a whole number of blocks leaves room for
      one more block. */
  lemma NextBlockFits(n: nat, i: nat)
    requires n % BLOCK_SIZE == 0 && i % BLOCK_SIZE == 0 && i < n
    ensures i + BLOCK_SIZE <= n && (i + BLOCK_SIZE) % BLOCK_SIZE == 0
  {
    DivModUnique(i + BLOCK_SIZE, BLOCK_SIZE, i / BLOCK_SIZE + 1, 0);
    var k := n / BLOCK_SIZE - i / BLOCK_SIZE;
    assert n - i == k * BLOCK_SIZE;
  }

  /** One block of progress of the in-place decryption: the plaintext
      decrypted so far, extended by the next block, still accounts for the
      whole decryption. */
  lemma CbcDecryptStep(decrypt: Block -> Block, c: Bytes, iv: Block, i: nat, prev: Block, done: Bytes)
    requires |c| % BLOCK_SIZE == 0 && i % BLOCK_SIZE == 0 && i + BLOCK_SIZE <= |c|
    requires done + CbcDecryptBlocks(decrypt, c[i..], prev) == CbcDecryptBlocks(decrypt, c, iv)
    ensures (done + XorInto(decrypt(c[i..i + BLOCK_SIZE]), prev)) + CbcDecryptBlocks(decrypt, c[i + BLOCK_SIZE..], c[i..i + BLOCK_SIZE])
         == CbcDecryptBlocks(decrypt, c, iv)
  {
    assert c[i..][..BLOCK_SIZE] == c[i..i + BLOCK_SIZE];
    assert c[i..][BLOCK_SIZE..] == c[i + BLOCK_SIZE..];
  }

  // ---------------------------------------------------------------- CTR

  /** The next counter block of `Ctr64BE`: the first eight bytes (the nonce)
      stay, the last eight are a big-endian 64-bit counter incremented with
      wrap-around. */
  function NextCounter(counter: Block): (r: Block)
  {
    counter[..8] + IncrementBE(counter[8..])
  }

  lemma NextCounterSteps(counter: Block)
    ensures NextCounter(counter)[..8] == counter[..8]
    ensures BEValue(NextCounter(counter)[8..]) == (BEValue(counter[8..]) + 1) % Pow256(8)
  {
    var r := NextCounter(counter);
    assert r[8..] == IncrementBE(counter[8..]);
    IncrementBEValue(counter[8..]);
  }

  /** CTR mode: the data XORed with E(counter), E(next counter), ...; the
      last, possibly partial, block uses only the start of its keystream. */
  function CtrKeystreamXor(encrypt: Block -> Block, d: Bytes, counter: Block): (r: Bytes)
    ensures |r| == |d|
    decreases |d|
  {
    if |d| == 0 then []
    else
      var n := if |d| < BLOCK_SIZE then |d| else BLOCK_SIZE;
      XorInto(d[..n], encrypt(counter)) + CtrKeystreamXor(encrypt, d[n..], NextCounter(counter))
  }

  /** Applying the keystream twice from the same counter gives back the
      data: CTR encryption and decryption are the same operation. */
  lemma {:induction false} CtrInvolution(encrypt: Block -> Block, d: Bytes, counter: Block)
    ensures CtrKeystreamXor(encrypt, CtrKeystreamXor(encrypt, d, counter), counter) == d
    decreases |d|
  {
    if |d| > 0 {
      var n := if |d| < BLOCK_SIZE then |d| else BLOCK_SIZE;
      var once := CtrKeystreamXor(encrypt, d, counter);
      assert once[..n] == XorInto(d[..n], encrypt(counter));
      assert once[n..] == CtrKeystreamXor(encrypt, d[n..], NextCounter(counter));
      CtrInvolution(encrypt, d[n..], NextCounter(counter));
      XorIntoTwice(d[..n], encrypt(counter));
      assert d == d[..n] + d[n..];
    }
  }

  /** Applies the keystream to `a` in place (`apply_keystream` on the
      output buffer). */
  method CtrApplyKeystream(encrypt: Block -> Block, a: array<byte>, counter: Block)
    modifies a
    ensures a[..] == CtrKeystreamXor(encrypt, old(a[..]), counter)
  {
    ghost var d := a[..];
    var current := counter;
    var i := 0;
    while i < a.Length
      invariant 0 <= i <= a.Length
      invariant a[i..] == d[i..]
      invariant a[..i] + CtrKeystreamXor(encrypt, d[i..], current) == CtrKeystreamXor(encrypt, d, counter)
      decreases a.Length - i
    {
      var n := if a.Length - i < BLOCK_SIZE then a.Length - i else BLOCK_SIZE;
      var keystream := encrypt(current);
      ghost var done := a[..i];
      assert a[i..i + n] == d[i..i + n] && a[i + n..] == d[i + n..] by {
        assert a[i..][..n] == a[i..i + n] && a[i..][n..] == a[i + n..];
        assert d[i..][..n] == d[i..i + n] && d[i..][n..] == d[i + n..];
      }
      CtrStep(encrypt, d, counter, i, n, current, done);
      XorInPlace(a, i, n, keystream);
      Splice(done, XorInto(d[i..i + n], keystream), d[i + n..]);
      current := NextCounter(current);
      i := i + n;
    }
    assert a[..] == a[..i];
  }

  /** One block of progress of the in-place keystream: the output so far,
      extended by the next (possibly partial) block, still accounts for the
      whole output. */
  lemma CtrStep(encrypt: Block -> Block, d: Bytes, counter: Block, i: nat, n: nat, current: Block, done: Bytes)
    requires i < |d| && n == if |d| - i < BLOCK_SIZE then |d| - i else BLOCK_SIZE
    requires done + CtrKeystreamXor(encrypt, d[i..], current) == CtrKeystreamXor(encrypt, d, counter)
    ensures (done + XorInto(d[i..i + n], encrypt(current))) + CtrKeystreamXor(encrypt, d[i + n..], NextCounter(current))
         == CtrKeystreamXor(encrypt, d, counter)
  {
    var e := d[i..];
    assert e[..n] == d[i..i + n] && e[n..] == d[i + n..];
    CtrUnfold(encrypt, e, current, n);
    var x, r := XorInto(d[i..i + n], encrypt(current)), CtrKeystreamXor(encrypt, d[i + n..], NextCounter(current));
    ConcatAssoc(done, x, r);
  }

  /** The first block of a non-empty CTR transform. */
  lemma CtrUnfold(encrypt: Block -> Block, e: Bytes, current: Block, n: nat)
    requires 0 < |e| && n == if |e| < BLOCK_SIZE then |e| else BLOCK_SIZE
    ensures CtrKeystreamXor(encrypt, e, current)
         == XorInto(e[..n], encrypt(current)) + CtrKeystreamXor(encrypt, e[n..], NextCounter(current))
  {
  }

  lemma ConcatAssoc(x: Bytes, y: Bytes, z: Bytes)
    ensures x + (y + z) == (x + y) + z
  {
  }
}
