/** PBKDF2 (section 5.2 of RFC 8018) as the `pbkdf2::derive` of the
    engine's crypto crate computes it: the output buffer is cut into chunks
    of hLen bytes (the last one shorter), and chunk i is the XOR, over the
    leading bytes, of U_1 .. U_c, where U_1 = PRF(S || INT(i)) and
    U_j = PRF(U_{j-1}). The PRF is HMAC under the password, passed in as a
    function of the message. */
module Pbkdf2 {
  import opened Bytes

  /** INT(i): the block index as four big-endian bytes. */
  function BlockIndex(i: nat): (r: Bytes)
    ensures |r| == 4
  {
    NatToBE(i, 4)
  }

  /** INT(i) is i as a 32-bit big-endian integer. */
  lemma BlockIndexValue(i: nat)
    ensures BEValue(BlockIndex(i)) == i % Pow256(4)
  {
    NatToBEValue(i, 4);
  }

  /** U_j of block i. */
  function U(prf: Bytes -> Bytes, salt: Bytes, i: nat, j: nat): Bytes
    requires j >= 1
    decreases j
  {
    if j == 1 then prf(salt + BlockIndex(i)) else prf(U(prf, salt, i, j - 1))
  }

  /** `chunk` with U_1 .. U_j of block i XORed into its leading bytes. */
  function Accumulate(prf: Bytes -> Bytes, salt: Bytes, i: nat, j: nat, chunk: Bytes): (r: Bytes)
    ensures |r| == |chunk|
    decreases j
  {
    if j == 0 then chunk else XorInto(Accumulate(prf, salt, i, j - 1, chunk), U(prf, salt, i, j))
  }

  /** The chunks from block i on, for `remaining` more output bytes. */
  function DeriveFrom(prf: Bytes -> Bytes, hLen: nat, salt: Bytes, c: nat, i: nat, remaining: nat): (r: Bytes)
    requires hLen > 0
    ensures |r| == remaining
    decreases remaining
  {
    if remaining == 0 then []
    else
      var n := if remaining < hLen then remaining else hLen;
      Accumulate(prf, salt, i, c, Zeros(n)) + DeriveFrom(prf, hLen, salt, c, i + 1, remaining - n)
  }

  /** The derived key of dkLen bytes; blocks are numbered from 1. */
  function Derive(prf: Bytes -> Bytes, hLen: nat, salt: Bytes, c: nat, dkLen: nat): (r: Bytes)
    requires hLen > 0
    ensures |r| == dkLen
  {
    DeriveFrom(prf, hLen, salt, c, 1, dkLen)
  }

  // ------------------------------------------------ the RFC's formulation

  /** F(P, S, c, i) = U_1 xor ... xor U_c, as hLen bytes. */
  function F(prf: Bytes -> Bytes, hLen: nat, salt: Bytes, c: nat, i: nat): (r: Bytes)
    ensures |r| == hLen
  {
    Accumulate(prf, salt, i, c, Zeros(hLen))
  }

  /** T_i || T_{i+1} || ... , `count` blocks. */
  function Concat(prf: Bytes -> Bytes, hLen: nat, salt: Bytes, c: nat, i: nat, count: nat): (r: Bytes)
    ensures |r| == hLen * count
    decreases count
  {
    if count == 0 then [] else F(prf, hLen, salt, c, i) + Concat(prf, hLen, salt, c, i + 1, count - 1)
  }

  /** DK = the first dkLen bytes of T_1 || ... || T_l, l = ceil(dkLen / hLen). */
  function RfcDerive(prf: Bytes -> Bytes, hLen: nat, salt: Bytes, c: nat, dkLen: nat): (r: Bytes)
    requires hLen > 0
    ensures |r| == dkLen
  {
    var l := (dkLen + hLen - 1) / hLen;
    CeilDivBound(dkLen, hLen);
    Concat(prf, hLen, salt, c, 1, l)[..dkLen]
  }

  /** q = (n + d - 1) / d is the number of d-byte blocks n bytes need:
      d * q covers n, and by less than one block. */
  lemma CeilDivBound(n: nat, d: nat)
    requires d > 0
    ensures n <= d * ((n + d - 1) / d) < n + d
  {
    var q := (n + d - 1) / d;
    assert n + d - 1 == d * q + (n + d - 1) % d;
  }

  /** The chunk-wise computation agrees with the RFC's definition. */
  lemma DeriveIsRfc(prf: Bytes -> Bytes, hLen: nat, salt: Bytes, c: nat, dkLen: nat)
    requires hLen > 0
    ensures Derive(prf, hLen, salt, c, dkLen) == RfcDerive(prf, hLen, salt, c, dkLen)
  {
    CeilDivBound(dkLen, hLen);
    DeriveFromIsConcat(prf, hLen, salt, c, 1, dkLen, (dkLen + hLen - 1) / hLen);
  }

  /** From block i on, the chunks are the first `remaining` bytes of the
      l blocks that cover them. */
  lemma {:induction false} DeriveFromIsConcat(prf: Bytes -> Bytes, hLen: nat, salt: Bytes, c: nat, i: nat, remaining: nat, l: nat)
    requires hLen > 0 && remaining <= hLen * l < remaining + hLen
    ensures DeriveFrom(prf, hLen, salt, c, i, remaining) == Concat(prf, hLen, salt, c, i, l)[..remaining]
    decreases remaining
  {
    if remaining > 0 {
      var n := if remaining < hLen then remaining else hLen;
      BlocksStep(remaining, hLen, n, l);
      var t, more := F(prf, hLen, salt, c, i), Concat(prf, hLen, salt, c, i + 1, l - 1);
      var chunk, next := Accumulate(prf, salt, i, c, Zeros(n)), DeriveFrom(prf, hLen, salt, c, i + 1, remaining - n);
      assert DeriveFrom(prf, hLen, salt, c, i, remaining) == chunk + next;
      assert Concat(prf, hLen, salt, c, i, l) == t + more;
      AccumulatePrefix(prf, salt, i, c, hLen, n);
      assert chunk == t[..n];
      DeriveFromIsConcat(prf, hLen, salt, c, i + 1, remaining - n, l - 1);
      assert next == more[..remaining - n];
      ConcatPrefix(t, more, n, remaining - n);
    }
  }

  /** One chunk fewer to go is one block fewer in T_1 || ... || T_l. */
  lemma BlocksStep(remaining: nat, hLen: nat, n: nat, l: nat)
    requires hLen > 0 && remaining > 0 && n == if remaining < hLen then remaining else hLen
    requires remaining <= hLen * l < remaining + hLen
    ensures l >= 1 && remaining - n <= hLen * (l - 1) < remaining - n + hLen
  {
    assert l != 0;
    assert hLen * (l - 1) == hLen * l - hLen;
    MulMonoLeft(hLen, 2, l);
  }

  lemma MulMonoLeft(a: nat, x: nat, y: nat)
    ensures x <= y ==> a * x <= a * y
  {
    if x <= y {
      assert a * y == a * x + a * (y - x);
    }
  }

  lemma ConcatPrefix(t: Bytes, more: Bytes, n: nat, rest: nat)
    requires n <= |t| && rest <= |more|
    requires n < |t| ==> rest == 0
    ensures (t + more)[..n + rest] == t[..n] + more[..rest]
  {
  }

  /** Truncating the chunk commutes with XORing the U values into it. */
  lemma {:induction false} AccumulatePrefix(prf: Bytes -> Bytes, salt: Bytes, i: nat, j: nat, hLen: nat, n: nat)
    requires n <= hLen
    ensures Accumulate(prf, salt, i, j, Zeros(n)) == Accumulate(prf, salt, i, j, Zeros(hLen))[..n]
    decreases j
  {
    if j > 0 {
      AccumulatePrefix(prf, salt, i, j - 1, hLen, n);
      var whole := Accumulate(prf, salt, i, j - 1, Zeros(hLen));
      var u := U(prf, salt, i, j);
      assert XorInto(whole[..n], u) == XorInto(whole, u)[..n];
    } else {
      assert Zeros(n) == Zeros(hLen)[..n];
    }
  }

  // ------------------------------------------------ in place

  /** Fills a zeroed buffer of dkLen bytes chunk by chunk, XORing each U
      value into the chunk as it is computed. */
  method DeriveInto(prf: Bytes -> Bytes, hLen: nat, salt: Bytes, c: nat, dkLen: nat) returns (result: Bytes)
    requires hLen > 0 && c >= 1
    ensures result == Derive(prf, hLen, salt, c, dkLen)
  {
    var out := new byte[dkLen](_ => 0);
    var offset := 0;
    var i := 1;
    ghost var done: Bytes := [];
    ghost var whole := Derive(prf, hLen, salt, c, dkLen);
    assert out[..] == Zeros(dkLen);
    while offset < dkLen
      invariant 0 <= offset <= dkLen && |done| == offset
      invariant out[..] == done + Zeros(dkLen - offset)
      invariant done + DeriveFrom(prf, hLen, salt, c, i, dkLen - offset) == whole
      decreases dkLen - offset
    {
      var n;
      n, done := NextChunk(prf, hLen, salt, c, i, out, offset, done, whole);
      offset := offset + n;
      i := i + 1;
    }
    result := out[..];
  }

  /** One turn of DeriveInto's loop: chunk i, computed in place, joins
      what is done. */
  method NextChunk(prf: Bytes -> Bytes, hLen: nat, salt: Bytes, c: nat, i: nat, out: array<byte>, offset: nat,
                   ghost done: Bytes, ghost whole: Bytes) returns (n: nat, ghost done': Bytes)
    requires hLen > 0 && c >= 1 && offset < out.Length && |done| == offset
    requires out[..] == done + Zeros(out.Length - offset)
    requires done + DeriveFrom(prf, hLen, salt, c, i, out.Length - offset) == whole
    modifies out
    ensures 0 < n && offset + n <= out.Length && |done'| == offset + n
    ensures out[..] == done' + Zeros(out.Length - (offset + n))
    ensures done' + DeriveFrom(prf, hLen, salt, c, i + 1, out.Length - (offset + n)) == whole
  {
    var remaining := out.Length - offset;
    n := if remaining < hLen then remaining else hLen;
    var rest := remaining - n;
    assert out.Length - (offset + n) == rest;
    done' := done + Accumulate(prf, salt, i, c, Zeros(n));
    DeriveFromStep(prf, hLen, salt, c, i, remaining, n, done, whole);
    ChunkInto(prf, salt, c, i, out, offset, done, n, rest);
  }

  /** Chunk i of the output, written over the zeros that follow what is
      already done. */
  method ChunkInto(prf: Bytes -> Bytes, salt: Bytes, c: nat, i: nat, out: array<byte>, offset: nat, ghost done: Bytes, n: nat, rest: nat)
    requires c >= 1 && |done| == offset && out[..] == done + Zeros(n + rest)
    modifies out
    ensures out[..] == done + Accumulate(prf, salt, i, c, Zeros(n)) + Zeros(rest)
  {
    ZerosSplit(n, rest);
    assert out[..] == done + Zeros(n) + Zeros(rest);
    Splice(done, Zeros(n), Zeros(rest));
    BlockInto(prf, salt, c, i, out, offset, n);
  }

  lemma ZerosSplit(m: nat, n: nat)
    ensures Zeros(m + n) == Zeros(m) + Zeros(n)
  {
  }

  /** One chunk of progress of DeriveInto. */
  lemma DeriveFromStep(prf: Bytes -> Bytes, hLen: nat, salt: Bytes, c: nat, i: nat, remaining: nat, n: nat, done: Bytes, whole: Bytes)
    requires hLen > 0 && remaining > 0 && n == if remaining < hLen then remaining else hLen
    requires done + DeriveFrom(prf, hLen, salt, c, i, remaining) == whole
    ensures (done + Accumulate(prf, salt, i, c, Zeros(n))) + DeriveFrom(prf, hLen, salt, c, i + 1, remaining - n) == whole
  {
    var x, r := Accumulate(prf, salt, i, c, Zeros(n)), DeriveFrom(prf, hLen, salt, c, i + 1, remaining - n);
    assert DeriveFrom(prf, hLen, salt, c, i, remaining) == x + r;
    assert done + (x + r) == (done + x) + r;
  }

  /** XORs U_1 .. U_c of block i into out[offset .. offset + n], leaving the
      rest of the buffer alone. */
  method BlockInto(prf: Bytes -> Bytes, salt: Bytes, c: nat, i: nat, out: array<byte>, offset: nat, n: nat)
    requires c >= 1 && offset + n <= out.Length
    modifies out
    ensures out[..] == old(out[..offset]) + Accumulate(prf, salt, i, c, old(out[offset..offset + n])) + old(out[offset + n..])
  {
    ghost var front, chunk, back := out[..offset], out[offset..offset + n], out[offset + n..];
    assert out[..] == front + Accumulate(prf, salt, i, 0, chunk) + back;
    var u := prf(salt + BlockIndex(i));
    var j := 1;
    while true
      invariant 1 <= j <= c
      invariant u == U(prf, salt, i, j)
      invariant out[..] == front + Accumulate(prf, salt, i, j - 1, chunk) + back
      decreases c - j
    {
      ghost var acc := Accumulate(prf, salt, i, j - 1, chunk);
      Splice(front, acc, back);
      XorInPlace(out, offset, n, u);
      if j == c {
        return;
      }
      u := prf(u);
      j := j + 1;
    }
  }
}
