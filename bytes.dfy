/** Bytes, the fixed-width integer types of the bindings, and the byte-level
    helpers shared by the block modes and PBKDF2. */
module Bytes {

  /** An octet, as an integer in 0..255. */
  type byte = x: int | 0 <= x < 0x100
  type Bytes = seq<byte>

  type u8 = x: int | 0 <= x < 0x100
  type u16 = x: int | 0 <= x < 0x1_0000
  type u32 = x: int | 0 <= x < 0x1_0000_0000

  /** The AES block size in bytes. */
  const BLOCK_SIZE: nat := 16

  type Block = s: Bytes | |s| == BLOCK_SIZE witness seq(16, _ => 0)

  function Zeros(n: nat): (r: Bytes)
    ensures |r| == n
  {
    seq(n, _ => 0)
  }

  function Pow256(n: nat): (r: nat)
    ensures r > 0
  {
    if n == 0 then 1 else 256 * Pow256(n - 1)
  }

  /** The unsigned big-endian value of `s`. */
  function BEValue(s: Bytes): nat
    decreases |s|
  {
    if |s| == 0 then 0 else BEValue(s[..|s| - 1]) * 256 + s[|s| - 1]
  }

  lemma {:induction false} BEValueBound(s: Bytes)
    ensures BEValue(s) < Pow256(|s|)
    decreases |s|
  {
    if |s| > 0 {
      BEValueBound(s[..|s| - 1]);
      assert BEValue(s) <= (Pow256(|s| - 1) - 1) * 256 + 255;
    }
  }

  /** The `len` low-order bytes of `n`, big-endian. */
  function NatToBE(n: nat, len: nat): (r: Bytes)
    ensures |r| == len
    decreases len
  {
    if len == 0 then [] else NatToBE(n / 256, len - 1) + [n % 256]
  }

  /** Encoding keeps the value modulo the width. */
  lemma {:induction false} NatToBEValue(n: nat, len: nat)
    ensures BEValue(NatToBE(n, len)) == n % Pow256(len)
    decreases len
  {
    if len > 0 {
      var r := NatToBE(n, len);
      var low := Pow256(len - 1);
      assert r[..len - 1] == NatToBE(n / 256, len - 1);
      NatToBEValue(n / 256, len - 1);
      calc {
        BEValue(r);
        BEValue(r[..len - 1]) * 256 + r[len - 1];
        (n / 256) % low * 256 + n % 256;
        { ModOfMultiple(n, low); }
        n % (256 * low);
      }
    }
  }

  /** Division is determined by any quotient and remainder pair. */
  lemma DivModUnique(n: int, d: int, q: int, r: int)
    requires d > 0 && 0 <= r < d && n == q * d + r
    ensures n / d == q && n % d == r
  {
    var k := n / d - q;
    assert k * d == r - n % d;
    assert k >= 1 ==> k * d >= d;
    assert k <= -1 ==> k * d <= -d;
  }

  /** n % (256 * m) == (n / 256) % m * 256 + n % 256. */
  lemma ModOfMultiple(n: nat, m: nat)
    requires m > 0
    ensures n % (256 * m) == (n / 256) % m * 256 + n % 256
  {
    var q, r := n / 256, n % 256;
    var q2, r2 := q / m, q % m;
    assert n == q2 * (256 * m) + (r2 * 256 + r) by {
      assert n == q * 256 + r;
      assert q == q2 * m + r2;
    }
    DivModUnique(n, 256 * m, q2, r2 * 256 + r);
  }

  /** Big-endian increment of a counter that wraps around: the carry out of
      the most significant byte is dropped. */
  function IncrementBE(s: Bytes): (r: Bytes)
    ensures |r| == |s|
    decreases |s|
  {
    if |s| == 0 then []
    else if s[|s| - 1] == 0xFF then IncrementBE(s[..|s| - 1]) + [0]
    else s[..|s| - 1] + [s[|s| - 1] + 1]
  }

  /** The increment adds one to the big-endian value, modulo 256^|s|. */
  lemma {:induction false} IncrementBEValue(s: Bytes)
    ensures BEValue(IncrementBE(s)) == (BEValue(s) + 1) % Pow256(|s|)
    decreases |s|
  {
    if |s| > 0 {
      if s[|s| - 1] == 0xFF {
        IncrementBEValue(s[..|s| - 1]);
        IncrementCarry(s);
      } else {
        IncrementNoCarry(s);
      }
    }
  }

  /** A last byte of 0xFF becomes 0 and carries into the rest. */
  lemma IncrementCarry(s: Bytes)
    requires |s| > 0 && s[|s| - 1] == 0xFF
    requires BEValue(IncrementBE(s[..|s| - 1])) == (BEValue(s[..|s| - 1]) + 1) % Pow256(|s| - 1)
    ensures BEValue(IncrementBE(s)) == (BEValue(s) + 1) % Pow256(|s|)
  {
    IncrementCarryStep(s);
    MulMod(BEValue(s[..|s| - 1]) + 1, Pow256(|s| - 1));
  }

  lemma IncrementCarryStep(s: Bytes)
    requires |s| > 0 && s[|s| - 1] == 0xFF
    ensures BEValue(IncrementBE(s)) == BEValue(IncrementBE(s[..|s| - 1])) * 256
    ensures BEValue(s) + 1 == (BEValue(s[..|s| - 1]) + 1) * 256
  {
    CarryShift(s);
    IncrementCarries(s);
    BEValueSnoc(IncrementBE(s[..|s| - 1]), 0);
  }

  lemma CarryShift(s: Bytes)
    requires |s| > 0 && s[|s| - 1] == 0xFF
    ensures BEValue(s) + 1 == (BEValue(s[..|s| - 1]) + 1) * 256
  {
  }

  /** A last byte below 0xFF is incremented and nothing else changes. */
  lemma IncrementNoCarry(s: Bytes)
    requires |s| > 0 && s[|s| - 1] != 0xFF
    ensures BEValue(IncrementBE(s)) == (BEValue(s) + 1) % Pow256(|s|)
  {
    IncrementNoCarryStep(s);
    BEValueBound(IncrementBE(s));
    DivModUnique(BEValue(s) + 1, Pow256(|s|), 0, BEValue(s) + 1);
  }

  lemma IncrementNoCarryStep(s: Bytes)
    requires |s| > 0 && s[|s| - 1] != 0xFF
    ensures BEValue(IncrementBE(s)) == BEValue(s) + 1
  {
    IncrementLast(s);
    BEValueSnoc(s[..|s| - 1], s[|s| - 1] + 1);
  }

  lemma IncrementLast(s: Bytes)
    requires |s| > 0 && s[|s| - 1] != 0xFF
    ensures IncrementBE(s) == s[..|s| - 1] + [s[|s| - 1] + 1]
  {
  }

  lemma IncrementCarries(s: Bytes)
    requires |s| > 0 && s[|s| - 1] == 0xFF
    ensures IncrementBE(s) == IncrementBE(s[..|s| - 1]) + [0]
  {
  }

  lemma BEValueSnoc(init: Bytes, b: byte)
    ensures BEValue(init + [b]) == BEValue(init) * 256 + b
  {
    assert (init + [b])[..|init|] == init;
  }

  lemma MulMono(x: nat, y: nat)
    requires x <= y
    ensures x * 256 <= y * 256
  {
  }

  /** (a mod m) * 256 == (a * 256) mod (256 * m). */
  lemma MulMod(a: nat, m: nat)
    requires m > 0
    ensures (a % m) * 256 == (a * 256) % (256 * m)
  {
    var q, r := a / m, a % m;
    assert a == q * m + r;
    assert a * 256 == q * (256 * m) + r * 256;
    MulMono(r, m - 1);
    DivModUnique(a * 256, 256 * m, q, r * 256);
  }

  // ----------------------------------------------------------------- XOR

  function Pow2(n: nat): (r: nat)
    ensures r > 0
  {
    if n == 0 then 1 else 2 * Pow2(n - 1)
  }

  /** Bitwise exclusive or of the low `bits` bits of x and y, lowest bit
      first. */
  function XorBits(x: nat, y: nat, bits: nat): nat
    decreases bits
  {
    if bits == 0 then 0 else 2 * XorBits(x / 2, y / 2, bits - 1) + (x + y) % 2
  }

  lemma {:induction false} XorBitsBound(x: nat, y: nat, bits: nat)
    ensures XorBits(x, y, bits) < Pow2(bits)
    decreases bits
  {
    if bits > 0 {
      XorBitsBound(x / 2, y / 2, bits - 1);
    }
  }

  /** XORing y in twice gives back x, for x of at most `bits` bits. */
  lemma {:induction false} XorBitsTwice(x: nat, y: nat, bits: nat)
    requires x < Pow2(bits)
    ensures XorBits(XorBits(x, y, bits), y, bits) == x
    decreases bits
  {
    if bits > 0 {
      var w := XorBits(x / 2, y / 2, bits - 1);
      var z := XorBits(x, y, bits);
      Halves(z, w, (x + y) % 2);
      HalfBelow(x, Pow2(bits - 1));
      XorBitsTwice(x / 2, y / 2, bits - 1);
      Parity(x, y, z);
      Recombine(XorBits(z, y, bits), XorBits(z / 2, y / 2, bits - 1), (z + y) % 2, x);
    }
  }

  lemma Recombine(v: nat, h: nat, b: nat, x: nat)
    requires v == 2 * h + b && h == x / 2 && b == x % 2
    ensures v == x
  {
  }

  lemma HalfBelow(x: nat, p: nat)
    requires x < 2 * p
    ensures x / 2 < p
  {
  }

  lemma Halves(z: nat, w: nat, b: nat)
    requires b < 2 && z == 2 * w + b
    ensures z / 2 == w && z % 2 == b
  {
    DivModUnique(z, 2, w, b);
  }

  lemma Parity(x: nat, y: nat, z: nat)
    requires z % 2 == (x + y) % 2
    ensures (z + y) % 2 == x % 2
  {
    assert z + y == (z - (x + y)) + x + 2 * y;
  }

  /** The `^` of two octets. */
  function Xor(x: byte, y: byte): (r: byte)
  {
    XorBitsBound(x, y, 8);
    PowTwoEight();
    XorBits(x, y, 8)
  }

  lemma XorTwice(x: byte, y: byte)
    ensures Xor(Xor(x, y), y) == x
  {
    PowTwoEight();
    XorBitsTwice(x, y, 8);
  }

  lemma PowTwoEight()
    ensures Pow2(8) == 256
  {
  }

  /** `a` with its first min(|a|, |b|) bytes XORed with those of `b`; the
      bytes of `a` past the end of `b` are kept (XOR over a zip). */
  function XorInto(a: Bytes, b: Bytes): (r: Bytes)
    ensures |r| == |a|
  {
    seq(|a|, i requires 0 <= i < |a| => if i < |b| then Xor(a[i], b[i]) else a[i])
  }

  /** XORing the same bytes in twice gives back the original. */
  lemma XorIntoTwice(a: Bytes, b: Bytes)
    ensures XorInto(XorInto(a, b), b) == a
  {
    var once := XorInto(a, b);
    forall i | 0 <= i < |a|
      ensures XorInto(once, b)[i] == a[i]
    {
      if i < |b| {
        XorTwice(a[i], b[i]);
      }
    }
  }

  /** XORs the first min(n, |k|) bytes of `k` into a[i .. i + n], in place;
      the rest of the array is left alone. */
  method XorInPlace(a: array<byte>, i: nat, n: nat, k: Bytes)
    requires i + n <= a.Length
    modifies a
    ensures a[..] == old(a[..i]) + XorInto(old(a[i..i + n]), k) + old(a[i + n..])
  {
    ghost var before := a[..];
    forall j | 0 <= j < n && j < |k| {
      a[i + j] := Xor(a[i + j], k[j]);
    }
    ghost var after := before[..i] + XorInto(before[i..i + n], k) + before[i + n..];
    assert |after| == a.Length;
    forall j | 0 <= j < a.Length
      ensures a[j] == after[j]
    {
      if j < i {
      } else if j < i + n {
        assert after[j] == XorInto(before[i..i + n], k)[j - i];
      } else {
        assert after[j] == before[i + n..][j - i - n];
      }
    }
    assert a[..] == after;
  }

  /** Writes `s` over a[i .. i + |s|]; the rest of the array is left alone. */
  method Overwrite(a: array<byte>, i: nat, s: Bytes)
    requires i + |s| <= a.Length
    modifies a
    ensures a[..] == old(a[..i]) + s + old(a[i + |s|..])
  {
    ghost var before := a[..];
    forall j | 0 <= j < |s| {
      a[i + j] := s[j];
    }
    ghost var after := before[..i] + s + before[i + |s|..];
    forall j | 0 <= j < a.Length
      ensures a[j] == after[j]
    {
      if j >= i + |s| {
        assert after[j] == before[i + |s|..][j - i - |s|];
      }
    }
    assert a[..] == after;
  }

  /** The three parts of a byte string cut at two points. */
  lemma Splice(x: Bytes, m: Bytes, y: Bytes)
    ensures (x + m + y)[..|x|] == x
    ensures (x + m + y)[..|x| + |m|] == x + m
    ensures (x + m + y)[|x|..|x| + |m|] == m
    ensures (x + m + y)[|x| + |m|..] == y
  {
  }
}
