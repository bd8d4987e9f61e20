/** PKCS#7 padding to the 16-byte AES block (section 6.3 of RFC 5652), as
    applied by `encrypt_padded_vec_mut::<Pkcs7>` and removed by
    `decrypt_padded_mut::<Pkcs7>`. */
module Pkcs7 {
  import opened Bytes
  import opened Results

  /** Appends n bytes of value n, where n = 16 - |p| % 16 (so 1 <= n <= 16). */
  function Pad(p: Bytes): (r: Bytes)
    ensures |r| % BLOCK_SIZE == 0
    ensures |p| < |r| <= |p| + BLOCK_SIZE
    ensures r[..|p|] == p
    ensures forall i | |p| <= i < |r| :: r[i] as int == |r| - |p|
  {
    var n := BLOCK_SIZE - |p| % BLOCK_SIZE;
    p + seq(n, _ => n as byte)
  }

  /** Removes the padding of a whole number of blocks: the last byte n must
      be between 1 and 16 and the last n bytes must all equal n; no blocks
      at all is an error too. */
  function Unpad(b: Bytes): Option<Bytes>
    requires |b| % BLOCK_SIZE == 0
  {
    if |b| == 0 then None
    else
      var n := b[|b| - 1] as int;
      if n == 0 || n > BLOCK_SIZE then None
      else if exists i | |b| - n <= i < |b| :: b[i] as int != n then None
      else Some(b[..|b| - n])
  }

  /** Unpadding succeeds exactly on padded messages, and returns the
      message that was padded. */
  lemma UnpadInvertsPad(b: Bytes, p: Bytes)
    requires |b| % BLOCK_SIZE == 0
    ensures Unpad(b) == Some(p) <==> b == Pad(p)
  {
    if b == Pad(p) {
      UnpadOfPad(p);
    }
    if Unpad(b) == Some(p) {
      PadOfUnpad(b, p);
    }
  }

  lemma UnpadOfPad(p: Bytes)
    ensures Unpad(Pad(p)) == Some(p)
  {
    var b := Pad(p);
    var n := |b| - |p|;
    assert b[|b| - 1] as int == n;
    assert b[..|b| - n] == p;
  }

  lemma PadOfUnpad(b: Bytes, p: Bytes)
    requires |b| % BLOCK_SIZE == 0 && Unpad(b) == Some(p)
    ensures b == Pad(p)
  {
    var n := b[|b| - 1] as int;
    assert p == b[..|b| - n];
    DivModUnique(|p|, BLOCK_SIZE, |b| / BLOCK_SIZE - 1, BLOCK_SIZE - n);
    assert BLOCK_SIZE - |p| % BLOCK_SIZE == n;
    assert b[|b| - n..] == seq(n, _ => n as byte);
    assert b == p + b[|b| - n..];
  }
}
