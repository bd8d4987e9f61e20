/** The cryptographic primitives the engine takes from its crates: the AES
    block function, the SHA digests and HMAC. Their internals are outside
    this model, so they enter as function values of a `Primitives` record
    that every operation takes as a parameter; the one fact the proofs need
    about AES, that decryption under a key undoes encryption under the same
    key, is the hypothesis `BlockInverse`. */
module Crypto {
  import opened Bytes

  /** The hash functions of the SHA family the engine supports. */
  datatype Hash = Sha1 | Sha256 | Sha384 | Sha512

  /** The digest length in bytes (FIPS 180-4). */
  function OutputLength(h: Hash): (n: nat)
    ensures n in {20, 32, 48, 64}
    ensures h == Sha1 ==> n == 20
    ensures h == Sha256 ==> n == 32
    ensures h == Sha384 ==> n == 48
    ensures h == Sha512 ==> n == 64
  {
    match h
    case Sha1 => 20
    case Sha256 => 32
    case Sha384 => 48
    case Sha512 => 64
  }

  datatype Primitives = Primitives(
    /** AES encryption of one block under the given key bytes. */
    blockEncrypt: (Bytes, Block) -> Block,
    /** AES decryption of one block under the given key bytes. */
    blockDecrypt: (Bytes, Block) -> Block,
    /** The digest of a message. */
    digest: (Hash, Bytes) -> Bytes,
    /** HMAC (FIPS 198-1) of a message under a key. */
    hmac: (Hash, Bytes, Bytes) -> Bytes)

  ghost predicate BlockInverse(p: Primitives)
  {
    forall key, b :: p.blockDecrypt(key, p.blockEncrypt(key, b)) == b
  }
}
