/** The key objects the operations create, check and export: `CryptoKey`
    with its usages, its algorithm name and its `Handle`, the secret bytes
    tagged with the AES key size or with PBKDF2. */
module Keys {
  import opened Bytes

  datatype KeyUsage = Encrypt | Decrypt | Sign | Verify | DeriveKey | DeriveBits | WrapKey | UnwrapKey

  datatype KeyFormat = Raw | Spki | Pkcs8 | Jwk

  datatype KeyType = Public | Private | Secret

  /** The secret bytes of a key; the AES tags say which cipher variant the
      bytes are handed to. */
  datatype Handle = Aes128(data: Bytes) | Aes192(data: Bytes) | Aes256(data: Bytes) | Pbkdf2(data: Bytes)
  {
    predicate IsAes() { !Pbkdf2? }

    /** The key length in bytes the AES variant of the tag expects. */
    function AesKeyLength(): (n: nat)
      requires IsAes()
      ensures n in {16, 24, 32}
      ensures Aes128? ==> n == 16
      ensures Aes192? ==> n == 24
      ensures Aes256? ==> n == 32
    {
      match this
      case Aes128(_) => 16
      case Aes192(_) => 24
      case Aes256(_) => 32
    }

    /** The bytes have the length the tag's cipher expects, so handing
        them to it does not fail the crates' length assertion. */
    predicate WellSized()
      requires IsAes()
    {
      |data| == AesKeyLength()
    }
  }

  /** The algorithm object of a key: a name, and for AES keys the length in
      bits. */
  datatype KeyAlgorithm = KeyAlgorithm(name: string) | AesKeyAlgorithm(name: string, length: u16)

  datatype CryptoKey = CryptoKey(
    keyType: KeyType,
    extractable: bool,
    /** The algorithm name the key was created with (`key.algorithm()`). */
    algorithm: string,
    algorithmObject: KeyAlgorithm,
    usages: seq<KeyUsage>,
    handle: Handle)

  /** The usages an AES key may have: encrypt, decrypt, wrapKey, unwrapKey. */
  predicate IsAesUsage(u: KeyUsage)
  {
    u == Encrypt || u == Decrypt || u == WrapKey || u == UnwrapKey
  }

  /** The usages a PBKDF2 key may have: deriveKey, deriveBits. */
  predicate IsPbkdf2Usage(u: KeyUsage)
  {
    u == DeriveKey || u == DeriveBits
  }
}
