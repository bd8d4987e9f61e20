/** What the SubtleCrypto methods promise as seen from the caller: which
    error each check gives, which descriptors reach which algorithm, and the
    round trips between encrypt and decrypt and between export and import. */
module Properties {
  import opened Bytes
  import opened Results
  import opened Crypto
  import opened Keys
  import opened Algorithms
  import opened SubtleCrypto
  import Base64
  import Pbkdf2

  // ------------------------------------------------------- encrypt / decrypt

  /** The normalisation reached AES-CBC or AES-CTR parameters. */
  predicate ModeParams(n: Result<NormalizedAlgorithm>)
  {
    n.Success? && (n.value.AesCbcParams? || n.value.AesCtrParams?)
  }

  /** The name member of the parameter dictionary, in the case it was given. */
  function ParamsName(a: NormalizedAlgorithm): string
    requires a.AesCbcParams? || a.AesCtrParams?
  {
    if a.AesCbcParams? then a.cbc.name else a.ctr.name
  }

  /** The key is refused for the parameters: the usage is missing, or the
      key was made for an algorithm of another name. */
  predicate AccessDenied(n: Result<NormalizedAlgorithm>, usage: KeyUsage, key: CryptoKey)
  {
    ModeParams(n) && (usage !in key.usages || ParamsName(n.value) != key.algorithm)
  }

  /** encrypt() is NotSupportedError exactly when the algorithm does not
      normalise to AES-CBC or AES-CTR parameters, and InvalidAccessError
      exactly when it does but the key is refused; neither depends on the
      primitives or the data. */
  lemma EncryptGates(p: Primitives, algorithm: AlgorithmIdentifier, key: CryptoKey, data: Bytes)
    ensures SubtleCrypto.Encrypt(p, algorithm, key, data) == Failure(NotSupported) <==> !ModeParams(Normalize(algorithm, OP_ENCRYPT))
    ensures SubtleCrypto.Encrypt(p, algorithm, key, data) == Failure(InvalidAccess) <==> AccessDenied(Normalize(algorithm, OP_ENCRYPT), KeyUsage.Encrypt, key)
  {
  }

  lemma DecryptGates(p: Primitives, algorithm: AlgorithmIdentifier, key: CryptoKey, data: Bytes)
    ensures SubtleCrypto.Decrypt(p, algorithm, key, data) == Failure(NotSupported) <==> !ModeParams(Normalize(algorithm, OP_DECRYPT))
    ensures SubtleCrypto.Decrypt(p, algorithm, key, data) == Failure(InvalidAccess) <==> AccessDenied(Normalize(algorithm, OP_DECRYPT), KeyUsage.Decrypt, key)
  {
  }

  /** A bare name never reaches a cipher: it normalises to `Algorithm`,
      which encrypt() and decrypt() do not support. */
  lemma NameDescriptorNotSupported(p: Primitives, n: string, key: CryptoKey, data: Bytes)
    ensures SubtleCrypto.Encrypt(p, Name(n), key, data) == Failure(NotSupported)
    ensures SubtleCrypto.Decrypt(p, Name(n), key, data) == Failure(NotSupported)
    ensures Digest(p, Name(n), data) == Failure(NotSupported)
  {
    NormalizeNameVerbatim(n, OP_ENCRYPT);
    NormalizeNameVerbatim(n, OP_DECRYPT);
    NormalizeNameVerbatim(n, OP_DIGEST);
  }

  /** The parameters' name keeps the case it was given in, while the key's
      algorithm name is upper case: an object named "aes-cbc" finds the
      AES-CBC entry but is refused for an AES-CBC key. */
  lemma LowerCaseNameRefused(p: Primitives, iv: Bytes, key: CryptoKey, data: Bytes, rest: JsObject)
    requires key.algorithm == AES_CBC
    ensures var obj := rest.(algorithm := Converted("aes-cbc"), aesCbc := Converted(AesCbcDict("aes-cbc", iv)));
      SubtleCrypto.Encrypt(p, Object(obj), key, data) == Failure(InvalidAccess)
  {
    UpperAesCbc();
    var obj := rest.(algorithm := Converted("aes-cbc"), aesCbc := Converted(AesCbcDict("aes-cbc", iv)));
    NormalizeObject(obj, OP_ENCRYPT);
  }

  /** encrypt() and decrypt() normalise an algorithm the same way. */
  lemma NormalizeEncryptDecrypt(algorithm: AlgorithmIdentifier)
    ensures Normalize(algorithm, OP_ENCRYPT) == Normalize(algorithm, OP_DECRYPT)
  {
  }

  /** Decrypting what encrypt() produced, with the same algorithm argument
      and a key that also allows decryption, gives back the plaintext, for
      AES-CBC and AES-CTR alike. */
  lemma EncryptDecryptRoundTrip(p: Primitives, algorithm: AlgorithmIdentifier, key: CryptoKey, data: Bytes)
    requires BlockInverse(p)
    requires KeyUsage.Decrypt in key.usages
    requires SubtleCrypto.Encrypt(p, algorithm, key, data).Success?
    ensures SubtleCrypto.Decrypt(p, algorithm, key, SubtleCrypto.Encrypt(p, algorithm, key, data).value) == Success(data)
  {
    NormalizeEncryptDecrypt(algorithm);
    var n := Normalize(algorithm, OP_ENCRYPT);
    if n.value.AesCbcParams? {
      CbcRoundTrip(p, n.value.cbc, key, data);
    } else {
      CtrTwiceIsIdentity(p, n.value.ctr, key, data);
    }
  }

  /** AES-CBC ciphertext is the padded plaintext's length: a whole number of
      blocks, longer than the plaintext by one to sixteen bytes. */
  lemma CbcCiphertextLength(p: Primitives, algorithm: AlgorithmIdentifier, key: CryptoKey, data: Bytes)
    requires SubtleCrypto.Encrypt(p, algorithm, key, data).Success?
    requires Normalize(algorithm, OP_ENCRYPT).value.AesCbcParams?
    ensures var c := SubtleCrypto.Encrypt(p, algorithm, key, data).value;
      |c| % BLOCK_SIZE == 0 && |data| < |c| <= |data| + BLOCK_SIZE
  {
  }

  /** AES-CTR output has the length of its input. */
  lemma CtrOutputLength(p: Primitives, algorithm: AlgorithmIdentifier, key: CryptoKey, data: Bytes)
    requires SubtleCrypto.Encrypt(p, algorithm, key, data).Success?
    requires Normalize(algorithm, OP_ENCRYPT).value.AesCtrParams?
    ensures |SubtleCrypto.Encrypt(p, algorithm, key, data).value| == |data|
  {
  }

  // ------------------------------------------------------- generated keys

  /** A generated key cannot encrypt: its bytes are `length` long rather than
      length / 8, so every path to the cipher ends in an error. */
  lemma GeneratedKeyCannotEncrypt(p: Primitives, genAlg: AlgorithmIdentifier, extractable: bool, usages: seq<KeyUsage>,
                                  random: nat -> byte, algorithm: AlgorithmIdentifier, data: Bytes)
    requires GenerateKey(genAlg, extractable, usages, random).Success?
    ensures SubtleCrypto.Encrypt(p, algorithm, GenerateKey(genAlg, extractable, usages, random).value, data).Failure?
  {
    var n := Normalize(genAlg, OP_GENERATE_KEY);
    GeneratedKeyIsOversized(usages, n.value.keyGen, extractable, random);
  }

  /** The raw export of a generated extractable key is its `length` bytes,
      which import under the same name and usages refuses as DataError. */
  lemma GeneratedKeyRawReimportFails(genAlg: AlgorithmIdentifier, usages: seq<KeyUsage>, random: nat -> byte)
    requires GenerateKey(genAlg, true, usages, random).Success?
    ensures var key := GenerateKey(genAlg, true, usages, random).value;
      && ExportKey(Raw, key) == Success(RawKey(key.handle.data))
      && ImportKey(Name(key.algorithm), Raw, Buffer(key.handle.data), true, usages) == Failure(DataError)
  {
    var key := GenerateKey(genAlg, true, usages, random).value;
    var n := Normalize(genAlg, OP_GENERATE_KEY);
    GeneratedKeyIsOversized(usages, n.value.keyGen, true, random);
    NormalizeNameVerbatim(key.algorithm, OP_IMPORT_KEY);
  }

  // ------------------------------------------------------- import / export

  /** A bare name is matched exactly by importKey(): "AES-CBC" and "AES-CTR"
      import AES keys of that name and "PBKDF2" a PBKDF2 key, while any other
      name, including these in another case, is NotSupportedError. */
  lemma ImportKeyByName(n: string, format: KeyFormat, b: Bytes, extractable: bool, usages: seq<KeyUsage>)
    ensures n == AES_CBC ==> ImportKey(Name(n), format, Buffer(b), extractable, usages) == ImportKeyAes(format, b, extractable, usages, AES_CBC)
    ensures n == AES_CTR ==> ImportKey(Name(n), format, Buffer(b), extractable, usages) == ImportKeyAes(format, b, extractable, usages, AES_CTR)
    ensures n == PBKDF2 ==> ImportKey(Name(n), format, Buffer(b), extractable, usages) == ImportKeyPbkdf2(format, b, extractable, usages)
    ensures n !in {AES_CBC, AES_CTR, PBKDF2} ==> ImportKey(Name(n), format, Buffer(b), extractable, usages) == Failure(NotSupported)
  {
    NormalizeNameVerbatim(n, OP_IMPORT_KEY);
  }

  /** An AES key imported from raw bytes exports as those bytes, and its JWK
      export imports back to the very same key. */
  lemma AesImportExportRoundTrip(n: string, b: Bytes, usages: seq<KeyUsage>)
    requires n == AES_CBC || n == AES_CTR
    requires ImportKey(Name(n), Raw, Buffer(b), true, usages).Success?
    ensures var key := ImportKey(Name(n), Raw, Buffer(b), true, usages).value;
      && ExportKey(Raw, key) == Success(RawKey(b))
      && ExportKey(Jwk, key).Success? && ExportKey(Jwk, key).value.JwkKey?
      && ImportKey(Name(n), Jwk, JwkData(ExportKey(Jwk, key).value.jwk), true, usages) == Success(key)
  {
    NormalizeNameVerbatim(n, OP_IMPORT_KEY);
    var key := ImportKey(Name(n), Raw, Buffer(b), true, usages).value;
    var jwk := ExportKey(Jwk, key).value.jwk;
    assert Base64.Decode(Base64.Repad(jwk.k.value)) == Some(b);
    assert KeyDataBytes(JwkData(jwk)) == Success(b);
  }

  /** A JWK whose `k` uses the URL-safe alphabet does not import: the key
      value is decoded as standard base64. */
  lemma JwkUrlAlphabetRejected(algorithm: AlgorithmIdentifier, format: KeyFormat, jwk: JsonWebKey, extractable: bool, usages: seq<KeyUsage>, i: nat)
    requires Normalize(algorithm, OP_IMPORT_KEY).Success?
    requires jwk.k.Some? && i < |jwk.k.value| && (jwk.k.value[i] == '-' || jwk.k.value[i] == '_')
    ensures ImportKey(algorithm, format, JwkData(jwk), extractable, usages) == Failure(Syntax)
  {
    var k := jwk.k.value;
    assert Base64.Repad(k)[i] == k[i];
    Base64.UrlAlphabetRejected(Base64.Repad(k), i);
  }

  /** exportKey() is InvalidAccessError exactly for a key that is not
      extractable and not of a hash or KDF algorithm. */
  lemma ExportKeyAccess(format: KeyFormat, key: CryptoKey)
    ensures ExportKey(format, key) == Failure(InvalidAccess) <==> !key.extractable && !NotExportable(key.algorithm)
  {
  }

  /** Keys of the hash and KDF algorithms are NotSupportedError for every
      format, extractable or not: that check comes first. */
  lemma DenyListNotSupported(format: KeyFormat, key: CryptoKey)
    requires NotExportable(key.algorithm)
    ensures ExportKey(format, key) == Failure(NotSupported)
  {
  }

  /** A key imported as PBKDF2 is never exported. */
  lemma Pbkdf2KeyNotExported(format: KeyFormat, secret: Bytes, usages: seq<KeyUsage>, exportFormat: KeyFormat)
    requires ImportKey(Name(PBKDF2), format, Buffer(secret), false, usages).Success?
    ensures ExportKey(exportFormat, ImportKey(Name(PBKDF2), format, Buffer(secret), false, usages).value) == Failure(NotSupported)
  {
    NormalizeNameVerbatim(PBKDF2, OP_IMPORT_KEY);
  }

  // ------------------------------------------------------- derive bits

  /** deriveBits() with a base key lacking the deriveBits usage is
      InvalidAccessError, whatever the parameters, once they normalise. */
  lemma DeriveBitsNeedsUsage(p: Primitives, algorithm: AlgorithmIdentifier, key: CryptoKey, length: Option<u32>)
    requires Normalize(algorithm, OP_DERIVE_BITS).Success?
    requires KeyUsage.DeriveBits !in key.usages
    ensures SubtleCrypto.DeriveBits(p, algorithm, key, length) == Failure(InvalidAccess)
  {
  }

  /** A PBKDF2 descriptor whose `hash` is an object normalises that hash to
      a SHA variant, which the derivation does not accept as `Algorithm`: the
      result is NotSupportedError once the length and count are valid. */
  lemma ObjectHashNotSupported(p: Primitives, obj: JsObject, hash: JsObject, key: CryptoKey, length: u32)
    requires obj.algorithm.Converted? && ToUpper(obj.algorithm.value) == PBKDF2
    requires obj.pbkdf2.Converted? && obj.pbkdf2.value.hash == Object(hash) && obj.pbkdf2.value.iterations > 0
    requires Normalize(Object(hash), OP_DIGEST).Success?
    requires KeyUsage.DeriveBits in key.usages
    requires length > 0 && length % 8 == 0
    ensures SubtleCrypto.DeriveBits(p, Object(obj), key, Some(length)) == Failure(NotSupported)
  {
    NormalizeObject(obj, OP_DERIVE_BITS);
    NormalizedVariants(hash, OP_DIGEST);
  }

  /** With `hash` given as the bare name of a SHA variant, deriveBits() on a
      PBKDF2 key made from a password gives length / 8 bytes of PBKDF2 with
      HMAC of that hash under the password. */
  lemma DeriveBitsPbkdf2(p: Primitives, obj: JsObject, password: Bytes, usages: seq<KeyUsage>, length: u32, h: Hash)
    requires obj.algorithm.Converted? && ToUpper(obj.algorithm.value) == PBKDF2
    requires obj.pbkdf2.Converted? && obj.pbkdf2.value.iterations > 0
    requires obj.pbkdf2.value.hash == Name(match h case Sha1 => SHA1 case Sha256 => SHA256 case Sha384 => SHA384 case Sha512 => SHA512)
    requires ImportKey(Name(PBKDF2), Raw, Buffer(password), false, usages).Success?
    requires KeyUsage.DeriveBits in usages
    requires length > 0 && length % 8 == 0
    ensures var key := ImportKey(Name(PBKDF2), Raw, Buffer(password), false, usages).value;
      var d := obj.pbkdf2.value;
      SubtleCrypto.DeriveBits(p, Object(obj), key, Some(length))
        == Success(Pbkdf2.RfcDerive(Prf(p, h, password), OutputLength(h), d.salt, d.iterations, length / 8))
  {
    NormalizeObject(obj, OP_DERIVE_BITS);
    NormalizeNameVerbatim(PBKDF2, OP_IMPORT_KEY);
    NormalizeNameVerbatim(obj.pbkdf2.value.hash.name, OP_DIGEST);
  }

  // ------------------------------------------------------- digest

  /** An object named in any case as a SHA variant digests with it. */
  lemma DigestObject(p: Primitives, obj: JsObject, data: Bytes, h: Hash)
    requires obj.algorithm.Converted?
    requires ToUpper(obj.algorithm.value) == match h case Sha1 => SHA1 case Sha256 => SHA256 case Sha384 => SHA384 case Sha512 => SHA512
    ensures Digest(p, Object(obj), data) == Success(p.digest(h, data))
  {
    NormalizeObject(obj, OP_DIGEST);
  }
}
