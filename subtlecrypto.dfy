/** The SubtleCrypto operations: the per-algorithm steps (AES-CBC, AES-CTR,
    AES key generation, import and export, PBKDF2 import and bit derivation,
    SHA digests) and the checks each method makes, in order, before it gets
    there. Each method is a function from its arguments to the value its
    promise is resolved with or the error it is rejected with; the
    primitives come in as `p`. */
module SubtleCrypto {
  import opened Bytes
  import opened Results
  import opened Crypto
  import opened Keys
  import opened Algorithms
  import Pkcs7
  import BlockModes
  import Base64
  import Pbkdf2

  // ------------------------------------------------------- AES-CBC

  /** The block function of AES under the key bytes of `h`. */
  function Encryptor(p: Primitives, h: Handle): Block -> Block
  {
    b => p.blockEncrypt(h.data, b)
  }

  function Decryptor(p: Primitives, h: Handle): Block -> Block
  {
    b => p.blockDecrypt(h.data, b)
  }

  /** AES-CBC encryption: the IV must have 16 bytes (OperationError), the
      key must be an AES key (DataError) with bytes of its tag's length;
      the plaintext is PKCS#7-padded and CBC-encrypted. */
  function EncryptAesCbc(p: Primitives, params: SubtleAesCbcParams, key: CryptoKey, data: Bytes): (r: Result<Bytes>)
    ensures |params.iv| != BLOCK_SIZE ==> r == Failure(Operation)
    ensures |params.iv| == BLOCK_SIZE && !key.handle.IsAes() ==> r == Failure(DataError)
    ensures |params.iv| == BLOCK_SIZE && key.handle.IsAes() && !key.handle.WellSized() ==> r == Failure(Panic)
    ensures |params.iv| == BLOCK_SIZE && key.handle.IsAes() && key.handle.WellSized() ==> r.Success?
    ensures r.Success? ==> |r.value| % BLOCK_SIZE == 0 && |data| < |r.value| <= |data| + BLOCK_SIZE
  {
    if |params.iv| != BLOCK_SIZE then Failure(Operation)
    else if !key.handle.IsAes() then Failure(DataError)
    else if !key.handle.WellSized() then Failure(Panic)
    else Success(BlockModes.CbcEncryptBlocks(Encryptor(p, key.handle), Pkcs7.Pad(data), params.iv))
  }

  /** AES-CBC decryption: the same checks, then the ciphertext must be a
      non-empty whole number of blocks whose decryption ends in valid
      PKCS#7 padding (OperationError otherwise). */
  function DecryptAesCbc(p: Primitives, params: SubtleAesCbcParams, key: CryptoKey, data: Bytes): (r: Result<Bytes>)
    ensures |params.iv| != BLOCK_SIZE ==> r == Failure(Operation)
    ensures |params.iv| == BLOCK_SIZE && !key.handle.IsAes() ==> r == Failure(DataError)
    ensures |params.iv| == BLOCK_SIZE && key.handle.IsAes() && !key.handle.WellSized() ==> r == Failure(Panic)
    ensures |params.iv| == BLOCK_SIZE && key.handle.IsAes() && key.handle.WellSized() && |data| % BLOCK_SIZE != 0 ==> r == Failure(Operation)
    ensures |params.iv| == BLOCK_SIZE && key.handle.IsAes() && key.handle.WellSized() && |data| % BLOCK_SIZE == 0 ==>
      var blocks := BlockModes.CbcDecryptBlocks(Decryptor(p, key.handle), data, params.iv);
      && (forall q: Bytes :: Pkcs7.Pad(q) == blocks ==> r == Success(q))
      && ((forall q: Bytes :: Pkcs7.Pad(q) != blocks) ==> r == Failure(Operation))
    ensures r.Success? ==> |r.value| < |data|
    ensures r.Success? ==> Pkcs7.Pad(r.value) == BlockModes.CbcDecryptBlocks(Decryptor(p, key.handle), data, params.iv)
  {
    if |params.iv| != BLOCK_SIZE then Failure(Operation)
    else if !key.handle.IsAes() then Failure(DataError)
    else if !key.handle.WellSized() then Failure(Panic)
    else if |data| % BLOCK_SIZE != 0 then Failure(Operation)
    else
      var blocks := BlockModes.CbcDecryptBlocks(Decryptor(p, key.handle), data, params.iv);
      UnpadMeansPad(blocks);
      match Pkcs7.Unpad(blocks)
      case None => Failure(Operation)
      case Some(plain) => Success(plain)
  }

  /** Unpadding gives q exactly when the buffer is q padded. */
  lemma UnpadMeansPad(blocks: Bytes)
    requires |blocks| % BLOCK_SIZE == 0
    ensures forall q: Bytes :: Pkcs7.Unpad(blocks) == Some(q) <==> Pkcs7.Pad(q) == blocks
  {
    forall q: Bytes
      ensures Pkcs7.Unpad(blocks) == Some(q) <==> Pkcs7.Pad(q) == blocks
    {
      Pkcs7.UnpadInvertsPad(blocks, q);
    }
  }

  /** CBC decryption undoes CBC encryption under the same parameters and
      key. */
  lemma CbcRoundTrip(p: Primitives, params: SubtleAesCbcParams, key: CryptoKey, data: Bytes)
    requires BlockInverse(p)
    requires EncryptAesCbc(p, params, key, data).Success?
    ensures DecryptAesCbc(p, params, key, EncryptAesCbc(p, params, key, data).value) == Success(data)
  {
    var padded := Pkcs7.Pad(data);
    var e, d := Encryptor(p, key.handle), Decryptor(p, key.handle);
    assert forall b :: d(e(b)) == b;
    BlockModes.CbcRoundTrip(e, d, padded, params.iv);
    Pkcs7.UnpadInvertsPad(padded, data);
  }

  /** Decryption works on a copy of the ciphertext in place, as the code's
      `decrypt_padded_mut` on its `ciphertext` vector. */
  method DecryptAesCbcInPlace(p: Primitives, params: SubtleAesCbcParams, key: CryptoKey, data: Bytes) returns (r: Result<Bytes>)
    ensures r == DecryptAesCbc(p, params, key, data)
  {
    if |params.iv| != BLOCK_SIZE {
      return Failure(Operation);
    }
    if !key.handle.IsAes() {
      return Failure(DataError);
    }
    if !key.handle.WellSized() {
      return Failure(Panic);
    }
    if |data| % BLOCK_SIZE != 0 {
      return Failure(Operation);
    }
    var ciphertext := new byte[|data|](i requires 0 <= i < |data| => data[i]);
    assert ciphertext[..] == data;
    BlockModes.CbcDecryptInPlace(Decryptor(p, key.handle), ciphertext, params.iv);
    var unpadded := Pkcs7.Unpad(ciphertext[..]);
    if unpadded.None? {
      return Failure(Operation);
    }
    return Success(unpadded.value);
  }

  // ------------------------------------------------------- AES-CTR

  /** AES-CTR, the same operation for encryption and decryption: the
      counter block must have 16 bytes and the length field must be in
      1..128 (OperationError), the key an AES key (DataError); the length
      field takes no further part. */
  function EncryptDecryptAesCtr(p: Primitives, params: SubtleAesCtrParams, key: CryptoKey, data: Bytes): (r: Result<Bytes>)
    ensures |params.counter| != BLOCK_SIZE || params.length == 0 || params.length > 128 ==> r == Failure(Operation)
    ensures |params.counter| == BLOCK_SIZE && 1 <= params.length <= 128 && !key.handle.IsAes() ==> r == Failure(DataError)
    ensures |params.counter| == BLOCK_SIZE && 1 <= params.length <= 128 && key.handle.IsAes() && !key.handle.WellSized() ==> r == Failure(Panic)
    ensures |params.counter| == BLOCK_SIZE && 1 <= params.length <= 128 && key.handle.IsAes() && key.handle.WellSized() ==> r.Success?
    ensures r.Success? ==> |r.value| == |data|
  {
    if |params.counter| != BLOCK_SIZE || params.length == 0 || params.length > 128 then Failure(Operation)
    else if !key.handle.IsAes() then Failure(DataError)
    else if !key.handle.WellSized() then Failure(Panic)
    else Success(BlockModes.CtrKeystreamXor(Encryptor(p, key.handle), data, params.counter))
  }

  /** Applying AES-CTR twice with the same key and counter gives back the
      input. */
  lemma CtrTwiceIsIdentity(p: Primitives, params: SubtleAesCtrParams, key: CryptoKey, data: Bytes)
    requires EncryptDecryptAesCtr(p, params, key, data).Success?
    ensures EncryptDecryptAesCtr(p, params, key, EncryptDecryptAesCtr(p, params, key, data).value) == Success(data)
  {
    BlockModes.CtrInvolution(Encryptor(p, key.handle), data, params.counter);
  }

  /** Any two accepted values of the length field give the same output. */
  lemma CtrLengthUnused(p: Primitives, params: SubtleAesCtrParams, key: CryptoKey, data: Bytes, length: u8)
    requires 1 <= params.length <= 128 && 1 <= length <= 128
    ensures EncryptDecryptAesCtr(p, params, key, data) == EncryptDecryptAesCtr(p, params.(length := length), key, data)
  {
  }

  /** The keystream is applied to a copy of the data in place, as the
      code's `apply_keystream` on its `ciphertext` vector. */
  method EncryptDecryptAesCtrInPlace(p: Primitives, params: SubtleAesCtrParams, key: CryptoKey, data: Bytes) returns (r: Result<Bytes>)
    ensures r == EncryptDecryptAesCtr(p, params, key, data)
  {
    if |params.counter| != BLOCK_SIZE || params.length == 0 || params.length > 128 {
      return Failure(Operation);
    }
    if !key.handle.IsAes() {
      return Failure(DataError);
    }
    if !key.handle.WellSized() {
      return Failure(Panic);
    }
    var ciphertext := new byte[|data|](i requires 0 <= i < |data| => data[i]);
    assert ciphertext[..] == data;
    BlockModes.CtrApplyKeystream(Encryptor(p, key.handle), ciphertext, params.counter);
    return Success(ciphertext[..]);
  }

  // ------------------------------------------------------- AES keys

  /** Every usage is one an AES key may have, and there is at least one. */
  predicate AesUsagesValid(usages: seq<KeyUsage>)
  {
    |usages| > 0 && forall i | 0 <= i < |usages| :: IsAesUsage(usages[i])
  }

  /** The first n bytes of the random stream. */
  function RandomBytes(random: nat -> byte, n: nat): (r: Bytes)
    ensures |r| == n && forall i | 0 <= i < n :: r[i] == random(i)
  {
    seq(n, i requires 0 <= i => random(i))
  }

  /** AES key generation: `length` random bytes (not length / 8), then the
      length must be 128, 192 or 256 (OperationError), the usages valid
      (SyntaxError) and the name AES-CBC or AES-CTR (NotSupportedError).
      `random` is the generator's byte stream. */
  function GenerateKeyAes(usages: seq<KeyUsage>, params: SubtleAesKeyGenParams, extractable: bool, random: nat -> byte): (r: Result<CryptoKey>)
    ensures params.length !in {128, 192, 256} ==> r == Failure(Operation)
    ensures params.length in {128, 192, 256} && !AesUsagesValid(usages) ==> r == Failure(Syntax)
    ensures params.length in {128, 192, 256} && AesUsagesValid(usages) && params.name !in {AES_CBC, AES_CTR} ==> r == Failure(NotSupported)
    ensures params.length in {128, 192, 256} && AesUsagesValid(usages) && params.name in {AES_CBC, AES_CTR} ==> r.Success?
    ensures r.Success? ==>
      var k := r.value;
      && k.keyType == Secret && k.extractable == extractable && k.usages == usages
      && k.algorithm == params.name && k.algorithmObject == AesKeyAlgorithm(params.name, params.length)
      && k.handle.IsAes() && k.handle.AesKeyLength() * 8 == params.length
      && k.handle.data == RandomBytes(random, params.length)
  {
    var rand := RandomBytes(random, params.length);
    var handle :=
      if params.length == 128 then Aes128(rand)
      else if params.length == 192 then Aes192(rand)
      else Aes256(rand);
    if params.length !in {128, 192, 256} then Failure(Operation)
    else if !AesUsagesValid(usages) then Failure(Syntax)
    else if params.name != AES_CBC && params.name != AES_CTR then Failure(NotSupported)
    else Success(CryptoKey(Secret, extractable, params.name, AesKeyAlgorithm(params.name, params.length), usages, handle))
  }

  /** Because generation allocates `length` bytes where the cipher wants
      length / 8, a generated key never has bytes of its tag's length: any
      encryption with it panics, and its raw export does not import. */
  lemma GeneratedKeyIsOversized(usages: seq<KeyUsage>, params: SubtleAesKeyGenParams, extractable: bool, random: nat -> byte)
    requires GenerateKeyAes(usages, params, extractable, random).Success?
    ensures var k := GenerateKeyAes(usages, params, extractable, random).value;
      !k.handle.WellSized() && |k.handle.data| == 8 * k.handle.AesKeyLength()
  {
  }

  /** The random bytes are drawn into a zeroed buffer, as `fill_bytes` does
      with `rand`. */
  method FillRandom(a: array<byte>, random: nat -> byte)
    modifies a
    ensures a[..] == RandomBytes(random, a.Length)
  {
    var i := 0;
    while i < a.Length
      invariant 0 <= i <= a.Length
      invariant a[..i] == RandomBytes(random, i)
      decreases a.Length - i
    {
      a[i] := random(i);
      i := i + 1;
      assert a[..i] == a[..i - 1] + [random(i - 1)];
    }
  }

  /** Key generation drawing its bytes into a buffer. */
  method GenerateKeyAesFilled(usages: seq<KeyUsage>, params: SubtleAesKeyGenParams, extractable: bool, random: nat -> byte) returns (r: Result<CryptoKey>)
    ensures r == GenerateKeyAes(usages, params, extractable, random)
  {
    var buffer := new byte[params.length](_ => 0);
    FillRandom(buffer, random);
    var rand := buffer[..];
    if params.length !in {128, 192, 256} {
      return Failure(Operation);
    }
    if !AesUsagesValid(usages) {
      return Failure(Syntax);
    }
    if params.name != AES_CBC && params.name != AES_CTR {
      return Failure(NotSupported);
    }
    var handle :=
      if params.length == 128 then Aes128(rand)
      else if params.length == 192 then Aes192(rand)
      else Aes256(rand);
    return Success(CryptoKey(Secret, extractable, params.name, AesKeyAlgorithm(params.name, params.length), usages, handle));
  }

  /** AES key import: usages first (SyntaxError), then the format must be
      raw or jwk (NotSupportedError), then the key must have 16, 24 or 32
      bytes (DataError); the bytes are stored as they are. */
  function ImportKeyAes(format: KeyFormat, data: Bytes, extractable: bool, usages: seq<KeyUsage>, algName: string): (r: Result<CryptoKey>)
    ensures !AesUsagesValid(usages) ==> r == Failure(Syntax)
    ensures AesUsagesValid(usages) && format !in {Raw, Jwk} ==> r == Failure(NotSupported)
    ensures AesUsagesValid(usages) && format in {Raw, Jwk} && |data| * 8 !in {128, 192, 256} ==> r == Failure(DataError)
    ensures AesUsagesValid(usages) && format in {Raw, Jwk} && |data| * 8 in {128, 192, 256} ==> r.Success?
    ensures r.Success? ==>
      var k := r.value;
      && k.keyType == Secret && k.extractable == extractable && k.usages == usages
      && k.algorithm == algName && k.algorithmObject == AesKeyAlgorithm(algName, |data| * 8)
      && k.handle.IsAes() && k.handle.data == data && k.handle.WellSized()
  {
    if !AesUsagesValid(usages) then Failure(Syntax)
    else if format != Raw && format != Jwk then Failure(NotSupported)
    else if |data| * 8 !in {128, 192, 256} then Failure(DataError)
    else
      var handle :=
        if |data| * 8 == 128 then Aes128(data)
        else if |data| * 8 == 192 then Aes192(data)
        else Aes256(data);
      Success(CryptoKey(Secret, extractable, algName, AesKeyAlgorithm(algName, |data| * 8), usages, handle))
  }

  /** A JSON Web Key, with the members the AES code reads or writes. */
  datatype JsonWebKey = JsonWebKey(alg: Option<string>, ext: Option<bool>, k: Option<string>, kty: Option<string>)

  datatype AesExportedKey = RawKey(bytes: Bytes) | JwkKey(jwk: JsonWebKey)

  /** The JWK `alg` ("A" + size + "CBC" or "CTR") and `k` (standard base64
      with every `=` removed) of an AES key; other names are unreachable. */
  function DataToJwkParams(alg: string, size: string, key: Bytes): (r: (string, string))
    requires alg == AES_CBC || alg == AES_CTR
    ensures r.0 == "A" + size + (if alg == AES_CBC then "CBC" else "CTR")
    ensures Base64.Repad(r.1) == Base64.Encode(key)
    ensures forall i | 0 <= i < |r.1| :: r.1[i] != '='
  {
    Base64.RepadStripEncode(key);
    ("A" + size + (if alg == AES_CBC then "CBC" else "CTR"), Base64.StripPadding(Base64.Encode(key)))
  }

  /** The JWK `k` computed in a buffer: encode, then remove `=` in place
      (`data.retain(|c| c != '=')`). */
  method JwkKeyValue(key: Bytes) returns (k: string)
    ensures k == Base64.StripPadding(Base64.Encode(key))
  {
    var encoded := Base64.Encode(key);
    var buffer := new char[|encoded|](i requires 0 <= i < |encoded| => encoded[i]);
    assert buffer[..] == encoded;
    var len := Base64.Retain(buffer);
    k := buffer[..len];
  }

  /** The size string of an AES tag. */
  function SizeName(h: Handle): string
    requires h.IsAes()
  {
    match h
    case Aes128(_) => "128"
    case Aes192(_) => "192"
    case Aes256(_) => "256"
  }

  /** AES key export: raw gives the stored bytes, jwk a key with
      `alg`, `kty` "oct", `ext` and `k`; a non-AES handle is DataError, other
      formats NotSupportedError. Only reached for AES-CBC and AES-CTR keys. */
  function ExportKeyAes(format: KeyFormat, key: CryptoKey): (r: Result<AesExportedKey>)
    requires key.algorithm == AES_CBC || key.algorithm == AES_CTR
    ensures format in {Spki, Pkcs8} ==> r == Failure(NotSupported)
    ensures format in {Raw, Jwk} && !key.handle.IsAes() ==> r == Failure(DataError)
    ensures format == Raw && key.handle.IsAes() ==> r == Success(RawKey(key.handle.data))
    ensures format == Jwk && key.handle.IsAes() ==>
      && r.Success? && r.value.JwkKey?
      && var jwk := r.value.jwk;
      && jwk.alg == Some("A" + SizeName(key.handle) + (if key.algorithm == AES_CBC then "CBC" else "CTR"))
      && jwk.kty == Some("oct") && jwk.ext == Some(key.extractable)
      && jwk.k.Some? && (forall i | 0 <= i < |jwk.k.value| :: jwk.k.value[i] != '=')
      && Base64.Repad(jwk.k.value) == Base64.Encode(key.handle.data)
      && Base64.Decode(Base64.Repad(jwk.k.value)) == Some(key.handle.data)
  {
    match format
    case Raw => if key.handle.IsAes() then Success(RawKey(key.handle.data)) else Failure(DataError)
    case Jwk =>
      if key.handle.IsAes() then
        var (alg, k) := DataToJwkParams(key.algorithm, SizeName(key.handle), key.handle.data);
        Base64.DecodeEncode(key.handle.data);
        Success(JwkKey(JsonWebKey(Some(alg), Some(key.extractable), Some(k), Some("oct"))))
      else Failure(DataError)
    case _ => Failure(NotSupported)
  }

  // ------------------------------------------------------- PBKDF2 keys

  /** PBKDF2 key import: the format must be raw (NotSupportedError), the
      usages deriveKey or deriveBits only, none at all being allowed
      (SyntaxError), and the key not extractable (SyntaxError); any bytes
      are accepted. */
  function ImportKeyPbkdf2(format: KeyFormat, data: Bytes, extractable: bool, usages: seq<KeyUsage>): (r: Result<CryptoKey>)
    ensures format != Raw ==> r == Failure(NotSupported)
    ensures format == Raw && (exists i | 0 <= i < |usages| :: !IsPbkdf2Usage(usages[i])) ==> r == Failure(Syntax)
    ensures format == Raw && (forall i | 0 <= i < |usages| :: IsPbkdf2Usage(usages[i])) && extractable ==> r == Failure(Syntax)
    ensures format == Raw && (forall i | 0 <= i < |usages| :: IsPbkdf2Usage(usages[i])) && !extractable ==>
      r == Success(CryptoKey(Secret, false, PBKDF2, KeyAlgorithm(PBKDF2), usages, Handle.Pbkdf2(data)))
  {
    if format != Raw then Failure(NotSupported)
    else if exists i | 0 <= i < |usages| :: !IsPbkdf2Usage(usages[i]) then Failure(Syntax)
    else if extractable then Failure(Syntax)
    else Success(CryptoKey(Secret, false, PBKDF2, KeyAlgorithm(PBKDF2), usages, Handle.Pbkdf2(data)))
  }

  /** The hash of an accepted PBKDF2 `hash` name. */
  function HashOfName(name: string): (r: Option<Hash>)
    ensures r.Some? <==> name in {SHA1, SHA256, SHA384, SHA512}
  {
    if name == SHA1 then Some(Hash.Sha1)
    else if name == SHA256 then Some(Hash.Sha256)
    else if name == SHA384 then Some(Hash.Sha384)
    else if name == SHA512 then Some(Hash.Sha512)
    else None
  }

  /** The PRF of PBKDF2: HMAC with the hash under the password. */
  function Prf(p: Primitives, h: Hash, password: Bytes): Bytes -> Bytes
  {
    m => p.hmac(h, password, m)
  }

  /** PBKDF2 bit derivation: the length must be given, non-zero and a
      multiple of 8, the iteration count non-zero (OperationError); the hash
      must be `Algorithm` with an exact SHA name (NotSupportedError). The
      password is the key's bytes whatever its tag. */
  function Pbkdf2DeriveBits(p: Primitives, params: SubtlePbkdf2Params, key: CryptoKey, length: Option<u32>): (r: Result<Bytes>)
    ensures length.None? || length.value == 0 || length.value % 8 != 0 ==> r == Failure(Operation)
    ensures length.Some? && length.value > 0 && length.value % 8 == 0 && params.iterations == 0 ==> r == Failure(Operation)
    ensures length.Some? && length.value > 0 && length.value % 8 == 0 && params.iterations > 0 && !params.hash.Algorithm? ==> r == Failure(NotSupported)
    ensures length.Some? && length.value > 0 && length.value % 8 == 0 && params.iterations > 0 && params.hash.Algorithm? ==>
      (HashOfName(params.hash.name).None? <==> r == Failure(NotSupported)) && (HashOfName(params.hash.name).Some? <==> r.Success?)
    ensures r.Success? ==>
      && params.hash.Algorithm? && HashOfName(params.hash.name).Some?
      && var h := HashOfName(params.hash.name).value;
      && r.value == Pbkdf2.RfcDerive(Prf(p, h, key.handle.data), OutputLength(h), params.salt, params.iterations, length.value / 8)
      && |r.value| * 8 == length.value
  {
    if length.None? || length.value == 0 || length.value % 8 != 0 then Failure(Operation)
    else if params.iterations == 0 then Failure(Operation)
    else if !params.hash.Algorithm? then Failure(NotSupported)
    else match HashOfName(params.hash.name)
      case None => Failure(NotSupported)
      case Some(h) =>
        var prf := Prf(p, h, key.handle.data);
        Pbkdf2.DeriveIsRfc(prf, OutputLength(h), params.salt, params.iterations, length.value / 8);
        Success(Pbkdf2.Derive(prf, OutputLength(h), params.salt, params.iterations, length.value / 8))
  }

  /** Bit derivation writing into a zeroed result buffer. */
  method Pbkdf2DeriveBitsInto(p: Primitives, params: SubtlePbkdf2Params, key: CryptoKey, length: Option<u32>) returns (r: Result<Bytes>)
    ensures r == Pbkdf2DeriveBits(p, params, key, length)
  {
    if length.None? || length.value == 0 || length.value % 8 != 0 {
      return Failure(Operation);
    }
    if params.iterations == 0 {
      return Failure(Operation);
    }
    if !params.hash.Algorithm? {
      return Failure(NotSupported);
    }
    var h := HashOfName(params.hash.name);
    if h.None? {
      return Failure(NotSupported);
    }
    var result := Pbkdf2.DeriveInto(Prf(p, h.value, key.handle.data), OutputLength(h.value), params.salt, params.iterations, length.value / 8);
    return Success(result);
  }

  // ------------------------------------------------------- dispatch

  function DeriveBitsWith(p: Primitives, alg: NormalizedAlgorithm, key: CryptoKey, length: Option<u32>): (r: Result<Bytes>)
    ensures !alg.Pbkdf2Params? ==> r == Failure(NotSupported)
    ensures alg.Pbkdf2Params? ==> r == Pbkdf2DeriveBits(p, alg.pbkdf2, key, length)
  {
    match alg
    case Pbkdf2Params(params) => Pbkdf2DeriveBits(p, params, key, length)
    case _ => Failure(NotSupported)
  }

  function ImportKeyWith(alg: NormalizedAlgorithm, format: KeyFormat, secret: Bytes, extractable: bool, usages: seq<KeyUsage>): (r: Result<CryptoKey>)
    ensures !alg.Algorithm? || alg.name !in {AES_CBC, AES_CTR, PBKDF2} ==> r == Failure(NotSupported)
    ensures alg == Algorithm(AES_CBC) ==> r == ImportKeyAes(format, secret, extractable, usages, AES_CBC)
    ensures alg == Algorithm(AES_CTR) ==> r == ImportKeyAes(format, secret, extractable, usages, AES_CTR)
    ensures alg == Algorithm(PBKDF2) ==> r == ImportKeyPbkdf2(format, secret, extractable, usages)
  {
    match alg
    case Algorithm(name) =>
      if name == AES_CBC then ImportKeyAes(format, secret, extractable, usages, AES_CBC)
      else if name == AES_CTR then ImportKeyAes(format, secret, extractable, usages, AES_CTR)
      else if name == PBKDF2 then ImportKeyPbkdf2(format, secret, extractable, usages)
      else Failure(NotSupported)
    case _ => Failure(NotSupported)
  }

  function DigestWith(p: Primitives, alg: NormalizedAlgorithm, data: Bytes): (r: Result<Bytes>)
    ensures !alg.Sha1? && !alg.Sha256? && !alg.Sha384? && !alg.Sha512? ==> r == Failure(NotSupported)
    ensures alg.Sha1? ==> r == Success(p.digest(Hash.Sha1, data))
    ensures alg.Sha256? ==> r == Success(p.digest(Hash.Sha256, data))
    ensures alg.Sha384? ==> r == Success(p.digest(Hash.Sha384, data))
    ensures alg.Sha512? ==> r == Success(p.digest(Hash.Sha512, data))
  {
    match alg
    case Sha1 => Success(p.digest(Hash.Sha1, data))
    case Sha256 => Success(p.digest(Hash.Sha256, data))
    case Sha384 => Success(p.digest(Hash.Sha384, data))
    case Sha512 => Success(p.digest(Hash.Sha512, data))
    case _ => Failure(NotSupported)
  }

  // ------------------------------------------------------- methods

  /** encrypt(): the algorithm must normalise to AES-CBC or AES-CTR
      parameters (NotSupportedError otherwise, whatever the normalisation
      error), the key must allow encryption and its algorithm must be the
      parameters' name (InvalidAccessError). */
  function Encrypt(p: Primitives, algorithm: AlgorithmIdentifier, key: CryptoKey, data: Bytes): (r: Result<Bytes>)
  {
    var validUsage := KeyUsage.Encrypt in key.usages;
    match Normalize(algorithm, OP_ENCRYPT)
    case Success(AesCbcParams(params)) =>
      if !validUsage || params.name != key.algorithm then Failure(InvalidAccess)
      else EncryptAesCbc(p, params, key, data)
    case Success(AesCtrParams(params)) =>
      if !validUsage || params.name != key.algorithm then Failure(InvalidAccess)
      else EncryptDecryptAesCtr(p, params, key, data)
    case _ => Failure(NotSupported)
  }

  /** decrypt(): as encrypt(), with the decrypt usage. */
  function Decrypt(p: Primitives, algorithm: AlgorithmIdentifier, key: CryptoKey, data: Bytes): (r: Result<Bytes>)
  {
    var validUsage := KeyUsage.Decrypt in key.usages;
    match Normalize(algorithm, OP_DECRYPT)
    case Success(AesCbcParams(params)) =>
      if !validUsage || params.name != key.algorithm then Failure(InvalidAccess)
      else DecryptAesCbc(p, params, key, data)
    case Success(AesCtrParams(params)) =>
      if !validUsage || params.name != key.algorithm then Failure(InvalidAccess)
      else EncryptDecryptAesCtr(p, params, key, data)
    case _ => Failure(NotSupported)
  }

  /** digest(): a normalisation error is returned as it is. */
  function Digest(p: Primitives, algorithm: AlgorithmIdentifier, data: Bytes): (r: Result<Bytes>)
  {
    match Normalize(algorithm, OP_DIGEST)
    case Failure(e) => Failure(e)
    case Success(alg) => DigestWith(p, alg, data)
  }

  /** generateKey(): a normalisation error is returned as it is; only AES
      key-generation parameters are supported. */
  function GenerateKey(algorithm: AlgorithmIdentifier, extractable: bool, usages: seq<KeyUsage>, random: nat -> byte): (r: Result<CryptoKey>)
  {
    match Normalize(algorithm, OP_GENERATE_KEY)
    case Failure(e) => Failure(e)
    case Success(AesKeyGenParams(params)) => GenerateKeyAes(usages, params, extractable, random)
    case Success(_) => Failure(NotSupported)
  }

  /** deriveBits(): a normalisation error, then a base key without the
      deriveBits usage (InvalidAccessError), then the derivation. */
  function DeriveBits(p: Primitives, algorithm: AlgorithmIdentifier, baseKey: CryptoKey, length: Option<u32>): (r: Result<Bytes>)
  {
    match Normalize(algorithm, OP_DERIVE_BITS)
    case Failure(e) => Failure(e)
    case Success(alg) =>
      if KeyUsage.DeriveBits !in baseKey.usages then Failure(InvalidAccess)
      else DeriveBitsWith(p, alg, baseKey, length)
  }

  /** The key data argument of importKey(). */
  datatype KeyData = Buffer(bytes: Bytes) | JwkData(jwk: JsonWebKey)

  /** The secret of the key data: the bytes of a buffer, or a JWK's `k`
      padded with `=` to a multiple of four characters and decoded as
      standard base64 (SyntaxError if `k` is missing or does not decode). */
  function KeyDataBytes(keyData: KeyData): (r: Result<Bytes>)
    ensures keyData.Buffer? ==> r == Success(keyData.bytes)
    ensures keyData.JwkData? && keyData.jwk.k.None? ==> r == Failure(Syntax)
    ensures keyData.JwkData? && keyData.jwk.k.Some? ==>
      r == match Base64.Decode(Base64.Repad(keyData.jwk.k.value)) case None => Failure(Syntax) case Some(b) => Success(b)
    ensures r.Failure? ==> r.error == Syntax
  {
    match keyData
    case Buffer(b) => Success(b)
    case JwkData(jwk) =>
      if jwk.k.None? then Failure(Syntax)
      else match Base64.Decode(Base64.Repad(jwk.k.value))
        case None => Failure(Syntax)
        case Some(b) => Success(b)
  }

  /** The JWK part of the key data computed with the padding loop. */
  method KeyDataBytesPadded(keyData: KeyData) returns (r: Result<Bytes>)
    ensures r == KeyDataBytes(keyData)
  {
    match keyData
    case Buffer(b) =>
      return Success(b);
    case JwkData(jwk) =>
      if jwk.k.None? {
        return Failure(Syntax);
      }
      var dataString := Base64.PadToMultipleOfFour(jwk.k.value);
      var decoded := Base64.Decode(dataString);
      if decoded.None? {
        return Failure(Syntax);
      }
      return Success(decoded.value);
  }

  /** importKey(): a normalisation error, then the key data, then the
      import of the normalised algorithm. */
  function ImportKey(algorithm: AlgorithmIdentifier, format: KeyFormat, keyData: KeyData, extractable: bool, usages: seq<KeyUsage>): (r: Result<CryptoKey>)
  {
    match Normalize(algorithm, OP_IMPORT_KEY)
    case Failure(e) => Failure(e)
    case Success(alg) =>
      match KeyDataBytes(keyData)
      case Failure(e) => Failure(e)
      case Success(secret) => ImportKeyWith(alg, format, secret, extractable, usages)
  }

  /** The algorithms exportKey() refuses before anything else. */
  predicate NotExportable(name: string)
  {
    name in {SHA1, SHA256, SHA384, SHA512, HKDF, PBKDF2}
  }

  /** exportKey(): hash and KDF keys are NotSupportedError, a key that is
      not extractable InvalidAccessError; AES-CBC and AES-CTR keys are
      exported, any other NotSupportedError. */
  function ExportKey(format: KeyFormat, key: CryptoKey): (r: Result<AesExportedKey>)
  {
    if NotExportable(key.algorithm) then Failure(NotSupported)
    else if !key.extractable then Failure(InvalidAccess)
    else if key.algorithm == AES_CBC || key.algorithm == AES_CTR then ExportKeyAes(format, key)
    else Failure(NotSupported)
  }
}
