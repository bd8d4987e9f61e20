# SubtleCrypto of the Servo engine, modelled in Dafny

This project models the core of Servo's `SubtleCrypto` interface, the Web
Cryptography API object exposed as `crypto.subtle`. It covers:

- algorithm normalisation: how an algorithm argument is looked up, by its
  upper-cased name and the operation, in the table of supported algorithms;
- the checks `encrypt`, `decrypt`, `digest`, `generateKey`, `deriveBits`,
  `importKey` and `exportKey` make, in order, and the error each check gives;
- the per-algorithm steps: AES-CBC with PKCS#7 padding, AES-CTR with a 64-bit
  big-endian counter, AES key generation, import and export (raw and JWK),
  PBKDF2 key import and bit derivation, and the SHA digests.

Every method is a function from its arguments to the value its promise
resolves with, or to the `Error` it rejects with. The engine changes buffers
in place in six places:

- the CBC decryption buffer;
- the CTR keystream buffer;
- the PBKDF2 result buffer;
- the random key bytes;
- the `=` re-padding loop of a JWK `k`;
- the `retain` that strips that padding.

Each of these is a method over an array or a string, proved equal to the
function the operations use.

AES, SHA and HMAC are not modelled inside. They enter as function values of
a `Primitives` record that every operation takes. The round-trip lemmas
assume one fact about AES: decryption under a key undoes encryption under
the same key (`Crypto.BlockInverse`).

Modules, one per file:

- `Results`: errors and results.
- `Bytes`: bytes as integers 0 to 255, the fixed-width integers, big-endian values, and XOR defined bit by bit.
- `Pkcs7`: PKCS#7 padding.
- `BlockModes`: CBC and CTR (NIST SP 800-38A).
- `Base64`: standard, canonical base64 (section 4 of RFC 4648), plus the JWK padding handling.
- `Crypto`: the primitives.
- `Pbkdf2`: section 5.2 of RFC 8018.
- `Keys`: `CryptoKey` and its handle.
- `Algorithms`: normalisation.
- `SubtleCrypto`: the operations.
- `Properties`: caller-level lemmas.

The model keeps four behaviours of the code as written:

- **Generated keys are unusable.** `generate_key_aes` allocates `length`
  bytes, not `length / 8`. A generated key therefore never has the length
  its AES variant needs. Using it to encrypt or decrypt reaches the crates'
  length assertion, which is modelled as the `Panic` error. Re-importing its
  raw export gives DataError.
- **Case quirk in encrypt/decrypt.** An object descriptor is looked up
  case-insensitively. But the AES-CBC and AES-CTR parameters keep their
  `name` in the case given, and encrypt and decrypt compare that name with
  the key's algorithm name. So `{name: "aes-cbc"}` is InvalidAccessError
  for an AES-CBC key.
- **Bare names are not normalised.** A bare string descriptor becomes
  `Algorithm(name)` verbatim. Encrypt, decrypt and digest never accept it,
  and importKey accepts it only in exact upper case.
- **PBKDF2 hash.** The derivation accepts only a bare SHA name as `hash`.
  An object hash normalises to a SHA variant, which the derivation rejects
  as NotSupportedError.

## Model

| member | source | states |
|---|---|---|
| Pkcs7.Pad | components/script/dom/subtlecrypto.rs:813-825 | padding gives a whole number of blocks, 1 to 16 bytes longer, the input as prefix and every pad byte equal to the pad length |
| Pkcs7.Unpad | components/script/dom/subtlecrypto.rs:851-868 | no contract of its own: UnpadInvertsPad states that it succeeds with p exactly on Pad(p) |
| Pkcs7.UnpadInvertsPad | components/script/dom/subtlecrypto.rs:851-868 | unpadding a block-aligned buffer succeeds with p exactly when the buffer is Pad(p) |
| Pkcs7.UnpadOfPad | components/script/dom/subtlecrypto.rs:851-868 | unpadding a padded message gives the message back |
| Pkcs7.PadOfUnpad | components/script/dom/subtlecrypto.rs:851-868 | a buffer that unpads to p is Pad(p): padding is checked strictly |
| BlockModes.CbcEncryptBlocks | components/script/dom/subtlecrypto.rs:98-103 | CBC encryption keeps the length of the padded plaintext |
| BlockModes.CbcDecryptBlocks | components/script/dom/subtlecrypto.rs:98-103 | CBC decryption keeps the length of the ciphertext |
| BlockModes.CbcRoundTrip | components/script/dom/subtlecrypto.rs:798-877 | with an inverse block function, CBC decryption under the same IV undoes CBC encryption |
| BlockModes.CbcDecryptInPlace | components/script/dom/subtlecrypto.rs:848-868 | decrypting the buffer in place leaves the CBC decryption of its old contents |
| BlockModes.NextCounter | components/script/dom/subtlecrypto.rs:104-106 | no contract of its own: NextCounterSteps states what the Ctr64BE counter step does |
| BlockModes.NextCounterSteps | components/script/dom/subtlecrypto.rs:104-106 | the counter step keeps the first 8 bytes, the nonce, and adds one modulo 2^64 to the last 8 big-endian bytes |
| BlockModes.CtrKeystreamXor | components/script/dom/subtlecrypto.rs:893-907 | the CTR output has the input's length |
| BlockModes.CtrInvolution | components/script/dom/subtlecrypto.rs:880-915 | applying the same keystream twice gives the input back |
| BlockModes.CtrApplyKeystream | components/script/dom/subtlecrypto.rs:893-907 | XORing the keystream into the buffer in place leaves the CTR transform of its old contents |
| Bytes.IncrementBE | components/script/dom/subtlecrypto.rs:104-106 | incrementing keeps the length; IncrementBEValue gives its value |
| Bytes.IncrementBEValue | components/script/dom/subtlecrypto.rs:104-106 | incrementing a big-endian string adds one to its value modulo 256^length |
| Bytes.XorTwice | components/script/dom/subtlecrypto.rs:893-907 | XORing the same byte twice restores the original byte |
| Bytes.NatToBEValue | components/script/dom/subtlecrypto.rs:1212-1218 | the big-endian encoding of n in len bytes has value n mod 256^len |
| Base64.DecodeChar | components/script/dom/subtlecrypto.rs:495 | a decoded character is a 6-bit value |
| Base64.DecodeEncodeSextet | components/script/dom/subtlecrypto.rs:495 | each 6-bit value's character decodes to it and is not `=` |
| Base64.EncodeDecodeChar | components/script/dom/subtlecrypto.rs:495 | a decodable character is the encoding of its value |
| Base64.Encode | components/script/dom/subtlecrypto.rs:1143 | the encoding is a whole number of 4-character groups, empty exactly for empty input |
| Base64.EncodeShape | components/script/dom/subtlecrypto.rs:1143 | the encoding is alphabet characters followed by exactly the 0, 1 or 2 `=` the input length calls for |
| Base64.Decode | components/script/dom/subtlecrypto.rs:495 | a string whose length is not a multiple of four does not decode |
| Base64.DecodeGroup | components/script/dom/subtlecrypto.rs:495 | a decoded group gives 1 to 3 bytes, exactly 3 when it is not the last group |
| Base64.DecodeGroups | components/script/dom/subtlecrypto.rs:495 | no contract of its own: with Decode, pinned by DecodeEncode and EncodeDecode |
| Base64.DecodeEncode | components/script/dom/subtlecrypto.rs:495 | decoding the encoding of any bytes gives them back |
| Base64.EncodeDecode | components/script/dom/subtlecrypto.rs:495 | decoding is canonical: a string that decodes to b is the encoding of b |
| Base64.UrlAlphabetRejected | components/script/dom/subtlecrypto.rs:495 | a string containing `-` or `_` does not decode |
| Base64.StripPadding | components/script/dom/subtlecrypto.rs:1144 | the result is no longer than the input and contains no `=` |
| Base64.StripPaddingAppend | components/script/dom/subtlecrypto.rs:1144 | stripping distributes over concatenation |
| Base64.StripPaddingKeeps | components/script/dom/subtlecrypto.rs:1144 | a string without `=` is unchanged |
| Base64.StripPaddingDrops | components/script/dom/subtlecrypto.rs:1144 | a string of `=` only becomes empty |
| Base64.Repad | components/script/dom/subtlecrypto.rs:492-494 | re-padding appends fewer than four `=` and gives a multiple of four, with the input as prefix |
| Base64.RepadStripEncode | components/script/dom/subtlecrypto.rs:1143-1144 | re-padding a stripped encoding restores the encoding |
| Base64.JwkValueRoundTrip | components/script/dom/subtlecrypto.rs:492-501 | the JWK `k` of any key bytes, re-padded and decoded as importKey does, gives the bytes back |
| Base64.PadToMultipleOfFour | components/script/dom/subtlecrypto.rs:492-494 | the `while len % 4 != 0 push '='` loop computes Repad |
| Base64.Retain | components/script/dom/subtlecrypto.rs:1144 | removing `=` in place leaves the stripped string as the buffer's prefix |
| Crypto.OutputLength | components/script/dom/subtlecrypto.rs:1199-1205 | SHA-1 gives 20 bytes, SHA-256 32, SHA-384 48 and SHA-512 64 |
| Keys.Handle.AesKeyLength | components/script/dom/subtlecrypto.rs:813-824 | AES-128 keys have 16 bytes, AES-192 24 and AES-256 32 |
| Pbkdf2.BlockIndex | components/script/dom/subtlecrypto.rs:1212-1218 | INT(i) is four bytes |
| Pbkdf2.BlockIndexValue | components/script/dom/subtlecrypto.rs:1212-1218 | the big-endian value of INT(i) is i mod 2^32 |
| Pbkdf2.RfcDerive | components/script/dom/subtlecrypto.rs:1212-1218 | the reference derivation of section 5.2 of RFC 8018 has dkLen bytes; DeriveIsRfc equates it with the chunk-wise computation |
| Pbkdf2.Derive | components/script/dom/subtlecrypto.rs:1212-1218 | the derived key has dkLen bytes |
| Pbkdf2.DeriveIsRfc | components/script/dom/subtlecrypto.rs:1212-1218 | the chunk-wise computation equals the first dkLen bytes of T_1 &#124;&#124; ... &#124;&#124; T_l of section 5.2 of RFC 8018 |
| Pbkdf2.DeriveFromIsConcat | components/script/dom/subtlecrypto.rs:1212-1218 | from any block on, the chunks are a prefix of the concatenated F blocks |
| Pbkdf2.AccumulatePrefix | components/script/dom/subtlecrypto.rs:1212-1218 | a short final chunk is the prefix of a full F block |
| Pbkdf2.DeriveInto | components/script/dom/subtlecrypto.rs:1212-1218 | filling a zeroed buffer block by block gives Derive |
| Pbkdf2.BlockInto | components/script/dom/subtlecrypto.rs:1212-1218 | XORing U_1..U_c into one chunk changes only that chunk |
| Algorithms.Normalize | components/script/dom/subtlecrypto.rs:717-794 | no contract of its own: a bare name is kept (NormalizeNameVerbatim), an object is looked up as the table says (NormalizeFollowsTable), case-insensitively (NormalizeCaseInsensitive) |
| Algorithms.Lookup | components/script/dom/subtlecrypto.rs:732-792 | no contract of its own: the match on (upper-cased name, operation), checked against the table by NormalizeFollowsTable and NormalizedVariants |
| Algorithms.UpperChar | components/script/dom/subtlecrypto.rs:732 | a character upper-cases to one to three characters |
| Algorithms.ToUpperAppend | components/script/dom/subtlecrypto.rs:732 | upper-casing distributes over concatenation |
| Algorithms.ToUpperIdempotent | components/script/dom/subtlecrypto.rs:732 | upper-casing twice is upper-casing once |
| Algorithms.ParamsOf | components/script/dom/subtlecrypto.rs:737-741 | a dictionary conversion that throws is OperationError, one that fails SyntaxError, one that succeeds gives the dictionary |
| Algorithms.NormalizeFollowsTable | components/script/dom/subtlecrypto.rs:726-792 | an object without a name is SyntaxError; an (upper-cased name, operation) pair outside the table is NotSupportedError; a pair in the table gives what its entry makes of the object |
| Algorithms.NormalizeNameVerbatim | components/script/dom/subtlecrypto.rs:722-725 | a bare name becomes `Algorithm` with the name unchanged, for every operation |
| Algorithms.NormalizeCaseInsensitive | components/script/dom/subtlecrypto.rs:732-735 | an object's name is matched regardless of case |
| Algorithms.NormalizedVariants | components/script/dom/subtlecrypto.rs:735-788 | for each operation, the only variants an object can normalise to; digest yields only the SHA variants |
| SubtleCrypto.EncryptAesCbc | components/script/dom/subtlecrypto.rs:798-833 | a bad IV length is OperationError, a non-AES key DataError, key bytes of the wrong length a panic; with a 16-byte IV and a well-sized AES key it succeeds, and the ciphertext is block-aligned and 1 to 16 bytes longer |
| SubtleCrypto.DecryptAesCbc | components/script/dom/subtlecrypto.rs:836-877 | the same checks, then ciphertext that is not block-aligned is OperationError; once the checks pass, a CBC decryption that is Pad(q) gives q, and one that is no padded message (bad PKCS#7 padding) is OperationError; a plaintext is shorter than the ciphertext and pads to its CBC decryption |
| SubtleCrypto.CbcRoundTrip | components/script/dom/subtlecrypto.rs:798-877 | decrypt_aes_cbc undoes encrypt_aes_cbc for the same parameters and key |
| SubtleCrypto.DecryptAesCbcInPlace | components/script/dom/subtlecrypto.rs:836-877 | decrypting a copy of the ciphertext in place gives decrypt_aes_cbc's result |
| SubtleCrypto.EncryptDecryptAesCtr | components/script/dom/subtlecrypto.rs:880-915 | a counter that is not 16 bytes, or a length outside 1..128, is OperationError; a non-AES key DataError; a wrong-length key a panic; otherwise it succeeds, with output length equal to input length |
| SubtleCrypto.CtrTwiceIsIdentity | components/script/dom/subtlecrypto.rs:880-915 | AES-CTR applied twice with the same key and counter gives the input |
| SubtleCrypto.CtrLengthUnused | components/script/dom/subtlecrypto.rs:886-890 | the counter-length parameter is only range-checked and does not affect the output |
| SubtleCrypto.EncryptDecryptAesCtrInPlace | components/script/dom/subtlecrypto.rs:880-915 | applying the keystream to a copy in place gives the functional AES-CTR result |
| SubtleCrypto.RandomBytes | components/script/dom/subtlecrypto.rs:926-927 | the drawn bytes are the first n of the random stream |
| SubtleCrypto.GenerateKeyAes | components/script/dom/subtlecrypto.rs:920-973 | the check order (length, then usages, then name) with their errors; a generated key is secret, carries the given extractable flag, usages and name, the AES algorithm object of that length, and `length` random bytes; when all three checks pass it succeeds |
| SubtleCrypto.GeneratedKeyIsOversized | components/script/dom/subtlecrypto.rs:926-933 | a generated key has 8 times the bytes its AES variant needs |
| SubtleCrypto.FillRandom | components/script/dom/subtlecrypto.rs:926-927 | filling a buffer from the generator stores the stream's first bytes |
| SubtleCrypto.GenerateKeyAesFilled | components/script/dom/subtlecrypto.rs:920-973 | generating with a filled buffer gives GenerateKeyAes's result |
| SubtleCrypto.ImportKeyAes | components/script/dom/subtlecrypto.rs:978-1028 | usages (SyntaxError), then format (NotSupportedError), then key length 128/192/256 bits (DataError); when all three pass it succeeds, and the imported key stores the bytes as given under a variant of the matching length |
| SubtleCrypto.DataToJwkParams | components/script/dom/subtlecrypto.rs:1137-1146 | `alg` is "A" + size + "CBC" or "CTR"; `k` contains no `=` and re-pads to the standard base64 of the key |
| SubtleCrypto.JwkKeyValue | components/script/dom/subtlecrypto.rs:1143-1145 | encoding then stripping `=` in place gives the padding-free encoding |
| SubtleCrypto.ExportKeyAes | components/script/dom/subtlecrypto.rs:1032-1077 | raw gives the key bytes; jwk gives kty "oct", the key's extractable flag, the size-named alg and a `k` without `=` that re-pads to the standard base64 of the key bytes and decodes back to them; a non-AES handle is DataError; other formats NotSupportedError |
| SubtleCrypto.ImportKeyPbkdf2 | components/script/dom/subtlecrypto.rs:1081-1129 | format other than raw is NotSupportedError; a usage other than deriveKey/deriveBits, or extractable, is SyntaxError; otherwise a non-extractable PBKDF2 key holding the bytes |
| SubtleCrypto.Pbkdf2DeriveBits | components/script/dom/subtlecrypto.rs:1179-1227 | a missing, zero or non-byte-multiple length, or zero iterations, is OperationError; a hash that is not a bare name, or a bare name other than exactly SHA-1/256/384/512, is NotSupportedError; an exact SHA name succeeds, and the result is PBKDF2-HMAC with the named hash and length/8 bytes |
| SubtleCrypto.HashOfName | components/script/dom/subtlecrypto.rs:1199-1205 | a `hash` name is accepted exactly when it is one of the four SHA names, in upper case |
| SubtleCrypto.Pbkdf2DeriveBitsInto | components/script/dom/subtlecrypto.rs:1179-1227 | deriving into a zeroed buffer gives Pbkdf2DeriveBits's result |
| SubtleCrypto.DeriveBitsWith | components/script/dom/subtlecrypto.rs:1231-1236 | only PBKDF2 parameters derive bits; ECDSA, HKDF and anything else is NotSupportedError |
| SubtleCrypto.ImportKeyWith | components/script/dom/subtlecrypto.rs:1238-1263 | `Algorithm` AES-CBC/AES-CTR import as AES keys of that name, PBKDF2 as a PBKDF2 key; anything else is NotSupportedError |
| SubtleCrypto.DigestWith | components/script/dom/subtlecrypto.rs:1265-1276 | each SHA variant digests with its hash; anything else is NotSupportedError |
| SubtleCrypto.KeyDataBytes | components/script/dom/subtlecrypto.rs:487-510 | a buffer gives its bytes unchanged; a JWK without `k` is SyntaxError; a JWK with `k` gives the standard base64 decoding of `k` re-padded with `=`, or SyntaxError when that does not decode; every failure is SyntaxError |
| SubtleCrypto.KeyDataBytesPadded | components/script/dom/subtlecrypto.rs:487-510 | the padding loop followed by decoding gives KeyDataBytes's result |
| SubtleCrypto.Encrypt | components/script/dom/subtlecrypto.rs:144-212 | no contract of its own: its checks are stated by Properties.EncryptGates and its results by EncryptDecryptRoundTrip, CbcCiphertextLength and CtrOutputLength |
| SubtleCrypto.Decrypt | components/script/dom/subtlecrypto.rs:213-281 | no contract of its own: stated by Properties.DecryptGates and EncryptDecryptRoundTrip |
| SubtleCrypto.Digest | components/script/dom/subtlecrypto.rs:282-350 | no contract of its own: a normalisation error is passed on, then DigestWith; Properties.DigestObject and NameDescriptorNotSupported |
| SubtleCrypto.GenerateKey | components/script/dom/subtlecrypto.rs:351-392 | no contract of its own: after normalisation it is GenerateKeyAes; Properties.GeneratedKeyCannotEncrypt and GeneratedKeyRawReimportFails |
| SubtleCrypto.DeriveBits | components/script/dom/subtlecrypto.rs:393-466 | no contract of its own: Properties.DeriveBitsNeedsUsage, ObjectHashNotSupported and DeriveBitsPbkdf2 |
| SubtleCrypto.ImportKey | components/script/dom/subtlecrypto.rs:467-531 | no contract of its own: Properties.ImportKeyByName, AesImportExportRoundTrip and JwkUrlAlphabetRejected |
| SubtleCrypto.ExportKey | components/script/dom/subtlecrypto.rs:532-587 | no contract of its own: Properties.ExportKeyAccess, DenyListNotSupported and Pbkdf2KeyNotExported |
| Properties.EncryptGates | components/script/dom/subtlecrypto.rs:153-200 | encrypt is NotSupportedError exactly when the algorithm does not normalise to AES-CBC/CTR parameters, and InvalidAccessError exactly when the encrypt usage is missing or the key's algorithm name differs |
| Properties.DecryptGates | components/script/dom/subtlecrypto.rs:222-269 | the same two equivalences for decrypt and the decrypt usage |
| Properties.NameDescriptorNotSupported | components/script/dom/subtlecrypto.rs:722-725 | a bare-name descriptor is NotSupportedError for encrypt, decrypt and digest |
| Properties.LowerCaseNameRefused | components/script/dom/subtlecrypto.rs:643 | `{name: "aes-cbc"}` finds AES-CBC but is InvalidAccessError against an AES-CBC key |
| Properties.NormalizeEncryptDecrypt | components/script/dom/subtlecrypto.rs:736-751 | encrypt and decrypt normalise identically |
| Properties.EncryptDecryptRoundTrip | components/script/dom/subtlecrypto.rs:144-269 | decrypt of encrypt with the same algorithm argument and a key allowing both gives the plaintext back |
| Properties.CbcCiphertextLength | components/script/dom/subtlecrypto.rs:813-825 | AES-CBC ciphertext is block-aligned and 1 to 16 bytes longer than the plaintext |
| Properties.CtrOutputLength | components/script/dom/subtlecrypto.rs:880-915 | AES-CTR output has the input's length |
| Properties.GeneratedKeyCannotEncrypt | components/script/dom/subtlecrypto.rs:926-933 | no encryption with a generated key succeeds |
| Properties.GeneratedKeyRawReimportFails | components/script/dom/subtlecrypto.rs:926-933 | the raw export of a generated key is its bytes, whose re-import is DataError |
| Properties.ImportKeyByName | components/script/dom/subtlecrypto.rs:1238-1263 | a bare "AES-CBC" or "AES-CTR" imports an AES key of that name, a bare "PBKDF2" a PBKDF2 key; a bare name outside these three exact names is NotSupportedError |
| Properties.AesImportExportRoundTrip | components/script/dom/subtlecrypto.rs:1032-1077 | a raw-imported AES key exports raw to its bytes and its JWK export imports back to the same key |
| Properties.JwkUrlAlphabetRejected | components/script/dom/subtlecrypto.rs:495-501 | a JWK `k` containing `-` or `_` is SyntaxError |
| Properties.ExportKeyAccess | components/script/dom/subtlecrypto.rs:551-560 | exportKey is InvalidAccessError exactly for a non-extractable key not of a hash or KDF algorithm |
| Properties.DenyListNotSupported | components/script/dom/subtlecrypto.rs:551-556 | a SHA, HKDF or PBKDF2 key is NotSupportedError for every format, whether extractable or not |
| Properties.Pbkdf2KeyNotExported | components/script/dom/subtlecrypto.rs:551-556 | a PBKDF2 key is never exported |
| Properties.DeriveBitsNeedsUsage | components/script/dom/subtlecrypto.rs:437-440 | a base key without the deriveBits usage is InvalidAccessError |
| Properties.ObjectHashNotSupported | components/script/dom/subtlecrypto.rs:1195-1197 | an object `hash` makes PBKDF2 deriveBits NotSupportedError |
| Properties.DeriveBitsPbkdf2 | components/script/dom/subtlecrypto.rs:1179-1227 | deriveBits over an imported password with a bare SHA hash name is RFC 8018 PBKDF2 with that HMAC, length/8 bytes |
| Properties.DigestObject | components/script/dom/subtlecrypto.rs:1265-1276 | an object named as any of the four SHA variants, in any case, digests with that hash |

## Left out

- The Promise and task-queue plumbing and the ArrayBuffer copies are not modelled. Each method is the value the promise settles with.
- Conversion of JavaScript values to WebIDL dictionaries is not modelled. An object is modelled by what each dictionary conversion gives: a value, a failed conversion, or a thrown exception.
- The model lets an object's algorithm name and its parameter dictionaries' `name` differ. In the engine both read the same property, so the model is more general there.
- The random generator becomes a parameter: a stream of bytes.
- AES, SHA-1/2 and HMAC are uninterpreted functions. Only their inverse property for AES is assumed, as a hypothesis.
- `to_uppercase` is modelled for ASCII letters, dotless i, long s, sharp s and the Latin ligatures U+FB00-U+FB06. Every other character is left unchanged. No other character's upper case consists of ASCII only, so no table lookup is decided differently.
- The JWK padding loop counts UTF-8 bytes, while the model counts characters. The two differ only for a non-ASCII `k`, which fails to decode either way.
- The length assertion of `GenericArray::from_slice` is a panic. The model gives it as the error value `Panic` instead of aborting.
- Counter wrap-around is modelled. PBKDF2's block index is written as its low 32 bits (`Pbkdf2.BlockIndexValue`); for a `u32` bit length the index never exceeds 2^32 - 1, so no wrap is reachable. The `usize` sizes are modelled as unbounded; they cannot overflow for a `u32` bit length.
- `SubtleCrypto.ExportKeyAes` requires an AES-CBC or AES-CTR key, and `SubtleCrypto.DataToJwkParams` requires one of those names. Any other name reaches `unreachable!()`, and the only caller passes these names only.
- The JWK members other than `alg`, `ext`, `k` and `kty` are not modelled. The code leaves them unset on export and never reads them on import.
- The names in the `SUPPORTED_ALGORITHMS` and `SUPPORTED_CURVES` lists are not modelled: AES-GCM, AES-KW, HMAC, the RSA and ECDH names, and the curves. Those lists are marked dead code, and no table entry uses these names.
- cryptokey.rs is not part of this model. `CryptoKey`'s fields are taken from how subtlecrypto.rs uses them.
