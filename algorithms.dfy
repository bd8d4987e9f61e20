/** Algorithm normalisation, the procedure of the Web Cryptography API that
    turns the algorithm argument of an operation into the parameters the
    operation runs with: a bare name is kept as it is, and a dictionary is
    looked up by its upper-cased name and the operation in the table of
    supported algorithms, then read as the parameter dictionary that table
    entry calls for. */
module Algorithms {
  import opened Bytes
  import opened Results

  // ------------------------------------------------------- names

  const AES_CBC: string := "AES-CBC"
  const AES_CTR: string := "AES-CTR"
  const SHA1: string := "SHA-1"
  const SHA256: string := "SHA-256"
  const SHA384: string := "SHA-384"
  const SHA512: string := "SHA-512"
  const HKDF: string := "HKDF"
  const PBKDF2: string := "PBKDF2"
  const ECDSA: string := "ECDSA"

  const OP_ENCRYPT: string := "encrypt"
  const OP_DECRYPT: string := "decrypt"
  const OP_DIGEST: string := "digest"
  const OP_GENERATE_KEY: string := "generateKey"
  const OP_DERIVE_BITS: string := "deriveBits"
  const OP_IMPORT_KEY: string := "importKey"

  // ------------------------------------------------------- upper case

  /** The upper case of one character, as far as it can produce the ASCII
      letters of the table: ASCII lower-case letters, dotless i and long s
      (to I and S), sharp s (to SS) and the Latin ligatures U+FB00-U+FB06.
      Every other character is kept; no such character has an upper case
      made of ASCII characters only, so keeping it decides no lookup
      differently. */
  function UpperChar(c: char): (r: string)
    ensures 1 <= |r| <= 3
  {
    if 'a' <= c <= 'z' then [(c as int - 32) as char]
    else if c == '\U{0131}' then "I"
    else if c == '\U{017F}' then "S"
    else if c == '\U{00DF}' then "SS"
    else if c == '\U{FB00}' then "FF"
    else if c == '\U{FB01}' then "FI"
    else if c == '\U{FB02}' then "FL"
    else if c == '\U{FB03}' then "FFI"
    else if c == '\U{FB04}' then "FFL"
    else if c == '\U{FB05}' || c == '\U{FB06}' then "ST"
    else [c]
  }

  function ToUpper(s: string): string
    decreases |s|
  {
    if |s| == 0 then "" else UpperChar(s[0]) + ToUpper(s[1..])
  }

  /** The characters upper-casing can produce are their own upper case. */
  lemma UpperCharIdempotent(c: char)
    ensures ToUpper(UpperChar(c)) == UpperChar(c)
  {
    var u := UpperChar(c);
    if u == [c] {
      assert ToUpper(u) == UpperChar(c) + ToUpper(u[1..]);
    } else {
      assert forall i | 0 <= i < |u| :: 'A' <= u[i] <= 'Z';
      UpperLettersFixed(u);
    }
  }

  lemma {:induction false} UpperLettersFixed(u: string)
    requires forall i | 0 <= i < |u| :: 'A' <= u[i] <= 'Z'
    ensures ToUpper(u) == u
    decreases |u|
  {
    if |u| > 0 {
      UpperLettersFixed(u[1..]);
    }
  }

  lemma {:induction false} ToUpperAppend(s: string, t: string)
    ensures ToUpper(s + t) == ToUpper(s) + ToUpper(t)
    decreases |s|
  {
    if |s| == 0 {
      assert s + t == t;
    } else {
      assert (s + t)[1..] == s[1..] + t;
      ToUpperAppend(s[1..], t);
    }
  }

  /** Upper-casing twice is upper-casing once. */
  lemma {:induction false} ToUpperIdempotent(s: string)
    ensures ToUpper(ToUpper(s)) == ToUpper(s)
    decreases |s|
  {
    if |s| > 0 {
      ToUpperAppend(UpperChar(s[0]), ToUpper(s[1..]));
      UpperCharIdempotent(s[0]);
      ToUpperIdempotent(s[1..]);
    }
  }

  /** The lower-case spelling of AES-CBC upper-cases to the table's name. */
  lemma UpperAesCbc()
    ensures ToUpper("aes-cbc") == AES_CBC
  {
    UpperLettersFixed("");
    UpperTail("aes-cbc", 6, "C");
    UpperTail("aes-cbc", 5, "BC");
    UpperTail("aes-cbc", 4, "CBC");
    UpperTail("aes-cbc", 3, "-CBC");
    UpperTail("aes-cbc", 2, "S-CBC");
    UpperTail("aes-cbc", 1, "ES-CBC");
    UpperTail("aes-cbc", 0, "AES-CBC");
  }

  /** One step of upper-casing a string from its end. */
  lemma UpperTail(s: string, i: nat, u: string)
    requires i < |s| && |u| >= 1 && UpperChar(s[i]) == [u[0]] && ToUpper(s[i + 1..]) == u[1..]
    ensures ToUpper(s[i..]) == u
  {
    assert s[i..][1..] == s[i + 1..];
  }

  // ------------------------------------------------------- inputs

  /** What reading a JavaScript value as a WebIDL dictionary gives: the
      dictionary, a failed conversion, or an exception thrown while
      converting. */
  datatype Conversion<+T> = Converted(value: T) | Failed | Threw

  /** The algorithm argument: a bare name or a JavaScript object. */
  datatype AlgorithmIdentifier = Name(name: string) | Object(obj: JsObject)

  /** A JavaScript object, by what each dictionary conversion the
      normaliser may apply to it gives. Each parameter dictionary carries the
      `name` member it reads itself. */
  datatype JsObject = JsObject(
    algorithm: Conversion<string>,
    aesCbc: Conversion<AesCbcDict>,
    aesCtr: Conversion<AesCtrDict>,
    aesKeyGen: Conversion<AesKeyGenDict>,
    pbkdf2: Conversion<Pbkdf2Dict>)

  datatype AesCbcDict = AesCbcDict(name: string, iv: Bytes)
  datatype AesCtrDict = AesCtrDict(name: string, counter: Bytes, length: u8)
  datatype AesKeyGenDict = AesKeyGenDict(name: string, length: u16)
  datatype Pbkdf2Dict = Pbkdf2Dict(salt: Bytes, iterations: u32, hash: AlgorithmIdentifier)

  // ------------------------------------------------------- outputs

  datatype SubtleAesCbcParams = SubtleAesCbcParams(name: string, iv: Bytes)
  datatype SubtleAesCtrParams = SubtleAesCtrParams(name: string, counter: Bytes, length: u8)
  datatype SubtleAesKeyGenParams = SubtleAesKeyGenParams(name: string, length: u16)
  datatype SubtlePbkdf2Params = SubtlePbkdf2Params(salt: Bytes, iterations: u32, hash: NormalizedAlgorithm)

  datatype NormalizedAlgorithm =
    | Algorithm(name: string)
    | AesCbcParams(cbc: SubtleAesCbcParams)
    | AesCtrParams(ctr: SubtleAesCtrParams)
    | AesKeyGenParams(keyGen: SubtleAesKeyGenParams)
    | Pbkdf2Params(pbkdf2: SubtlePbkdf2Params)
    | Sha1
    | Sha256
    | Sha384
    | Sha512

  // ------------------------------------------------------- normalisation

  function ParamsOf<T>(c: Conversion<T>): (r: Result<T>)
    ensures r.Failure? ==> (c.Threw? <==> r.error == Operation) && (c.Failed? <==> r.error == Syntax)
    ensures r.Success? <==> c.Converted?
    ensures c.Converted? ==> r.value == c.value
  {
    match c
    case Converted(v) => Success(v)
    case Failed => Failure(Syntax)
    case Threw => Failure(Operation)
  }

  function Normalize(alg: AlgorithmIdentifier, op: string): Result<NormalizedAlgorithm>
    decreases alg, 0
  {
    match alg
    case Name(n) => Success(Algorithm(n))
    case Object(obj) =>
      if !obj.algorithm.Converted? then Failure(Syntax)
      else Lookup(ToUpper(obj.algorithm.value), op, obj.aesCbc, obj.aesCtr, obj.aesKeyGen, obj.pbkdf2)
  }

  /** The match on the upper-cased name and the operation, each arm reading
      the object as the dictionary it needs. */
  function Lookup(name: string, op: string, aesCbc: Conversion<AesCbcDict>, aesCtr: Conversion<AesCtrDict>,
                  aesKeyGen: Conversion<AesKeyGenDict>, pbkdf2: Conversion<Pbkdf2Dict>): Result<NormalizedAlgorithm>
    decreases pbkdf2, 1
  {
    if name == AES_CBC && (op == OP_ENCRYPT || op == OP_DECRYPT) then
      match ParamsOf(aesCbc)
      case Failure(e) => Failure(e)
      case Success(d) => Success(AesCbcParams(SubtleAesCbcParams(d.name, d.iv)))
    else if name == AES_CTR && (op == OP_ENCRYPT || op == OP_DECRYPT) then
      match ParamsOf(aesCtr)
      case Failure(e) => Failure(e)
      case Success(d) => Success(AesCtrParams(SubtleAesCtrParams(d.name, d.counter, d.length)))
    else if (name == AES_CBC || name == AES_CTR) && op == OP_GENERATE_KEY then
      match ParamsOf(aesKeyGen)
      case Failure(e) => Failure(e)
      case Success(d) => Success(AesKeyGenParams(SubtleAesKeyGenParams(ToUpper(d.name), d.length)))
    else if name == ECDSA && op == OP_DERIVE_BITS then Success(Algorithm(ECDSA))
    else if name == HKDF && op == OP_DERIVE_BITS then Success(Algorithm(HKDF))
    else if name == PBKDF2 && op == OP_DERIVE_BITS then
      match pbkdf2
      case Failed => Failure(Syntax)
      case Threw => Failure(Operation)
      case Converted(d) =>
        match Normalize(d.hash, OP_DIGEST)
        case Failure(e) => Failure(e)
        case Success(h) => Success(Pbkdf2Params(SubtlePbkdf2Params(d.salt, d.iterations, h)))
    else if name == AES_CBC && op == OP_IMPORT_KEY then Success(Algorithm(AES_CBC))
    else if name == AES_CTR && op == OP_IMPORT_KEY then Success(Algorithm(AES_CTR))
    else if name == PBKDF2 && op == OP_IMPORT_KEY then Success(Algorithm(PBKDF2))
    else if name == SHA1 && op == OP_DIGEST then Success(Sha1)
    else if name == SHA256 && op == OP_DIGEST then Success(Sha256)
    else if name == SHA384 && op == OP_DIGEST then Success(Sha384)
    else if name == SHA512 && op == OP_DIGEST then Success(Sha512)
    else Failure(NotSupported)
  }

  // ------------------------------------------------------- the table

  /** What a table entry makes of the object: one of the four parameter
      dictionaries, or a fixed result. */
  datatype Entry = CbcEntry | CtrEntry | KeyGenEntry | Pbkdf2Entry | Fixed(result: NormalizedAlgorithm)

  /** The supported (algorithm, operation) pairs. */
  const Table: map<(string, string), Entry> := map[
    (AES_CBC, OP_ENCRYPT) := CbcEntry,
    (AES_CBC, OP_DECRYPT) := CbcEntry,
    (AES_CTR, OP_ENCRYPT) := CtrEntry,
    (AES_CTR, OP_DECRYPT) := CtrEntry,
    (AES_CBC, OP_GENERATE_KEY) := KeyGenEntry,
    (AES_CTR, OP_GENERATE_KEY) := KeyGenEntry,
    (ECDSA, OP_DERIVE_BITS) := Fixed(Algorithm(ECDSA)),
    (HKDF, OP_DERIVE_BITS) := Fixed(Algorithm(HKDF)),
    (PBKDF2, OP_DERIVE_BITS) := Pbkdf2Entry,
    (AES_CBC, OP_IMPORT_KEY) := Fixed(Algorithm(AES_CBC)),
    (AES_CTR, OP_IMPORT_KEY) := Fixed(Algorithm(AES_CTR)),
    (PBKDF2, OP_IMPORT_KEY) := Fixed(Algorithm(PBKDF2)),
    (SHA1, OP_DIGEST) := Fixed(Sha1),
    (SHA256, OP_DIGEST) := Fixed(Sha256),
    (SHA384, OP_DIGEST) := Fixed(Sha384),
    (SHA512, OP_DIGEST) := Fixed(Sha512)
  ]

  /** The result an entry gives for an object, the PBKDF2 hash being
      normalised already (as `hash`). */
  function FromEntry(e: Entry, obj: JsObject, hash: Result<NormalizedAlgorithm>): Result<NormalizedAlgorithm>
  {
    match e
    case Fixed(r) => Success(r)
    case CbcEntry =>
      if obj.aesCbc.Converted? then Success(AesCbcParams(SubtleAesCbcParams(obj.aesCbc.value.name, obj.aesCbc.value.iv)))
      else Failure(if obj.aesCbc.Threw? then Operation else Syntax)
    case CtrEntry =>
      if obj.aesCtr.Converted? then
        var d := obj.aesCtr.value;
        Success(AesCtrParams(SubtleAesCtrParams(d.name, d.counter, d.length)))
      else Failure(if obj.aesCtr.Threw? then Operation else Syntax)
    case KeyGenEntry =>
      if obj.aesKeyGen.Converted? then
        var d := obj.aesKeyGen.value;
        Success(AesKeyGenParams(SubtleAesKeyGenParams(ToUpper(d.name), d.length)))
      else Failure(if obj.aesKeyGen.Threw? then Operation else Syntax)
    case Pbkdf2Entry =>
      if obj.pbkdf2.Converted? then
        var d := obj.pbkdf2.value;
        if hash.Success? then Success(Pbkdf2Params(SubtlePbkdf2Params(d.salt, d.iterations, hash.value)))
        else hash
      else Failure(if obj.pbkdf2.Threw? then Operation else Syntax)
  }

  /** Normalising an object follows the table: a name that is not a
      dictionary is a SyntaxError, a pair absent from the table is
      NotSupported, and a present pair gives what its entry says, with a
      parameter conversion that throws giving an OperationError and one that
      fails a SyntaxError. */
  lemma NormalizeFollowsTable(obj: JsObject, op: string)
    ensures !obj.algorithm.Converted? ==> Normalize(Object(obj), op) == Failure(Syntax)
    ensures obj.algorithm.Converted? ==>
      var key := (ToUpper(obj.algorithm.value), op);
      var hash := if obj.pbkdf2.Converted? then Normalize(obj.pbkdf2.value.hash, OP_DIGEST) else Failure(Syntax);
      Normalize(Object(obj), op) == if key in Table then FromEntry(Table[key], obj, hash) else Failure(NotSupported)
  {
  }

  /** An object whose name converts is looked up by its upper-cased name. */
  lemma NormalizeObject(obj: JsObject, op: string)
    requires obj.algorithm.Converted?
    ensures Normalize(Object(obj), op) == Lookup(ToUpper(obj.algorithm.value), op, obj.aesCbc, obj.aesCtr, obj.aesKeyGen, obj.pbkdf2)
  {
  }

  /** A bare name is never looked up: it becomes `Algorithm` with the name
      exactly as given. */
  lemma NormalizeNameVerbatim(n: string, op: string)
    ensures Normalize(Name(n), op) == Success(Algorithm(n))
  {
  }

  /** The lookup ignores case: an object named in any mixture of cases
      normalises as one named in upper case. */
  lemma NormalizeCaseInsensitive(obj: JsObject, op: string)
    requires obj.algorithm.Converted?
    ensures Normalize(Object(obj), op) == Normalize(Object(obj.(algorithm := Converted(ToUpper(obj.algorithm.value)))), op)
  {
    ToUpperIdempotent(obj.algorithm.value);
  }

  /** What succeeds for an object descriptor under each operation; in
      particular digest yields only the four SHA variants, never
      `Algorithm`. */
  lemma NormalizedVariants(obj: JsObject, op: string)
    requires Normalize(Object(obj), op).Success?
    ensures var r := Normalize(Object(obj), op).value;
      && (op == OP_ENCRYPT || op == OP_DECRYPT ==> r.AesCbcParams? || r.AesCtrParams?)
      && (op == OP_GENERATE_KEY ==> r.AesKeyGenParams?)
      && (op == OP_DERIVE_BITS ==> r.Pbkdf2Params? || r in {Algorithm(ECDSA), Algorithm(HKDF)})
      && (op == OP_IMPORT_KEY ==> r in {Algorithm(AES_CBC), Algorithm(AES_CTR), Algorithm(PBKDF2)})
      && (op == OP_DIGEST ==> r in {Sha1, Sha256, Sha384, Sha512})
      && (op !in {OP_ENCRYPT, OP_DECRYPT, OP_GENERATE_KEY, OP_DERIVE_BITS, OP_IMPORT_KEY, OP_DIGEST} ==> false)
  {
  }
}
