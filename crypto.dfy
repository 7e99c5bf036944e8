/** The symmetric-cipher framing of passward/crypto.go: key derivation from a
    passphrase, AES-GCM encryption with the nonce prepended, base64 wrappers,
    and an HMAC signature pair.

    The primitives themselves (SHA-256 of FIPS 180-4, AES-GCM of NIST
    SP 800-38D, HMAC-SHA-256, the standard base64 alphabet of section 4 of
    RFC 4648) are parameters, collected in `Primitives`; the facts the
    framing relies on are the ghost predicate `Sound`. Randomness is the
    outcome of one `rand.Read` call, `RandRead`. */
module Crypto {
  import opened Base

  /** sha256.Size */
  const Sha256Size: nat := 32
  /** aes.BlockSize; also the key length `Encrypt` and `Decrypt` ask for. */
  const AesBlockSize: nat := 16
  /** NonceSize() of the AEAD cipher.NewGCM returns (Go's standard GCM nonce). */
  const GcmNonceSize: nat := 12

  type Digest = d: Bytes | |d| == Sha256Size witness seq(32, _ => 'a')

  /** What `base64.StdEncoding.DecodeString` returns: the bytes it decoded
      (Go returns them even when it also reports an error) and whether the
      error was nil. */
  datatype Decoded = Decoded(bytes: Bytes, ok: bool)

  /** The outcome of one `rand.Read(b)` call: the bytes it placed at the
      front of `b` (so `|written|` is the count it returned) and its error. */
  datatype RandRead = RandRead(written: Bytes, err: Option<Error>)

  datatype Primitives = Primitives(
    sha256: Bytes -> Digest,
    hmacSha256: (Bytes, Bytes) -> Bytes,
    /** gcm.Seal(nil, nonce, plaintext, nil) under an AES key */
    seal: (Bytes, Bytes, Bytes) -> Bytes,
    /** gcm.Open(nil, nonce, ciphertext, nil); None is its authentication error */
    open: (Bytes, Bytes, Bytes) -> Option<Bytes>,
    b64encode: Bytes -> Bytes,
    b64decode: Bytes -> Decoded)

  /** The round trips of the primitives: GCM opens what it sealed under the
      same key and nonce, and base64 decodes what it encoded, without error. */
  ghost predicate Sound(p: Primitives) {
    && (forall key, nonce, m :: p.open(key, nonce, p.seal(key, nonce, m)) == Some(m))
    && (forall b :: p.b64decode(p.b64encode(b)) == Decoded(b, true))
  }

  /** `SignData`: the base64 of HMAC-SHA-256 of `data` keyed by the passphrase. */
  function SignData(p: Primitives, passphrase: Bytes, data: Bytes): (r: Bytes)
    ensures Sound(p) ==> p.b64decode(r) == Decoded(p.hmacSha256(passphrase, data), true)
  {
    p.b64encode(p.hmacSha256(passphrase, data))
  }

  /** `VerifySignature`: decodes the fresh signature and `expected`, ignoring
      both decoding errors, and compares the byte strings (`hmac.Equal`). */
  function VerifySignature(p: Primitives, passphrase: Bytes, data: Bytes, expected: Bytes): (r: bool)
    ensures Sound(p) ==> (r <==> p.b64decode(expected).bytes == p.hmacSha256(passphrase, data))
  {
    var b1 := p.b64decode(SignData(p, passphrase, data)).bytes;
    var b2 := p.b64decode(expected).bytes;
    b1 == b2
  }

  /** A signature made with a passphrase verifies with that passphrase. */
  lemma SignThenVerify(p: Primitives, passphrase: Bytes, data: Bytes)
    requires Sound(p)
    ensures VerifySignature(p, passphrase, data, SignData(p, passphrase, data))
  {
  }

  /** `KeyGen`: the first `keySize` bytes of SHA-256 of the passphrase;
      more than a digest's worth is refused. */
  function KeyGen(p: Primitives, passphrase: Bytes, keySize: nat): (r: Result<Bytes>)
    ensures r.Err? <==> keySize > Sha256Size
    ensures r.Err? ==> r.error == KeySizeTooLarge(keySize)
    ensures r.Ok? ==> |r.value| == keySize && r.value <= p.sha256(passphrase)
  {
    if keySize > Sha256Size then Err(KeySizeTooLarge(keySize))
    else Ok(p.sha256(passphrase)[..keySize])
  }

  /** The key both `Encrypt` and `Decrypt` derive from a passphrase. */
  function CipherKey(p: Primitives, passphrase: Bytes): (k: Bytes)
    ensures KeyGen(p, passphrase, AesBlockSize) == Ok(k)
    ensures |k| == AesBlockSize
  {
    p.sha256(passphrase)[..AesBlockSize]
  }

  /** `aes.NewCipher(key)`: accepts AES-128, -192 and -256 keys and reports
      `aes.KeySizeError` for any other length. */
  function AesNewCipher(key: Bytes): (r: Result<Bytes>)
    ensures r.Ok? <==> |key| in {16, 24, 32}
    ensures r.Ok? ==> r.value == key
    ensures r.Err? ==> r.error == AesKeySize(|key|)
  {
    if |key| == 16 || |key| == 24 || |key| == 32 then Ok(key) else Err(AesKeySize(|key|))
  }

  /** `GenRandomIv`: `blockSize` random bytes, or the error of the read, or an
      error when the read came back short. */
  function GenRandomIv(blockSize: nat, rnd: RandRead): (r: Result<Bytes>)
    ensures r.Ok? <==> rnd.err.None? && |rnd.written| == blockSize
    ensures r.Ok? ==> r.value == rnd.written && |r.value| == blockSize
    ensures rnd.err.Some? ==> r == Err(rnd.err.value)
    ensures rnd.err.None? && |rnd.written| != blockSize ==> r == Err(ShortRandomRead)
  {
    if rnd.err.Some? then Err(rnd.err.value)
    else if |rnd.written| != blockSize then Err(ShortRandomRead)
    else Ok(rnd.written)
  }

  /** `Encrypt`: `iv ++ Seal(key, iv, plaintext)` with a fresh iv of the GCM
      nonce size and the passphrase-derived key. There is no HMAC prefix,
      whatever the comment above the Go function says. */
  function Encrypt(p: Primitives, passphrase: Bytes, plaintext: Bytes, rnd: RandRead): (r: Result<Bytes>)
    ensures r.Ok? <==> GenRandomIv(GcmNonceSize, rnd).Ok?
    ensures r.Err? ==> r == Err(GenRandomIv(GcmNonceSize, rnd).error)
    ensures r.Ok? ==>
      && |r.value| >= GcmNonceSize
      && r.value[..GcmNonceSize] == rnd.written
      && r.value[GcmNonceSize..] == p.seal(CipherKey(p, passphrase), rnd.written, plaintext)
  {
    // The two setup errors are propagated as in Go, although a 16-byte key
    // makes both impossible.
    match KeyGen(p, passphrase, AesBlockSize)
    case Err(e) => Err(e)
    case Ok(key) =>
      match AesNewCipher(key)
      case Err(e) => Err(e)
      case Ok(block) =>
        var iv :- GenRandomIv(GcmNonceSize, rnd);
        var encrypted := p.seal(block, iv, plaintext);
        assert (iv + encrypted)[..GcmNonceSize] == iv;
        Ok(iv + encrypted)
  }

  /** `Decrypt`: splits `data` after the nonce and opens the rest with the
      passphrase-derived key. Go slices `data[:NonceSize]` before any check,
      so a shorter input panics: callers must not pass one. */
  function Decrypt(p: Primitives, passphrase: Bytes, data: Bytes): (r: Result<Bytes>)
    requires |data| >= GcmNonceSize
    ensures r.Ok? <==> p.open(CipherKey(p, passphrase), data[..GcmNonceSize], data[GcmNonceSize..]).Some?
    ensures r.Ok? ==> Some(r.value) == p.open(CipherKey(p, passphrase), data[..GcmNonceSize], data[GcmNonceSize..])
    ensures r.Err? ==> r.error == AuthenticationFailed
  {
    match KeyGen(p, passphrase, AesBlockSize)
    case Err(e) => Err(e)
    case Ok(key) =>
      match AesNewCipher(key)
      case Err(e) => Err(e)
      case Ok(block) =>
        var iv := data[..GcmNonceSize];
        var cipherText := data[GcmNonceSize..];
        match p.open(block, iv, cipherText)
        case Some(plain) => Ok(plain)
        case None => Err(AuthenticationFailed)
  }

  /** What `Encrypt` produces `Decrypt` opens again with the same passphrase. */
  lemma EncryptThenDecrypt(p: Primitives, passphrase: Bytes, plaintext: Bytes, rnd: RandRead)
    requires Sound(p)
    requires Encrypt(p, passphrase, plaintext, rnd).Ok?
    ensures |Encrypt(p, passphrase, plaintext, rnd).value| >= GcmNonceSize
    ensures Decrypt(p, passphrase, Encrypt(p, passphrase, plaintext, rnd).value) == Ok(plaintext)
  {
    var data := Encrypt(p, passphrase, plaintext, rnd).value;
    var key := CipherKey(p, passphrase);
    assert p.open(key, data[..GcmNonceSize], data[GcmNonceSize..])
        == p.open(key, rnd.written, p.seal(key, rnd.written, plaintext));
  }

  /** `EncryptString`: `Encrypt` of the string's bytes. */
  function EncryptString(p: Primitives, passphrase: Bytes, data: Bytes, rnd: RandRead): (r: Result<Bytes>)
    ensures r == Encrypt(p, passphrase, data, rnd)
  {
    Encrypt(p, passphrase, data, rnd)
  }

  /** `DecryptString`: the decrypted bytes as a string. Go returns "" with the
      error; the model's `Err` carries no partial plaintext either. */
  function DecryptString(p: Primitives, passphrase: Bytes, data: Bytes): (r: Result<Bytes>)
    requires |data| >= GcmNonceSize
    ensures r == Decrypt(p, passphrase, data)
  {
    var bytes :- Decrypt(p, passphrase, data);
    Ok(bytes)
  }

  /** The inputs on which `DecryptBase64String` does not panic: those that
      fail to decode, or decode to at least a nonce's worth of bytes. */
  predicate DecodableCiphertext(p: Primitives, input: Bytes) {
    p.b64decode(input).ok ==> |p.b64decode(input).bytes| >= GcmNonceSize
  }

  /** `DecryptBase64String`: base64-decode, then `DecryptString`; a decoding
      error is returned before any decryption is tried. */
  function DecryptBase64String(p: Primitives, passphrase: Bytes, input: Bytes): (r: Result<Bytes>)
    requires DecodableCiphertext(p, input)
    ensures !p.b64decode(input).ok ==> r == Err(CorruptBase64)
    ensures p.b64decode(input).ok ==> r == DecryptString(p, passphrase, p.b64decode(input).bytes)
  {
    var decoded := p.b64decode(input);
    if !decoded.ok then Err(CorruptBase64)
    else DecryptString(p, passphrase, decoded.bytes)
  }

  /** `EncryptAndBase64String`: the base64 of `EncryptString`'s output. */
  function EncryptAndBase64String(p: Primitives, passphrase: Bytes, data: Bytes, rnd: RandRead): (r: Result<Bytes>)
    ensures r.Ok? <==> EncryptString(p, passphrase, data, rnd).Ok?
    ensures r.Ok? ==> r.value == p.b64encode(EncryptString(p, passphrase, data, rnd).value)
    ensures r.Err? ==> r.error == EncryptString(p, passphrase, data, rnd).error
  {
    var result :- EncryptString(p, passphrase, data, rnd);
    Ok(p.b64encode(result))
  }

  /** The round trip the package's test checks: a string encrypted and
      base64-encoded under a passphrase decodes and decrypts back to itself. */
  lemma Base64RoundTrip(p: Primitives, passphrase: Bytes, data: Bytes, rnd: RandRead)
    requires Sound(p)
    requires EncryptAndBase64String(p, passphrase, data, rnd).Ok?
    ensures DecodableCiphertext(p, EncryptAndBase64String(p, passphrase, data, rnd).value)
    ensures DecryptBase64String(p, passphrase, EncryptAndBase64String(p, passphrase, data, rnd).value) == Ok(data)
  {
    var sealed := Encrypt(p, passphrase, data, rnd).value;
    assert p.b64decode(p.b64encode(sealed)) == Decoded(sealed, true);
    EncryptThenDecrypt(p, passphrase, data, rnd);
  }
}
