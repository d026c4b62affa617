/** The browser facilities the core hands its data to: WebCrypto's AES-GCM
    keys (W3C Web Cryptography API), the JSON Web Key form of such keys
    (RFC 7517, the "oct" key type of RFC 7518 section 6.4), and the
    functions that are not modelled at all (AES-GCM itself, TextEncoder and
    TextDecoder, JSON), which the core receives as an `Env`. */
module WebCrypto {
  import opened Wrappers
  import opened Platform
  import Base64

  /** The usages an AES-GCM key can be created with. */
  datatype KeyUsage = Encrypt | Decrypt | WrapKey | UnwrapKey

  /** The names a JWK "key_ops" member uses for them. */
  function UsageName(u: KeyUsage): string
  {
    match u
    case Encrypt => "encrypt"
    case Decrypt => "decrypt"
    case WrapKey => "wrapKey"
    case UnwrapKey => "unwrapKey"
  }

  /** A `CryptoKey` of algorithm "AES-GCM": the key octets, whether
      `exportKey` may reveal them, and the operations it may be used for.
      Every key of the model is an AES-GCM key, since `generateKey` and
      `importKey` are only ever called with that algorithm. */
  datatype CryptoKey = CryptoKey(extractable: bool, usages: seq<KeyUsage>, material: seq<byte>)

  /** A JSON Web Key; an absent member is None. "k" holds the key octets in
      base64url without padding. */
  datatype Jwk = Jwk(kty: string, k: Option<string>, alg: Option<string>, use: Option<string>,
                     key_ops: Option<seq<string>>, ext: Option<bool>)

  /** The functions the browser provides and the model leaves abstract:
      AES-GCM authenticated encryption and its verifying decryption (key,
      IV, data; None when the tag does not verify), `TextEncoder.encode`,
      the non-fatal `TextDecoder.decode` as `new TextDecoder()` makes it
      (`decodeUtf8`) and as `new TextDecoder("utf-8", {ignoreBOM: true})`
      makes it (`decodeUtf8KeepBom`), and JSON.stringify / JSON.parse on key
      objects (None when JSON.parse throws or yields no key object). */
  datatype Env = Env(
    seal: (seq<byte>, seq<byte>, seq<byte>) -> seq<byte>,
    open: (seq<byte>, seq<byte>, seq<byte>) -> Option<seq<byte>>,
    encodeUtf8: string -> seq<byte>,
    decodeUtf8: seq<byte> -> string,
    decodeUtf8KeepBom: seq<byte> -> string,
    stringify: Jwk -> string,
    parse: string -> Option<Jwk>)

  /** The byte order mark, U+FEFF ZERO WIDTH NO-BREAK SPACE. */
  const Bom: char := '\U{FEFF}'

  /** The text without one leading byte order mark. */
  function StripBom(s: string): (r: string)
    ensures s != "" && s[0] == Bom ==> r == s[1..]
    ensures (s == "" || s[0] != Bom) ==> r == s
  {
    if s != "" && s[0] == Bom then s[1..] else s
  }

  /** The correctness of AES-GCM (NIST SP 800-38D): decryption under the key
      and IV of an encryption returns its plaintext. */
  ghost predicate AeadSound(env: Env)
  {
    forall key, iv, m :: env.open(key, iv, env.seal(key, iv, m)) == Some(m)
  }

  /** UTF-8 (Encoding Standard): a string survives `TextEncoder.encode` and
      a decoder that keeps the BOM; the default decoder is that decoder
      followed by the removal of one leading U+FEFF, since its BOM flag
      starts unset and `ignoreBOM` is false. */
  ghost predicate Utf8Sound(env: Env)
  {
    && (forall s :: env.decodeUtf8KeepBom(env.encodeUtf8(s)) == s)
    && (forall b :: env.decodeUtf8(b) == StripBom(env.decodeUtf8KeepBom(b)))
  }

  /** JSON.parse reads back what JSON.stringify wrote. */
  ghost predicate JsonSound(env: Env)
  {
    forall j :: env.parse(env.stringify(j)) == Some(j)
  }

  /** The only facts the model assumes of the foreign functions. */
  ghost predicate Sound(env: Env)
  {
    AeadSound(env) && Utf8Sound(env) && JsonSound(env)
  }

  /** `new TextDecoder().decode(new TextEncoder().encode(s))` is `s` less a
      leading U+FEFF; with `ignoreBOM: true` it is `s` itself. */
  lemma Utf8RoundTrip(env: Env, s: string)
    requires Utf8Sound(env)
    ensures env.decodeUtf8(env.encodeUtf8(s)) == StripBom(s)
    ensures env.decodeUtf8KeepBom(env.encodeUtf8(s)) == s
    ensures s != "" && s[0] == Bom ==> env.decodeUtf8(env.encodeUtf8(s)) != s
  {
    var b := env.encodeUtf8(s);
    assert env.decodeUtf8KeepBom(b) == s;
    assert env.decodeUtf8(b) == StripBom(env.decodeUtf8KeepBom(b));
    if s != "" && s[0] == Bom {
      assert |StripBom(s)| == |s| - 1;
    }
  }

  /** The IV length `encryptNote` draws: 96 bits. */
  const IvLength: nat := 12

  /** The key length `generateKey` requests: 256 bits. */
  const KeyBits: nat := 256

  type Nonce = s: seq<byte> | |s| == IvLength witness [0, 0, 0, 0, 0, 0, 0, 0, 0, 0, 0, 0]

  /** 32 octets from the random source. */
  type KeyMaterial = s: seq<byte> | |s| * 8 == KeyBits
    witness [0, 0, 0, 0, 0, 0, 0, 0, 0, 0, 0, 0, 0, 0, 0, 0, 0, 0, 0, 0, 0, 0, 0, 0, 0, 0, 0, 0, 0, 0, 0, 0]

  /** The JWK "alg" value for AES-GCM keys of `n` octets; None for a length
      AES does not have. */
  function AlgName(n: nat): Option<string>
  {
    if n == 16 then Some("A128GCM")
    else if n == 24 then Some("A192GCM")
    else if n == 32 then Some("A256GCM")
    else None
  }

  /** `generateKey({name: "AES-GCM", length: 256}, true, ["encrypt", "decrypt"])`,
      given the octets the random source produces. */
  function GenerateKey(material: KeyMaterial): (key: CryptoKey)
    ensures |key.material| * 8 == KeyBits && key.material == material
    ensures key.extractable && key.usages == [Encrypt, Decrypt]
  {
    CryptoKey(true, [Encrypt, Decrypt], material)
  }

  /** `exportKey("jwk", key)`: InvalidAccessError unless the key is extractable. */
  function ExportKey(key: CryptoKey): (r: Result<Jwk, DomError>)
    ensures r.Err? <==> !key.extractable
  {
    if !key.extractable then Err(InvalidAccessError)
    else Ok(Jwk("oct", Some(Base64.EncodeUrl(key.material)), AlgName(|key.material|), None,
                Some(UsageNames(key.usages)), Some(true)))
  }

  function UsageNames(usages: seq<KeyUsage>): (names: seq<string>)
    ensures |names| == |usages|
    ensures forall i | 0 <= i < |usages| :: names[i] == UsageName(usages[i])
  {
    seq(|usages|, i requires 0 <= i < |usages| => UsageName(usages[i]))
  }

  /** `importKey("jwk", jwk, {name: "AES-GCM"}, extractable, usages)`: the
      AES-GCM import steps of the Web Cryptography API for the "jwk" format. */
  function ImportKey(jwk: Jwk, extractable: bool, usages: seq<KeyUsage>): (r: Result<CryptoKey, DomError>)
    ensures r.Ok? ==> jwk.kty == "oct" && jwk.k.Some?
    ensures r.Ok? ==> Base64.DecodeUrl(jwk.k.value) == Some(r.value.material)
    ensures r.Ok? ==> AlgName(|r.value.material|).Some?
    ensures r.Ok? ==> jwk.alg.None? || jwk.alg == AlgName(|r.value.material|)
    ensures r.Ok? ==> r.value.extractable == extractable && r.value.usages == usages && usages != []
  {
    if jwk.kty != "oct" || jwk.k.None? then Err(DataError)
    else match Base64.DecodeUrl(jwk.k.value)
      case None => Err(DataError)
      case Some(data) =>
        if AlgName(|data|).None? then Err(DataError)
        else if jwk.alg.Some? && jwk.alg != AlgName(|data|) then Err(DataError)
        else if usages != [] && jwk.use.Some? && jwk.use.value != "enc" then Err(DataError)
        else if jwk.key_ops.Some? && exists u | u in usages :: UsageName(u) !in jwk.key_ops.value then Err(DataError)
        else if jwk.ext == Some(false) && extractable then Err(DataError)
        else if usages == [] then Err(SyntaxError)
        else Ok(CryptoKey(extractable, usages, data))
  }

  /** `subtle.encrypt({name: "AES-GCM", iv}, key, data)`: InvalidAccessError
      for a key without the encrypt usage, otherwise the sealed data. */
  function AesGcmEncrypt(env: Env, iv: seq<byte>, key: CryptoKey, data: seq<byte>): (r: Result<seq<byte>, DomError>)
    ensures r.Err? <==> Encrypt !in key.usages
    ensures r.Err? ==> r.error == InvalidAccessError
    ensures r.Ok? ==> r.value == env.seal(key.material, iv, data)
  {
    if Encrypt !in key.usages then Err(InvalidAccessError) else Ok(env.seal(key.material, iv, data))
  }

  /** `subtle.decrypt({name: "AES-GCM", iv}, key, data)`: OperationError when
      the tag does not verify, and then no plaintext at all. */
  function AesGcmDecrypt(env: Env, iv: seq<byte>, key: CryptoKey, data: seq<byte>): (r: Result<seq<byte>, DomError>)
    ensures Decrypt !in key.usages ==> r == Err(InvalidAccessError)
    ensures Decrypt in key.usages ==> (r.Ok? <==> env.open(key.material, iv, data).Some?)
    ensures Decrypt in key.usages && r.Err? ==> r.error == OperationError
    ensures r.Ok? ==> Some(r.value) == env.open(key.material, iv, data)
  {
    if Decrypt !in key.usages then Err(InvalidAccessError)
    else match env.open(key.material, iv, data)
      case None => Err(OperationError)
      case Some(plain) => Ok(plain)
  }

  // ---------------------------------------------------------------- lemmas

  /** An exported AES-GCM key imports back to the same key, with the
      extractability and usages the note viewer asks for. */
  lemma ExportImport(key: CryptoKey)
    requires key.extractable && key.usages != [] && AlgName(|key.material|).Some?
    ensures ExportKey(key).Ok?
    ensures ImportKey(ExportKey(key).value, true, key.usages) == Ok(key)
  {
    Base64.DecodeEncodeUnpadded(key.material, Base64.UrlSafe);
    var ops := UsageNames(key.usages);
    forall u | u in key.usages ensures UsageName(u) in ops {
      var i :| 0 <= i < |key.usages| && key.usages[i] == u;
      assert ops[i] == UsageName(u);
    }
  }

  /** In particular for every generated key. */
  lemma GeneratedKeyRoundTrip(material: KeyMaterial)
    ensures ExportKey(GenerateKey(material)).Ok?
    ensures ImportKey(ExportKey(GenerateKey(material)).value, true, [Encrypt, Decrypt]) == Ok(GenerateKey(material))
  {
    ExportImport(GenerateKey(material));
  }

  /** A JWK for another algorithm or of a length AES does not have is refused. */
  lemma ImportRejectsForeignKeys(jwk: Jwk, extractable: bool, usages: seq<KeyUsage>)
    requires jwk.kty != "oct" || (jwk.alg.Some? && jwk.alg.value !in {"A128GCM", "A192GCM", "A256GCM"})
             || (jwk.k.Some? && Base64.DecodeUrl(jwk.k.value).Some? && |Base64.DecodeUrl(jwk.k.value).value| !in {16, 24, 32})
    ensures ImportKey(jwk, extractable, usages) == Err(DataError)
  {
  }

  /** Under a sound AEAD, decryption with the encrypting key and IV gives the plaintext back. */
  lemma DecryptEncrypt(env: Env, iv: seq<byte>, key: CryptoKey, data: seq<byte>)
    requires AeadSound(env)
    requires Encrypt in key.usages && Decrypt in key.usages
    ensures AesGcmEncrypt(env, iv, key, data).Ok?
    ensures AesGcmDecrypt(env, iv, key, AesGcmEncrypt(env, iv, key, data).value) == Ok(data)
  {
  }
}
