/** services/cryptoUtils.ts: the two conversion loops between octets and
    Base64 text, and `encryptNote` / `decryptNote`, which pass a note through
    TextEncoder, AES-GCM and Base64. `SealNote` and `OpenNote` state what the
    last two compute; the methods follow the source step by step. */
module CryptoUtils {
  import opened Wrappers
  import opened Platform
  import opened Base64
  import opened WebCrypto

  /** The Base64 fields `encryptNote` returns. */
  datatype Sealed = Sealed(iv: string, ciphertext: string)

  /** `arrayBufferToBase64`: builds the binary string one `String.fromCharCode`
      at a time, then applies `btoa`, which cannot throw on it. */
  method ArrayBufferToBase64(buffer: array<byte>) returns (encoded: string)
    ensures encoded == Encode(buffer[..])
  {
    var binary := "";
    var bytes := buffer;
    var len := bytes.Length;
    for i := 0 to len
      invariant |binary| == i
      invariant forall j | 0 <= j < i :: binary[j] as int == bytes[j]
    {
      binary := binary + [bytes[i] as char];
    }
    assert IsBinaryString(binary);
    assert CharCodes(binary) == bytes[..];
    var result := Btoa(binary);
    encoded := result.value;
  }

  /** `base64ToUint8Array`: `atob`, whose exception propagates, then one
      octet per character code. A `Uint8Array` element stores its value
      modulo 256; `atob` never yields a code above 255, so nothing is lost. */
  method Base64ToUint8Array(base64: string) returns (r: Result<array<byte>, DomError>)
    ensures r.Err? <==> ForgivingDecode(base64).None?
    ensures r.Err? ==> r.error == InvalidCharacterError
    ensures r.Ok? ==> fresh(r.value) && ForgivingDecode(base64) == Some(r.value[..])
  {
    var binaryString :- Atob(base64);
    ghost var decoded := ForgivingDecode(base64).value;
    assert binaryString == BinaryString(decoded);
    var len := |binaryString|;
    var bytes := new byte[len];
    for i := 0 to len
      invariant forall j | 0 <= j < i :: bytes[j] == decoded[j]
    {
      bytes[i] := binaryString[i] as int % 256;
    }
    assert bytes[..] == decoded;
    r := Ok(bytes);
  }

  /** The octets `base64ToUint8Array` yields, or the exception of `atob`. */
  function DecodeBytes(s: string): Result<seq<byte>, DomError>
  {
    match ForgivingDecode(s)
    case None => Err(InvalidCharacterError)
    case Some(b) => Ok(b)
  }

  /** What `encryptNote(text, key)` resolves to when the random source fills
      the IV with `iv`. */
  function SealNote(env: Env, text: string, key: CryptoKey, iv: Nonce): Result<Sealed, DomError>
  {
    var encrypted :- AesGcmEncrypt(env, iv, key, env.encodeUtf8(text));
    Ok(Sealed(Encode(iv), Encode(encrypted)))
  }

  /** What `decryptNote(ciphertextB64, ivB64, key)` resolves to. */
  function OpenNote(env: Env, ciphertextB64: string, ivB64: string, key: CryptoKey): Result<string, DomError>
  {
    var ciphertext :- DecodeBytes(ciphertextB64);
    var iv :- DecodeBytes(ivB64);
    var plain :- AesGcmDecrypt(env, iv, key, ciphertext);
    Ok(env.decodeUtf8(plain))
  }

  /** `encryptNote`; `randomIv` is what `crypto.getRandomValues` writes into
      the fresh 12-octet array. */
  method EncryptNote(env: Env, text: string, key: CryptoKey, randomIv: Nonce) returns (r: Result<Sealed, DomError>)
    ensures r == SealNote(env, text, key, randomIv)
  {
    var data := env.encodeUtf8(text);
    var iv := new byte[IvLength](i requires 0 <= i < IvLength => randomIv[i]);
    assert iv[..] == randomIv;
    var encryptedBuffer :- AesGcmEncrypt(env, iv[..], key, data);
    var buffer := new byte[|encryptedBuffer|](i requires 0 <= i < |encryptedBuffer| => encryptedBuffer[i]);
    assert buffer[..] == encryptedBuffer;
    var ivText := ArrayBufferToBase64(iv);
    var ciphertextText := ArrayBufferToBase64(buffer);
    r := Ok(Sealed(ivText, ciphertextText));
  }

  /** `decryptNote`: every exception (bad Base64, a key without the decrypt
      usage, a tag that does not verify) propagates. */
  method DecryptNote(env: Env, ciphertextB64: string, ivB64: string, key: CryptoKey) returns (r: Result<string, DomError>)
    ensures r == OpenNote(env, ciphertextB64, ivB64, key)
  {
    var ciphertext :- Base64ToUint8Array(ciphertextB64);
    var iv :- Base64ToUint8Array(ivB64);
    var decrypted :- AesGcmDecrypt(env, iv[..], key, ciphertext[..]);
    r := Ok(env.decodeUtf8(decrypted));
  }

  /** `generateKey()`: a 256-bit AES-GCM key, extractable, for encryption
      and decryption, given the octets the random source produces. */
  function NewNoteKey(material: KeyMaterial): (key: CryptoKey)
    ensures |key.material| == 32 && key.extractable && key.usages == [Encrypt, Decrypt]
  {
    GenerateKey(material)
  }

  /** `importKey(jwk)`: only an AES-GCM key is accepted, and it comes back
      extractable with the usages encrypt and decrypt. */
  function ImportNoteKey(jwk: Jwk): (r: Result<CryptoKey, DomError>)
    ensures r.Ok? ==> jwk.kty == "oct" && |r.value.material| in {16, 24, 32}
    ensures r.Ok? ==> r.value.extractable && r.value.usages == [Encrypt, Decrypt]
  {
    ImportKey(jwk, true, [Encrypt, Decrypt])
  }

  // ---------------------------------------------------------------- lemmas

  /** `base64ToUint8Array(arrayBufferToBase64(b))` is `b`. */
  lemma DecodeEncodeBytes(b: seq<byte>)
    ensures DecodeBytes(Encode(b)) == Ok(b)
  {
    ForgivingDecodeEncode(b);
  }

  /** `encryptNote` fails only for a key without the encrypt usage; its `iv`
      field decodes to exactly the 12 octets drawn. */
  lemma SealedIv(env: Env, text: string, key: CryptoKey, iv: Nonce)
    ensures SealNote(env, text, key, iv).Ok? <==> Encrypt in key.usages
    ensures SealNote(env, text, key, iv).Ok? ==>
      DecodeBytes(SealNote(env, text, key, iv).value.iv) == Ok(iv) && |iv| == IvLength
  {
    DecodeEncodeBytes(iv);
  }

  /** `decryptNote` on the fields `encryptNote` returned, with the same
      key, gives the text back less a leading U+FEFF: both fields reach
      AES-GCM unchanged through the Base64 round trip, and the default
      `TextDecoder` drops that one character. */
  lemma OpenSealed(env: Env, text: string, key: CryptoKey, iv: Nonce)
    requires AeadSound(env) && Utf8Sound(env)
    requires Encrypt in key.usages && Decrypt in key.usages
    ensures SealNote(env, text, key, iv).Ok?
    ensures OpenNote(env, SealNote(env, text, key, iv).value.ciphertext, SealNote(env, text, key, iv).value.iv, key)
            == Ok(StripBom(text))
  {
    var encrypted := env.seal(key.material, iv, env.encodeUtf8(text));
    DecodeEncodeBytes(iv);
    DecodeEncodeBytes(encrypted);
    Utf8RoundTrip(env, text);
  }

  /** As written, a note that starts with U+FEFF comes back without it. */
  lemma LeadingBomIsLost(env: Env, key: CryptoKey, iv: Nonce)
    requires AeadSound(env) && Utf8Sound(env)
    requires Encrypt in key.usages && Decrypt in key.usages
    ensures var sealed := SealNote(env, "\U{FEFF}hi", key, iv).value;
      OpenNote(env, sealed.ciphertext, sealed.iv, key) == Ok("hi")
  {
    OpenSealed(env, "\U{FEFF}hi", key, iv);
    assert StripBom("\U{FEFF}hi") == "hi";
  }

  /** `decryptNote` with `new TextDecoder("utf-8", {ignoreBOM: true})`. */
  function OpenNoteKeepingBom(env: Env, ciphertextB64: string, ivB64: string, key: CryptoKey): Result<string, DomError>
  {
    var ciphertext :- DecodeBytes(ciphertextB64);
    var iv :- DecodeBytes(ivB64);
    var plain :- AesGcmDecrypt(env, iv, key, ciphertext);
    Ok(env.decodeUtf8KeepBom(plain))
  }

  /** With that decoder every text comes back exactly, and the result
      differs from `decryptNote`'s only by a leading U+FEFF. */
  lemma OpenSealedKeepingBom(env: Env, text: string, key: CryptoKey, iv: Nonce)
    requires AeadSound(env) && Utf8Sound(env)
    requires Encrypt in key.usages && Decrypt in key.usages
    ensures SealNote(env, text, key, iv).Ok?
    ensures var sealed := SealNote(env, text, key, iv).value;
      && OpenNoteKeepingBom(env, sealed.ciphertext, sealed.iv, key) == Ok(text)
      && OpenNote(env, sealed.ciphertext, sealed.iv, key) == Ok(StripBom(text))
  {
    var encrypted := env.seal(key.material, iv, env.encodeUtf8(text));
    DecodeEncodeBytes(iv);
    DecodeEncodeBytes(encrypted);
    Utf8RoundTrip(env, text);
    OpenSealed(env, text, key, iv);
  }

  /** `decryptNote` yields text only when AES-GCM verified the tag, and then
      exactly the decoding of the verified plaintext: never partial output. */
  lemma OpenNoteVerified(env: Env, ciphertextB64: string, ivB64: string, key: CryptoKey)
    ensures OpenNote(env, ciphertextB64, ivB64, key).Ok? <==>
      && DecodeBytes(ciphertextB64).Ok? && DecodeBytes(ivB64).Ok? && Decrypt in key.usages
      && env.open(key.material, DecodeBytes(ivB64).value, DecodeBytes(ciphertextB64).value).Some?
    ensures OpenNote(env, ciphertextB64, ivB64, key).Ok? ==>
      OpenNote(env, ciphertextB64, ivB64, key).value
        == env.decodeUtf8(env.open(key.material, DecodeBytes(ivB64).value, DecodeBytes(ciphertextB64).value).value)
  {
  }

  /** `importKey(exportKey(generateKey()))` is the generated key. */
  lemma NoteKeyRoundTrip(material: KeyMaterial)
    ensures ExportKey(NewNoteKey(material)).Ok?
    ensures ImportNoteKey(ExportKey(NewNoteKey(material)).value) == Ok(NewNoteKey(material))
  {
    GeneratedKeyRoundTrip(material);
  }
}
