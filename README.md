# CipherNote, modelled in Dafny

CipherNote is a browser pastebin with client-side encryption. The creator page does the following:
- encrypts a note with a fresh AES-GCM key;
- stores the IV and ciphertext as Base64 under a random UUID in the `localStorage` object 'ciphernotes';
- shows a link `origin + pathname + "#/view/<id>?k=<key>"`, where `<key>` is `btoa(JSON.stringify(jwk))` of the exported key.

The viewer page does the following:
- reads the id from the hash route `/view/:id` and the key from the query parameter `k`;
- fetches the record, imports the key and decrypts;
- walks a small status machine and offers the plaintext for download as TXT, MD or HTML.

The project models these in Dafny:
- `Base64`: `btoa`, and `atob` with its forgiving decoder;
- `WebCrypto`: keys, JWK export/import and the AES-GCM calls, over an abstract `Env`;
- `CryptoUtils`: services/cryptoUtils.ts;
- `Types`: types.ts;
- `Storage`: the note store;
- `Locator`: the link, and how the browser, the HashRouter and `URLSearchParams` take it apart;
- `Creator`: components/NoteCreator.tsx;
- `Viewer`: components/NoteViewer.tsx;
- `Scenarios`: creating a note and opening its link.

How the foreign and non-deterministic parts are handled:
- AES-GCM, TextEncoder/TextDecoder and JSON are function fields of `WebCrypto.Env`.
- The only facts assumed of them are in `WebCrypto.Sound`, split into three parts:
  - `AeadSound`: decryption with the key and IV of an encryption gives its plaintext back;
  - `Utf8Sound`: UTF-8 encoding round-trips through a decoder that keeps the byte order mark, and the default `new TextDecoder()` is that decoder followed by the removal of one leading U+FEFF;
  - `JsonSound`: JSON.parse reads back what JSON.stringify wrote.
- Each lemma requires only the parts it uses.
- Random key octets, the random IV, `crypto.randomUUID()`, `Date.now()`, `window.location` and whether a storage write fits its quota are parameters (`Creator.Draws`, `Creator.Page`).

The link is meant to hand the viewer the key text unchanged. The code puts raw standard Base64 in the query string, and `URLSearchParams` reads it as form-encoded text, where '+' means a space. See "## Findings".

## Model

| member | source | states |
|---|---|---|
| CryptoUtils.ArrayBufferToBase64 | services/cryptoUtils.ts:4-12 | The loop builds a binary string with one character per octet, so `btoa` cannot reject it; the result is exactly the standard Base64 (with padding) of the buffer's octets |
| CryptoUtils.Base64ToUint8Array | services/cryptoUtils.ts:15-23 | Throws InvalidCharacterError exactly when `atob` rejects the text; otherwise returns a fresh array whose contents are the decoded octets, one per character code |
| CryptoUtils.DecodeEncodeBytes | services/cryptoUtils.ts:4-23 | Round trip: decoding the encoder's output gives back every byte sequence |
| CryptoUtils.EncryptNote | services/cryptoUtils.ts:56-74 | The method computes `SealNote`: UTF-8 encoding, a 12-octet IV, AES-GCM encryption, then the Base64 of the IV and of the ciphertext |
| CryptoUtils.DecryptNote | services/cryptoUtils.ts:77-92 | The method computes `OpenNote`: every failure of `atob`, of the key's usages or of tag verification propagates as an error |
| CryptoUtils.SealedIv | services/cryptoUtils.ts:59-73 | `encryptNote` fails only for a key without the encrypt usage; its `iv` field decodes to exactly the 12 octets drawn |
| CryptoUtils.OpenSealed | services/cryptoUtils.ts:56-92 | Under AES-GCM correctness and UTF-8, `decryptNote` applied with the same key to the fields `encryptNote` returned gives the text back, less one leading U+FEFF, which the default `TextDecoder` drops |
| CryptoUtils.LeadingBomIsLost | services/cryptoUtils.ts:90-91 | As written, the note "\u{FEFF}hi" comes back as "hi" |
| CryptoUtils.OpenSealedKeepingBom | services/cryptoUtils.ts:90-91 | With `ignoreBOM: true` every text comes back exactly, and it differs from the as-written result only by the leading U+FEFF |
| CryptoUtils.OpenNoteVerified | services/cryptoUtils.ts:77-92 | Spells out the error propagation of `decryptNote`: it succeeds if and only if both decodes succeed, the key may decrypt and the tag verifies, and the text is then the decoding of the verified plaintext. Its independent partner is CryptoUtils.OpenSealed |
| CryptoUtils.NewNoteKey | services/cryptoUtils.ts:26-35 | `generateKey` gives a 256-bit key that is extractable, with the usages encrypt and decrypt |
| CryptoUtils.ImportNoteKey | services/cryptoUtils.ts:43-53 | `importKey` accepts only an "oct" key of 128, 192 or 256 bits; the key comes back extractable with the usages encrypt and decrypt |
| CryptoUtils.NoteKeyRoundTrip | services/cryptoUtils.ts:26-53 | `importKey(exportKey(k))` is `k` for every generated key |
| WebCrypto.GenerateKey | services/cryptoUtils.ts:26-35 | The generated key has the drawn 256-bit material, is extractable, and has the usages [encrypt, decrypt] |
| WebCrypto.ExportKey | services/cryptoUtils.ts:38-40 | `exportKey` fails if and only if the key is not extractable |
| WebCrypto.ImportKey | services/cryptoUtils.ts:43-53 | An accepted JWK has kty "oct" and a "k" member that base64url-decodes to key octets of an AES length; any "alg" member names that length; the key carries the requested extractability and a nonempty usage list |
| WebCrypto.ExportImport | services/cryptoUtils.ts:38-53 | An extractable AES key exported to JWK imports back to the same key |
| WebCrypto.ImportRejectsForeignKeys | services/cryptoUtils.ts:43-53 | A JWK of another key type, another algorithm name, or a length AES does not have is refused with DataError |
| WebCrypto.AesGcmEncrypt | services/cryptoUtils.ts:61-68 | `subtle.encrypt` throws InvalidAccessError exactly when the key lacks the encrypt usage, and otherwise returns the sealed data |
| WebCrypto.AesGcmDecrypt | services/cryptoUtils.ts:81-88 | `subtle.decrypt` throws InvalidAccessError when the key lacks the decrypt usage. Otherwise it succeeds exactly when the tag verifies and then returns the verified plaintext; a failed verification is OperationError |
| WebCrypto.Utf8RoundTrip | services/cryptoUtils.ts:57-58 | `TextEncoder` then the default `TextDecoder` gives the text less one leading U+FEFF, so a text starting with U+FEFF does not survive. With `ignoreBOM: true` it survives exactly. The decoder is the one at services/cryptoUtils.ts:90-91 |
| WebCrypto.DecryptEncrypt | services/cryptoUtils.ts:61-68 | Under AES-GCM correctness alone, decryption under the encrypting key and IV gives the plaintext back |
| Base64.ForgivingDecodeEncode | services/cryptoUtils.ts:11-16 | `atob` recovers the octets `btoa` encoded |
| Base64.EncodeForm | services/cryptoUtils.ts:11 | The encoder output has length 4·⌈n/3⌉; it uses only the alphabet up to position ⌈4n/3⌉, and '=' after it |
| Base64.AtobBtoa | services/cryptoUtils.ts:11-16 | `btoa` accepts exactly the binary strings, and `atob` inverts it |
| Base64.DecodeEncodeUnpadded | services/cryptoUtils.ts:38-53 | Unpadded Base64, in either alphabet (including the base64url of the JWK "k" member), decodes back to its octets |
| Base64.Btoa | services/cryptoUtils.ts:11 | `btoa` succeeds exactly on binary strings and otherwise throws InvalidCharacterError; its output is 4·⌈n/3⌉ characters long. The same call encodes the key JSON at components/NoteCreator.tsx:44 |
| Base64.Atob | services/cryptoUtils.ts:16 | `atob` throws InvalidCharacterError exactly when forgiving-base64 decoding fails; otherwise it returns a binary string whose character codes are the decoded octets. The same call decodes the key text at components/NoteViewer.tsx:44 |
| Base64.BtoaWithoutPlus | components/NoteCreator.tsx:44 | ASCII text with no '>' or '~' at an offset of 2 modulo 3 passes `btoa`, and the output holds no '+' |
| Base64.BtoaTildes | components/NoteCreator.tsx:44 | `btoa("~~~")` is "fn5+" |
| Types.FormatOfTag | types.ts:12-16 | Maps a string value back to its enum member; a found member has that tag |
| Types.TagsDistinct | types.ts:12-16 | Each format is recovered from its tag, so the three tags 'txt', 'md' and 'html' are distinct |
| Storage.NoteStore.Lookup | components/NoteViewer.tsx:32-33 | `store[id]` is present exactly when the id is a key, and is then the stored record |
| Storage.NoteStore.SetItem | components/NoteCreator.tsx:36 | The write replaces the stored map, or throws QuotaExceededError and changes nothing |
| Creator.TrimEmptyIffBlank | components/NoteCreator.tsx:14 | `!content.trim()` holds exactly for text made only of ECMAScript white space and line terminators, the empty text included |
| Creator.EncryptAndStore | components/NoteCreator.tsx:16-47 | The `try` body, step by step: the new store and the link or exception are the `EncryptFlow` outcome |
| Creator.NoteCreator.HandleEncrypt | components/NoteCreator.tsx:13-54 | Blank content changes nothing. Otherwise `isLoading` is set to true and then to false on success and failure alike, the store holds the attempt's write, and the link is set only when every step succeeded |
| Creator.NoteCreator.Reset | components/NoteCreator.tsx:63-66 | Content becomes '' and the link null; nothing else changes |
| Creator.NoteCreator.Edit | components/NoteCreator.tsx:111-112 | The text area's change handler sets the content |
| Creator.NoteCreator.constructor | components/NoteCreator.tsx:8-10 | Initial state: empty content, not loading, no link |
| Creator.BlankGuard | components/NoteCreator.tsx:14 | No key, no write and no link exactly when the content is blank |
| Creator.StoreFrame | components/NoteCreator.tsx:26-36 | Every entry other than the new id's is unchanged; a changed store holds the new id with a record carrying that id |
| Creator.StoredRecord | components/NoteCreator.tsx:25-36 | After a successful write, the record under the new id has that id, the creation time drawn, and Base64 fields; its IV decodes to the 12 octets drawn |
| Creator.KeepsWellKeyed | components/NoteCreator.tsx:26-35 | If every record is stored under its own id, that still holds afterwards |
| Creator.LinkIffEveryStepSucceeds | components/NoteCreator.tsx:43-50 | A link is produced if and only if the write fits and `btoa` accepts the key's JSON; the link is then `origin + pathname + "#/view/" + noteId + "?k=" + btoa(json)` |
| Creator.WriteBeforeExport | components/NoteCreator.tsx:36-44 | Because the write comes first, a rejected key text leaves a persisted note with no link |
| Creator.EscapedShareLink | components/NoteCreator.tsx:43-46 | The corrected link, with the key text escaped, exists exactly when the original one does |
| Locator.Link | components/NoteCreator.tsx:46 | The share link's hash fragment, when origin and pathname hold no '#', is exactly "/view/" + id + "?k=" + key text |
| Locator.Get | components/NoteViewer.tsx:23 | `get(name)` finds a value exactly when a pair has that name, and the value is that of the first pair so named |
| Locator.MatchView | App.tsx:13 | A `/view/:id` match means the pathname is "/view/" in any letter case, then the returned segment, nonempty and without '/', then only slashes |
| Locator.MatchViewComplete | App.tsx:13 | Conversely, every pathname of that form matches, with that segment |
| Locator.Resolve | App.tsx:13 | The viewer opens exactly when the hash route's pathname matches `/view/:id`; its id is the matched segment and its query is the parsed search part that components/NoteViewer.tsx:23 reads |
| Locator.ResolveLink | App.tsx:13 | For a link from NoteCreator.tsx:46, the route is the viewer on the note id, and `k` is the form-decoding of the key text |
| Locator.KeyReadBack | components/NoteViewer.tsx:23 | The viewer reads back the key text exactly when that text holds no '+' |
| Locator.FormDecodeIdentity | components/NoteViewer.tsx:23 | Form decoding leaves text without '%' unchanged if and only if the text has no '+' |
| Locator.Base64IsQueryText | components/NoteCreator.tsx:44-46 | Standard Base64 is ASCII and contains none of '&', '#' or '%', so it stays inside the `k` parameter |
| Locator.UuidIsValidNoteId | components/NoteCreator.tsx:25 | A `randomUUID()` id is nonempty and free of '/', '?' and '#' |
| Locator.PlusInKeyIsLost | components/NoteCreator.tsx:44-46 | A '+' in the key text comes back as a space: "fn5+" is read as "fn5 ", and `atob` of that gives "~~" where "~~~" was encoded |
| Locator.DecodeEncodeComponent | components/NoteCreator.tsx:46 | Percent-decoding inverts `encodeURIComponent` on ASCII text |
| Locator.ResolveEscapedLink | components/NoteCreator.tsx:46 | With the key text escaped, the viewer reads back every ASCII key text exactly |
| Viewer.NoteViewer.constructor | components/NoteViewer.tsx:10-14 | Initial state: loading, no content, empty message |
| Viewer.NoteViewer.LoadAndDecrypt | components/NoteViewer.tsx:19-60 | Status, message and content follow `Load`: one status step per check reached, a message only on error, and content only on success |
| Viewer.DecryptStored | components/NoteViewer.tsx:43-48 | The `try` steps compute `Unlock`: `atob`, `JSON.parse`, `importKey`, then `decryptNote` |
| Viewer.NoteViewer.HandleDownload | components/NoteViewer.tsx:65-92 | The reassigned locals `content`, `mimeType` and `extension`, and the file name, are those of `DownloadFor` |
| Viewer.KeyMissingIgnoresStore | components/NoteViewer.tsx:23-32 | A missing or empty `k` gives KeyMissing whatever the store holds, so the store is not read |
| Viewer.LoadCases | components/NoteViewer.tsx:20-59 | Spells out the check order of `loadAndDecrypt`, in both directions: no id means nothing happens; then the missing key; then the missing record; decryption succeeds only past all three. Its independent partners are Scenarios.ViewerDecrypts and Scenarios.CreateThenView |
| Viewer.NotFoundNeverDecrypts | components/NoteViewer.tsx:35-41 | A missing record, or a missing key, never shows 'decrypting' |
| Viewer.OneMessageForEveryFailure | components/NoteViewer.tsx:44-58 | Whatever throws after the record is found gives the one generic message and no text |
| Viewer.DecryptedOnlyWhenVerified | components/NoteViewer.tsx:44-50 | Spells out the error propagation of the `try` block: text appears if and only if the key text decoded, parsed and imported, and AES-GCM verified the record under that key, and the text is then what decryption returned. Its independent partners are Scenarios.ViewerDecrypts and Scenarios.CreateThenView |
| Viewer.StatusMachine | components/NoteViewer.tsx:13-59 | Each run follows loading → error, or loading → decrypting → success or error, or stays loading; success occurs exactly for a decryption |
| Viewer.DownloadMapping | components/NoteViewer.tsx:68-87 | TXT and MD keep the text, as text/plain and text/markdown; HTML wraps it in the fixed page, as text/html. The extension is the format's own tag and maps back to the format, and the file name is `secure-note-<id>.<extension>` |
| Viewer.NoDownloadWithoutContent | components/NoteViewer.tsx:66 | There is nothing to download exactly when there is no content or the content is empty |
| Scenarios.ViewerDecrypts | components/NoteViewer.tsx:43-50 | Given the record the creator stored and the key text it wrote, the viewer decrypts the note, less a leading U+FEFF |
| Scenarios.CreateThenView | components/NoteCreator.tsx:13-47 | End to end, as written: when the key's JSON has no '>' or '~', the creator's link opens the viewer on the new id and decrypts the original note, less a leading U+FEFF |
| Scenarios.CreateThenViewEscaped | components/NoteViewer.tsx:19-50 | End to end with the escaped link: the same holds for every key text `btoa` accepts |

## Left out

- AES-GCM itself is an abstract pair of functions with only its correctness law. Nothing is proved about confidentiality, tamper detection or wrong-key rejection, beyond the fact that a failed verification propagates.
- AES-GCM encryption can fail on a plaintext longer than about 2^39 bits. This is not modelled, because the `Env` seal function is total.
- TextEncoder/TextDecoder are abstract. `Utf8Sound` states their round trip, including the loss of one leading U+FEFF by the default decoder.
- Lone surrogates are not modelled. A Dafny `char` is a Unicode scalar value, so no model string holds one. `TextEncoder.encode` would convert such a JavaScript string to a USVString, replacing each lone surrogate with U+FFFD.
- JSON.stringify/JSON.parse are abstract, and the 'ciphernotes' blob is kept as the map it parses to.
  - A corrupt blob, on which `JSON.parse` throws, is not modelled (components/NoteCreator.tsx:34, components/NoteViewer.tsx:32).
  - Neither is the object lookup semantics of `store[id]`. On a real object, an id such as "constructor" finds an inherited property.
- Storage.NoteStore.SetItem: the quota outcome is a parameter, not computed from the blob's size.
- Locator.PercentDecode decodes only escapes of ASCII octets. An escape above %7F is kept literally, whereas the browser would assemble UTF-8.
- Locator.MatchView takes the route parameter as raw text. react-router's percent-decoding of path segments is not modelled; it does not change a UUID.
- Locator.ParsePath does not model two normalisations, because the link never needs them:
  - prefixing '/' to a hash route that lacks one;
  - the URL parser percent-encoding characters such as space or '<' in a fragment.
- Locator.EncodeComponent covers ASCII text only, which includes all Base64. The UTF-8 escaping of other characters is left out.
- WebCrypto.ImportKey omits two checks: duplicate entries in "key_ops", and the consistency between "use" and "key_ops".
- The remaining UI is left out:
  - services/geminiService.ts (a network client), `summarizeNote`, `handleAIFormat` and `copyToClipboard`;
  - the `copySuccess` timer, the `alert` and `console` calls;
  - the Blob, object URL and anchor click of `handleDownload`;
  - all rendering.
  These are I/O or presentational.
- async/await ordering, React state batching, and re-running the effect on changes of `[id, searchParams]` are left out. Each handler runs as one sequential step.

## Findings

| source | as written | input that shows it | evidently intended | confidence | as-written member | corrected member |
|---|---|---|---|---|---|---|
| components/NoteCreator.tsx:44-46 | The key text, raw standard Base64, goes unescaped into the `k` query parameter. The viewer's `URLSearchParams` reads it as form-encoded text, where '+' is a space | For ASCII key JSON, a '+' appears only when a '>' or '~' sits at an octet offset of 2 modulo 3 (Base64.BtoaWithoutPlus), because only the last sextet of a group can be 62 and it is that octet modulo 64. For example, "~~~" starting on a group boundary encodes to "fn5+". The viewer receives "fn5 ", and `atob` of it yields "~~", so the JSON no longer parses | The viewer receives the same key text: escaped with `encodeURIComponent` (or a URL-safe encoding) | not executed; latent in practice, because exported key JSON contains neither '>' nor '~' (Base64.BtoaWithoutPlus) | Locator.PlusInKeyIsLost | Locator.ResolveEscapedLink |
| services/cryptoUtils.ts:90-91 | `decryptNote` decodes with `new TextDecoder()`, whose `ignoreBOM` is false, so one leading U+FEFF of the decrypted text is removed | The note "\u{FEFF}hi" passes the blank check, because 'h' is not white space. It is encrypted with its U+FEFF, and the viewer shows "hi" | The viewer shows the note that was encrypted: `new TextDecoder("utf-8", {ignoreBOM: true})` | not executed; affects only notes that begin with U+FEFF | CryptoUtils.LeadingBomIsLost | CryptoUtils.OpenSealedKeepingBom |
