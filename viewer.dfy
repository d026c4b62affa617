/** components/NoteViewer.tsx: the component that reads the note id from the
    route and the key from the query, fetches the record, decrypts it, and
    offers the plaintext for download. */
module Viewer {
  import opened Wrappers
  import opened Platform
  import opened Types
  import opened WebCrypto
  import opened CryptoUtils
  import Base64
  import Locator
  import Storage

  datatype Status = Loading | Decrypting | Success | Error

  const KeyMissingMessage: string := "Decryption key missing from URL."
  const NotFoundMessage: string := "Note not found or has been deleted."
  const DecryptFailedMessage: string := "Decryption failed. The key may be invalid or data corrupted."

  /** How one run of `loadAndDecrypt` ends: it returned at once for want of
      an id, it found no key text, it found no record, something in the
      `try` block threw, or it decrypted the note. */
  datatype LoadResult = Skipped | KeyMissing | NotFound | Failed(cause: DomError) | Decrypted(plaintext: string)

  /** `JSON.parse(text)` read as a key object; SyntaxError when it throws. */
  function ParseJwk(env: Env, text: string): Result<Jwk, DomError>
  {
    match env.parse(text)
    case None => Err(SyntaxError)
    case Some(jwk) => Ok(jwk)
  }

  /** Steps 3 and 4: `atob` of the key text, `JSON.parse`, `importKey`, and
      `decryptNote` on the record's fields. */
  function Unlock(env: Env, keyStringB64: string, note: EncryptedNote): Result<string, DomError>
  {
    var json :- Base64.Atob(keyStringB64);
    var jwk :- ParseJwk(env, json);
    var key :- ImportNoteKey(jwk);
    OpenNote(env, note.ciphertext, note.iv, key)
  }

  /** `!x` for an optional string: absent or empty. */
  predicate Falsy(x: Option<string>)
  {
    x.None? || x.value == ""
  }

  /** The checks of `loadAndDecrypt`, in their order: route id, key text,
      record, then import and decryption. */
  function Load(env: Env, id: Option<string>, k: Option<string>, notes: map<string, EncryptedNote>): LoadResult
  {
    if Falsy(id) then Skipped
    else if Falsy(k) then KeyMissing
    else if id.value !in notes then NotFound
    else match Unlock(env, k.value, notes[id.value])
      case Err(e) => Failed(e)
      case Ok(text) => Decrypted(text)
  }

  /** The values given to `setStatus`, in order. */
  function StatusSteps(r: LoadResult): seq<Status>
  {
    match r
    case Skipped => []
    case KeyMissing => [Error]
    case NotFound => [Error]
    case Failed(_) => [Decrypting, Error]
    case Decrypted(_) => [Decrypting, Success]
  }

  /** The value given to `setErrorMsg`, if any. */
  function ErrorMessage(r: LoadResult): Option<string>
  {
    match r
    case KeyMissing => Some(KeyMissingMessage)
    case NotFound => Some(NotFoundMessage)
    case Failed(_) => Some(DecryptFailedMessage)
    case _ => None
  }

  /** What `handleDownload` puts in the Blob and the anchor. */
  datatype Download = Download(content: string, mimeType: string, extension: string, filename: string)

  const HtmlHead: string := "<!DOCTYPE html><html><body><pre>"
  const HtmlTail: string := "</pre></body></html>"

  /** The download for `format`; None when there is no decrypted content.
      The id is interpolated as "undefined" when the route gave none. */
  function DownloadFor(format: DownloadFormat, decryptedContent: Option<string>, id: Option<string>): Option<Download>
  {
    if Falsy(decryptedContent) then None
    else
      var text := decryptedContent.value;
      var idText := if id.Some? then id.value else "undefined";
      var (content, mimeType, extension) :=
        match format
        case Html => (HtmlHead + text + HtmlTail, "text/html", "html")
        case Md => (text, "text/markdown", "md")
        case Txt => (text, "text/plain", "txt");
      Some(Download(content, mimeType, extension, "secure-note-" + idText + "." + extension))
  }

  /** The component's state. `id` and `searchParams` come from the router;
      `statusTrace` records every status the component has shown. */
  class NoteViewer {
    const id: Option<string>
    const searchParams: seq<(string, string)>
    var decryptedContent: Option<string>
    var status: Status
    var errorMsg: string
    ghost var statusTrace: seq<Status>

    constructor (id: Option<string>, searchParams: seq<(string, string)>)
      ensures this.id == id && this.searchParams == searchParams
      ensures decryptedContent == None && status == Loading && errorMsg == ""
      ensures statusTrace == [Loading]
    {
      this.id := id;
      this.searchParams := searchParams;
      decryptedContent := None;
      status := Loading;
      errorMsg := "";
      statusTrace := [Loading];
    }

    /** `searchParams.get('k')`. */
    function KeyParam(): Option<string>
    {
      Locator.Get(searchParams, "k")
    }

    /** `loadAndDecrypt`: the status steps through `StatusSteps` of the
        result, the message is the result's, and the content is set only
        when the note decrypted. */
    method LoadAndDecrypt(env: Env, store: Storage.NoteStore)
      modifies this
      ensures var r := Load(env, id, KeyParam(), store.notes);
        && statusTrace == old(statusTrace) + StatusSteps(r)
        && status == (if r.Skipped? then old(status) else StatusSteps(r)[|StatusSteps(r)| - 1])
        && errorMsg == (if ErrorMessage(r).Some? then ErrorMessage(r).value else old(errorMsg))
        && decryptedContent == (if r.Decrypted? then Some(r.plaintext) else old(decryptedContent))
    {
      if Falsy(id) {
        return;
      }
      var keyStringB64 := Locator.Get(searchParams, "k");
      if Falsy(keyStringB64) {
        status := Error;
        statusTrace := statusTrace + [Error];
        errorMsg := KeyMissingMessage;
        return;
      }
      var note := store.Lookup(id.value);
      if note.None? {
        status := Error;
        statusTrace := statusTrace + [Error];
        errorMsg := NotFoundMessage;
        return;
      }
      status := Decrypting;
      statusTrace := statusTrace + [Decrypting];
      var plainText := DecryptStored(env, keyStringB64.value, note.value);
      if plainText.Err? {
        status := Error;
        statusTrace := statusTrace + [Error];
        errorMsg := DecryptFailedMessage;
        return;
      }
      decryptedContent := Some(plainText.value);
      status := Success;
      statusTrace := statusTrace + [Success];
    }

    /** `handleDownload`: the Blob content, its type and the file name. */
    method HandleDownload(format: DownloadFormat) returns (download: Option<Download>)
      ensures download == DownloadFor(format, decryptedContent, id)
    {
      if Falsy(decryptedContent) {
        return None;
      }
      var content := decryptedContent.value;
      var mimeType := "text/plain";
      var extension := "txt";
      if format == Html {
        content := HtmlHead + decryptedContent.value + HtmlTail;
        mimeType := "text/html";
        extension := "html";
      } else if format == Md {
        mimeType := "text/markdown";
        extension := "md";
      }
      var idText := if id.Some? then id.value else "undefined";
      download := Some(Download(content, mimeType, extension, "secure-note-" + idText + "." + extension));
    }
  }

  /** The `try` block after the status turns to decrypting. */
  method DecryptStored(env: Env, keyStringB64: string, note: EncryptedNote) returns (r: Result<string, DomError>)
    ensures r == Unlock(env, keyStringB64, note)
  {
    var json :- Base64.Atob(keyStringB64);
    var jwk :- ParseJwk(env, json);
    var cryptoKey :- ImportNoteKey(jwk);
    r := DecryptNote(env, note.ciphertext, note.iv, cryptoKey);
  }

  // ---------------------------------------------------------------- lemmas

  /** Without a key in the URL the result does not depend on the store: the
      store is not read. */
  lemma KeyMissingIgnoresStore(env: Env, id: Option<string>, k: Option<string>,
                               notes: map<string, EncryptedNote>, others: map<string, EncryptedNote>)
    requires !Falsy(id) && Falsy(k)
    ensures Load(env, id, k, notes) == KeyMissing
    ensures Load(env, id, k, notes) == Load(env, id, k, others)
  {
  }

  /** The outcomes and the checks that select them, in both directions. */
  lemma LoadCases(env: Env, id: Option<string>, k: Option<string>, notes: map<string, EncryptedNote>)
    ensures Load(env, id, k, notes).Skipped? <==> Falsy(id)
    ensures Load(env, id, k, notes).KeyMissing? <==> !Falsy(id) && Falsy(k)
    ensures Load(env, id, k, notes).NotFound? <==> !Falsy(id) && !Falsy(k) && id.value !in notes
    ensures Load(env, id, k, notes).Decrypted? <==>
      !Falsy(id) && !Falsy(k) && id.value in notes && Unlock(env, k.value, notes[id.value]).Ok?
  {
  }

  /** An unknown id is an error before decryption starts. */
  lemma NotFoundNeverDecrypts(r: LoadResult)
    requires r.NotFound? || r.KeyMissing? || r.Skipped?
    ensures Decrypting !in StatusSteps(r)
  {
  }

  /** Every failure after the record is found, whatever threw, shows the one
      generic message and no text. */
  lemma OneMessageForEveryFailure(env: Env, id: Option<string>, k: Option<string>, notes: map<string, EncryptedNote>)
    requires !Falsy(id) && !Falsy(k) && id.value in notes
    requires Unlock(env, k.value, notes[id.value]).Err?
    ensures ErrorMessage(Load(env, id, k, notes)) == Some(DecryptFailedMessage)
    ensures !Load(env, id, k, notes).Decrypted?
  {
  }

  /** Text is shown only when the key text decoded, parsed and imported as an
      AES-GCM key, and AES-GCM verified the record under it. */
  lemma DecryptedOnlyWhenVerified(env: Env, keyStringB64: string, note: EncryptedNote)
    ensures Unlock(env, keyStringB64, note).Ok? <==>
      && Base64.Atob(keyStringB64).Ok?
      && var jwk := ParseJwk(env, Base64.Atob(keyStringB64).value);
      && jwk.Ok?
      && var key := ImportNoteKey(jwk.value);
      && key.Ok?
      && OpenNote(env, note.ciphertext, note.iv, key.value).Ok?
    ensures Unlock(env, keyStringB64, note).Ok? ==>
      var key := ImportNoteKey(ParseJwk(env, Base64.Atob(keyStringB64).value).value).value;
      Unlock(env, keyStringB64, note).value == OpenNote(env, note.ciphertext, note.iv, key).value
  {
  }

  /** From the initial state, every run follows loading -> error, or
      loading -> decrypting -> success | error, or stays loading. */
  lemma StatusMachine(r: LoadResult)
    ensures var trace := [Loading] + StatusSteps(r);
      || trace == [Loading]
      || trace == [Loading, Error]
      || trace == [Loading, Decrypting, Success]
      || trace == [Loading, Decrypting, Error]
    ensures Success in StatusSteps(r) <==> r.Decrypted?
  {
  }

  /** The format mapping: the HTML download wraps the text, the other two
      keep it; the extension is the format's own tag, so it names the format
      again; the file name is built from the id and the extension. */
  lemma DownloadMapping(format: DownloadFormat, text: string, id: string)
    requires text != ""
    ensures DownloadFor(format, Some(text), Some(id)).Some?
    ensures var d := DownloadFor(format, Some(text), Some(id)).value;
      && d.extension == format.Tag() && FormatOfTag(d.extension) == Some(format)
      && d.filename == "secure-note-" + id + "." + format.Tag()
      && (format == Html ==> d.content == HtmlHead + text + HtmlTail && d.mimeType == "text/html")
      && (format == Md ==> d.content == text && d.mimeType == "text/markdown")
      && (format == Txt ==> d.content == text && d.mimeType == "text/plain")
  {
    TagsDistinct(format, format);
  }

  /** Nothing to download before a note decrypted, or for an empty one. */
  lemma NoDownloadWithoutContent(format: DownloadFormat, content: Option<string>, id: Option<string>)
    ensures DownloadFor(format, content, id).None? <==> Falsy(content)
  {
  }
}
