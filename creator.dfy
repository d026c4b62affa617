/** components/NoteCreator.tsx: the component that encrypts a note, stores
    its record and shows the shareable link. */
module Creator {
  import opened Wrappers
  import opened Platform
  import opened Types
  import opened WebCrypto
  import opened CryptoUtils
  import Base64
  import Locator
  import Storage

  // -------------------------------------------------- String.prototype.trim

  /** The characters `trim` removes: the WhiteSpace and LineTerminator code
      points of ECMAScript (section 12.2 and 12.3 of ECMA-262). */
  predicate IsTrimmable(c: char)
  {
    var u := c as int;
    || u == 0x09 || u == 0x0B || u == 0x0C || u == 0x20 || u == 0xA0 || u == 0xFEFF
    || u == 0x1680 || 0x2000 <= u <= 0x200A || u == 0x202F || u == 0x205F || u == 0x3000
    || u == 0x0A || u == 0x0D || u == 0x2028 || u == 0x2029
  }

  predicate IsBlank(s: string)
  {
    forall i | 0 <= i < |s| :: IsTrimmable(s[i])
  }

  function TrimStart(s: string): (r: string)
    ensures r != "" ==> !IsTrimmable(r[0])
    decreases |s|
  {
    if s != "" && IsTrimmable(s[0]) then TrimStart(s[1..]) else s
  }

  function TrimEnd(s: string): string
    decreases |s|
  {
    if s != "" && IsTrimmable(s[|s| - 1]) then TrimEnd(s[..|s| - 1]) else s
  }

  function Trim(s: string): string
  {
    TrimEnd(TrimStart(s))
  }

  lemma {:induction false} TrimStartBlank(s: string)
    ensures TrimStart(s) == "" <==> IsBlank(s)
    decreases |s|
  {
    if s != "" && IsTrimmable(s[0]) {
      TrimStartBlank(s[1..]);
      assert IsBlank(s) <==> IsBlank(s[1..]) by {
        if IsBlank(s[1..]) {
          forall i | 0 <= i < |s| ensures IsTrimmable(s[i]) {
            if i > 0 { assert s[i] == s[1..][i - 1]; }
          }
        }
        if IsBlank(s) {
          forall i | 0 <= i < |s| - 1 ensures IsTrimmable(s[1..][i]) {
            assert s[1..][i] == s[i + 1];
          }
        }
      }
    }
  }

  lemma {:induction false} TrimEndEmpty(s: string)
    ensures TrimEnd(s) == "" <==> IsBlank(s)
    decreases |s|
  {
    if s != "" && IsTrimmable(s[|s| - 1]) {
      var p := s[..|s| - 1];
      TrimEndEmpty(p);
      assert IsBlank(s) <==> IsBlank(p) by {
        if IsBlank(p) {
          forall i | 0 <= i < |s| ensures IsTrimmable(s[i]) {
            if i < |s| - 1 { assert s[i] == p[i]; }
          }
        }
      }
    }
  }

  /** `!content.trim()` holds exactly for text made only of white space and
      line terminators (the empty text included). */
  lemma TrimEmptyIffBlank(s: string)
    ensures Trim(s) == "" <==> IsBlank(s)
  {
    TrimStartBlank(s);
    var t := TrimStart(s);
    if t != "" {
      assert !IsBlank(t) by {
        assert !IsTrimmable(t[0]);
      }
    }
    TrimEndEmpty(t);
  }

  // --------------------------------------------------- what handleEncrypt does

  /** What the runtime supplies to one run of `handleEncrypt`: the random key
      octets and IV, `crypto.randomUUID()`, `Date.now()`, and whether the
      storage write fits the quota. */
  datatype Draws = Draws(keyMaterial: KeyMaterial, iv: Nonce, noteId: string, now: int, storageFits: bool)

  /** `window.location.origin` and `window.location.pathname`. */
  datatype Page = Page(origin: string, pathname: string)

  /** The store after the attempt, and the link or the exception the `catch`
      received. */
  datatype Outcome = Outcome(notes: map<string, EncryptedNote>, link: Result<string, DomError>)

  /** The key text of the link: `btoa(JSON.stringify(await exportKey(key)))`. */
  function KeyString(env: Env, key: CryptoKey): Result<string, DomError>
  {
    var jwk :- ExportKey(key);
    Base64.Btoa(env.stringify(jwk))
  }

  /** Step 4 of `handleEncrypt`: the link for a stored note. */
  function ShareLink(env: Env, key: CryptoKey, noteId: string, page: Page): Result<string, DomError>
  {
    var keyString :- KeyString(env, key);
    Ok(Locator.Link(page.origin, page.pathname, noteId, keyString))
  }

  /** Step 4 with the key text escaped by `encodeURIComponent`, so that the
      viewer reads it back whatever characters it holds. */
  function EscapedShareLink(env: Env, key: CryptoKey, noteId: string, page: Page): (r: Result<string, DomError>)
    ensures r.Ok? <==> ShareLink(env, key, noteId, page).Ok?
  {
    var keyString :- KeyString(env, key);
    Locator.Base64IsQueryText(Base64.CharCodes(env.stringify(ExportKey(key).value)));
    Ok(Locator.EscapedLink(page.origin, page.pathname, noteId, keyString))
  }

  /** The run of `handleEncrypt` on `content` with store contents `notes`;
      None when the blank guard returns at once. */
  function EncryptFlow(env: Env, content: string, draws: Draws, page: Page,
                       notes: map<string, EncryptedNote>): Option<Outcome>
  {
    if Trim(content) == "" then None
    else
      var key := NewNoteKey(draws.keyMaterial);
      match SealNote(env, content, key, draws.iv)
      case Err(e) => Some(Outcome(notes, Err(e)))
      case Ok(sealed) =>
        var record := EncryptedNote(draws.noteId, sealed.iv, sealed.ciphertext, draws.now);
        if !draws.storageFits then Some(Outcome(notes, Err(QuotaExceededError)))
        else Some(Outcome(notes[draws.noteId := record], ShareLink(env, key, draws.noteId, page)))
  }

  /** The body of the `try` block: key, encryption, record, store write,
      export and link, each failure propagating to the `catch`. */
  method EncryptAndStore(env: Env, content: string, draws: Draws, page: Page, store: Storage.NoteStore)
    returns (r: Result<string, DomError>)
    requires Trim(content) != ""
    modifies store
    ensures EncryptFlow(env, content, draws, page, old(store.notes))
            == Some(Outcome(store.notes, r))
  {
    var key := NewNoteKey(draws.keyMaterial);
    var sealed :- EncryptNote(env, content, key, draws.iv);
    var noteId := draws.noteId;
    var noteData := EncryptedNote(noteId, sealed.iv, sealed.ciphertext, draws.now);
    var existingStore := store.notes;
    existingStore := existingStore[noteId := noteData];
    var written :- store.SetItem(existingStore, draws.storageFits);
    var jwk;
    match ExportKey(key) {
      case Err(e) => return Err(e);
      case Ok(exported) => jwk := exported;
    }
    var keyString :- Base64.Btoa(env.stringify(jwk));
    r := Ok(Locator.Link(page.origin, page.pathname, noteId, keyString));
  }

  /** The component's state. `loadingTrace` records every value given to
      `setIsLoading`, in order. */
  class NoteCreator {
    var content: string
    var isLoading: bool
    var generatedLink: Option<string>
    ghost var loadingTrace: seq<bool>

    constructor ()
      ensures content == "" && !isLoading && generatedLink == None && loadingTrace == []
    {
      content := "";
      isLoading := false;
      generatedLink := None;
      loadingTrace := [];
    }

    /** The text area's `onChange`. */
    method Edit(text: string)
      modifies this
      ensures content == text
      ensures isLoading == old(isLoading) && generatedLink == old(generatedLink)
      ensures loadingTrace == old(loadingTrace)
    {
      content := text;
    }

    /** `handleEncrypt`. A blank note changes nothing. Otherwise the loading
        flag is set and then cleared whatever happens, the store holds what
        the attempt wrote, and the link is set only when every step
        succeeded. */
    method HandleEncrypt(env: Env, draws: Draws, page: Page, store: Storage.NoteStore)
      modifies this, store
      ensures content == old(content)
      ensures EncryptFlow(env, old(content), draws, page, old(store.notes)).None? ==>
        && store.notes == old(store.notes) && isLoading == old(isLoading)
        && generatedLink == old(generatedLink) && loadingTrace == old(loadingTrace)
      ensures EncryptFlow(env, old(content), draws, page, old(store.notes)).Some? ==>
        var outcome := EncryptFlow(env, old(content), draws, page, old(store.notes)).value;
        && store.notes == outcome.notes
        && loadingTrace == old(loadingTrace) + [true, false] && !isLoading
        && generatedLink == (if outcome.link.Ok? then Some(outcome.link.value) else old(generatedLink))
    {
      if Trim(content) == "" {
        return;
      }
      isLoading := true;
      loadingTrace := loadingTrace + [true];
      var result := EncryptAndStore(env, content, draws, page, store);
      if result.Ok? {
        generatedLink := Some(result.value);
      }
      isLoading := false;
      loadingTrace := loadingTrace + [false];
    }

    /** `reset`: back to an empty note and no link. */
    method Reset()
      modifies this
      ensures content == "" && generatedLink == None
      ensures isLoading == old(isLoading) && loadingTrace == old(loadingTrace)
    {
      content := "";
      generatedLink := None;
    }
  }

  // ---------------------------------------------------------------- lemmas

  /** The guard: blank text means no key, no store write and no link. */
  lemma BlankGuard(env: Env, content: string, draws: Draws, page: Page, notes: map<string, EncryptedNote>)
    ensures EncryptFlow(env, content, draws, page, notes).None? <==> IsBlank(content)
  {
    TrimEmptyIffBlank(content);
  }

  /** The only entry the attempt may change is the new id's, and the record
      stored there carries that id and decodable Base64 fields, the IV field
      holding exactly the 12 octets drawn. */
  lemma StoreFrame(env: Env, content: string, draws: Draws, page: Page, notes: map<string, EncryptedNote>)
    requires EncryptFlow(env, content, draws, page, notes).Some?
    ensures var after := EncryptFlow(env, content, draws, page, notes).value.notes;
      && (forall k | k != draws.noteId :: (k in after <==> k in notes) && (k in notes ==> after[k] == notes[k]))
      && (after != notes ==> draws.noteId in after && after[draws.noteId].id == draws.noteId)
  {
  }

  lemma StoredRecord(env: Env, content: string, draws: Draws, page: Page, notes: map<string, EncryptedNote>)
    requires EncryptFlow(env, content, draws, page, notes).Some?
    requires draws.storageFits
    ensures var after := EncryptFlow(env, content, draws, page, notes).value.notes;
      && draws.noteId in after
      && after[draws.noteId].id == draws.noteId && after[draws.noteId].createdAt == draws.now
      && HasBase64Fields(after[draws.noteId])
      && Base64.ForgivingDecode(after[draws.noteId].iv) == Some(draws.iv)
  {
    var key := NewNoteKey(draws.keyMaterial);
    var sealed := SealNote(env, content, key, draws.iv).value;
    DecodeEncodeBytes(draws.iv);
    DecodeEncodeBytes(env.seal(key.material, draws.iv, env.encodeUtf8(content)));
  }

  /** Every record stays under its own id. */
  lemma KeepsWellKeyed(env: Env, content: string, draws: Draws, page: Page, notes: map<string, EncryptedNote>)
    requires Storage.WellKeyed(notes)
    requires EncryptFlow(env, content, draws, page, notes).Some?
    ensures Storage.WellKeyed(EncryptFlow(env, content, draws, page, notes).value.notes)
  {
    StoreFrame(env, content, draws, page, notes);
  }

  /** The link is produced exactly when the write fits and the JSON text of
      the key is a binary string (`btoa` rejects anything else), and it is
      the link of NoteCreator.tsx for the fresh id and that key text. */
  lemma LinkIffEveryStepSucceeds(env: Env, content: string, draws: Draws, page: Page, notes: map<string, EncryptedNote>)
    requires EncryptFlow(env, content, draws, page, notes).Some?
    ensures var key := NewNoteKey(draws.keyMaterial);
      var json := env.stringify(ExportKey(key).value);
      var outcome := EncryptFlow(env, content, draws, page, notes).value;
      && ExportKey(key).Ok?
      && (outcome.link.Ok? <==> draws.storageFits && Base64.IsBinaryString(json))
      && (outcome.link.Ok? ==>
            outcome.link.value == Locator.Link(page.origin, page.pathname, draws.noteId, Base64.Btoa(json).value))
  {
  }

  /** The store write comes before the export: when `btoa` rejects the key
      text, the record is stored and yet there is no link. */
  lemma WriteBeforeExport(env: Env, content: string, draws: Draws, page: Page, notes: map<string, EncryptedNote>)
    requires EncryptFlow(env, content, draws, page, notes).Some?
    requires EncryptFlow(env, content, draws, page, notes).value.link.Err?
    requires draws.storageFits
    ensures draws.noteId in EncryptFlow(env, content, draws, page, notes).value.notes
    ensures EncryptFlow(env, content, draws, page, notes).value.link == Err(InvalidCharacterError)
  {
  }
}
