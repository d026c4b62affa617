/** The two components together: a note created with `handleEncrypt` and
    opened through the link it produced. */
module Scenarios {
  import opened Wrappers
  import opened Types
  import opened WebCrypto
  import opened CryptoUtils
  import Base64
  import Locator
  import Creator
  import Viewer

  /** JSON text of a key that `btoa` turns into Base64 without '+': nonempty
      and made of ASCII characters other than '>' and '~'. Key objects
      written by JSON.stringify are of this kind. */
  predicate PlusFreeKeyText(s: string)
  {
    s != "" && forall i | 0 <= i < |s| :: s[i] as int < 128 && s[i] != '>' && s[i] != '~'
  }

  /** The Base64 of nonempty text is nonempty. */
  lemma EncodeNonempty(b: seq<Platform.byte>)
    requires b != []
    ensures Base64.Encode(b) != ""
  {
    Base64.EncodeForm(b);
  }

  /** What the viewer does with the stored record once it has read the key
      text of the link back unchanged: it decrypts the original note, less a
      leading U+FEFF. */
  lemma ViewerDecrypts(env: Env, content: string, draws: Creator.Draws, page: Creator.Page,
                       notes: map<string, EncryptedNote>, keyString: string)
    requires Sound(env)
    requires !Creator.IsBlank(content) && draws.storageFits && draws.noteId != ""
    requires Creator.EncryptFlow(env, content, draws, page, notes).Some?
    requires Creator.KeyString(env, NewNoteKey(draws.keyMaterial)).Ok?
    requires keyString == Creator.KeyString(env, NewNoteKey(draws.keyMaterial)).value
    requires keyString != ""
    ensures Viewer.Load(env, Some(draws.noteId), Some(keyString),
                        Creator.EncryptFlow(env, content, draws, page, notes).value.notes)
            == Viewer.Decrypted(StripBom(content))
  {
    var key := NewNoteKey(draws.keyMaterial);
    var jwk := ExportKey(key).value;
    var json := env.stringify(jwk);
    Base64.AtobBtoa(json);
    NoteKeyRoundTrip(draws.keyMaterial);
    assert Viewer.ParseJwk(env, json) == Ok(jwk);
    OpenSealed(env, content, key, draws.iv);
  }

  /** As written: when the key text is free of '+', the link opens the
      viewer on the new id and it shows the note that was encrypted, less a
      leading U+FEFF. */
  lemma CreateThenView(env: Env, content: string, draws: Creator.Draws, page: Creator.Page,
                       notes: map<string, EncryptedNote>)
    requires Sound(env)
    requires !Creator.IsBlank(content) && draws.storageFits
    requires Locator.IsUuidText(draws.noteId)
    requires '#' !in page.origin + page.pathname
    requires PlusFreeKeyText(env.stringify(ExportKey(NewNoteKey(draws.keyMaterial)).value))
    ensures Creator.EncryptFlow(env, content, draws, page, notes).Some?
    ensures var outcome := Creator.EncryptFlow(env, content, draws, page, notes).value;
      && outcome.link.Ok?
      && Locator.Resolve(outcome.link.value).ViewRoute?
      && Locator.Resolve(outcome.link.value).id == draws.noteId
      && Viewer.Load(env, Some(draws.noteId), Locator.Get(Locator.Resolve(outcome.link.value).query, "k"),
                     outcome.notes)
         == Viewer.Decrypted(StripBom(content))
  {
    Creator.BlankGuard(env, content, draws, page, notes);
    var key := NewNoteKey(draws.keyMaterial);
    var json := env.stringify(ExportKey(key).value);
    Base64.BtoaWithoutPlus(json);
    var keyString := Base64.Btoa(json).value;
    var octets := Base64.CharCodes(json);
    Locator.Base64IsQueryText(octets);
    EncodeNonempty(octets);
    Locator.UuidIsValidNoteId(draws.noteId);
    Creator.LinkIffEveryStepSucceeds(env, content, draws, page, notes);
    var outcome := Creator.EncryptFlow(env, content, draws, page, notes).value;
    var link := Locator.Link(page.origin, page.pathname, draws.noteId, keyString);
    assert outcome.link == Ok(link);
    Locator.ResolveLink(page.origin, page.pathname, draws.noteId, keyString);
    Locator.KeyReadBack(page.origin, page.pathname, draws.noteId, keyString);
    assert Locator.Get(Locator.Resolve(link).query, "k") == Some(keyString);
    ViewerDecrypts(env, content, draws, page, notes, keyString);
  }

  /** With the escaped link, the same holds for every key text `btoa`
      accepts: no condition on its characters. */
  lemma CreateThenViewEscaped(env: Env, content: string, draws: Creator.Draws, page: Creator.Page,
                              notes: map<string, EncryptedNote>)
    requires Sound(env)
    requires !Creator.IsBlank(content) && draws.storageFits
    requires Locator.IsUuidText(draws.noteId)
    requires '#' !in page.origin + page.pathname
    requires var json := env.stringify(ExportKey(NewNoteKey(draws.keyMaterial)).value);
      json != "" && Base64.IsBinaryString(json)
    ensures Creator.EncryptFlow(env, content, draws, page, notes).Some?
    ensures var link := Creator.EscapedShareLink(env, NewNoteKey(draws.keyMaterial), draws.noteId, page);
      && link.Ok?
      && Locator.Resolve(link.value).ViewRoute?
      && Locator.Resolve(link.value).id == draws.noteId
      && Viewer.Load(env, Some(draws.noteId), Locator.Get(Locator.Resolve(link.value).query, "k"),
                     Creator.EncryptFlow(env, content, draws, page, notes).value.notes)
         == Viewer.Decrypted(StripBom(content))
  {
    Creator.BlankGuard(env, content, draws, page, notes);
    var key := NewNoteKey(draws.keyMaterial);
    var json := env.stringify(ExportKey(key).value);
    var keyString := Base64.Btoa(json).value;
    var octets := Base64.CharCodes(json);
    Locator.Base64IsQueryText(octets);
    EncodeNonempty(octets);
    Locator.UuidIsValidNoteId(draws.noteId);
    Locator.ResolveEscapedLink(page.origin, page.pathname, draws.noteId, keyString);
    ViewerDecrypts(env, content, draws, page, notes, keyString);
  }
}
