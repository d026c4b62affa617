/** types.ts: the record a note is stored as, its plaintext payload, and the
    download formats. */
module Types {
  import opened Wrappers
  import Base64

  /** A stored note: its id, the Base64 IV and ciphertext, and the creation
      time in milliseconds since the epoch. */
  datatype EncryptedNote = EncryptedNote(id: string, iv: string, ciphertext: string, createdAt: int)

  /** The plaintext payload of a note. */
  datatype NoteData = NoteData(content: string)

  /** The download formats, each with the string value of its enum member. */
  datatype DownloadFormat = Txt | Md | Html
  {
    function Tag(): string
    {
      match this
      case Txt => "txt"
      case Md => "md"
      case Html => "html"
    }
  }

  /** The enum member with a given string value. */
  function FormatOfTag(tag: string): (r: Option<DownloadFormat>)
    ensures r.Some? ==> r.value.Tag() == tag
  {
    if tag == "txt" then Some(Txt)
    else if tag == "md" then Some(Md)
    else if tag == "html" then Some(Html)
    else None
  }

  /** The three tags are distinct: each format is recovered from its tag, so
      no two formats share one. */
  lemma TagsDistinct(f: DownloadFormat, g: DownloadFormat)
    ensures FormatOfTag(f.Tag()) == Some(f)
    ensures f.Tag() == g.Tag() ==> f == g
  {
  }

  /** Both encoded fields of a record are Base64 text that decodes. */
  predicate HasBase64Fields(note: EncryptedNote)
  {
    Base64.ForgivingDecode(note.iv).Some? && Base64.ForgivingDecode(note.ciphertext).Some?
  }
}
