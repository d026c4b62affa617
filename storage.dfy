/** The note store: the JSON object under the localStorage key
    'ciphernotes', which maps note ids to stored records. It is kept here as
    the map it parses to. */
module Storage {
  import opened Wrappers
  import opened Platform
  import opened Types

  /** Every record is stored under its own id. */
  predicate WellKeyed(notes: map<string, EncryptedNote>)
  {
    forall id | id in notes :: notes[id].id == id
  }

  class NoteStore {
    var notes: map<string, EncryptedNote>

    constructor (initial: map<string, EncryptedNote>)
      ensures notes == initial
    {
      notes := initial;
    }

    /** `store[id]`: the record, or undefined. */
    function Lookup(id: string): (r: Option<EncryptedNote>)
      reads this
      ensures r.Some? <==> id in notes
      ensures r.Some? ==> r.value == notes[id]
    {
      if id in notes then Some(notes[id]) else None
    }

    /** `localStorage.setItem('ciphernotes', JSON.stringify(updated))`:
        QuotaExceededError, and nothing stored, when the browser refuses the
        write (`fits` is false). */
    method SetItem(updated: map<string, EncryptedNote>, fits: bool) returns (r: Result<(), DomError>)
      modifies this
      ensures fits ==> r == Ok(()) && notes == updated
      ensures !fits ==> r == Err(QuotaExceededError) && notes == old(notes)
    {
      if !fits {
        return Err(QuotaExceededError);
      }
      notes := updated;
      r := Ok(());
    }
  }
}
