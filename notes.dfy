/**
 * The note record and its validation rule (internals/storage/abstract.go).
 *
 * A string field holding "" counts as unset.  Company, BirthDate and ImageID are
 * pointers in the Go struct: `None` stands for a nil pointer, so an absent value
 * is distinct from a present empty string.
 */
module Notes {
  import opened Wrappers

  datatype Note = Note(
    id: string,
    name: string,
    company: Option<string>,
    phone: string,
    mail: string,
    birthDate: Option<string>,
    imageId: Option<string>)

  /** True when the mandatory fields Name, Phone and Mail are all set. */
  function VerifyNote(n: Note): (ok: bool)
    ensures n.name == "" || n.phone == "" || n.mail == "" ==> !ok
    ensures n.name != "" && n.phone != "" && n.mail != "" ==> ok
  {
    if n.name == "" || n.phone == "" || n.mail == "" then false else true
  }

  /** Validation looks at Name, Phone and Mail only: ID and the optional fields never matter. */
  lemma VerifyNoteIgnoresOtherFields(n: Note, id: string, company: Option<string>,
                                     birthDate: Option<string>, imageId: Option<string>)
    ensures VerifyNote(n.(id := id, company := company, birthDate := birthDate, imageId := imageId))
         == VerifyNote(n)
  {
  }
}
