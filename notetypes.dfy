/**
 * The front end's shared shapes. Their declaring file (types/Notes.ts) is
 * not part of this model; the fields are the ones the hook and the
 * components read and write.
 */
module NoteTypes {
  import opened JsText

  type NoteId = JsString

  /** A note as the front end holds it; `Date` values become milliseconds. */
  datatype Note = Note(
    id: NoteId,
    title: JsString,
    content: JsString,
    tags: seq<JsString>,
    createdAt: int,
    updatedAt: int)

  /** What the form edits and submits. */
  datatype NoteFormData = NoteFormData(title: JsString, content: JsString, tags: seq<JsString>)

  /** `{ id } & NoteFormData`, the argument of an edit. */
  datatype EditNoteData = EditNoteData(id: NoteId, title: JsString, content: JsString, tags: seq<JsString>)

  /** A value a failing call throws: an `Error` object or anything else. */
  datatype Thrown = ErrorObject(message: JsString) | OtherValue

  /** `err instanceof Error ? err.message : fallback`. */
  function MessageOr(err: Thrown, fallback: JsString): (m: JsString)
    ensures err.ErrorObject? ==> m == err.message
    ensures err.OtherValue? ==> m == fallback
  {
    match err
    case ErrorObject(message) => message
    case OtherValue => fallback
  }
}
