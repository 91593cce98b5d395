/**
 * The add/edit note form: a modal holding the form fields, a submission
 * flag and an error line. A submission is split at its `await`:
 * `BeginSubmit` runs up to the callback call, `FinishSubmit` runs once the
 * callback has settled, and in between the other handlers see
 * `submitting` set.
 */
module AddNotesForm {
  import opened Wrappers
  import opened JsText
  import opened NoteTypes

  const EmptyForm := NoteFormData("", "", [])
  const RequiredMessage := "Title and content are required"
  const SaveFailedMessage := "Failed to save note"

  /** The callback a submission invokes: `onAddNote(formData)` or `onEditNote({ id, ...formData })`. */
  datatype Call = AddCall(data: NoteFormData) | EditCall(edit: EditNoteData)

  /** The submit button's `disabled` attribute, negated. */
  predicate SubmitEnabled(submitting: bool, data: NoteFormData) {
    !submitting && !IsBlank(data.title) && !IsBlank(data.content)
  }

  /** Submitting is possible exactly when idle and both fields hold a non-whitespace character. */
  lemma SubmitEnabledIff(submitting: bool, data: NoteFormData)
    ensures SubmitEnabled(submitting, data) <==> !submitting && HasText(data.title) && HasText(data.content)
  {
    BlankIffNoText(data.title);
    BlankIffNoText(data.content);
  }

  /** Edit mode needs both an `editingNote` and an `onEditNote`; otherwise the form adds. */
  function ChooseCall(editingNote: Option<Note>, hasEditHandler: bool, data: NoteFormData): (c: Call)
    ensures editingNote.Some? && hasEditHandler ==>
      c == EditCall(EditNoteData(editingNote.value.id, data.title, data.content, data.tags))
    ensures !(editingNote.Some? && hasEditHandler) ==> c == AddCall(data)
  {
    if editingNote.Some? && hasEditHandler then
      EditCall(EditNoteData(editingNote.value.id, data.title, data.content, data.tags))
    else
      AddCall(data)
  }

  class NoteForm {
    var isOpen: bool
    var formData: NoteFormData
    var submitting: bool
    var error: Option<JsString>
    /** The `editingNote` prop. */
    var editingNote: Option<Note>
    /** Whether the `onEditNote` and `onCancelEdit` props were given. */
    const hasEditHandler: bool
    const hasCancelHandler: bool

    /**
     * A submission only runs in an open form, and a closed form is empty
     * and shows no error.
     */
    predicate Valid()
      reads this
    {
      && (submitting ==> isOpen)
      && (!isOpen ==> formData == EmptyForm && error == None)
    }

    constructor (hasEditHandler: bool, hasCancelHandler: bool)
      ensures this.hasEditHandler == hasEditHandler && this.hasCancelHandler == hasCancelHandler
      ensures !isOpen && formData == EmptyForm && !submitting && error == None && editingNote == None
      ensures Valid()
    {
      this.hasEditHandler := hasEditHandler;
      this.hasCancelHandler := hasCancelHandler;
      isOpen, formData, submitting, error, editingNote := false, EmptyForm, false, None, None;
    }

    /** A new `editingNote` prop and the effect it triggers: a note pre-fills the form and opens it. */
    method ReceiveEditingNote(note: Option<Note>)
      requires Valid()
      modifies this
      ensures Valid()
      ensures editingNote == note
      ensures note.Some? ==>
        isOpen && formData == NoteFormData(note.value.title, note.value.content, note.value.tags)
      ensures note.None? ==> isOpen == old(isOpen) && formData == old(formData)
      ensures submitting == old(submitting) && error == old(error)
    {
      editingNote := note;
      if note.Some? {
        formData := NoteFormData(note.value.title, note.value.content, note.value.tags);
        isOpen := true;
      }
    }

    /** The "Add New Note" button: rendered only outside edit mode, disabled while `isLoading`. */
    method ClickAddButton(isLoading: bool)
      requires Valid()
      modifies this
      ensures Valid()
      ensures isOpen == (old(isOpen) || (editingNote.None? && !isLoading))
      ensures formData == old(formData) && submitting == old(submitting) && error == old(error)
      ensures editingNote == old(editingNote)
    {
      if editingNote.None? && !isLoading {
        isOpen := true;
      }
    }

    /** Typing in the title input, which exists only in the open form and is disabled while submitting. */
    method ChangeTitle(title: JsString)
      requires Valid() && isOpen
      modifies this
      ensures Valid()
      ensures formData == if old(submitting) then old(formData) else old(formData).(title := title)
      ensures isOpen == old(isOpen) && submitting == old(submitting) && error == old(error)
      ensures editingNote == old(editingNote)
    {
      if !submitting {
        formData := formData.(title := title);
      }
    }

    /** Typing in the content area, which exists only in the open form and is disabled while submitting. */
    method ChangeContent(content: JsString)
      requires Valid() && isOpen
      modifies this
      ensures Valid()
      ensures formData == if old(submitting) then old(formData) else old(formData).(content := content)
      ensures isOpen == old(isOpen) && submitting == old(submitting) && error == old(error)
      ensures editingNote == old(editingNote)
    {
      if !submitting {
        formData := formData.(content := content);
      }
    }

    /** `handleTagsChange`, from the tag input, which exists only in the open form and is disabled while submitting. */
    method ChangeTags(tags: seq<JsString>)
      requires Valid() && isOpen
      modifies this
      ensures Valid()
      ensures formData == if old(submitting) then old(formData) else old(formData).(tags := tags)
      ensures isOpen == old(isOpen) && submitting == old(submitting) && error == old(error)
      ensures editingNote == old(editingNote)
    {
      if !submitting {
        formData := formData.(tags := tags);
      }
    }

    /**
     * `handleSubmit` up to its `await`: a blank title or content sets the
     * error and calls nothing; otherwise the form is marked as submitting
     * and the returned callback is invoked with the form's data.
     */
    method BeginSubmit() returns (call: Option<Call>)
      requires Valid() && isOpen
      modifies this
      ensures Valid()
      ensures formData == old(formData) && isOpen == old(isOpen) && editingNote == old(editingNote)
      ensures IsBlank(formData.title) || IsBlank(formData.content) ==>
        call == None && error == Some(RequiredMessage) && submitting == old(submitting)
      ensures !IsBlank(formData.title) && !IsBlank(formData.content) ==>
        call == Some(ChooseCall(editingNote, hasEditHandler, formData)) && submitting && error == None
      ensures SubmitEnabled(old(submitting), old(formData)) ==> call.Some?
    {
      if IsBlank(formData.title) || IsBlank(formData.content) {
        error := Some(RequiredMessage);
        return None;
      }
      submitting := true;
      error := None;
      call := Some(ChooseCall(editingNote, hasEditHandler, formData));
    }

    /**
     * `resetForm`: empties and closes the form, clears the error, and calls
     * `onCancelEdit` when it was given (reported by `cancelEditCalled`).
     */
    method ResetForm() returns (cancelEditCalled: bool)
      modifies this
      ensures formData == EmptyForm && !isOpen && error == None
      ensures cancelEditCalled == hasCancelHandler
      ensures submitting == old(submitting) && editingNote == old(editingNote)
    {
      formData := EmptyForm;
      isOpen := false;
      error := None;
      cancelEditCalled := hasCancelHandler;
    }

    /**
     * The rest of `handleSubmit` once the callback settled: success resets
     * the form, failure keeps it and shows the error; `submitting` ends false.
     */
    method FinishSubmit(outcome: Result<(), Thrown>) returns (cancelEditCalled: bool)
      requires Valid() && submitting
      modifies this
      ensures Valid()
      ensures !submitting && editingNote == old(editingNote)
      ensures outcome.Ok? ==>
        formData == EmptyForm && !isOpen && error == None && cancelEditCalled == hasCancelHandler
      ensures outcome.Err? ==>
        && formData == old(formData) && isOpen == old(isOpen) && !cancelEditCalled
        && error == Some(MessageOr(outcome.error, SaveFailedMessage))
    {
      cancelEditCalled := false;
      if outcome.Ok? {
        cancelEditCalled := ResetForm();
      } else {
        error := Some(MessageOr(outcome.error, SaveFailedMessage));
      }
      submitting := false;
    }

    /** `closeModal`, from the open form's X and Cancel buttons: no effect while submitting. */
    method CloseModal() returns (cancelEditCalled: bool)
      requires Valid() && isOpen
      modifies this
      ensures Valid()
      ensures submitting == old(submitting) && editingNote == old(editingNote)
      ensures old(submitting) ==>
        !cancelEditCalled && formData == old(formData) && isOpen == old(isOpen) && error == old(error)
      ensures !old(submitting) ==>
        formData == EmptyForm && !isOpen && error == None && cancelEditCalled == hasCancelHandler
    {
      cancelEditCalled := false;
      if !submitting {
        cancelEditCalled := ResetForm();
      }
    }

    /** The Escape key listener, installed while the modal is open. */
    method PressEscape() returns (cancelEditCalled: bool)
      requires Valid()
      modifies this
      ensures Valid()
      ensures submitting == old(submitting) && editingNote == old(editingNote)
      ensures old(submitting) || !old(isOpen) ==>
        !cancelEditCalled && formData == old(formData) && isOpen == old(isOpen) && error == old(error)
      ensures !old(submitting) && old(isOpen) ==>
        formData == EmptyForm && !isOpen && error == None && cancelEditCalled == hasCancelHandler
    {
      cancelEditCalled := false;
      if isOpen && !submitting {
        cancelEditCalled := CloseModal();
      }
    }

    /** `handleBackdropClick`, on the open form's backdrop: only a click on the backdrop itself, and never while submitting, closes. */
    method ClickBackdrop(onBackdrop: bool) returns (cancelEditCalled: bool)
      requires Valid() && isOpen
      modifies this
      ensures Valid()
      ensures submitting == old(submitting) && editingNote == old(editingNote)
      ensures old(submitting) || !onBackdrop ==>
        !cancelEditCalled && formData == old(formData) && isOpen == old(isOpen) && error == old(error)
      ensures !old(submitting) && onBackdrop ==>
        formData == EmptyForm && !isOpen && error == None && cancelEditCalled == hasCancelHandler
    {
      cancelEditCalled := false;
      if onBackdrop && !submitting {
        cancelEditCalled := CloseModal();
      }
    }
  }
}
