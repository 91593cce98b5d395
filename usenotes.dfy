/**
 * The `useNotes` hook: the front end's copy of the notes and tags, changed
 * only after a server call has answered. Each server call is a parameter
 * holding what it returned or what it threw.
 */
module UseNotes {
  import opened Wrappers
  import opened JsText
  import opened TagSort
  import opened NoteTypes

  /** The `updatedAt` field as it arrives: missing, the empty string, or a time. */
  datatype ApiStamp = Absent | EmptyText | Stamp(millis: int)

  /** A note as the service sends it. */
  datatype ApiNote = ApiNote(
    id: NoteId,
    title: JsString,
    content: JsString,
    tags: seq<JsString>,
    createdAt: int,
    updatedAt: ApiStamp)

  /** `convertApiNoteToNote`: `updatedAt` falls back to `createdAt` when it is missing or empty. */
  function ConvertApiNote(a: ApiNote): (n: Note)
    ensures n.id == a.id && n.title == a.title && n.content == a.content && n.tags == a.tags
    ensures n.createdAt == a.createdAt
    ensures a.updatedAt.Stamp? ==> n.updatedAt == a.updatedAt.millis
    ensures !a.updatedAt.Stamp? ==> n.updatedAt == a.createdAt
  {
    Note(a.id, a.title, a.content, a.tags, a.createdAt,
         if a.updatedAt.Stamp? then a.updatedAt.millis else a.createdAt)
  }

  /** `notesData.map(convertApiNoteToNote)`. */
  function ConvertAll(s: seq<ApiNote>): (r: seq<Note>)
    ensures |r| == |s|
    ensures forall i :: 0 <= i < |s| ==> r[i] == ConvertApiNote(s[i])
  {
    seq(|s|, i requires 0 <= i < |s| => ConvertApiNote(s[i]))
  }

  /** `prev.map(note => note.id === id ? replacement : note)`. */
  function ReplaceById(notes: seq<Note>, id: NoteId, replacement: Note): (r: seq<Note>)
    ensures |r| == |notes|
    ensures forall i :: 0 <= i < |notes| && notes[i].id == id ==> r[i] == replacement
    ensures forall i :: 0 <= i < |notes| && notes[i].id != id ==> r[i] == notes[i]
  {
    if notes == [] then []
    else [if notes[0].id == id then replacement else notes[0]] + ReplaceById(notes[1..], id, replacement)
  }

  /** `prev.filter(note => note.id !== id)`. */
  function RemoveById(notes: seq<Note>, id: NoteId): (r: seq<Note>)
    ensures |r| <= |notes|
    ensures forall n :: n in r <==> n in notes && n.id != id
  {
    if notes == [] then []
    else if notes[0].id == id then RemoveById(notes[1..], id)
    else [notes[0]] + RemoveById(notes[1..], id)
  }

  /** Removing by id keeps the survivors in order: it works piece by piece. */
  lemma {:induction false} RemoveByIdSplits(a: seq<Note>, b: seq<Note>, id: NoteId)
    ensures RemoveById(a + b, id) == RemoveById(a, id) + RemoveById(b, id)
  {
    if a != [] {
      assert (a + b)[1..] == a[1..] + b;
      RemoveByIdSplits(a[1..], b, id);
    } else {
      assert a + b == b;
    }
  }

  /** A list with no note of that id comes back unchanged. */
  lemma {:induction false} RemoveByIdAbsent(notes: seq<Note>, id: NoteId)
    requires forall i :: 0 <= i < |notes| ==> notes[i].id != id
    ensures RemoveById(notes, id) == notes
  {
    if notes != [] {
      RemoveByIdAbsent(notes[1..], id);
      assert notes == [notes[0]] + notes[1..];
    }
  }

  /** `submitted.filter(tag => !tags.includes(tag))`: repeats among the submitted tags survive. */
  function NewTags(submitted: seq<JsString>, tags: seq<JsString>): (r: seq<JsString>)
    ensures forall t :: t in r <==> t in submitted && t !in tags
    ensures forall t :: t !in tags ==> multiset(r)[t] == multiset(submitted)[t]
  {
    if submitted == [] then []
    else
      assert submitted == [submitted[0]] + submitted[1..];
      var rest := NewTags(submitted[1..], tags);
      if submitted[0] in tags then rest else [submitted[0]] + rest
  }

  /**
   * The tag update after an add or an edit: unchanged when every submitted
   * tag is known, otherwise the old tags and the unknown submitted ones,
   * sorted together.
   */
  function MergeTags(tags: seq<JsString>, submitted: seq<JsString>): (r: seq<JsString>)
    ensures (forall t :: t in submitted ==> t in tags) ==> r == tags
    ensures (exists t :: t in submitted && t !in tags) ==>
      Sorted(r) && multiset(r) == multiset(tags) + multiset(NewTags(submitted, tags))
    ensures forall t :: t in r <==> t in tags || t in submitted
  {
    var unknown := NewTags(submitted, tags);
    if |unknown| > 0 then
      var r := Sort(tags + unknown);
      assert forall t :: t in r <==> t in multiset(tags + unknown);
      r
    else
      tags
  }

  /** A new tag submitted k times appears k times after the merge: repeats are not removed. */
  lemma MergeKeepsRepeats(tags: seq<JsString>, submitted: seq<JsString>, t: JsString)
    requires t !in tags
    ensures multiset(MergeTags(tags, submitted))[t] == multiset(submitted)[t]
  {
    if t in submitted {
      assert multiset(tags)[t] == 0;
    } else {
      assert t !in MergeTags(tags, submitted);
    }
  }

  lemma MergeRepeatExample()
    ensures MergeTags([], ["x", "x"]) == ["x", "x"]
  {
    var r := MergeTags([], ["x", "x"]);
    MergeKeepsRepeats([], ["x", "x"], "x");
    assert multiset(["x", "x"])["x"] == 2;
    assert |r| == |multiset(r)| == 2;
    assert r[0] in r && r[1] in r;
  }

  /**
   * Merging repeat-free submitted tags into a server tag list (sorted and
   * repeat-free) yields a list of the same shape.
   */
  lemma MergeKeepsTagListShape(tags: seq<JsString>, submitted: seq<JsString>)
    requires Sorted(tags) && NoDuplicates(tags) && NoDuplicates(submitted)
    ensures Sorted(MergeTags(tags, submitted)) && NoDuplicates(MergeTags(tags, submitted))
  {
    var unknown := NewTags(submitted, tags);
    if |unknown| > 0 {
      NoDuplicatesMultiset(tags);
      NoDuplicatesMultiset(submitted);
      var both := tags + unknown;
      forall i, j | 0 <= i < j < |both| ensures both[i] != both[j] {
        EqualEntriesCountTwice(both, i, j);
        assert both[i] in tags || both[i] in unknown;
      }
      SortKeepsNoDuplicates(both);
    }
  }

  datatype ActionLoading = ActionLoading(add: bool, edit: bool, delete: bool)

  /** How an action ends for its caller: normally, or rethrowing what the server call threw. */
  datatype Completion = Completed | Rethrown(thrown: Thrown)

  class NotesCache {
    var notes: seq<Note>
    var tags: seq<JsString>
    var loading: bool
    var error: Option<JsString>
    var actionLoading: ActionLoading

    /** The hook's initial state, before the mount effect's fetch answers. */
    constructor ()
      ensures notes == [] && tags == [] && loading && error == None
      ensures actionLoading == ActionLoading(false, false, false)
    {
      notes, tags, loading, error := [], [], true, None;
      actionLoading := ActionLoading(false, false, false);
    }

    /** Both lists replaced on success; on failure they stay and `error` is set. */
    method FetchAll(reply: Result<(seq<ApiNote>, seq<JsString>), Thrown>, fallback: JsString)
      modifies this
      ensures !loading && actionLoading == old(actionLoading)
      ensures reply.Ok? ==> notes == ConvertAll(reply.value.0) && tags == reply.value.1 && error == None
      ensures reply.Err? ==>
        notes == old(notes) && tags == old(tags) && error == Some(MessageOr(reply.error, fallback))
    {
      loading := true;
      error := None;
      match reply {
        case Ok((notesData, tagsData)) =>
          notes := ConvertAll(notesData);
          tags := tagsData;
        case Err(err) =>
          error := Some(MessageOr(err, fallback));
      }
      loading := false;
    }

    /** The mount effect `loadData`. */
    method LoadData(reply: Result<(seq<ApiNote>, seq<JsString>), Thrown>)
      modifies this
      ensures !loading && actionLoading == old(actionLoading)
      ensures reply.Ok? ==> notes == ConvertAll(reply.value.0) && tags == reply.value.1 && error == None
      ensures reply.Err? ==>
        notes == old(notes) && tags == old(tags) && error == Some(MessageOr(reply.error, "Failed to load data"))
    {
      FetchAll(reply, "Failed to load data");
    }

    /** `refreshData`: never rethrows. */
    method RefreshData(reply: Result<(seq<ApiNote>, seq<JsString>), Thrown>)
      modifies this
      ensures !loading && actionLoading == old(actionLoading)
      ensures reply.Ok? ==> notes == ConvertAll(reply.value.0) && tags == reply.value.1 && error == None
      ensures reply.Err? ==>
        notes == old(notes) && tags == old(tags) && error == Some(MessageOr(reply.error, "Failed to refresh data"))
    {
      FetchAll(reply, "Failed to refresh data");
    }

    /**
     * `addNote`; `reply` is what `createNote(noteData)` returned or threw.
     * `during` is the flag record while that call is pending.
     */
    method AddNote(noteData: NoteFormData, reply: Result<ApiNote, Thrown>)
      returns (completion: Completion, ghost during: ActionLoading)
      modifies this
      ensures during == old(actionLoading).(add := true)
      ensures actionLoading == old(actionLoading).(add := false) && loading == old(loading)
      ensures reply.Ok? ==>
        && completion == Completed && error == None
        && notes == [ConvertApiNote(reply.value)] + old(notes)
        && tags == MergeTags(old(tags), noteData.tags)
      ensures reply.Err? ==>
        && completion == Rethrown(reply.error)
        && notes == old(notes) && tags == old(tags)
        && error == Some(MessageOr(reply.error, "Failed to add note"))
    {
      actionLoading := actionLoading.(add := true);
      error := None;
      during := actionLoading;
      match reply {
        case Ok(newNote) =>
          notes := [ConvertApiNote(newNote)] + notes;
          tags := MergeTags(tags, noteData.tags);
          completion := Completed;
        case Err(err) =>
          error := Some(MessageOr(err, "Failed to add note"));
          completion := Rethrown(err);
      }
      actionLoading := actionLoading.(add := false);
    }

    /** `editNote`; `reply` is what `updateNote(editData.id, ...)` returned or threw. */
    method EditNote(editData: EditNoteData, reply: Result<ApiNote, Thrown>)
      returns (completion: Completion, ghost during: ActionLoading)
      modifies this
      ensures during == old(actionLoading).(edit := true)
      ensures actionLoading == old(actionLoading).(edit := false) && loading == old(loading)
      ensures reply.Ok? ==>
        && completion == Completed && error == None
        && notes == ReplaceById(old(notes), editData.id, ConvertApiNote(reply.value))
        && tags == MergeTags(old(tags), editData.tags)
      ensures reply.Err? ==>
        && completion == Rethrown(reply.error)
        && notes == old(notes) && tags == old(tags)
        && error == Some(MessageOr(reply.error, "Failed to edit note"))
    {
      actionLoading := actionLoading.(edit := true);
      error := None;
      during := actionLoading;
      match reply {
        case Ok(updatedNote) =>
          notes := ReplaceById(notes, editData.id, ConvertApiNote(updatedNote));
          tags := MergeTags(tags, editData.tags);
          completion := Completed;
        case Err(err) =>
          error := Some(MessageOr(err, "Failed to edit note"));
          completion := Rethrown(err);
      }
      actionLoading := actionLoading.(edit := false);
    }

    /**
     * `deleteNote`: `deleteReply` answers `deleteNote(id)`; only after it
     * succeeds is the tag list fetched again, answered by `tagsReply`.
     * When that second call fails the note has already left `notes`.
     */
    method DeleteNote(id: NoteId, deleteReply: Result<(), Thrown>, tagsReply: Result<seq<JsString>, Thrown>)
      returns (completion: Completion, ghost during: ActionLoading)
      modifies this
      ensures during == old(actionLoading).(delete := true)
      ensures actionLoading == old(actionLoading).(delete := false) && loading == old(loading)
      ensures deleteReply.Err? ==>
        && completion == Rethrown(deleteReply.error)
        && notes == old(notes) && tags == old(tags)
        && error == Some(MessageOr(deleteReply.error, "Failed to delete note"))
      ensures deleteReply.Ok? ==> notes == RemoveById(old(notes), id)
      ensures deleteReply.Ok? && tagsReply.Ok? ==>
        completion == Completed && error == None && tags == tagsReply.value
      ensures deleteReply.Ok? && tagsReply.Err? ==>
        && completion == Rethrown(tagsReply.error)
        && tags == old(tags)
        && error == Some(MessageOr(tagsReply.error, "Failed to delete note"))
    {
      actionLoading := actionLoading.(delete := true);
      error := None;
      during := actionLoading;
      if deleteReply.Err? {
        error := Some(MessageOr(deleteReply.error, "Failed to delete note"));
        completion := Rethrown(deleteReply.error);
      } else {
        notes := RemoveById(notes, id);
        match tagsReply {
          case Ok(updatedTags) =>
            tags := updatedTags;
            completion := Completed;
          case Err(err) =>
            error := Some(MessageOr(err, "Failed to delete note"));
            completion := Rethrown(err);
        }
      }
      actionLoading := actionLoading.(delete := false);
    }
  }
}
